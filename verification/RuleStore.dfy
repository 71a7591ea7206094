/**
 The rule-mode management state: rules in memory, in load order, and a copy on disk. A request holds the lock from its
 checks to its write, so requests are atomic; a write may succeed, fail before the file is touched, or fail after.
 */
module RuleStore {
  import opened Basics
  import opened Rules

  /** The file: a list of rules, or something that does not load. */
  datatype File = Listing(rules: seq<Rule>) | Unloadable

  /** How a write ends. Opening truncates: later failures leave a proper prefix, nothing loadable, or the new rules. */
  datatype Write = Written | NotOpened | Torn(kept: nat) | TornUnloadable | PermissionsFail

  datatype Request = Demote(id: string, write: Write) | Promote(id: string, write: Write)

  datatype Response = Ok(previous: Mode, current: Mode) | NotFound | Conflict | ServerError

  predicate HasId(rules: seq<Rule>, id: string) { exists i :: 0 <= i < |rules| && rules[i].id == id }

  function IndexOf(rules: seq<Rule>, id: string): (i: nat)
    requires HasId(rules, id)
    ensures i < |rules| && rules[i].id == id && forall j | 0 <= j < i :: rules[j].id != id
  {
    if rules[0].id == id then 0
    else
      assert HasId(rules[1..], id) by {
        var i :| 0 <= i < |rules| && rules[i].id == id;
        assert rules[1..][i - 1] == rules[i];
      }
      assert forall j | 0 < j < |rules| :: rules[j] == rules[1..][j - 1];
      1 + IndexOf(rules[1..], id)
  }

  /** Inserting into an insertion-ordered dictionary: a known id keeps its place and takes the new value. */
  function Insert(rules: seq<Rule>, r: Rule): seq<Rule> {
    if HasId(rules, r.id) then rules[IndexOf(rules, r.id) := r] else rules + [r]
  }

  /** Loading a listing into a dictionary, item by item. */
  function Load(listing: seq<Rule>): seq<Rule> {
    if listing == [] then [] else Insert(Load(listing[..|listing| - 1]), listing[|listing| - 1])
  }

  ghost predicate Distinct(rules: seq<Rule>) { forall i, j | 0 <= i < j < |rules| :: rules[i].id != rules[j].id }

  lemma {:induction false} InsertKeepsDistinct(rules: seq<Rule>, r: Rule)
    requires Distinct(rules)
    ensures Distinct(Insert(rules, r))
  {
  }

  lemma {:induction false} LoadIsDistinct(listing: seq<Rule>)
    ensures Distinct(Load(listing))
  {
    if listing != [] {
      LoadIsDistinct(listing[..|listing| - 1]);
      InsertKeepsDistinct(Load(listing[..|listing| - 1]), listing[|listing| - 1]);
    }
  }

  /** Inserting makes the id known with the new rule, and touches no other id. */
  lemma {:induction false} InsertMeaning(rules: seq<Rule>, r: Rule)
    requires Distinct(rules)
    ensures r in Insert(rules, r) && HasId(Insert(rules, r), r.id)
    ensures forall q | q in Insert(rules, r) :: q == r || (q in rules && q.id != r.id)
    ensures forall q | q in rules && q.id != r.id :: q in Insert(rules, r)
    ensures forall id | HasId(rules, id) :: HasId(Insert(rules, r), id)
  {
    var after := Insert(rules, r);
    if HasId(rules, r.id) {
      assert after[IndexOf(rules, r.id)] == r;
    } else {
      assert after[|rules|] == r;
    }
    forall i | 0 <= i < |rules| && rules[i].id != r.id
      ensures after[i] == rules[i]
    {
    }
    forall id | HasId(rules, id)
      ensures HasId(after, id)
    {
      var i :| 0 <= i < |rules| && rules[i].id == id;
      assert after[i].id == id;
    }
  }

  /** Loading keeps, for every id of the listing, the last rule with it, and nothing else. */
  lemma {:induction false} LoadMeaning(listing: seq<Rule>, k: nat)
    requires k < |listing|
    ensures HasId(Load(listing), listing[k].id)
    ensures (forall j | k < j < |listing| :: listing[j].id != listing[k].id) ==> listing[k] in Load(listing)
  {
    var n := |listing| - 1;
    var init, last := listing[..n], listing[n];
    LoadIsDistinct(init);
    InsertMeaning(Load(init), last);
    assert Load(listing) == Insert(Load(init), last);
    hide HasId, Insert, Distinct, IndexOf, Load;
    if k < n {
      LoadMeaning(init, k);
    }
  }

  /** A new id goes last, a known one keeps its place. */
  lemma {:induction false} LoadOrder(listing: seq<Rule>, r: Rule)
    ensures !HasId(Load(listing), r.id) ==> Load(listing + [r]) == Load(listing) + [r]
    ensures HasId(Load(listing), r.id) ==>
              var i := IndexOf(Load(listing), r.id);
              |Load(listing + [r])| == |Load(listing)| && Load(listing + [r])[i] == r
              && forall j | 0 <= j < |Load(listing)| && j != i :: Load(listing + [r])[j] == Load(listing)[j]
  {
    assert (listing + [r])[..|listing|] == listing;
  }

  /** What was dumped from a dictionary loads back as it was. */
  lemma {:induction false} LoadInvertsDump(rules: seq<Rule>)
    requires Distinct(rules)
    ensures Load(rules) == rules
  {
    if rules != [] {
      var init, last := rules[..|rules| - 1], rules[|rules| - 1];
      assert Distinct(init) && !HasId(init, last.id);
      hide Distinct, HasId, IndexOf;
      LoadInvertsDump(init);
      assert rules == init + [last];
    }
  }

  // ----- the state machine

  datatype State = State(memory: seq<Rule>, disk: File)

  /** Reloading the file would give exactly the rules in memory. */
  ghost predicate InSync(s: State) { s.disk.Listing? && Load(s.disk.rules) == s.memory }

  function DiskAfter(disk: File, rules: seq<Rule>, w: Write): File {
    match w
    case Written => Listing(rules)
    case PermissionsFail => Listing(rules)
    case NotOpened => disk
    case Torn(kept) => if 0 < kept < |rules| then Listing(rules[..kept]) else Unloadable
    case TornUnloadable => Unloadable
  }

  function TargetMode(q: Request): Mode { if q.Demote? then Shadow else Active }

  /** One request: missing and already-switched rules are refused, a failed write is rolled back in memory only. */
  function Handle(s: State, q: Request): (State, Response) {
    if !HasId(s.memory, q.id) then (s, NotFound)
    else
      var i := IndexOf(s.memory, q.id);
      var rule := s.memory[i];
      if rule.mode == TargetMode(q) then (s, Conflict)
      else
        var changed := s.memory[i := rule.(mode := TargetMode(q))];
        var disk := DiskAfter(s.disk, changed, q.write);
        if q.write == Written then (State(changed, disk), Ok(rule.mode, TargetMode(q)))
        else (State(s.memory, disk), ServerError)
  }

  /** 404 for an unknown id, 409 in the wanted mode already, else 200 with both modes or 500 by how the write ends. */
  lemma {:induction false} ResponseMeaning(s: State, q: Request)
    ensures var response, wanted := Handle(s, q).1, if q.Demote? then Shadow else Active;
            && (response == NotFound <==> forall r | r in s.memory :: r.id != q.id)
            && (HasId(s.memory, q.id) ==>
                  var mode := s.memory[IndexOf(s.memory, q.id)].mode;
                  && (response == Conflict <==> mode == wanted)
                  && (mode != wanted ==>
                        response == if q.write == Written then Ok(if q.Demote? then Active else Shadow, wanted)
                                    else ServerError))
  {
    if r :| r in s.memory && r.id == q.id {
      var i :| 0 <= i < |s.memory| && s.memory[i] == r;
      assert HasId(s.memory, q.id);
    }
  }

  predicate Tears(w: Write) { w != Written && w != NotOpened }

  /** The named rule exists in the other mode, so the request gets as far as writing. */
  predicate Attempts(s: State, q: Request) {
    HasId(s.memory, q.id) && s.memory[IndexOf(s.memory, q.id)].mode != TargetMode(q)
  }

  predicate Corrupts(s: State, q: Request) { Attempts(s, q) && Tears(q.write) }
  predicate Rewrites(s: State, q: Request) { Attempts(s, q) && q.write == Written }

  lemma {:induction false} DistinctUnderUpdate(rules: seq<Rule>, i: nat, r: Rule)
    requires Distinct(rules) && i < |rules| && r.id == rules[i].id
    ensures Distinct(rules[i := r])
  {
  }

  lemma {:induction false} LoadIsNotLonger(listing: seq<Rule>)
    ensures |Load(listing)| <= |listing|
  {
    if listing != [] {
      LoadIsNotLonger(listing[..|listing| - 1]);
    }
  }

  /** A write keeps disk and memory in agreement exactly when it succeeds, or leaves an agreeing file alone. */
  lemma {:induction false} WriteSyncExactly(memory: seq<Rule>, disk: File, changed: seq<Rule>, w: Write)
    requires Distinct(changed) && |changed| == |memory| && changed != memory
    ensures InSync(State(if w == Written then changed else memory, DiskAfter(disk, changed, w))) <==>
            w == Written || (w == NotOpened && InSync(State(memory, disk)))
  {
    LoadInvertsDump(changed);
    hide Distinct;
    if w.Torn? && 0 < w.kept < |changed| {
      LoadIsNotLonger(changed[..w.kept]);
    }
    hide Load;
  }

  /** Disk and memory agree after a request exactly when it wrote the file, or they did before and it tore nothing. */
  lemma {:induction false} StepSyncExactly(s: State, q: Request)
    requires Distinct(s.memory)
    ensures Distinct(Handle(s, q).0.memory)
    ensures InSync(Handle(s, q).0) <==> Rewrites(s, q) || (InSync(s) && !Corrupts(s, q))
  {
    if Attempts(s, q) {
      var i := IndexOf(s.memory, q.id);
      var changed := s.memory[i := s.memory[i].(mode := TargetMode(q))];
      DistinctUnderUpdate(s.memory, i, changed[i]);
      assert changed[i] != s.memory[i];
      WriteSyncExactly(s.memory, s.disk, changed, q.write);
    }
    hide Distinct, InSync, DiskAfter;
  }

  function Run(s: State, qs: seq<Request>): State {
    if qs == [] then s else Handle(Run(s, qs[..|qs| - 1]), qs[|qs| - 1]).0
  }

  lemma {:induction false} RunSnoc(s: State, qs: seq<Request>, q: Request)
    ensures Run(s, qs + [q]) == Handle(Run(s, qs), q).0
  {
    assert (qs + [q])[..|qs|] == qs;
    hide Handle;
  }

  function ResponseAt(s: State, qs: seq<Request>, i: nat): Response
    requires i < |qs|
  {
    Handle(Run(s, qs[..i]), qs[i]).1
  }

  /** Request `i` left the file torn, and no later request has rewritten it. */
  ghost predicate TornSince(s: State, qs: seq<Request>, i: nat)
    requires i < |qs|
  {
    && Corrupts(Run(s, qs[..i]), qs[i])
    && forall j | i < j < |qs| :: !Rewrites(Run(s, qs[..j]), qs[j])
  }

  /** Over every run from a loaded state, reloading gives the rules in memory exactly when no tear is unrepaired. */
  lemma {:induction false} RunSyncExactly(s: State, qs: seq<Request>)
    requires InSync(s)
    ensures Distinct(Run(s, qs).memory)
    ensures InSync(Run(s, qs)) <==> !exists i: nat :: i < |qs| && TornSince(s, qs, i)
  {
    LoadIsDistinct(s.disk.rules);
    if qs != [] {
      var n := |qs| - 1;
      var init := qs[..n];
      RunSyncExactly(s, init);
      StepSyncExactly(Run(s, init), qs[n]);
      forall i: nat | i < n
        ensures TornSince(s, qs, i) <==> TornSince(s, init, i) && !Rewrites(Run(s, init), qs[n])
      {
        TornSinceStep(s, qs, i);
      }
      assert TornSince(s, qs, n) <==> Corrupts(Run(s, init), qs[n]);
    }
  }

  lemma {:induction false} TornSinceStep(s: State, qs: seq<Request>, i: nat)
    requires i < |qs| - 1
    ensures TornSince(s, qs, i) <==>
            TornSince(s, qs[..|qs| - 1], i) && !Rewrites(Run(s, qs[..|qs| - 1]), qs[|qs| - 1])
  {
    hide Handle, Run, Attempts;
    var n := |qs| - 1;
    var init := qs[..n];
    assert init[..i] == qs[..i];
    assert forall j | i < j < n :: init[..j] == qs[..j] && init[j] == qs[j];
  }

  /** With all-or-nothing writes the copy never goes stale. */
  lemma {:induction false} AtomicWritesStayInSync(s: State, qs: seq<Request>)
    requires InSync(s) && forall i | 0 <= i < |qs| :: !Tears(qs[i].write)
    ensures InSync(Run(s, qs))
  {
    RunSyncExactly(s, qs);
  }

  /** A permission error after the dump leaves the new mode on disk and the old one in memory. */
  lemma {:induction false} LatePermissionErrorDiverges(s: State, id: string)
    requires InSync(s) && HasId(s.memory, id) && s.memory[IndexOf(s.memory, id)].mode == Active
    ensures var (t, response) := Handle(s, Demote(id, PermissionsFail));
            && response == ServerError && t.memory == s.memory && t.disk.Listing?
            && var i := IndexOf(s.memory, id);
               Load(t.disk.rules) == s.memory[i := s.memory[i].(mode := Shadow)] != t.memory
  {
    var i := IndexOf(s.memory, id);
    var changed := s.memory[i := s.memory[i].(mode := Shadow)];
    LoadIsDistinct(s.disk.rules);
    DistinctUnderUpdate(s.memory, i, changed[i]);
    LoadInvertsDump(changed);
    hide Load, Distinct, HasId, IndexOf;
    assert changed[i] != s.memory[i];
  }

  /** A request changes at most the named rule's mode, and nothing else about any rule. */
  lemma {:induction false} OnlyTheNamedModeChanges(s: State, q: Request)
    ensures var t := Handle(s, q).0;
            && |t.memory| == |s.memory|
            && (forall i | 0 <= i < |s.memory| ::
                  t.memory[i] == s.memory[i]
                  || (&& s.memory[i].id == q.id && Handle(s, q).1.Ok?
                      && t.memory[i] == s.memory[i].(mode := TargetMode(q))))
  {
  }

  // ----- successes alternate

  function ModeOf(rules: seq<Rule>, id: string): Option<Mode> {
    if HasId(rules, id) then Some(rules[IndexOf(rules, id)].mode) else None
  }

  predicate Succeeds(s: State, qs: seq<Request>, i: nat, id: string)
    requires i < |qs|
  {
    qs[i].id == id && ResponseAt(s, qs, i).Ok?
  }

  lemma {:induction false} ModeAfterStep(s: State, q: Request, id: string)
    ensures ModeOf(Handle(s, q).0.memory, id) ==
            if q.id == id && Handle(s, q).1.Ok? then Some(TargetMode(q)) else ModeOf(s.memory, id)
    ensures Handle(s, q).1.Ok? ==> ModeOf(s.memory, q.id).Some? && ModeOf(s.memory, q.id) != Some(TargetMode(q))
  {
    OnlyTheNamedModeChanges(s, q);
    var t := Handle(s, q).0;
    SameIds(s.memory, t.memory, id);
    SameIds(s.memory, t.memory, q.id);
  }

  lemma {:induction false} SameIds(a: seq<Rule>, b: seq<Rule>, id: string)
    requires |a| == |b| && forall i | 0 <= i < |a| :: a[i].id == b[i].id
    ensures HasId(a, id) <==> HasId(b, id)
    ensures HasId(a, id) ==> IndexOf(a, id) == IndexOf(b, id)
  {
    forall k | 0 <= k < |a|
      ensures a[k].id == id ==> HasId(a, id) && HasId(b, id)
    {
      assert a[k].id == b[k].id;
    }
  }

  /** Between two requests no success touched the rule, so its mode is what the first left. */
  lemma {:induction false} ModeIsStable(s: State, qs: seq<Request>, i: nat, j: nat, id: string)
    requires i < j <= |qs| && Succeeds(s, qs, i, id) && forall k | i < k < j :: !Succeeds(s, qs, k, id)
    ensures ModeOf(Run(s, qs[..j]).memory, id) == Some(TargetMode(qs[i]))
    decreases j
  {
    hide Succeeds, ModeOf, Run;
    ModeAfter(s, qs, j - 1, id);
    if i < j - 1 {
      ModeIsStable(s, qs, i, j - 1, id);
    }
  }

  lemma {:induction false} ModeAfter(s: State, qs: seq<Request>, j: nat, id: string)
    requires j < |qs|
    ensures ModeOf(Run(s, qs[..j + 1]).memory, id) ==
            if Succeeds(s, qs, j, id) then Some(TargetMode(qs[j])) else ModeOf(Run(s, qs[..j]).memory, id)
  {
    hide Handle, ModeOf, Run;
    assert qs[..j + 1] == qs[..j] + [qs[j]];
    RunSnoc(s, qs[..j], qs[j]);
    ModeAfterStep(Run(s, qs[..j]), qs[j], id);
  }

  /** Of two consecutive successes on one rule, one demotes and the other promotes. */
  lemma {:induction false} SuccessesAlternate(s: State, qs: seq<Request>, i: nat, j: nat, id: string)
    requires i < j < |qs| && Succeeds(s, qs, i, id) && Succeeds(s, qs, j, id)
    requires forall k | i < k < j :: !Succeeds(s, qs, k, id)
    ensures qs[i].Demote? <==> qs[j].Promote?
  {
    ModeIsStable(s, qs, i, j, id);
    ModeAfterStep(Run(s, qs[..j]), qs[j], id);
  }

  // ----- the API object

  class Api {
    var rules: seq<Rule>
    var disk: File
    ghost var start: State
    ghost var requests: seq<Request>

    ghost predicate Valid()
      reads this
    {
      InSync(start) && State(rules, disk) == Run(start, requests) && Distinct(rules)
    }

    /** Loads the rules at startup. */
    constructor (listing: seq<Rule>)
      ensures Valid() && disk == Listing(listing) && rules == Load(listing) && requests == []
    {
      rules, disk := Load(listing), Listing(listing);
      start, requests := State(Load(listing), Listing(listing)), [];
      new;
      LoadIsDistinct(listing);
    }

    method ChangeMode(q: Request) returns (response: Response)
      requires Valid()
      modifies this`rules, this`disk, this`requests
      ensures Valid() && requests == old(requests) + [q]
      ensures response == Handle(old(State(rules, disk)), q).1
      ensures (forall i | 0 <= i < |requests| :: !Tears(requests[i].write)) ==> InSync(State(rules, disk))
    {
      hide Handle, Run, Distinct, InSync, Tears, Attempts, Rewrites, Corrupts, TargetMode;
      ghost var before := State(rules, disk);
      ChangeKeepsRun(start, requests, before, q);
      response := Answer(q);
      requests := requests + [q];
    }

    lemma {:induction false} ChangeKeepsRun(start: State, qs: seq<Request>, before: State, q: Request)
      requires InSync(start) && before == Run(start, qs) && Distinct(before.memory)
      ensures Handle(before, q).0 == Run(start, qs + [q]) && Distinct(Handle(before, q).0.memory)
      ensures var all := qs + [q];
              (forall i | 0 <= i < |all| :: !Tears(all[i].write)) ==> InSync(Handle(before, q).0)
    {
      hide Handle, Run, Distinct, InSync, Tears;
      StepSyncExactly(before, q);
      RunSnoc(start, qs, q);
      if forall i | 0 <= i < |qs + [q]| :: !Tears((qs + [q])[i].write) {
        AtomicWritesStayInSync(start, qs + [q]);
      }
    }

    /** The handler's body, under the lock: the mode is switched back in memory when the write fails. */
    method Answer(q: Request) returns (response: Response)
      modifies this`rules, this`disk
      ensures (State(rules, disk), response) == Handle(old(State(rules, disk)), q)
    {
      if !HasId(rules, q.id) {
        return NotFound;
      }
      var i := IndexOf(rules, q.id);
      hide HasId, IndexOf, DiskAfter;
      var previous := rules[i].mode;
      if previous == TargetMode(q) {
        return Conflict;
      }
      rules := rules[i := rules[i].(mode := TargetMode(q))];
      disk := DiskAfter(disk, rules, q.write);
      if q.write == Written {
        response := Ok(previous, TargetMode(q));
      } else {
        rules := rules[i := rules[i].(mode := previous)];
        assert rules == old(rules);
        response := ServerError;
      }
    }
  }
}
