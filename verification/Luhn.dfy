/** The Luhn check (Annex B of ISO/IEC 7812-1): validation, completion, and which errors it detects. */
module Luhn {
  type Digit = d: int | 0 <= d < 10

  /** A digit's contribution: at odd positions from the right it is doubled, and 9 is taken off a two-digit double. */
  function Weight(d: Digit, doubled: bool): int {
    if !doubled then d else if 2 * d > 9 then 2 * d - 9 else 2 * d
  }

  /** The sum of the contributions, where the last digit has position `p` from the right. */
  function Sum(digits: seq<Digit>, p: nat): int {
    if digits == [] then 0
    else Weight(digits[|digits| - 1], p % 2 == 1) + Sum(digits[..|digits| - 1], p + 1)
  }

  predicate IsValid(digits: seq<Digit>) { Sum(digits, 0) % 10 == 0 }

  function Reversed(s: seq<Digit>): (r: seq<Digit>)
    ensures |r| == |s| && forall i | 0 <= i < |r| :: r[i] == s[|s| - 1 - i]
  {
    seq(|s|, i requires 0 <= i < |s| => s[|s| - 1 - i])
  }

  lemma {:induction false} SumSplit(a: seq<Digit>, b: seq<Digit>, p: nat)
    ensures Sum(a + b, p) == Sum(b, p) + Sum(a, p + |b|)
  {
    if b == [] {
      assert a + b == a;
    } else {
      var n := |b| - 1;
      assert (a + b)[..|a + b| - 1] == a + b[..n];
      SumSplit(a, b[..n], p + 1);
    }
  }

  /** One digit further to the left adds its contribution. */
  lemma {:induction false} SumStep(digits: seq<Digit>, k: nat, p: nat)
    requires 0 < k <= |digits|
    ensures Sum(digits[k - 1..], p) == Sum(digits[k..], p) + Weight(digits[k - 1], (p + |digits| - k) % 2 == 1)
  {
    var one := [digits[k - 1]];
    assert digits[k - 1..] == one + digits[k..];
    SumSplit(one, digits[k..], p);
    assert one[..0] == [];
  }

  /** The validation loop over the reversed string. */
  method LuhnValid(digits: seq<Digit>) returns (valid: bool)
    ensures valid <==> IsValid(digits)
  {
    assert Sum([], 0) == 0 && Sum([], 1) == 0;
    hide Sum;
    var total := 0;
    var reverse := Reversed(digits);
    for i := 0 to |reverse|
      invariant total == Sum(digits[|digits| - i..], 0)
    {
      var n: int := reverse[i];
      if i % 2 == 1 {
        n := n * 2;
        if n > 9 {
          n := n - 9;
        }
      }
      SumStep(digits, |digits| - i, 0);
      total := total + n;
    }
    assert digits[0..] == digits;
    return total % 10 == 0;
  }

  /** The completion loop: doubles every second digit starting from the last, and appends what is missing to ten. */
  method LuhnComplete(partial: seq<Digit>) returns (full: seq<Digit>)
    ensures full == partial + [CheckDigit(partial)]
    ensures IsValid(full)
  {
    assert Sum([], 0) == 0 && Sum([], 1) == 0;
    hide Sum;
    var total := 0;
    var reverse := Reversed(partial);
    for i := 0 to |reverse|
      invariant total == Sum(partial[|partial| - i..], 1)
    {
      var d: int := reverse[i];
      if i % 2 == 0 {
        d := d * 2;
        if d > 9 {
          d := d - 9;
        }
      }
      SumStep(partial, |partial| - i, 1);
      total := total + d;
    }
    assert partial[0..] == partial;
    CheckDigitIsUnique(partial, CheckDigit(partial));
    full := partial + [(10 - total % 10) % 10];
  }

  function CheckDigit(partial: seq<Digit>): Digit { (10 - Sum(partial, 1) % 10) % 10 }

  /** Completing a string of any length with a digit makes it valid exactly when it is the computed check digit. */
  lemma {:induction false} CheckDigitIsUnique(partial: seq<Digit>, d: Digit)
    ensures IsValid(partial + [d]) <==> d == CheckDigit(partial)
  {
    SumSplit(partial, [d], 0);
    assert [d][..0] == [];
    assert Sum(partial + [d], 0) == Sum(partial, 1) + d;
    ComplementIsUnique(Sum(partial, 1), d);
    hide Sum;
  }

  lemma {:induction false} ComplementIsUnique(sum: int, d: Digit)
    ensures (sum + d) % 10 == 0 <==> d == (10 - sum % 10) % 10
  {
  }

  /** A doubled digit contributes the sum of the decimal digits of its double. */
  lemma {:induction false} WeightIsDigitSum(d: Digit)
    ensures Weight(d, false) == d && Weight(d, true) == (2 * d) / 10 + (2 * d) % 10
  {
  }

  /** Zeros weigh nothing, so a string of zeros is valid at every length. */
  lemma {:induction false} ZerosAreValid(digits: seq<Digit>, p: nat)
    requires forall i | 0 <= i < |digits| :: digits[i] == 0
    ensures Sum(digits, p) == 0 && IsValid(digits)
  {
    if digits != [] {
      ZerosAreValid(digits[..|digits| - 1], p + 1);
      ZerosAreValid(digits[..|digits| - 1], 1);
    }
  }

  /** The digit before the last is doubled, the last is not. */
  lemma {:induction false} TwoDigits(d: Digit, e: Digit)
    ensures IsValid([d, e]) <==> ((2 * d) / 10 + (2 * d) % 10 + e) % 10 == 0
  {
    SumSplit([d], [e], 0);
    SumOfOne(e, 0);
    SumOfOne(d, 1);
    WeightIsDigitSum(d);
    WeightIsDigitSum(e);
    assert [d] + [e] == [d, e];
    hide Sum, Weight;
  }

  // ----- error detection

  /** The contribution of a digit determines it modulo ten, at either parity. */
  lemma {:induction false} WeightIsInjective(d: Digit, e: Digit, doubled: bool)
    ensures (Weight(d, doubled) - Weight(e, doubled)) % 10 == 0 <==> d == e
  {
  }

  lemma {:induction false} SumOfOne(d: Digit, p: nat)
    ensures Sum([d], p) == Weight(d, p % 2 == 1)
  {
    assert [d][..0] == [];
  }

  lemma {:induction false} SumAt(digits: seq<Digit>, k: nat, d: Digit)
    requires k < |digits|
    ensures var doubled := (|digits| - 1 - k) % 2 == 1;
            Sum(digits[k := d], 0) == Sum(digits, 0) - Weight(digits[k], doubled) + Weight(d, doubled)
  {
    var a, b := digits[..k], digits[k + 1..];
    assert digits == a + ([digits[k]] + b) && digits[k := d] == a + ([d] + b);
    hide Sum, Weight;
    SumAround(a, digits[k], b);
    SumAround(a, d, b);
  }

  lemma {:induction false} SumAround(a: seq<Digit>, d: Digit, b: seq<Digit>)
    ensures Sum(a + ([d] + b), 0) == Sum(b, 0) + Weight(d, |b| % 2 == 1) + Sum(a, |b| + 1)
  {
    SumOfOne(d, |b|);
    hide Sum, Weight;
    SumSplit(a, [d] + b, 0);
    SumSplit([d], b, 0);
  }

  /** Changing any one digit of a valid string makes it invalid. */
  lemma {:induction false} SingleErrorIsDetected(digits: seq<Digit>, k: nat, d: Digit)
    requires IsValid(digits) && k < |digits|
    ensures IsValid(digits[k := d]) <==> d == digits[k]
  {
    SumAt(digits, k, d);
    WeightIsInjective(d, digits[k], (|digits| - 1 - k) % 2 == 1);
    var diff := Weight(d, (|digits| - 1 - k) % 2 == 1) - Weight(digits[k], (|digits| - 1 - k) % 2 == 1);
    ModOfSum(Sum(digits, 0), diff);
  }

  lemma {:induction false} ModOfSum(valid: int, diff: int)
    requires valid % 10 == 0
    ensures (valid + diff) % 10 == 0 <==> diff % 10 == 0
  {
  }

  /** How two adjacent digits contribute in one order against the other. */
  lemma {:induction false} SwapDifference(x: Digit, y: Digit, doubled: bool)
    ensures (Weight(y, doubled) + Weight(x, !doubled) - Weight(x, doubled) - Weight(y, !doubled)) % 10 == 0
            <==> x == y || {x, y} == {0, 9}
  {
    SetOfTwo(x, y);
  }

  lemma {:induction false} SetOfTwo(x: int, y: int)
    ensures {x, y} == {0, 9} <==> (x == 0 && y == 9) || (x == 9 && y == 0)
  {
    if {x, y} == {0, 9} {
      assert x in {x, y} && y in {x, y} && 0 in {x, y} && 9 in {x, y};
    }
  }

  /** Swapping two adjacent digits of a valid string goes unnoticed exactly when they are equal or are 0 and 9. */
  lemma {:induction false} AdjacentSwapDetectedExactly(digits: seq<Digit>, k: nat)
    requires IsValid(digits) && k + 1 < |digits|
    ensures var swapped := digits[k := digits[k + 1]][k + 1 := digits[k]];
            IsValid(swapped) <==> digits[k] == digits[k + 1] || {digits[k], digits[k + 1]} == {0, 9}
  {
    var x, y := digits[k], digits[k + 1];
    var doubled := (|digits| - 1 - k) % 2 == 1;
    SwapSum(digits, k);
    SwapDifference(x, y, doubled);
    ModOfSum(Sum(digits, 0), Weight(y, doubled) + Weight(x, !doubled) - Weight(x, doubled) - Weight(y, !doubled));
  }

  lemma {:induction false} SwapSum(digits: seq<Digit>, k: nat)
    requires k + 1 < |digits|
    ensures var x, y, doubled := digits[k], digits[k + 1], (|digits| - 1 - k) % 2 == 1;
            Sum(digits[k := y][k + 1 := x], 0) ==
            Sum(digits, 0) + (Weight(y, doubled) + Weight(x, !doubled) - Weight(x, doubled) - Weight(y, !doubled))
  {
    hide Sum, Weight;
    SumAt(digits, k, digits[k + 1]);
    SumAt(digits[k := digits[k + 1]], k + 1, digits[k]);
  }

  // ----- card numbers

  datatype PanError = NonDigit | BadLength | CheckFailed
  datatype PanResult = Parts(bin6: seq<Digit>, last4: seq<Digit>) | Invalid(error: PanError)

  /** A character of a card number: a digit, a separator (white space or hyphen), or anything else. */
  datatype Symbol = Numeral(d: Digit) | Separator | Stray

  function Stripped(pan: seq<Symbol>): seq<Symbol> {
    if pan == [] then [] else (if pan[0] == Separator then [] else [pan[0]]) + Stripped(pan[1..])
  }

  /** Stripping goes symbol by symbol and takes out the separators only. */
  lemma {:induction false} StrippedMeaning(pan: seq<Symbol>, x: Symbol)
    ensures Stripped([]) == [] && Stripped(pan + [x]) == Stripped(pan) + if x.Separator? then [] else [x]
  {
    if pan != [] {
      StrippedMeaning(pan[1..], x);
      assert (pan + [x])[1..] == pan[1..] + [x];
    } else {
      assert [x][1..] == [] && [] + [x] == [x];
    }
  }

  predicate AllDigits(s: seq<Symbol>) { s != [] && forall i | 0 <= i < |s| :: s[i].Numeral? }

  function Digits(s: seq<Symbol>): (d: seq<Digit>)
    requires AllDigits(s)
    ensures |d| == |s| && forall i | 0 <= i < |d| :: d[i] == s[i].d
  {
    seq(|s|, i requires 0 <= i < |s| => s[i].d)
  }

  method ExtractPanParts(pan: seq<Symbol>) returns (r: PanResult)
    ensures var s := Stripped(pan);
            && (r == Invalid(NonDigit) <==> s == [] || exists x :: x in s && !x.Numeral?)
            && (r == Invalid(BadLength) <==> AllDigits(s) && |s| !in {15, 16})
            && (r == Invalid(CheckFailed) <==> AllDigits(s) && |s| in {15, 16} && !IsValid(Digits(s)))
            && (r.Parts? ==> AllDigits(s) && r.bin6 == Digits(s)[..6] && r.last4 == Digits(s)[|s| - 4..])
  {
    var s := Stripped(pan);
    if !AllDigits(s) {
      return Invalid(NonDigit);
    }
    if |s| != 15 && |s| != 16 {
      return Invalid(BadLength);
    }
    var digits := Digits(s);
    var ok := LuhnValid(digits);
    if !ok {
      return Invalid(CheckFailed);
    }
    return Parts(digits[..6], digits[|digits| - 4..]);
  }
}
