/**
 The Luhn check of internal/privacy/detector.go, the check-digit formula of ISO/IEC 7812-1
 Annex B: which errors in an accepted number it detects.
 */
module Luhn {

  predicate IsDigit(c: char) { '0' <= c <= '9' }

  ghost predicate AllDigits(ds: seq<int>) {
    forall i :: 0 <= i < |ds| ==> 0 <= ds[i] <= 9
  }

  /** The digits of a text, everything else left out. */
  function DigitsOf(card: string): (ds: seq<int>)
    ensures forall i :: 0 <= i < |ds| ==> 0 <= ds[i] <= 9
  {
    if card == "" then []
    else
      DigitsOf(card[..|card| - 1])
      + if IsDigit(card[|card| - 1]) then [card[|card| - 1] as int - '0' as int] else []
  }

  /** A doubled digit, with 9 taken off when it has two places. */
  function Doubled(d: int): int {
    if 2 * d > 9 then 2 * d - 9 else 2 * d
  }

  /** The first of `n` digits is doubled: every second one from the right. */
  predicate IsDoubled(n: int) { n % 2 == 0 }

  /** The contribution of the first of `n` digits. */
  function Weighed(d: int, n: nat): int {
    if IsDoubled(n) then Doubled(d) else d
  }

  function LuhnSum(ds: seq<int>): int {
    if ds == [] then 0 else Weighed(ds[0], |ds|) + LuhnSum(ds[1..])
  }

  predicate Accepted(ds: seq<int>) {
    13 <= |ds| <= 19 && LuhnSum(ds) % 10 == 0
  }

  method ExtractDigits(card: string) returns (digits: seq<int>)
    ensures digits == DigitsOf(card)
  {
    digits := [];
    var k := 0;
    while k < |card|
      invariant 0 <= k <= |card| && digits == DigitsOf(card[..k])
    {
      assert card[..k + 1][..k] == card[..k];
      if IsDigit(card[k]) {
        digits := digits + [card[k] as int - '0' as int];
      }
      k := k + 1;
    }
    assert card[..k] == card;
  }

  method ValidateLuhn(card: string) returns (ok: bool)
    ensures ok <==> Accepted(DigitsOf(card))
  {
    var digits := ExtractDigits(card);
    if |digits| < 13 || |digits| > 19 {
      return false;
    }
    var sum := ChecksumFromRight(digits);
    ok := sum % 10 == 0;
  }

  lemma SumFrom(ds: seq<int>, i: nat)
    requires i < |ds|
    ensures LuhnSum(ds[i..]) == Weighed(ds[i], |ds| - i) + LuhnSum(ds[i + 1..])
  {
  }

  lemma NoDigitsSum(ds: seq<int>)
    ensures LuhnSum(ds[|ds|..]) == 0
  {
  }

  lemma Alternates(n: int)
    ensures IsDoubled(n + 1) <==> !IsDoubled(n)
    ensures !IsDoubled(1)
  {
  }

  method ChecksumFromRight(digits: seq<int>) returns (sum: int)
    ensures sum == LuhnSum(digits)
  {
    hide LuhnSum, IsDoubled;
    var alternate := false;
    sum := 0;
    NoDigitsSum(digits);
    Alternates(0);
    var i := |digits| - 1;
    while i >= 0
      invariant -1 <= i < |digits|
      invariant alternate <==> IsDoubled(|digits| - i)
      invariant sum == LuhnSum(digits[i + 1..])
    {
      var n := digits[i];
      if alternate {
        n := n * 2;
        if n > 9 {
          n := n - 9;
        }
      }
      assert n == Weighed(digits[i], |digits| - i);
      SumFrom(digits, i);
      Alternates(|digits| - i);
      sum := sum + n;
      alternate := !alternate;
      i := i - 1;
    }
    assert digits[0..] == digits;
  }

  // ----- The formula, by positions

  /** What digit `i` of a number adds: at every second place from the right, the digit sum of its double. */
  function Contribution(ds: seq<int>, i: nat): int
    requires i < |ds|
  {
    if (|ds| - 1 - i) % 2 == 1 then 2 * ds[i] / 10 + 2 * ds[i] % 10 else ds[i]
  }

  function ContributionsFrom(ds: seq<int>, i: nat): int
    requires i <= |ds|
    decreases |ds| - i
  {
    if i == |ds| then 0 else Contribution(ds, i) + ContributionsFrom(ds, i + 1)
  }

  lemma DigitSumOfDouble(d: int)
    requires 0 <= d <= 9
    ensures Doubled(d) == 2 * d / 10 + 2 * d % 10
  {
  }

  lemma {:induction false} SumByPositions(ds: seq<int>, i: nat)
    requires AllDigits(ds) && i <= |ds|
    ensures LuhnSum(ds[i..]) == ContributionsFrom(ds, i)
    decreases |ds| - i
  {
    if i < |ds| {
      SumFrom(ds, i);
      SumByPositions(ds, i + 1);
      DigitSumOfDouble(ds[i]);
    }
  }

  /** A number is accepted exactly if it has 13 to 19 digits whose contributions add up to a multiple of ten. */
  lemma AcceptedIff(ds: seq<int>)
    requires AllDigits(ds)
    ensures Accepted(ds) <==> 13 <= |ds| <= 19 && ContributionsFrom(ds, 0) % 10 == 0
  {
    SumByPositions(ds, 0);
    assert ds[0..] == ds;
  }

  lemma {:induction false} OnesSum(ds: seq<int>, i: nat)
    requires i <= |ds| && forall k :: i <= k < |ds| ==> ds[k] == 1
    ensures ContributionsFrom(ds, i) == (|ds| - i) + (|ds| - i) / 2
    decreases |ds| - i
  {
    if i < |ds| {
      OnesSum(ds, i + 1);
      assert Contribution(ds, i) == if (|ds| - 1 - i) % 2 == 1 then 2 else 1;
      hide Contribution;
      Halves(|ds| - i);
    }
  }

  lemma Halves(n: nat)
    requires n > 0
    ensures n / 2 == (n - 1) / 2 + if (n - 1) % 2 == 1 then 1 else 0
  {
  }

  /** The test card number 4111 1111 1111 1111 is accepted, and rejected with its first digit changed to 5. */
  lemma CardExample()
    ensures Accepted([4] + seq(15, _ => 1)) && !Accepted([5] + seq(15, _ => 1))
  {
    var good, bad := [4] + seq(15, _ => 1), [5] + seq(15, _ => 1);
    OnesSum(good, 1);
    OnesSum(bad, 1);
    AcceptedIff(good);
    AcceptedIff(bad);
    assert ContributionsFrom(good, 0) == 30 && ContributionsFrom(bad, 0) == 23;
  }

  /** A text of digits is read digit by digit. */
  lemma {:induction false} DigitsOfText(card: string)
    requires forall i :: 0 <= i < |card| ==> '0' <= card[i] <= '9'
    ensures |DigitsOf(card)| == |card|
    ensures forall i :: 0 <= i < |card| ==> DigitsOf(card)[i] == card[i] as int - 48
  {
    if card != "" {
      DigitsOfText(card[..|card| - 1]);
    }
  }

  lemma CardTextExample()
    ensures Accepted(DigitsOf("4111111111111111")) && !Accepted(DigitsOf("5111111111111111"))
  {
    hide DigitsOf, Accepted;
    DigitsOfText("4111111111111111");
    DigitsOfText("5111111111111111");
    assert DigitsOf("4111111111111111") == [4] + seq(15, _ => 1);
    assert DigitsOf("5111111111111111") == [5] + seq(15, _ => 1);
    CardExample();
  }

  // ----- Characters that are not digits

  lemma {:induction false} DigitsOfAppend(a: string, b: string)
    ensures DigitsOf(a + b) == DigitsOf(a) + DigitsOf(b)
  {
    if b == "" {
      assert a + b == a;
    } else {
      DigitsOfAppend(a, b[..|b| - 1]);
      assert (a + b)[..|a + b| - 1] == a + b[..|b| - 1];
    }
  }

  lemma {:induction false} NoDigits(s: string)
    requires forall i :: 0 <= i < |s| ==> !IsDigit(s[i])
    ensures DigitsOf(s) == []
  {
    if s != "" {
      NoDigits(s[..|s| - 1]);
    }
  }

  /** Inserting or removing other characters anywhere never changes the verdict. */
  lemma OtherCharactersIgnored(a: string, separator: string, b: string)
    requires forall i :: 0 <= i < |separator| ==> !('0' <= separator[i] <= '9')
    ensures DigitsOf(a + separator + b) == DigitsOf(a + b)
  {
    NoDigits(separator);
    DigitsOfAppend(a, separator);
    assert DigitsOf(a + separator) == DigitsOf(a);
    DigitsOfAppend(a + separator, b);
    DigitsOfAppend(a, b);
  }

  // ----- Error detection

  lemma {:induction false} SumSplit(a: seq<int>, b: seq<int>)
    ensures LuhnSum(a + b) == LuhnSum(a + Zeros(|b|)) + LuhnSum(b)
    decreases |a|
  {
    if a == [] {
      assert a + b == b && a + Zeros(|b|) == Zeros(|b|);
      ZerosSum(|b|);
    } else {
      assert (a + b)[1..] == a[1..] + b && (a + Zeros(|b|))[1..] == a[1..] + Zeros(|b|);
      SumSplit(a[1..], b);
    }
  }

  function Zeros(n: nat): seq<int> { seq(n, _ => 0) }

  lemma {:induction false} ZerosSum(n: nat)
    ensures LuhnSum(Zeros(n)) == 0
  {
    if n > 0 {
      assert Zeros(n)[1..] == Zeros(n - 1);
      ZerosSum(n - 1);
    }
  }

  /** Changing one digit changes the sum by the difference of its contributions. */
  lemma ChangeEffect(ds: seq<int>, k: nat, d: int)
    requires k < |ds|
    ensures LuhnSum(ds[k := d]) - LuhnSum(ds) == Weighed(d, |ds| - k) - Weighed(ds[k], |ds| - k)
  {
    var a, b, c := ds[..k], ds[k..], ds[k := d][k..];
    assert ds == a + b && ds[k := d] == a + c && c == b[0 := d] && c[1..] == b[1..];
    SumSplit(a, b);
    SumSplit(a, c);
  }

  /** Contributions of different digits differ, and all lie between 0 and 9. */
  lemma WeighedInjective(c: int, d: int, n: nat)
    requires 0 <= c <= 9 && 0 <= d <= 9
    ensures 0 <= Weighed(c, n) <= 9
    ensures Weighed(c, n) == Weighed(d, n) ==> c == d
  {
  }

  /** Changing any one digit of an accepted number makes it rejected. */
  lemma SingleErrorDetected(ds: seq<int>, k: nat, d: int)
    requires AllDigits(ds) && Accepted(ds) && k < |ds| && 0 <= d <= 9 && d != ds[k]
    ensures !Accepted(ds[k := d])
  {
    var w, v := Weighed(d, |ds| - k), Weighed(ds[k], |ds| - k);
    assert 0 <= w <= 9 && 0 <= v <= 9 && w != v by {
      WeighedInjective(d, ds[k], |ds| - k);
      WeighedInjective(ds[k], d, |ds| - k);
    }
    ChangeEffect(ds, k, d);
    SmallDifference(LuhnSum(ds), LuhnSum(ds[k := d]));
  }

  lemma SmallDifference(s: int, t: int)
    requires s % 10 == 0 && -10 < t - s < 10 && s != t
    ensures t % 10 != 0
  {
  }

  function Swapped(ds: seq<int>, k: nat): seq<int>
    requires k + 1 < |ds|
  {
    ds[k := ds[k + 1]][k + 1 := ds[k]]
  }

  /** Swapping two adjacent different digits of an accepted number goes unnoticed exactly for 0 and 9. */
  lemma TranspositionDetectedIff(ds: seq<int>, k: nat)
    requires AllDigits(ds) && Accepted(ds) && k + 1 < |ds| && ds[k] != ds[k + 1]
    ensures Accepted(Swapped(ds, k)) <==>
      (ds[k] == 0 && ds[k + 1] == 9) || (ds[k] == 9 && ds[k + 1] == 0)
  {
    hide LuhnSum;
    var a, b, n := ds[k], ds[k + 1], |ds| - k;
    var before, after := LuhnSum(ds), LuhnSum(Swapped(ds, k));
    assert after - before == Weighed(b, n) - Weighed(a, n) + Weighed(a, n - 1) - Weighed(b, n - 1) by {
      ChangeEffect(ds, k, b);
      ChangeEffect(ds[k := b], k + 1, a);
    }
    assert Weighed(b, n) - Weighed(a, n) + Weighed(a, n - 1) - Weighed(b, n - 1)
        in {(Doubled(a) - a) - (Doubled(b) - b), (Doubled(b) - b) - (Doubled(a) - a)};
    hide Doubled, Weighed;
    SwapDifference(a, b);
    SameRemainder(before, after);
  }

  lemma SameRemainder(s: int, t: int)
    requires s % 10 == 0
    ensures t % 10 == 0 <==> (t - s) % 10 == 0
  {
  }

  /** How doubling changes a digit, modulo 10: only 0 and 9 change alike. */
  lemma SwapDifference(a: int, b: int)
    requires 0 <= a <= 9 && 0 <= b <= 9 && a != b
    ensures ((Doubled(a) - a) - (Doubled(b) - b)) % 10 == 0 <==> (a == 0 && b == 9) || (a == 9 && b == 0)
    ensures ((Doubled(b) - b) - (Doubled(a) - a)) % 10 == 0 <==> (a == 0 && b == 9) || (a == 9 && b == 0)
  {
  }

  // ----- The check digit

  function CheckDigit(prefix: seq<int>): int {
    (10 - LuhnSum(prefix + [0]) % 10) % 10
  }

  lemma OneComplement(sum: int, d: int)
    requires 0 <= d <= 9
    ensures (sum + d) % 10 == 0 <==> d == (10 - sum % 10) % 10
  {
  }

  /** Every prefix of 12 to 18 digits has exactly one check digit that makes it accepted. */
  lemma UniqueCheckDigit(prefix: seq<int>, d: int)
    requires AllDigits(prefix) && 12 <= |prefix| <= 18 && 0 <= d <= 9
    ensures Accepted(prefix + [d]) <==> d == CheckDigit(prefix)
  {
    hide LuhnSum;
    var zero, n := prefix + [0], |prefix|;
    assert zero[n := d] == prefix + [d];
    ChangeEffect(zero, n, d);
    assert LuhnSum(prefix + [d]) == LuhnSum(zero) + d;
    OneComplement(LuhnSum(zero), d);
  }
}
