/**
 Time-sortable event ids of internal/eventbus/id.go: ten Crockford Base32 characters of
 milliseconds, as in the sections "Sorting" and "Canonical String Representation" of the
 ULID specification, followed by sixteen characters drawn from a pool of random bytes.
 */
module EventId {

  const ALPHABET: string := "0123456789ABCDEFGHJKMNPQRSTVWXYZ"
  const TIME_LEN: nat := 10
  const RANDOM_LEN: nat := 16
  const TWO50: int := 0x4_0000_0000_0000

  datatype Parsed = TooShort | BadCharacter | Millis(ms: int)

  // ----- The alphabet

  function UpperChar(c: char): char {
    if 'a' <= c <= 'z' then (c as int - 32) as char else c
  }

  /** The character at a position of the alphabet, which leaves out I, L, O and U. */
  function Letter(d: int): char
    requires 0 <= d < 32
  {
    if d < 10 then ('0' as int + d) as char
    else if d < 18 then ('A' as int + (d - 10)) as char
    else if d < 20 then ('J' as int + (d - 18)) as char
    else if d < 22 then ('M' as int + (d - 20)) as char
    else if d < 27 then ('P' as int + (d - 22)) as char
    else ('V' as int + (d - 27)) as char
  }

  lemma AlphabetLetters(d: int)
    requires 0 <= d < 32
    ensures |ALPHABET| == 32 && ALPHABET[d] == Letter(d)
  {
  }

  ghost predicate SpelledBy(c: char, d: int) {
    0 <= d < 32 && Letter(d) == UpperChar(c)
  }

  ghost function IndexOf(c: char): int {
    if d :| SpelledBy(c, d) then d else -1
  }

  /** The characters of the alphabet, and their small letters, have their position; no other character has one. */
  lemma IndexOfIff(c: char, d: int)
    requires 0 <= d < 32
    ensures IndexOf(c) == d <==>
      c == ALPHABET[d] || ('A' <= ALPHABET[d] && c as int == ALPHABET[d] as int + 32)
    ensures -1 <= IndexOf(c) < 32
  {
    AlphabetLetters(d);
    if c == Letter(d) || ('A' <= Letter(d) && c as int == Letter(d) as int + 32) {
      assert SpelledBy(c, d);
    }
  }

  /** `indexBase32`: the position of a character, in either case, or -1. */
  method IndexBase32(ch: char) returns (i: int)
    ensures i == IndexOf(ch)
  {
    var c := UpperChar(ch);
    i := 0;
    while i < |ALPHABET|
      invariant 0 <= i <= |ALPHABET|
      invariant forall k :: 0 <= k < i ==> Letter(k) != c
    {
      AlphabetLetters(i);
      if ALPHABET[i] == c {
        assert SpelledBy(ch, i);
        return;
      }
      i := i + 1;
    }
    assert forall k :: !SpelledBy(ch, k);
    i := -1;
  }

  // ----- Encoding and parsing

  /** The Base32 digits of `ms`, most significant first. */
  function Digits(ms: int, n: nat): (ds: seq<int>)
    ensures |ds| == n && forall k :: 0 <= k < n ==> 0 <= ds[k] < 32
    decreases n
  {
    if n == 0 then [] else Digits(ms / 32, n - 1) + [ms % 32]
  }

  function Chars(ds: seq<int>): (s: string)
    requires forall k :: 0 <= k < |ds| ==> 0 <= ds[k] < 32
    ensures |s| == |ds| && forall k :: 0 <= k < |ds| ==> s[k] == Letter(ds[k])
  {
    seq(|ds|, k requires 0 <= k < |ds| => Letter(ds[k]))
  }

  function EncodedIn(ms: int, n: nat): (s: string)
    ensures |s| == n
  {
    Chars(Digits(ms, n))
  }

  function Encoded(ms: int): (s: string)
    ensures |s| == TIME_LEN
  {
    EncodedIn(ms, TIME_LEN)
  }

  /** `encodeTimestamp`: `ms & 0x1F` and `ms >> 5` are remainder and floor quotient by 32, also below zero. */
  method EncodeTimestamp(ms: int) returns (s: string)
    ensures s == Encoded(ms)
  {
    s := EncodeDigits(ms, TIME_LEN);
  }

  method EncodeDigits(ms: int, n: nat) returns (s: string)
    ensures s == EncodedIn(ms, n)
  {
    var chars := new char[n];
    var rest, i := ms, n;
    while i > 0
      invariant 0 <= i <= n
      invariant Digits(ms, n) == Digits(rest, i) + Digits(ms, n)[i..]
      invariant forall k :: i <= k < n ==> chars[k] == Letter(Digits(ms, n)[k])
    {
      i := i - 1;
      assert Digits(ms, n)[i] == rest % 32;
      AlphabetLetters(rest % 32);
      chars[i] := ALPHABET[rest % 32];
      rest := rest / 32;
    }
    s := chars[..];
  }

  /** The value of a digit string. */
  function Value(ds: seq<int>): int {
    if ds == [] then 0 else Value(ds[..|ds| - 1]) * 32 + ds[|ds| - 1]
  }

  lemma ValueExtend(ds: seq<int>, i: nat)
    requires i < |ds|
    ensures Value(ds[..i + 1]) == Value(ds[..i]) * 32 + ds[i]
  {
    assert ds[..i + 1][..i] == ds[..i];
  }

  function Pow32(n: nat): int {
    if n == 0 then 1 else 32 * Pow32(n - 1)
  }

  lemma {:induction false} DigitsValue(ms: int, n: nat)
    ensures Pow32(n) > 0
    ensures Value(Digits(ms, n)) == ms % Pow32(n)
    decreases n
  {
    if n > 0 {
      var front := Digits(ms / 32, n - 1);
      DigitsValue(ms / 32, n - 1);
      assert (front + [ms % 32])[..n - 1] == front;
      ModStep(ms, Pow32(n - 1));
    }
  }

  lemma ModStep(x: int, m: int)
    requires m > 0
    ensures x % (32 * m) == (x / 32 % m) * 32 + x % 32
  {
    var q, r := x / 32 / m, x / 32 % m;
    assert x / 32 == q * m + r;
    assert x == 32 * (x / 32) + x % 32;
    assert x == (32 * m) * q + (r * 32 + x % 32);
    assert 0 <= r * 32 + x % 32 < 32 * m;
    RemainderUnique(x, 32 * m, q, r * 32 + x % 32);
  }

  lemma RemainderUnique(x: int, m: int, q: int, r: int)
    requires m > 0 && 0 <= r < m && x == m * q + r
    ensures x % m == r
  {
    var q', r' := x / m, x % m;
    assert x == m * q' + r';
    assert m * (q - q') == r' - r;
    if q > q' {
      AtLeastOneMultiple(m, q - q');
    } else if q < q' {
      AtLeastOneMultiple(m, q' - q);
    }
  }

  lemma AtLeastOneMultiple(m: int, d: int)
    requires m > 0 && d >= 1
    ensures m * d >= m
  {
  }

  lemma TimeRange()
    ensures Pow32(TIME_LEN) == TWO50
  {
  }

  ghost function IndicesOf(s: string): (ds: seq<int>)
    ensures |ds| == |s| && forall k :: 0 <= k < |s| ==> ds[k] == IndexOf(s[k])
  {
    seq(|s|, k requires 0 <= k < |s| => IndexOf(s[k]))
  }

  ghost function ParseIn(id: string, n: nat): Parsed {
    if |id| < n then TooShort
    else
      var ds := IndicesOf(id[..n]);
      if exists k :: 0 <= k < n && ds[k] < 0 then BadCharacter else Millis(Value(ds))
  }

  ghost function ParseSpec(id: string): Parsed {
    ParseIn(id, TIME_LEN)
  }

  /** `ParseEventID`: fifty bits fit an `int64`, so the shift never overflows. */
  method ParseEventID(id: string) returns (r: Parsed)
    ensures r == ParseSpec(id)
  {
    r := ParseDigits(id, TIME_LEN);
  }

  method ParseDigits(id: string, n: nat) returns (r: Parsed)
    ensures r == ParseIn(id, n)
  {
    if |id| < n {
      return TooShort;
    }
    var text := id[..n];
    ghost var ds := IndicesOf(text);
    var ms, i := 0, 0;
    while i < |text|
      invariant 0 <= i <= |text|
      invariant forall k :: 0 <= k < i ==> ds[k] >= 0
      invariant ms == Value(ds[..i])
    {
      var idx := IndexBase32(text[i]);
      assert idx == ds[i];
      if idx < 0 {
        return BadCharacter;
      }
      ValueExtend(ds, i);
      ms := ms * 32 + idx;
      i := i + 1;
    }
    assert ds[..i] == ds;
    r := Millis(ms);
  }

  /** Two texts that differ only in letter case. */
  ghost predicate SameLetters(a: string, b: string) {
    |a| == |b| && forall k :: 0 <= k < |a| ==> UpperChar(a[k]) == UpperChar(b[k])
  }

  lemma EitherCase(c: char, d: int)
    requires 0 <= d < 32 && UpperChar(c) == UpperChar(Letter(d))
    ensures IndexOf(c) == d
  {
    assert SpelledBy(c, d);
  }

  lemma ParseEncodedIn(ms: int, n: nat, id: string)
    requires |id| >= n && SameLetters(id[..n], EncodedIn(ms, n))
    ensures Pow32(n) > 0 && ParseIn(id, n) == Millis(ms % Pow32(n))
  {
    var ds := Digits(ms, n);
    forall k | 0 <= k < n
      ensures IndexOf(id[k]) == ds[k]
    {
      assert UpperChar(id[..n][k]) == UpperChar(EncodedIn(ms, n)[k]);
      EitherCase(id[k], ds[k]);
    }
    assert IndicesOf(id[..n]) == ds;
    DigitsValue(ms, n);
  }

  /**
   Parsing any id whose first ten characters spell `Encoded(ms)`, in either letter case,
   returns `ms` modulo 2^50.
   */
  lemma ParseEncoded(ms: int, id: string)
    requires |id| >= TIME_LEN && SameLetters(id[..TIME_LEN], Encoded(ms))
    ensures ParseSpec(id) == Millis(ms % TWO50)
  {
    ParseEncodedIn(ms, TIME_LEN, id);
    TimeRange();
  }

  lemma RoundTripIn(ms: int, n: nat, random: string)
    ensures Pow32(n) > 0
    ensures ParseIn(EncodedIn(ms, n) + random, n) == Millis(ms) <==> 0 <= ms < Pow32(n)
  {
    var id := EncodedIn(ms, n) + random;
    assert id[..n] == EncodedIn(ms, n);
    ParseEncodedIn(ms, n, id);
    if 0 <= ms < Pow32(n) {
      RemainderUnique(ms, Pow32(n), 0, ms);
    }
  }

  /** The round trip returns the timestamp exactly for 0 <= ms < 2^50. */
  lemma RoundTripIff(ms: int, random: string)
    ensures ParseSpec(Encoded(ms) + random) == Millis(ms) <==> 0 <= ms < TWO50
  {
    RoundTripIn(ms, TIME_LEN, random);
    TimeRange();
  }

  // ----- Sorting

  /** Byte-wise lexicographic order. */
  ghost predicate LexLess(a: string, b: string) {
    exists k :: 0 <= k <= |a| && k < |b| && a[..k] == b[..k] && (k == |a| || a[k] < b[k])
  }

  /** Digit strings of one length compare like their values. */
  lemma {:induction false} ValueOrder(a: seq<int>, b: seq<int>, k: nat)
    requires |a| == |b| && k < |a| && a[..k] == b[..k] && a[k] < b[k]
    requires forall i :: 0 <= i < |a| ==> 0 <= a[i] < 32 && 0 <= b[i] < 32
    ensures Value(a) < Value(b)
  {
    var n := |a| - 1;
    var fa, fb := a[..n], b[..n];
    if k == n {
      assert fa == fb;
    } else {
      assert fa[..k] == a[..k] && fb[..k] == b[..k];
      ValueOrder(fa, fb, k);
    }
  }

  lemma {:induction false} FirstDifference(a: seq<int>, b: seq<int>) returns (k: nat)
    requires |a| == |b| && a != b
    ensures k < |a| && a[..k] == b[..k] && a[k] != b[k]
  {
    if a[0] != b[0] {
      k := 0;
    } else {
      assert a == [a[0]] + a[1..] && b == [b[0]] + b[1..];
      var j := FirstDifference(a[1..], b[1..]);
      k := j + 1;
      assert a[..k] == [a[0]] + a[1..][..j] && b[..k] == [b[0]] + b[1..][..j];
    }
  }

  /** Digit strings of increasing value differ first at a place where the digit increases. */
  lemma DigitsDiffer(a: seq<int>, b: seq<int>) returns (k: nat)
    requires |a| == |b| && Value(a) < Value(b)
    requires forall i :: 0 <= i < |a| ==> 0 <= a[i] < 32 && 0 <= b[i] < 32
    ensures k < |a| && a[..k] == b[..k] && a[k] < b[k]
  {
    hide Value;
    k := FirstDifference(a, b);
    if b[k] < a[k] {
      ValueOrder(b, a, k);
    }
  }

  lemma EncodedDiffer(m: int, n: int, len: nat) returns (k: nat)
    requires Pow32(len) > 0 && m % Pow32(len) < n % Pow32(len)
    ensures k < len && EncodedIn(m, len)[..k] == EncodedIn(n, len)[..k]
    ensures EncodedIn(m, len)[k] < EncodedIn(n, len)[k]
  {
    hide Value, Digits, Pow32, Chars;
    var a, b := Digits(m, len), Digits(n, len);
    assert Value(a) < Value(b) by {
      DigitsValue(m, len);
      DigitsValue(n, len);
    }
    k := DigitsDiffer(a, b);
    CharsAgree(a, b, k);
  }

  lemma CharsAgree(a: seq<int>, b: seq<int>, k: nat)
    requires |a| == |b| && k < |a| && a[..k] == b[..k] && a[k] < b[k]
    requires forall i :: 0 <= i < |a| ==> 0 <= a[i] < 32 && 0 <= b[i] < 32
    ensures Chars(a)[..k] == Chars(b)[..k] && Chars(a)[k] < Chars(b)[k]
  {
    forall i | 0 <= i < k
      ensures Chars(a)[i] == Chars(b)[i]
    {
      assert a[..k][i] == b[..k][i];
    }
  }

  lemma LexFromDifference(a: string, b: string, x: string, y: string, k: nat)
    requires |a| == |b| && k < |a| && a[..k] == b[..k] && a[k] < b[k]
    ensures LexLess(a + x, b + y) && !LexLess(b + y, a + x)
  {
    var s, t := a + x, b + y;
    assert s[..k] == a[..k] && t[..k] == b[..k];
    forall j | 0 <= j <= |t| && j < |s| && t[..j] == s[..j]
      ensures !(j == |t| || t[j] < s[j])
    {
      assert j <= k by { AgreeUpTo(s, t, j, k); }
      if j < k {
        assert s[..k][j] == t[..k][j];
      }
    }
  }

  lemma AgreeUpTo(s: string, t: string, j: nat, k: nat)
    requires j <= |s| && j <= |t| && s[..j] == t[..j]
    requires k < |s| && k < |t| && s[k] != t[k]
    ensures j <= k
  {
  }

  lemma SortIn(m: int, n: int, len: nat, x: string, y: string)
    requires Pow32(len) > 0 && m % Pow32(len) < n % Pow32(len)
    ensures LexLess(EncodedIn(m, len) + x, EncodedIn(n, len) + y)
    ensures !LexLess(EncodedIn(n, len) + y, EncodedIn(m, len) + x)
  {
    var k := EncodedDiffer(m, n, len);
    LexFromDifference(EncodedIn(m, len), EncodedIn(n, len), x, y, k);
  }

  /** Whatever follows the timestamps, ids sort by their timestamps, taken modulo 2^50. */
  lemma IdsSortByTime(m: int, n: int, x: string, y: string)
    requires m % TWO50 < n % TWO50
    ensures LexLess(Encoded(m) + x, Encoded(n) + y)
    ensures !LexLess(Encoded(n) + y, Encoded(m) + x)
  {
    TimeRange();
    SortIn(m, n, TIME_LEN, x, y);
  }

  lemma LexIrreflexive(a: string)
    ensures !LexLess(a, a)
  {
  }

  lemma SameValueSameDigits(a: seq<int>, b: seq<int>)
    requires |a| == |b| && Value(a) == Value(b)
    requires forall i :: 0 <= i < |a| ==> 0 <= a[i] < 32 && 0 <= b[i] < 32
    ensures a == b
  {
    hide Value;
    if a != b {
      var k := FirstDifference(a, b);
      if a[k] < b[k] {
        ValueOrder(a, b, k);
      } else {
        ValueOrder(b, a, k);
      }
    }
  }

  lemma OrderIn(m: int, n: int, len: nat)
    requires Pow32(len) > 0
    ensures m % Pow32(len) < n % Pow32(len) <==> LexLess(EncodedIn(m, len), EncodedIn(n, len))
  {
    hide LexLess, Digits, Value, Pow32;
    var a, b := EncodedIn(m, len), EncodedIn(n, len);
    var i, j := m % Pow32(len), n % Pow32(len);
    assert a + "" == a && b + "" == b;
    if i < j {
      SortIn(m, n, len, "", "");
    } else if j < i {
      SortIn(n, m, len, "", "");
    } else {
      assert a == b by {
        DigitsValue(m, len);
        DigitsValue(n, len);
        SameValueSameDigits(Digits(m, len), Digits(n, len));
      }
      LexIrreflexive(a);
    }
  }

  /** Encodings compare exactly as the timestamps modulo 2^50 do: in range, as the timestamps themselves. */
  lemma EncodingOrderIff(m: int, n: int)
    ensures LexLess(Encoded(m), Encoded(n)) <==> m % TWO50 < n % TWO50
    ensures 0 <= m < TWO50 && 0 <= n < TWO50 ==> (LexLess(Encoded(m), Encoded(n)) <==> m < n)
  {
    hide LexLess, Pow32, EncodedIn;
    TimeRange();
    OrderIn(m, n, TIME_LEN);
  }

  // ----- The entropy pool

  /** Random bytes are identified by their position in the stream the pool is filled from. */
  datatype Entropy = Entropy(pool: seq<nat>, drawn: nat)

  function Refill(e: Entropy): Entropy {
    Entropy(seq(32, i => e.drawn + i), e.drawn + 32)
  }

  const INITIAL_ENTROPY := Refill(Entropy([], 0))

  /** `encodeRandom`: the bytes used for one id, none when the pool is short and cannot be refilled. */
  function Draw(e: Entropy, canRead: bool): (Entropy, seq<nat>) {
    var ready := if |e.pool| < RANDOM_LEN && canRead then Refill(e) else e;
    if |ready.pool| < RANDOM_LEN then (ready, [])
    else (ready.(pool := ready.pool[RANDOM_LEN..]), ready.pool[..RANDOM_LEN])
  }

  class EntropySource {
    var pool: seq<nat>
    var drawn: nat

    function View(): Entropy
      reads this
    {
      Entropy(pool, drawn)
    }

    constructor ()
      ensures View() == INITIAL_ENTROPY
    {
      pool, drawn := seq(32, i => 0 + i), 32;
    }

    method EncodeRandom(canRead: bool) returns (used: seq<nat>)
      modifies this
      ensures (View(), used) == Draw(old(View()), canRead)
      ensures |used| == if |old(pool)| < 16 && !canRead then 0 else 16
    {
      if |pool| < RANDOM_LEN {
        if !canRead {
          return [];
        }
        var base := drawn;
        pool, drawn := seq(32, i => base + i), base + 32;
        assert View() == Refill(old(View()));
      }
      used := pool[..RANDOM_LEN];
      pool := pool[RANDOM_LEN..];
    }
  }

  /** The pool after one draw per element of `refills`, which says whether the random source could be read. */
  function PoolAfter(refills: seq<bool>): Entropy {
    if refills == [] then INITIAL_ENTROPY else Draw(PoolAfter(refills[..|refills| - 1]), refills[|refills| - 1]).0
  }

  function UsedBy(refills: seq<bool>, i: nat): seq<nat>
    requires i < |refills|
  {
    Draw(PoolAfter(refills[..i]), refills[i]).1
  }

  /** How many of the first `i` draws got their bytes. */
  function Served(refills: seq<bool>, i: nat): nat
    requires i <= |refills|
  {
    if i == 0 then 0 else Served(refills, i - 1) + if UsedBy(refills, i - 1) == [] then 0 else 1
  }

  /** The pool holds what is left of 32 bytes after one or two draws. */
  ghost predicate PoolAt(e: Entropy, served: nat) {
    && e.drawn - |e.pool| == 16 * served
    && |e.pool| == (if served == 0 then 32 else if served % 2 == 1 then 16 else 0)
    && (forall k :: 0 <= k < |e.pool| ==> e.pool[k] == 16 * served + k)
  }

  lemma DrawAt(e: Entropy, canRead: bool, served: nat)
    requires PoolAt(e, served)
    ensures var (e', used) := Draw(e, canRead);
      && (used == [] <==> served > 0 && served % 2 == 0 && !canRead)
      && PoolAt(e', if used == [] then served else served + 1)
      && (used != [] ==> |used| == 16 && forall k :: 0 <= k < 16 ==> used[k] == 16 * served + k)
  {
    var (e', used) := Draw(e, canRead);
    if |e.pool| < 16 && canRead {
      assert |Refill(e).pool| == 32 && used == Refill(e).pool[..16];
    }
  }

  lemma {:induction false} PoolServed(refills: seq<bool>, i: nat)
    requires i <= |refills|
    ensures PoolAt(PoolAfter(refills[..i]), Served(refills, i))
  {
    if i > 0 {
      PoolServed(refills, i - 1);
      assert refills[..i][..i - 1] == refills[..i - 1];
      DrawAt(PoolAfter(refills[..i - 1]), refills[i - 1], Served(refills, i - 1));
    }
  }

  /**
   The n-th id that gets random bytes gets exactly the n-th sixteen bytes of the stream: none is
   skipped and none is used twice. A draw fails exactly when it needs new bytes and cannot read.
   */
  lemma BytesInOrder(refills: seq<bool>, i: nat)
    requires i < |refills|
    ensures var n, used := Served(refills, i), UsedBy(refills, i);
      && (used == [] <==> n > 0 && n % 2 == 0 && !refills[i])
      && (used != [] ==> |used| == 16 && forall k :: 0 <= k < 16 ==> used[k] == 16 * n + k)
  {
    PoolServed(refills, i);
    DrawAt(PoolAfter(refills[..i]), refills[i], Served(refills, i));
  }

  lemma {:induction false} ServedGrows(refills: seq<bool>, i: nat, j: nat)
    requires i <= j <= |refills|
    ensures Served(refills, i) <= Served(refills, j)
  {
    if i < j {
      ServedGrows(refills, i, j - 1);
    }
  }

  /** Over any run of draws and refills, failed ones included, no random byte is used in two ids. */
  lemma NoByteUsedTwice(refills: seq<bool>, i: nat, j: nat, x: nat)
    requires i < j < |refills| && x in UsedBy(refills, i)
    ensures x !in UsedBy(refills, j)
  {
    hide UsedBy;
    BytesInOrder(refills, i);
    BytesInOrder(refills, j);
    ServedGrows(refills, i + 1, j);
  }
}
