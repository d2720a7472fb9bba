/** internal/images: the order of dotted versions. */
module Versions {
  import opened Text

  const MAX_INT: int := 0x7FFF_FFFF_FFFF_FFFF
  const MIN_INT: int := -0x8000_0000_0000_0000

  /** strconv.Atoi: the value is clamped to the range of an int when it does not fit. */
  datatype Parsed = Parsed(value: int, ok: bool)

  function Atoi(s: string): Parsed {
    var signed := s != "" && (s[0] == '+' || s[0] == '-');
    var digits := if signed then s[1..] else s;
    if !Decimal(digits) then Parsed(0, false)
    else
      var n: int := if signed && s[0] == '-' then 0 - NumberOf(digits) else NumberOf(digits);
      if n > MAX_INT then Parsed(MAX_INT, false)
      else if n < MIN_INT then Parsed(MIN_INT, false)
      else Parsed(n, true)
  }

  /** A sign is optional; a number out of range is clamped; anything else is no number. */
  lemma AtoiReads(digits: string)
    requires Decimal(digits) && NumberOf(digits) <= MAX_INT
    ensures Atoi(digits) == Atoi("+" + digits) == Parsed(NumberOf(digits), true)
    ensures Atoi("-" + digits) == Parsed(0 - NumberOf(digits), true)
    ensures NumberOf(digits) < MAX_INT || Atoi(digits).value == 9223372036854775807
  {
    assert ("+" + digits)[1..] == digits && ("-" + digits)[1..] == digits;
  }

  function Cmp(a: int, b: int): int {
    if a < b then -1 else if a > b then 1 else 0
  }

  /** strings.Compare. */
  function CompareText(x: string, y: string): int {
    if x == "" then (if y == "" then 0 else -1)
    else if y == "" then 1
    else if x[0] != y[0] then (if x[0] < y[0] then -1 else 1)
    else CompareText(x[1..], y[1..])
  }

  lemma {:induction false} TextOrder(x: string, y: string)
    ensures CompareText(x, y) == 0 <==> x == y
    ensures CompareText(x, y) == -CompareText(y, x)
  {
    if x != "" && y != "" && x[0] == y[0] {
      TextOrder(x[1..], y[1..]);
      assert x == [x[0]] + x[1..] && y == [y[0]] + y[1..];
    }
  }

  /** The first difference decides, or the shorter text comes first. */
  lemma {:induction false} TextMeans(x: string, y: string)
    ensures CompareText(x, y) < 0 <==>
              || (|x| < |y| && x == y[..|x|])
              || exists i :: 0 <= i < |x| && i < |y| && x[..i] == y[..i] && x[i] < y[i]
  {
    if x != "" && y != "" {
      if x[0] == y[0] {
        TextMeans(x[1..], y[1..]);
        TextFirst(x, y);
      } else if x[0] < y[0] {
        assert x[..0] == y[..0];
      } else {
        assert forall i :: 0 < i < |x| && i < |y| ==> x[..i][0] == x[0] && y[..i][0] == y[0];
        assert |x| < |y| ==> y[..|x|][0] == y[0];
      }
    }
  }

  lemma TextFirst(x: string, y: string)
    requires x != "" && y != "" && x[0] == y[0]
    ensures (|x| < |y| && x == y[..|x|]) <==> (|x[1..]| < |y[1..]| && x[1..] == y[1..][..|x[1..]|])
    ensures (exists i :: 0 <= i < |x| && i < |y| && x[..i] == y[..i] && x[i] < y[i]) <==>
            exists i :: 0 <= i < |x[1..]| && i < |y[1..]| && x[1..][..i] == y[1..][..i] && x[1..][i] < y[1..][i]
  {
    assert x == [x[0]] + x[1..] && y == [y[0]] + y[1..];
    if |x| < |y| {
      assert y[..|x|] == [y[0]] + y[1..][..|x| - 1];
    }
    if i :| 0 <= i < |x| && i < |y| && x[..i] == y[..i] && x[i] < y[i] {
      assert i > 0;
      assert x[1..][..i - 1] == x[..i][1..] == y[..i][1..] == y[1..][..i - 1];
      assert x[1..][i - 1] < y[1..][i - 1];
    }
    if i :| 0 <= i < |x[1..]| && i < |y[1..]| && x[1..][..i] == y[1..][..i] && x[1..][i] < y[1..][i] {
      assert x[..i + 1] == [x[0]] + x[1..][..i] == [y[0]] + y[1..][..i] == y[..i + 1];
      assert x[i + 1] < y[i + 1];
    }
  }

  lemma {:induction false} TextTransitive(x: string, y: string, z: string)
    requires CompareText(x, y) <= 0 && CompareText(y, z) <= 0
    ensures CompareText(x, z) <= 0
  {
    if x != "" && y != "" && z != "" && x[0] == y[0] == z[0] {
      TextTransitive(x[1..], y[1..], z[1..]);
    }
  }

  /** The length of the leading digits. */
  function DigitPrefix(s: string): (n: nat)
    ensures n <= |s| && forall i :: 0 <= i < n ==> Digit(s[i])
    ensures n < |s| ==> !Digit(s[n])
  {
    if s == "" || !Digit(s[0]) then 0 else 1 + DigitPrefix(s[1..])
  }

  lemma DigitPrefixUnique(s: string, n: nat)
    requires n <= |s| && (forall i :: 0 <= i < n ==> Digit(s[i])) && (n < |s| ==> !Digit(s[n]))
    ensures DigitPrefix(s) == n
  {
  }

  /** splitNumericPrefix: the number a component starts with, and the rest. */
  method SplitNumericPrefix(s: string) returns (n: int, rest: string)
    ensures n == Atoi(s[..DigitPrefix(s)]).value && rest == s[DigitPrefix(s)..]
  {
    var i := 0;
    while i < |s| && Digit(s[i])
      invariant i <= |s| && forall k :: 0 <= k < i ==> Digit(s[k])
    {
      i := i + 1;
    }
    DigitPrefixUnique(s, i);
    return Atoi(s[..i]).value, s[i..];
  }

  /** The number a component starts with. */
  function Lead(x: string): int {
    Atoi(x[..DigitPrefix(x)]).value
  }

  /** By the leading number, then the longer rest first. */
  function CompareKeys(x: string, y: string): int {
    if Lead(x) != Lead(y) then Cmp(Lead(x), Lead(y))
    else -Cmp(|x| - DigitPrefix(x), |y| - DigitPrefix(y))
  }

  function CompareComponent(x: string, y: string): int {
    if x == y then 0
    else
      var a, b := Atoi(x), Atoi(y);
      if a.ok && b.ok then Cmp(a.value, b.value)
      else if a.ok || b.ok then CompareKeys(x, y)
      else CompareText(x, y)
  }

  // ---------------------------------------------------------------- components that are numbers

  /** A component that is decimal or missing. */
  predicate Plain(x: string) {
    x == "" || Decimal(x)
  }

  function Number(x: string): nat
    requires Plain(x)
  {
    NumberOf(x)
  }

  predicate Fits(x: string) {
    Plain(x) && Number(x) <= MAX_INT
  }

  lemma PlainParts(x: string)
    requires Plain(x)
    ensures DigitPrefix(x) == |x| && x[..DigitPrefix(x)] == x
    ensures x != "" ==> Atoi(x) == if Number(x) > MAX_INT then Parsed(MAX_INT, false) else Parsed(Number(x), true)
    ensures x == "" ==> Atoi(x) == Parsed(0, false) && Number(x) == 0
  {
    DigitPrefixUnique(x, |x|);
    assert x != "" ==> Digit(x[0]);
  }

  /** Components that fit are compared as numbers; a missing one counts as zero. */
  lemma ComparesNumbers(x: string, y: string)
    requires Fits(x) && Fits(y)
    ensures CompareComponent(x, y) == Cmp(Number(x), Number(y))
  {
    PlainParts(x);
    PlainParts(y);
  }

  /**
   * A plain component is ordered as a number against every other plain one exactly when its number
   * is below the largest int: from there on clamping takes over.
   */
  lemma NumericIffBelowLargest(x: string)
    requires Plain(x)
    ensures (forall y :: Plain(y) ==> CompareComponent(x, y) == Cmp(Number(x), Number(y))) <==> Number(x) < MAX_INT
  {
    if Number(x) < MAX_INT {
      forall y | Plain(y) ensures CompareComponent(x, y) == Cmp(Number(x), Number(y)) {
        PlainParts(x);
        PlainParts(y);
      }
    } else {
      var n: nat := if Number(x) == MAX_INT then MAX_INT + 1 else MAX_INT;
      ClampedAlike(x, n);
    }
  }

  /** The largest int and a number beyond it compare as equal. */
  lemma ClampedAlike(x: string, n: nat)
    requires Plain(x) && Number(x) != n && Number(x) >= MAX_INT && n >= MAX_INT
    requires (Number(x) == MAX_INT || n == MAX_INT)
    ensures Plain(Itoa(n)) && CompareComponent(x, Itoa(n)) == 0 != Cmp(Number(x), Number(Itoa(n)))
  {
    NumberOfItoa(n);
    PlainParts(x);
    PlainParts(Itoa(n));
  }

  /** A missing component sorts below another exactly when that is no number, or an unsigned one that is not zero. */
  lemma MissingBelowIffPositive(y: string)
    ensures CompareComponent("", y) < 0 <==> y != "" && (Atoi(y).ok ==> Decimal(y) && NumberOf(y) > 0)
  {
    PlainParts("");
    if Plain(y) {
      PlainParts(y);
    }
  }

  // ---------------------------------------------------------------- versions

  function Component(parts: seq<string>, i: nat): string {
    if i < |parts| then parts[i] else ""
  }

  /** The comparison from component `i` on. */
  function CompareFrom(a: seq<string>, b: seq<string>, i: nat): int
    decreases if |a| > |b| then |a| - i else |b| - i
  {
    if i >= |a| && i >= |b| then 0
    else
      var c := CompareComponent(Component(a, i), Component(b, i));
      if c != 0 then c else CompareFrom(a, b, i + 1)
  }

  function CompareVersions(a: string, b: string): int {
    CompareFrom(Split(a, '.'), Split(b, '.'), 0)
  }

  /** CompareVersions' loop over the components, the shorter side filled up with empty ones. */
  method CompareParts(x: seq<string>, y: seq<string>) returns (c: int)
    ensures c == CompareFrom(x, y, 0)
  {
    var i := 0;
    while i < |x| || i < |y|
      invariant CompareFrom(x, y, 0) == CompareFrom(x, y, i)
      decreases |x| + |y| - i
    {
      c := CompareComponent(Component(x, i), Component(y, i));
      if c != 0 {
        return;
      }
      i := i + 1;
    }
    return 0;
  }

  method CompareByLoop(a: string, b: string) returns (c: int)
    ensures c == CompareVersions(a, b)
  {
    c := CompareParts(Split(a, '.'), Split(b, '.'));
  }

  /** Every component is a number that fits. */
  predicate NumericParts(v: seq<string>) {
    forall i :: 0 <= i < |v| ==> Fits(v[i])
  }

  predicate Numeric(v: string) {
    NumericParts(Split(v, '.'))
  }

  /** The number at a place of a version, zero past its end. */
  function At(v: seq<string>, i: nat): nat
    requires NumericParts(v)
  {
    if i < |v| then Number(v[i]) else 0
  }

  ghost predicate DiffersFirstAt(a: seq<string>, b: seq<string>, i: nat)
    requires NumericParts(a) && NumericParts(b)
  {
    At(a, i) != At(b, i) && forall j: nat :: j < i ==> At(a, j) == At(b, j)
  }

  /** Lexicographic order of the zero-padded vectors of numbers: the first difference decides. */
  ghost predicate Below(a: seq<string>, b: seq<string>)
    requires NumericParts(a) && NumericParts(b)
  {
    exists i: nat :: DiffersFirstAt(a, b, i) && At(a, i) < At(b, i)
  }

  ghost predicate Same(a: seq<string>, b: seq<string>)
    requires NumericParts(a) && NumericParts(b)
  {
    forall i: nat :: At(a, i) == At(b, i)
  }

  lemma ComponentCompares(a: seq<string>, b: seq<string>, i: nat)
    requires NumericParts(a) && NumericParts(b)
    ensures CompareComponent(Component(a, i), Component(b, i)) == Cmp(At(a, i), At(b, i))
  {
    ComparesNumbers(Component(a, i), Component(b, i));
  }

  lemma {:induction false} FirstDifference(a: seq<string>, b: seq<string>, i: nat) returns (k: nat)
    requires NumericParts(a) && NumericParts(b) && forall j: nat :: j < i ==> At(a, j) == At(b, j)
    ensures CompareFrom(a, b, i) == 0 ==> Same(a, b)
    ensures CompareFrom(a, b, i) != 0 ==> DiffersFirstAt(a, b, k) && CompareFrom(a, b, i) == Cmp(At(a, k), At(b, k))
    decreases |a| + |b| - i
  {
    k := i;
    if i < |a| || i < |b| {
      ComponentCompares(a, b, i);
      if At(a, i) == At(b, i) {
        k := FirstDifference(a, b, i + 1);
      }
    }
  }

  lemma OneFirstDifference(a: seq<string>, b: seq<string>, i: nat, k: nat)
    requires NumericParts(a) && NumericParts(b) && DiffersFirstAt(a, b, i) && DiffersFirstAt(a, b, k)
    ensures i == k
  {
  }

  lemma ComparesParts(a: seq<string>, b: seq<string>)
    requires NumericParts(a) && NumericParts(b)
    ensures CompareFrom(a, b, 0) == 0 <==> Same(a, b)
    ensures CompareFrom(a, b, 0) < 0 <==> Below(a, b)
    ensures CompareFrom(a, b, 0) > 0 <==> Below(b, a)
    ensures -1 <= CompareFrom(a, b, 0) <= 1
  {
    var k := FirstDifference(a, b, 0);
    if CompareFrom(a, b, 0) != 0 {
      forall i: nat | DiffersFirstAt(a, b, i) ensures i == k {
        OneFirstDifference(a, b, i, k);
      }
      forall i: nat | DiffersFirstAt(b, a, i) ensures i == k {
        OneFirstDifference(b, a, i, k);
      }
      assert DiffersFirstAt(b, a, k);
    }
  }

  /** CompareVersions is the lexicographic order of zero-padded number vectors. */
  lemma ComparesVectors(a: string, b: string)
    requires Numeric(a) && Numeric(b)
    ensures CompareVersions(a, b) == 0 <==> Same(Split(a, '.'), Split(b, '.'))
    ensures CompareVersions(a, b) < 0 <==> Below(Split(a, '.'), Split(b, '.'))
    ensures CompareVersions(a, b) > 0 <==> Below(Split(b, '.'), Split(a, '.'))
  {
    ComparesParts(Split(a, '.'), Split(b, '.'));
  }

  lemma BelowTransitive(a: seq<string>, b: seq<string>, c: seq<string>)
    requires NumericParts(a) && NumericParts(b) && NumericParts(c) && !Below(b, a) && !Below(c, b)
    ensures !Below(c, a)
  {
    if Below(c, a) {
      var i: nat :| DiffersFirstAt(c, a, i) && At(c, i) < At(a, i);
      MiddleDecides(a, b, c, i);
    }
  }

  /** Where `c` first falls below `a`, one of the two neighbours falls too. */
  lemma MiddleDecides(a: seq<string>, b: seq<string>, c: seq<string>, i: nat)
    requires NumericParts(a) && NumericParts(b) && NumericParts(c) && DiffersFirstAt(c, a, i) && At(c, i) < At(a, i)
    ensures Below(b, a) || Below(c, b)
  {
    var k := FirstDifference(a, b, 0);
    if Same(a, b) {
      assert DiffersFirstAt(c, b, i);
    } else if At(b, k) < At(a, k) && k <= i {
      assert DiffersFirstAt(b, a, k);
    } else if k < i || (k == i && At(c, i) < At(b, i)) {
      assert DiffersFirstAt(c, b, k);
    } else {
      assert k > i;
      assert DiffersFirstAt(c, b, i);
    }
  }

  lemma PreorderParts(a: seq<string>, b: seq<string>, c: seq<string>)
    requires NumericParts(a) && NumericParts(b) && NumericParts(c)
    ensures CompareFrom(a, a, 0) == 0
    ensures CompareFrom(a, b, 0) == -CompareFrom(b, a, 0)
    ensures CompareFrom(a, b, 0) <= 0 && CompareFrom(b, c, 0) <= 0 ==> CompareFrom(a, c, 0) <= 0
  {
    ComparesParts(a, a);
    ComparesParts(a, b);
    ComparesParts(b, a);
    ComparesParts(b, c);
    ComparesParts(a, c);
    if !Below(b, a) && !Below(c, b) {
      BelowTransitive(a, b, c);
    }
  }

  /** On numeric versions the comparison is a total preorder, and antisymmetric in sign. */
  lemma TotalPreorder(a: string, b: string, c: string)
    requires Numeric(a) && Numeric(b) && Numeric(c)
    ensures CompareVersions(a, a) == 0
    ensures CompareVersions(a, b) == -CompareVersions(b, a)
    ensures CompareVersions(a, b) <= 0 && CompareVersions(b, c) <= 0 ==> CompareVersions(a, c) <= 0
  {
    PreorderParts(Split(a, '.'), Split(b, '.'), Split(c, '.'));
  }
}
