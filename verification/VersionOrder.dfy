/**
 * internal/images: when the comparison of versions is an order. Numbers are compared as numbers and texts as
 * texts, but a number and a text by what they start with, and these orders need not agree.
 */
module VersionOrder {
  import opened Text
  import opened Versions

  /** The comparisons around three elements, each at most the next, do not all come out equal. */
  predicate Circle(pn: int, nq: int, qp: int) {
    pn <= 0 && nq <= 0 && qp <= 0 && !(pn == 0 && nq == 0 && qp == 0)
  }

  // ---------------------------------------------------------------- components

  predicate IsNumber(x: string) {
    Atoi(x).ok
  }

  lemma KeySigns(x: string, y: string)
    ensures CompareKeys(x, y) == -CompareKeys(y, x)
  {
  }

  /** A number and a text are compared by what they start with. */
  lemma MixedCompares(x: string, y: string)
    requires IsNumber(x) != IsNumber(y)
    ensures CompareComponent(x, y) == CompareKeys(x, y)
  {
  }

  lemma NumbersCompare(x: string, y: string)
    requires IsNumber(x) && IsNumber(y)
    ensures CompareComponent(x, y) == Cmp(Atoi(x).value, Atoi(y).value)
  {
  }

  lemma TextsCompare(x: string, y: string)
    requires !IsNumber(x) && !IsNumber(y)
    ensures CompareComponent(x, y) == CompareText(x, y)
  {
    TextOrder(x, y);
  }

  lemma ComponentSigns(x: string, y: string)
    ensures CompareComponent(x, y) == -CompareComponent(y, x)
  {
    if IsNumber(x) != IsNumber(y) {
      MixedCompares(x, y);
      MixedCompares(y, x);
      KeySigns(x, y);
    } else if IsNumber(x) {
      NumbersCompare(x, y);
      NumbersCompare(y, x);
    } else {
      TextsCompare(x, y);
      TextsCompare(y, x);
      TextOrder(x, y);
    }
  }

  predicate Precedes(x: string, y: string) {
    CompareComponent(x, y) <= 0
  }

  predicate Follows(x: string, y: string, z: string) {
    Precedes(x, y) && Precedes(y, z) ==> Precedes(x, z)
  }

  /** The comparison is transitive on three components, in whatever order they are taken. */
  predicate Transitive(x: string, y: string, z: string) {
    && Follows(x, y, z) && Follows(y, z, x) && Follows(z, x, y)
    && Follows(z, y, x) && Follows(y, x, z) && Follows(x, z, y)
  }

  /** `n` lies between two components by what they start with. */
  predicate Between(p: string, n: string, q: string) {
    CompareKeys(p, n) <= 0 && CompareKeys(n, q) <= 0
  }

  /** A number between two texts that are the other way round as texts. */
  predicate TextsTorn(p: string, n: string, q: string) {
    !IsNumber(p) && IsNumber(n) && !IsNumber(q) && Between(p, n, q) && CompareText(p, q) > 0
  }

  /** A text between two numbers that are the other way round as numbers, or equal but apart from the text. */
  predicate NumbersTorn(p: string, n: string, q: string) {
    && IsNumber(p) && !IsNumber(n) && IsNumber(q) && Between(p, n, q)
    && (Atoi(p).value > Atoi(q).value || (Atoi(p).value == Atoi(q).value && !Between(q, n, p)))
  }

  predicate Torn(p: string, n: string, q: string) {
    TextsTorn(p, n, q) || NumbersTorn(p, n, q)
  }

  predicate TornAmong(x: string, y: string, z: string) {
    || Torn(x, y, z) || Torn(y, z, x) || Torn(z, x, y)
    || Torn(z, y, x) || Torn(y, x, z) || Torn(x, z, y)
  }

  predicate ComponentCircle(p: string, n: string, q: string) {
    Circle(CompareComponent(p, n), CompareComponent(n, q), CompareComponent(q, p))
  }

  lemma TransitiveIffNoCircle(x: string, y: string, z: string)
    ensures Transitive(x, y, z) <==> !ComponentCircle(x, y, z) && !ComponentCircle(z, y, x)
  {
    ComponentSigns(x, y);
    ComponentSigns(y, z);
    ComponentSigns(x, z);
  }

  /** Components of one kind never form a circle. */
  lemma OneKindNoCircle(p: string, n: string, q: string)
    requires IsNumber(p) == IsNumber(n) == IsNumber(q)
    ensures !ComponentCircle(p, n, q)
  {
    TextOrder(p, n);
    TextOrder(n, q);
    TextOrder(q, p);
    if !IsNumber(p) && CompareText(p, n) <= 0 && CompareText(n, q) <= 0 {
      TextTransitive(p, n, q);
      if CompareText(q, p) <= 0 {
        TextTransitive(q, p, n);
        TextTransitive(n, q, p);
      }
    }
  }

  /** With the odd one in the middle, a circle is a tear. */
  lemma CircleIsTear(p: string, n: string, q: string)
    requires IsNumber(p) == IsNumber(q) != IsNumber(n)
    ensures ComponentCircle(p, n, q) <==> Torn(p, n, q)
  {
    MixedCompares(p, n);
    MixedCompares(n, q);
    KeySigns(p, n);
    KeySigns(n, q);
    if IsNumber(p) {
      NumbersCompare(q, p);
    } else {
      TextsCompare(q, p);
      TextOrder(q, p);
    }
  }

  lemma CircleIffTorn(p: string, n: string, q: string)
    ensures ComponentCircle(p, n, q) <==> Torn(p, n, q) || Torn(n, q, p) || Torn(q, p, n)
  {
    if IsNumber(p) == IsNumber(n) == IsNumber(q) {
      OneKindNoCircle(p, n, q);
    } else if IsNumber(p) == IsNumber(q) {
      CircleIsTear(p, n, q);
    } else if IsNumber(n) == IsNumber(p) {
      CircleIsTear(n, q, p);
    } else {
      CircleIsTear(q, p, n);
    }
  }

  /** On any three components the comparison is transitive if and only if none of their arrangements is torn. */
  lemma TransitiveIffUntorn(x: string, y: string, z: string)
    ensures Transitive(x, y, z) <==> !TornAmong(x, y, z)
  {
    TransitiveIffNoCircle(x, y, z);
    CircleIffTorn(x, y, z);
    CircleIffTorn(z, y, x);
  }

  /** Unsigned numbers are ordered alike both ways, so between them nothing tears. */
  lemma UnsignedNeverTorn(p: string, n: string, q: string)
    requires Fits(p) && Fits(q)
    ensures !NumbersTorn(p, n, q)
  {
    PlainParts(p);
    PlainParts(q);
  }

  /** The pre-release of a later version sorts below that of an earlier one, with the earlier release between them. */
  lemma PreReleasesCircle()
    ensures Torn("9-rc", "9", "10-rc")
    ensures CompareComponent("9-rc", "9") < 0 && CompareComponent("9", "10-rc") < 0
    ensures CompareComponent("10-rc", "9-rc") < 0
  {
    NoNumber("9-rc", 1);
    NoNumber("10-rc", 2);
    PlainParts("9");
    assert "9"[..0] == "" && Number("9") == 9;
    DigitPrefixUnique("9-rc", 1);
    assert "9-rc"[..1] == "9" && Lead("9-rc") == 9;
    DigitPrefixUnique("10-rc", 2);
    PlainParts("10");
    assert "10-rc"[..2] == "10" && "10"[..1] == "1" && "1"[..0] == "" && NumberOf("1") == 1 && Lead("10-rc") == 10;
    MixedCompares("9-rc", "9");
    MixedCompares("9", "10-rc");
    TextsCompare("10-rc", "9-rc");
    TextOrder("10-rc", "9-rc");
  }

  lemma NoNumber(x: string, i: nat)
    requires 0 < i < |x| && !Digit(x[i])
    ensures !IsNumber(x)
  {
    assert x[0] == '+' || x[0] == '-' ==> x[1..][i - 1] == x[i];
  }

  // ---------------------------------------------------------------- versions

  function ComparedAt(v: seq<string>, w: seq<string>, i: nat): int {
    CompareComponent(Component(v, i), Component(w, i))
  }

  lemma {:induction false} PartsSigns(a: seq<string>, b: seq<string>, i: nat)
    ensures CompareFrom(a, b, i) == -CompareFrom(b, a, i)
    decreases |a| + |b| - i
  {
    if i < |a| || i < |b| {
      ComponentSigns(Component(a, i), Component(b, i));
      PartsSigns(a, b, i + 1);
    }
  }

  predicate VersionFollows(a: seq<string>, b: seq<string>, c: seq<string>) {
    CompareFrom(a, b, 0) <= 0 && CompareFrom(b, c, 0) <= 0 ==> CompareFrom(a, c, 0) <= 0
  }

  predicate VersionsTransitive(a: seq<string>, b: seq<string>, c: seq<string>) {
    && VersionFollows(a, b, c) && VersionFollows(b, c, a) && VersionFollows(c, a, b)
    && VersionFollows(c, b, a) && VersionFollows(b, a, c) && VersionFollows(a, c, b)
  }

  /** At place `i` the three versions compare as equal. */
  predicate TiedAt(a: seq<string>, b: seq<string>, c: seq<string>, i: nat) {
    ComparedAt(a, b, i) == 0 && ComparedAt(b, c, i) == 0 && ComparedAt(c, a, i) == 0
  }

  predicate TiedUpTo(a: seq<string>, b: seq<string>, c: seq<string>, i: nat) {
    forall j: nat :: j < i ==> ComparedAt(a, b, j) == 0 && ComparedAt(b, c, j) == 0 && ComparedAt(c, a, j) == 0
  }

  /** A tie of the tear at place `i` is broken further on, the other way round. */
  predicate Mended(p: seq<string>, n: seq<string>, q: seq<string>, i: nat) {
    || (ComparedAt(p, n, i) == 0 && CompareFrom(p, n, i + 1) > 0)
    || (ComparedAt(n, q, i) == 0 && CompareFrom(n, q, i + 1) > 0)
    || (ComparedAt(q, p, i) == 0 && CompareFrom(q, p, i + 1) > 0)
  }

  /** Up to place `i` the versions are alike, there they are torn, and nothing mends it. */
  predicate TornAt(p: seq<string>, n: seq<string>, q: seq<string>, i: nat) {
    && TiedUpTo(p, n, q, i) && !Mended(p, n, q, i)
    && (|| Torn(Component(p, i), Component(n, i), Component(q, i))
        || Torn(Component(n, i), Component(q, i), Component(p, i))
        || Torn(Component(q, i), Component(p, i), Component(n, i)))
  }

  predicate VersionCircle(p: seq<string>, n: seq<string>, q: seq<string>) {
    Circle(CompareFrom(p, n, 0), CompareFrom(n, q, 0), CompareFrom(q, p, 0))
  }

  lemma VersionsTransitiveIffNoCircle(a: seq<string>, b: seq<string>, c: seq<string>)
    ensures VersionsTransitive(a, b, c) <==> !VersionCircle(a, b, c) && !VersionCircle(c, b, a)
  {
    PartsSigns(a, b, 0);
    PartsSigns(b, c, 0);
    PartsSigns(a, c, 0);
  }

  lemma {:induction false} SkipAlike(a: seq<string>, b: seq<string>, i: nat)
    requires forall j: nat :: j < i ==> ComparedAt(a, b, j) == 0
    ensures CompareFrom(a, b, 0) == CompareFrom(a, b, i)
  {
    if i > 0 {
      SkipAlike(a, b, i - 1);
      if i > |a| && i > |b| {
        assert CompareFrom(a, b, i) == 0;
      } else {
        assert ComparedAt(a, b, i - 1) == 0;
      }
    }
  }

  lemma PastTheEnd(a: seq<string>, b: seq<string>, i: nat)
    requires i >= |a| && i >= |b|
    ensures ComparedAt(a, b, i) == 0 && CompareFrom(a, b, i) == 0 == CompareFrom(a, b, i + 1)
  {
  }

  /** The place decides, or what comes after it. */
  lemma PlaceDecides(a: seq<string>, b: seq<string>, i: nat)
    requires forall j: nat :: j < i ==> ComparedAt(a, b, j) == 0
    ensures CompareFrom(a, b, 0) == if ComparedAt(a, b, i) != 0 then ComparedAt(a, b, i) else CompareFrom(a, b, i + 1)
  {
    SkipAlike(a, b, i);
    if i >= |a| && i >= |b| {
      PastTheEnd(a, b, i);
    }
  }

  /** A tear that is not mended makes a circle of versions, and one of components at that place. */
  lemma CircleAt(p: seq<string>, n: seq<string>, q: seq<string>, i: nat)
    requires TiedUpTo(p, n, q, i)
    ensures TornAt(p, n, q, i) ==> VersionCircle(p, n, q)
    ensures VersionCircle(p, n, q) && !TiedAt(p, n, q, i) ==> TornAt(p, n, q, i)
  {
    PlaceDecides(p, n, i);
    PlaceDecides(n, q, i);
    PlaceDecides(q, p, i);
    CircleIffTorn(Component(p, i), Component(n, i), Component(q, i));
  }

  /** The first place where three versions do not all compare as equal, or one past their ends. */
  lemma {:induction false} FirstApart(a: seq<string>, b: seq<string>, c: seq<string>, i: nat) returns (k: nat)
    requires TiedUpTo(a, b, c, i)
    ensures TiedUpTo(a, b, c, k)
    ensures (k >= |a| && k >= |b| && k >= |c|) || !TiedAt(a, b, c, k)
    decreases |a| + |b| + |c| - i
  {
    if (i >= |a| && i >= |b| && i >= |c|) || !TiedAt(a, b, c, i) {
      k := i;
    } else {
      k := FirstApart(a, b, c, i + 1);
    }
  }

  lemma VersionCircleIffTorn(p: seq<string>, n: seq<string>, q: seq<string>)
    ensures VersionCircle(p, n, q) <==> exists i: nat :: TornAt(p, n, q, i)
  {
    if i: nat :| TornAt(p, n, q, i) {
      CircleAt(p, n, q, i);
    }
    var k := FirstApart(p, n, q, 0);
    CircleAt(p, n, q, k);
    if k >= |p| && k >= |n| && k >= |q| {
      SkipAlike(p, n, k);
      SkipAlike(n, q, k);
      SkipAlike(q, p, k);
    }
  }

  /**
   * On any three versions the comparison is transitive, in whatever order they are taken, if and only if at no
   * place up to which they compare as equal they are torn for good.
   */
  lemma VersionsTransitiveIff(a: seq<string>, b: seq<string>, c: seq<string>)
    ensures VersionsTransitive(a, b, c) <==> forall i: nat :: !TornAt(a, b, c, i) && !TornAt(c, b, a, i)
  {
    VersionsTransitiveIffNoCircle(a, b, c);
    VersionCircleIffTorn(a, b, c);
    VersionCircleIffTorn(c, b, a);
  }

  /** Torn components without a tie tear any versions that end in them and are alike before. */
  lemma TornEnds(line: seq<string>, x: string, y: string, z: string)
    requires CompareComponent(x, y) < 0 && CompareComponent(y, z) < 0 && CompareComponent(z, x) < 0
    ensures VersionCircle(line + [x], line + [y], line + [z])
  {
    var p, n, q, i := line + [x], line + [y], line + [z], |line|;
    forall j: nat | j < i ensures ComparedAt(p, n, j) == 0 && ComparedAt(n, q, j) == 0 && ComparedAt(q, p, j) == 0 {
      assert p[j] == n[j] == q[j] == line[j];
    }
    assert p[i] == x && n[i] == y && q[i] == z;
    PlaceDecides(p, n, i);
    PlaceDecides(n, q, i);
    PlaceDecides(q, p, i);
  }

  /** So whatever release line they belong to, these three versions run in a circle. */
  lemma PreReleaseVersionsCircle(line: seq<string>)
    ensures VersionCircle(line + ["9-rc"], line + ["9"], line + ["10-rc"])
  {
    PreReleasesCircle();
    TornEnds(line, "9-rc", "9", "10-rc");
  }
}
