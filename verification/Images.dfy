/** internal/images: the image catalog and how references resolve. */
module Images {
  import opened Common
  import opened Text
  import opened VersionOrder
  import opened Versions

  datatype Image = Image(id: string, version: string)

  function Ref(i: Image): string {
    i.id + "_" + i.version
  }

  // ---------------------------------------------------------------- names

  function LastUnderscore(s: string): (r: Option<nat>)
    ensures r.Some? ==> r.value < |s| && s[r.value] == '_' && '_' !in s[r.value + 1..]
    ensures r.None? ==> '_' !in s
  {
    if s == "" then None
    else if s[|s| - 1] == '_' then Some(|s| - 1)
    else
      var rest := s[..|s| - 1];
      var r := LastUnderscore(rest);
      assert s == rest + [s[|s| - 1]];
      assert r.Some? ==> s[r.value + 1..] == rest[r.value + 1..] + [s[|s| - 1]];
      r
  }

  /** splitStem: at the last underscore, with both halves non-empty. */
  function SplitStem(stem: string): Option<Image> {
    var i := LastUnderscore(stem);
    if i.None? || i.value == 0 || i.value == |stem| - 1 then None
    else Some(Image(stem[..i.value], stem[i.value + 1..]))
  }

  predicate WellNamed(i: Image) {
    i.id != "" && i.version != "" && '_' !in i.version
  }

  /** A stem that splits is the reference of the image it names, and no other image's. */
  lemma StemIsRef(stem: string)
    ensures SplitStem(stem).Some? ==> WellNamed(SplitStem(stem).value) && Ref(SplitStem(stem).value) == stem
  {
    if SplitStem(stem).Some? {
      var i := LastUnderscore(stem).value;
      assert stem == stem[..i] + "_" + stem[i + 1..];
    }
  }

  lemma RefInjective(a: Image, b: Image)
    requires WellNamed(a) && WellNamed(b) && Ref(a) == Ref(b)
    ensures a == b
  {
    var s, n, m := Ref(a), |a.id|, |b.id|;
    assert s[n] == '_' && s[m] == '_';
    assert s[n + 1..] == a.version && s[m + 1..] == b.version;
    forall i | n < i < |s| ensures s[i] != '_' {
      assert s[i] == a.version[i - n - 1];
    }
    forall i | m < i < |s| ensures s[i] != '_' {
      assert s[i] == b.version[i - m - 1];
    }
    assert a.id == s[..n] && b.id == s[..m];
  }

  // ---------------------------------------------------------------- the order of ids

  lemma {:induction false} PrefixFirst(x: string, rest: string)
    requires rest != ""
    ensures CompareText(x, x + rest) < 0
  {
    if x != "" {
      PrefixFirst(x[1..], rest);
      assert (x + rest)[1..] == x[1..] + rest;
    }
  }

  // ---------------------------------------------------------------- the order of images

  /** By id, and the versions of an id from the highest down. */
  predicate InOrder(a: Image, b: Image) {
    CompareText(a.id, b.id) < 0 || (a.id == b.id && CompareVersions(a.version, b.version) >= 0)
  }

  predicate Sorted(images: seq<Image>) {
    forall i, j :: 0 <= i < j < |images| ==> InOrder(images[i], images[j])
  }

  predicate AllNumeric(images: seq<Image>) {
    forall i :: 0 <= i < |images| ==> Numeric(images[i].version)
  }

  /** The comparison is an order on the versions of these three images. */
  predicate Orderable(a: Image, b: Image, c: Image) {
    VersionsTransitive(Split(a.version, '.'), Split(b.version, '.'), Split(c.version, '.'))
  }

  /** The comparison is an order on the versions of these images: no three of them are torn. */
  predicate Orderly(images: seq<Image>) {
    forall a, b, c {:trigger Orderable(a, b, c)} ::
      a in images && b in images && c in images ==> Orderable(a, b, c)
  }

  /** Numeric versions always are. */
  lemma NumericIsOrderly(images: seq<Image>)
    requires AllNumeric(images)
    ensures Orderly(images)
  {
    forall a, b, c | a in images && b in images && c in images ensures Orderable(a, b, c) {
      NumericOrderable(a, b, c);
    }
  }

  lemma NumericOrderable(a: Image, b: Image, c: Image)
    requires Numeric(a.version) && Numeric(b.version) && Numeric(c.version)
    ensures Orderable(a, b, c)
  {
    TotalPreorder(a.version, b.version, c.version);
    TotalPreorder(b.version, c.version, a.version);
    TotalPreorder(c.version, a.version, b.version);
    TotalPreorder(c.version, b.version, a.version);
    TotalPreorder(b.version, a.version, c.version);
    TotalPreorder(a.version, c.version, b.version);
  }

  lemma VersionSigns(a: string, b: string)
    ensures CompareVersions(a, b) == -CompareVersions(b, a)
  {
    PartsSigns(Split(a, '.'), Split(b, '.'), 0);
  }

  lemma InOrderTotal(a: Image, b: Image)
    ensures InOrder(a, b) || InOrder(b, a)
  {
    TextOrder(a.id, b.id);
    VersionSigns(a.version, b.version);
  }

  lemma InOrderTransitive(a: Image, b: Image, c: Image)
    requires Orderable(a, b, c) && InOrder(a, b) && InOrder(b, c)
    ensures InOrder(a, c)
  {
    TextOrder(a.id, b.id);
    TextOrder(b.id, c.id);
    TextOrder(a.id, c.id);
    if a.id == b.id == c.id {
      VersionSigns(a.version, b.version);
      VersionSigns(b.version, c.version);
      VersionSigns(a.version, c.version);
    } else {
      TextTransitive(a.id, b.id, c.id);
      if a.id == c.id {
        TextOrder(b.id, a.id);
      }
    }
  }

  function Insert(x: Image, s: seq<Image>): seq<Image> {
    if s == [] then [x]
    else if InOrder(x, s[0]) then [x] + s
    else [s[0]] + Insert(x, s[1..])
  }

  lemma {:induction false} InsertMembers(x: Image, s: seq<Image>)
    ensures multiset(Insert(x, s)) == multiset{x} + multiset(s)
  {
    if s != [] {
      InsertMembers(x, s[1..]);
      assert s == [s[0]] + s[1..];
    }
  }

  predicate Heads(x: Image, s: seq<Image>) {
    forall i :: 0 <= i < |s| ==> InOrder(x, s[i])
  }

  lemma {:induction false} InsertHeads(h: Image, x: Image, s: seq<Image>)
    requires InOrder(h, x) && Heads(h, s)
    ensures Heads(h, Insert(x, s))
  {
    if s != [] && !InOrder(x, s[0]) {
      InsertHeads(h, x, s[1..]);
    }
  }

  predicate Among(s: seq<Image>, images: seq<Image>) {
    forall i :: 0 <= i < |s| ==> s[i] in images
  }

  lemma {:induction false} InsertSorts(x: Image, s: seq<Image>, images: seq<Image>)
    requires Orderly(images) && x in images && Among(s, images) && Sorted(s)
    ensures Sorted(Insert(x, s))
  {
    if s != [] {
      if InOrder(x, s[0]) {
        forall i | 0 <= i < |s| ensures InOrder(x, s[i]) {
          if i > 0 {
            InOrderTransitive(x, s[0], s[i]);
          }
        }
      } else {
        InOrderTotal(x, s[0]);
        InsertSorts(x, s[1..], images);
        assert Heads(s[0], s[1..]);
        InsertHeads(s[0], x, s[1..]);
      }
    }
  }

  /** The first `n` images, sorted if their versions can be. */
  predicate SortedSoFar(found: seq<Image>, n: nat, sorted: seq<Image>) {
    n <= |found| && multiset(sorted) == multiset(found[..n]) && (Orderly(found) ==> Sorted(sorted))
  }

  lemma SameMembers(s: seq<Image>, t: seq<Image>)
    requires multiset(s) == multiset(t)
    ensures Among(s, t)
  {
    forall i | 0 <= i < |s| ensures s[i] in t {
      assert s[i] in multiset(s);
    }
  }

  lemma InsertedSoFar(found: seq<Image>, n: nat, sorted: seq<Image>)
    requires n < |found| && multiset(sorted) == multiset(found[..n])
    ensures multiset(Insert(found[n], sorted)) == multiset(found[..n + 1])
  {
    assert found[..n + 1] == found[..n] + [found[n]];
    InsertMembers(found[n], sorted);
  }

  lemma InsertNext(found: seq<Image>, n: nat, sorted: seq<Image>)
    requires n < |found| && SortedSoFar(found, n, sorted)
    ensures SortedSoFar(found, n + 1, Insert(found[n], sorted))
  {
    InsertedSoFar(found, n, sorted);
    if Orderly(found) {
      SameMembers(sorted, found[..n]);
      assert forall i :: 0 <= i < |sorted| ==> sorted[i] in found[..n];
      InsertSorts(found[n], sorted, found);
    }
  }

  // ---------------------------------------------------------------- lookups on the catalog

  predicate Matches(img: Image, ref: string) {
    Ref(img) == ref || img.id == ref
  }

  predicate FirstMatch(images: seq<Image>, ref: string, k: nat) {
    k < |images| && Matches(images[k], ref) && forall j :: 0 <= j < k ==> !Matches(images[j], ref)
  }

  /** No image twice; every image well named. */
  predicate Distinct(images: seq<Image>) {
    && (forall i :: 0 <= i < |images| ==> WellNamed(images[i]))
    && forall i, j :: 0 <= i < j < |images| ==> images[i] != images[j]
  }

  /** A full reference selects its image, whatever ids there are. */
  lemma RefSelectsImage(images: seq<Image>, j: nat, k: nat)
    requires Sorted(images) && Distinct(images) && j < |images| && FirstMatch(images, Ref(images[j]), k)
    ensures k == j
  {
    var img, ref := images[j], Ref(images[j]);
    PrefixFirst(img.id, "_" + img.version);
    assert img.id + ("_" + img.version) == ref;
    TextOrder(img.id, ref);
    if images[k].id != ref {
      RefInjective(images[k], img);
    }
  }

  ghost predicate Highest(images: seq<Image>, k: nat)
    requires k < |images|
  {
    forall j :: 0 <= j < |images| && images[j].id == images[k].id ==>
      CompareVersions(images[j].version, images[k].version) <= 0
  }

  /** An image of the same id further on has no higher version. */
  lemma NoneHigher(images: seq<Image>, id: string, k: nat, j: nat)
    requires Sorted(images) && FirstMatch(images, id, k) && images[k].id == id
    requires j < |images| && images[j].id == id
    ensures CompareVersions(images[j].version, images[k].version) <= 0
  {
    assert Matches(images[j], id);
    VersionSigns(images[j].version, images[k].version);
    if k < j {
      assert InOrder(images[k], images[j]);
      TextOrder(id, id);
    }
  }

  lemma FirstIsHighest(images: seq<Image>, id: string, k: nat)
    requires Sorted(images) && FirstMatch(images, id, k) && images[k].id == id
    ensures Highest(images, k)
  {
    forall j | 0 <= j < |images| && images[j].id == images[k].id
      ensures CompareVersions(images[j].version, images[k].version) <= 0
    {
      NoneHigher(images, id, k, j);
    }
  }

  /**
   * A bare id that an image has selects a highest version of it, if and only if it is not at the
   * same time some image's full reference.
   */
  lemma BareIdSelectsHighest(images: seq<Image>, id: string, k: nat)
    requires Sorted(images) && Distinct(images) && FirstMatch(images, id, k)
    requires exists j :: 0 <= j < |images| && images[j].id == id
    ensures images[k].id == id && Highest(images, k) <==> forall j :: 0 <= j < |images| ==> Ref(images[j]) != id
  {
    if j :| 0 <= j < |images| && Ref(images[j]) == id {
      RefSelectsImage(images, j, k);
      assert |images[k].id| < |id|;
    } else {
      FirstIsHighest(images, id, k);
    }
  }

  lemma DigitIsNumeric(d: char)
    requires Digit(d)
    ensures Numeric([d])
  {
    assert [d][1..] == "" && [d][..0] == "" && [d] + "" == [d];
    assert Split("", '.') == [""];
    assert Split([d], '.') == [[d] + ""];
    assert NumberOf("") == 0;
  }

  /** Such a clash in a list Refresh can make: the id "a_1" is also the reference of version 1 of "a". */
  lemma ReferenceHidesId()
    ensures var images := [Image("a", "1"), Image("a_1", "2")];
            && Distinct(images) && Sorted(images) && AllNumeric(images)
            && FirstMatch(images, "a_1", 0) && images[1].id == "a_1"
  {
    assert Ref(Image("a", "1")) == "a_1";
    DigitIsNumeric('1');
    DigitIsNumeric('2');
    assert CompareText("a", "a_1") == -1;
  }

  // ---------------------------------------------------------------- the catalog

  function Found(stems: seq<string>): seq<Image> {
    if stems == [] then []
    else
      var last := |stems| - 1;
      Found(stems[..last]) + if SplitStem(stems[last]).Some? then [SplitStem(stems[last]).value] else []
  }

  class Catalog {
    var images: seq<Image>

    constructor ()
      ensures images == []
    {
      images := [];
    }

    /** Refresh: every well-named image with a disk, sorted. */
    method Refresh(stems: seq<string>)
      modifies this
      ensures multiset(images) == multiset(Found(stems))
      ensures Orderly(Found(stems)) ==> Sorted(images) && Orderly(images)
    {
      var found: seq<Image> := [];
      for n := 0 to |stems|
        invariant found == Found(stems[..n])
      {
        assert stems[..n + 1][..n] == stems[..n];
        var img := SplitStem(stems[n]);
        if img.Some? {
          found := found + [img.value];
        }
      }
      assert stems[..|stems|] == stems;
      images := SortImages(found);
    }

    /** sort.Slice with the catalog's order. */
    static method SortImages(found: seq<Image>) returns (sorted: seq<Image>)
      ensures multiset(sorted) == multiset(found)
      ensures Orderly(found) ==> Sorted(sorted) && Orderly(sorted)
    {
      sorted := [];
      for n := 0 to |found|
        invariant SortedSoFar(found, n, sorted)
      {
        InsertNext(found, n, sorted);
        sorted := Insert(found[n], sorted);
      }
      assert found[..|found|] == found;
      SameMembers(sorted, found);
    }

    /** Get: the first image the reference matches. */
    method Get(ref: string) returns (r: Option<Image>)
      ensures r.None? <==> forall j :: 0 <= j < |images| ==>
                images[j].id != ref && images[j].id + "_" + images[j].version != ref
      ensures r.Some? ==> exists k: nat :: FirstMatch(images, ref, k) && r.value == images[k]
    {
      for n := 0 to |images|
        invariant forall j :: 0 <= j < n ==> !Matches(images[j], ref)
      {
        if Matches(images[n], ref) {
          assert FirstMatch(images, ref, n);
          return Some(images[n]);
        }
      }
      return None;
    }

    /** Default: a highest version overall, the first in catalog order among equals. */
    method Default() returns (r: Option<Image>)
      ensures r.None? <==> images == []
      ensures r.Some? && Orderly(images) ==>
                exists k: nat :: k < |images| && r.value == images[k] && Leads(images, k, |images|)
    {
      if images == [] {
        return None;
      }
      var best := 0;
      if Orderly(images) {
        FirstLeads(images);
      }
      for n := 1 to |images|
        invariant best < n
        invariant Orderly(images) ==> Leads(images, best, n)
      {
        var c := CompareByLoop(images[n].version, images[best].version);
        if Orderly(images) {
          VersionSigns(images[n].version, images[best].version);
          NextLeads(images, best, n, c);
        }
        if c > 0 {
          best := n;
        }
      }
      return Some(images[best]);
    }
  }

  predicate NotAbove(images: seq<Image>, j: nat, k: nat)
    requires j < |images| && k < |images|
  {
    CompareVersions(images[j].version, images[k].version) <= 0
  }

  predicate BelowImage(images: seq<Image>, j: nat, k: nat)
    requires j < |images| && k < |images|
  {
    CompareVersions(images[j].version, images[k].version) < 0
  }

  /** The `k`-th version is a highest of the first `n`, and the first such. */
  predicate Leads(images: seq<Image>, k: nat, n: nat)
    requires k < n <= |images|
  {
    (forall j :: 0 <= j < n ==> NotAbove(images, j, k)) && (forall j :: 0 <= j < k ==> BelowImage(images, j, k))
  }

  lemma FirstLeads(images: seq<Image>)
    requires images != [] && Orderly(images)
    ensures Leads(images, 0, 1)
  {
    VersionSigns(images[0].version, images[0].version);
  }

  lemma NextLeads(images: seq<Image>, best: nat, n: nat, c: int)
    requires best < n < |images| && Orderly(images) && Leads(images, best, n)
    requires c > 0 <==> BelowImage(images, best, n)
    requires c <= 0 <==> NotAbove(images, n, best)
    ensures if c > 0 then Leads(images, n, n + 1) else Leads(images, best, n + 1)
  {
    if c > 0 {
      forall j | 0 <= j < n ensures BelowImage(images, j, n) && NotAbove(images, j, n) {
        OvertakesAt(images, j, best, n);
      }
      VersionSigns(images[n].version, images[n].version);
      assert NotAbove(images, n, n);
    } else {
      assert NotAbove(images, n, best);
    }
  }

  lemma OvertakesAt(images: seq<Image>, j: nat, best: nat, n: nat)
    requires j < n && best < n < |images| && Orderly(images) && NotAbove(images, j, best)
    requires BelowImage(images, best, n)
    ensures BelowImage(images, j, n) && NotAbove(images, j, n)
  {
    Overtakes(images[j], images[best], images[n]);
  }

  /** A version above one that is not below another is above that one too. */
  lemma Overtakes(low: Image, middle: Image, high: Image)
    requires Orderable(low, middle, high)
    requires CompareVersions(low.version, middle.version) <= 0 && CompareVersions(middle.version, high.version) < 0
    ensures CompareVersions(low.version, high.version) < 0
  {
    VersionSigns(low.version, middle.version);
    VersionSigns(middle.version, high.version);
    VersionSigns(low.version, high.version);
  }
}
