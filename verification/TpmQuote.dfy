/** internal/tpmquote: the PCR selection of a quote and the digest over the selected values. */
module TpmQuote {
  import opened Common
  import opened Text

  datatype Error = ErrMalformed | ErrBank | ErrPCRValue | ErrPCRDigest

  /** A hash algorithm a selection may name; `Other` is one without a PCR bank name. */
  datatype Alg = Sha1 | Sha256 | Sha384 | Sha512 | Other(id: nat)

  /** The hash functions by algorithm. */
  type Hashes = Alg -> seq<byte> -> seq<byte>

  datatype Selection = Selection(alg: Alg, bits: seq<bv8>)

  function BankName(alg: Alg): Option<string> {
    match alg
    case Sha1 => Some("sha1")
    case Sha256 => Some("sha256")
    case Sha384 => Some("sha384")
    case Sha512 => Some("sha512")
    case Other(_) => None
  }

  /** Digest size of a bank. */
  function BankSize(bank: string): (size: Option<nat>)
    ensures size.Some? ==> size.value > 0
  {
    if bank == "sha1" then Some(20)
    else if bank == "sha256" then Some(32)
    else if bank == "sha384" then Some(48)
    else if bank == "sha512" then Some(64)
    else None
  }

  // ---------------------------------------------------------------- the selection bitmap

  predicate BitSet(b: bv8, bit: nat)
    requires bit < 8
  {
    b & (1 as bv8 << bit) != 0
  }

  /** Bit n of a byte has the value 2^n; a byte has the bits of its parts. */
  lemma BitsMean(a: bv8, b: bv8, n: nat)
    requires n < 8
    ensures BitSet(a | b, n) <==> BitSet(a, n) || BitSet(b, n)
    ensures !BitSet(0, n)
    ensures BitSet(1, n) <==> n == 0
    ensures BitSet(2, n) <==> n == 1
    ensures BitSet(4, n) <==> n == 2
    ensures BitSet(8, n) <==> n == 3
    ensures BitSet(16, n) <==> n == 4
    ensures BitSet(32, n) <==> n == 5
    ensures BitSet(64, n) <==> n == 6
    ensures BitSet(128, n) <==> n == 7
  {
    if
    case n == 0 =>
    case n == 1 =>
    case n == 2 =>
    case n == 3 =>
    case n == 4 =>
    case n == 5 =>
    case n == 6 =>
    case n == 7 =>
  }

  /** PCR `i` is selected: bit `i % 8` of byte `i / 8`. */
  predicate Selects(bits: seq<bv8>, i: nat) {
    i / 8 < |bits| && BitSet(bits[i / 8], i % 8)
  }

  predicate Ascending(s: seq<nat>) {
    forall i, j :: 0 <= i < j < |s| ==> s[i] < s[j]
  }

  /** `idx` lists exactly the PCRs below `limit` that the bitmap selects, in ascending order. */
  ghost predicate ListsBelow(bits: seq<bv8>, idx: seq<nat>, limit: nat) {
    Ascending(idx) && forall i: nat :: i in idx <==> i < limit && Selects(bits, i)
  }

  ghost predicate Lists(bits: seq<bv8>, idx: seq<nat>) {
    ListsBelow(bits, idx, 8 * |bits|)
  }

  /** The list is determined by the bitmap. */
  lemma {:induction false} ListsUnique(bits: seq<bv8>, a: seq<nat>, b: seq<nat>, limit: nat)
    requires ListsBelow(bits, a, limit) && ListsBelow(bits, b, limit)
    ensures a == b
    decreases limit
  {
    if limit == 0 {
      NoMembers(a);
      NoMembers(b);
    } else {
      var top := limit - 1;
      var a' := Below(bits, a, limit);
      var b' := Below(bits, b, limit);
      ListsUnique(bits, a', b', top);
    }
  }

  lemma NoMembers(a: seq<nat>)
    requires forall x: nat :: x !in a
    ensures a == []
  {
    if a != [] {
      FirstMember(a);
      assert false;
    }
  }

  lemma FirstMember(a: seq<nat>)
    requires a != []
    ensures a[0] in a
  {
  }

  lemma Below(bits: seq<bv8>, a: seq<nat>, limit: nat) returns (a': seq<nat>)
    requires limit > 0 && ListsBelow(bits, a, limit)
    ensures ListsBelow(bits, a', limit - 1)
    ensures a == if Selects(bits, limit - 1) then a' + [limit - 1] else a'
  {
    if Selects(bits, limit - 1) {
      var k :| 0 <= k < |a| && a[k] == limit - 1;
      assert a[|a| - 1] in a;
      assert k == |a| - 1;
      a' := a[..k];
      assert a == a' + [limit - 1];
      forall i: nat ensures i in a' <==> i < limit - 1 && Selects(bits, i) {
        assert i in a <==> i in a' || i == limit - 1;
      }
    } else {
      a' := a;
    }
  }

  lemma ListExtended(bits: seq<bv8>, idx: seq<nat>, i: nat)
    requires ListsBelow(bits, idx, i)
    ensures ListsBelow(bits, if Selects(bits, i) then idx + [i] else idx, i + 1)
  {
    forall j: nat ensures j in idx + [i] <==> j in idx || j == i {
    }
    forall k | 0 <= k < |idx| ensures idx[k] < i {
      assert idx[k] in idx;
    }
  }

  /** The indexes of one bitmap, bit by bit. */
  method SelectedIndexes(bits: seq<bv8>) returns (idx: seq<nat>)
    ensures Lists(bits, idx)
  {
    idx := [];
    for n := 0 to |bits|
      invariant ListsBelow(bits, idx, 8 * n)
    {
      for bit := 0 to 8
        invariant ListsBelow(bits, idx, 8 * n + bit)
      {
        var i := 8 * n + bit;
        ListExtended(bits, idx, i);
        assert i / 8 == n && i % 8 == bit;
        if BitSet(bits[n], bit) {
          idx := idx + [i];
        }
      }
    }
  }

  /** Positions of the selections that select something. */
  predicate Empty(s: Selection) {
    forall i :: 0 <= i < 8 * |s.bits| ==> !Selects(s.bits, i)
  }

  lemma ListOfEmpty(s: Selection, idx: seq<nat>)
    requires Lists(s.bits, idx)
    ensures idx == [] <==> Empty(s)
  {
    if idx != [] {
      assert idx[0] in idx;
    }
  }

  datatype Selected = Selected(bank: string, pcrs: seq<nat>)

  /** The selection is exactly one bank the verifier knows; every other bitmap is empty. */
  ghost predicate OneBank(sel: seq<Selection>, k: nat, r: Selected) {
    && k < |sel| && BankName(sel[k].alg) == Some(r.bank) && Lists(sel[k].bits, r.pcrs) && r.pcrs != []
    && forall j :: 0 <= j < |sel| && j != k ==> Empty(sel[j])
  }

  /** Two selections select PCRs and the first names a known bank. */
  ghost predicate TwoBanks(sel: seq<Selection>) {
    exists j, k :: 0 <= j < k < |sel| && !Empty(sel[j]) && !Empty(sel[k]) && BankName(sel[j].alg).Some?
                   && forall i :: 0 <= i < j ==> Empty(sel[i])
  }

  /** The first selection that selects PCRs names no bank. */
  ghost predicate UnknownBank(sel: seq<Selection>) {
    exists j :: 0 <= j < |sel| && !Empty(sel[j]) && BankName(sel[j].alg).None?
                && forall i :: 0 <= i < j ==> Empty(sel[i])
  }

  /** decodeSelection: exactly one bank, its indexes in ascending order; anything else is refused. */
  method DecodeSelection(sel: seq<Selection>) returns (r: Result<Selected, Error>)
    ensures r.Ok? ==> exists k: nat :: OneBank(sel, k, r.value)
    ensures (exists k: nat, v :: OneBank(sel, k, v)) ==> r.Ok?
    ensures r == Err(ErrBank) ==> UnknownBank(sel)
    ensures r == Err(ErrMalformed) ==> (forall j :: 0 <= j < |sel| ==> Empty(sel[j])) || TwoBanks(sel)
    ensures r.Err? ==> r.error == ErrBank || r.error == ErrMalformed
  {
    var bank := "";
    var pcrs: seq<nat> := [];
    ghost var at := 0;
    for n := 0 to |sel|
      invariant bank == "" ==> forall j :: 0 <= j < n ==> Empty(sel[j])
      invariant bank != "" ==> at < n && BankName(sel[at].alg) == Some(bank) && Lists(sel[at].bits, pcrs) && pcrs != []
      invariant bank != "" ==> forall j :: 0 <= j < n && j != at ==> Empty(sel[j])
    {
      var idx := SelectedIndexes(sel[n].bits);
      ListOfEmpty(sel[n], idx);
      if idx != [] {
        if bank != "" {
          ListOfEmpty(sel[at], pcrs);
          assert TwoBanks(sel);
          return Err(ErrMalformed);
        }
        var name := BankName(sel[n].alg);
        if name.None? {
          assert UnknownBank(sel);
          return Err(ErrBank);
        }
        bank, pcrs, at := name.value, idx, n;
      }
    }
    if bank == "" {
      forall k: nat, v | OneBank(sel, k, v) ensures false {
        ListOfEmpty(sel[k], v.pcrs);
      }
      return Err(ErrMalformed);
    }
    assert OneBank(sel, at, Selected(bank, pcrs));
    return Ok(Selected(bank, pcrs));
  }

  /** What DecodeSelection answers, as a function: it is unique. */
  lemma OneBankUnique(sel: seq<Selection>, j: nat, k: nat, a: Selected, b: Selected)
    requires OneBank(sel, j, a) && OneBank(sel, k, b)
    ensures a == b
  {
    ListOfEmpty(sel[j], a.pcrs);
    ListOfEmpty(sel[k], b.pcrs);
    ListsUnique(sel[j].bits, a.pcrs, b.pcrs, 8 * |sel[j].bits|);
  }

  // ---------------------------------------------------------------- the PCR digest

  type Values = map<nat, seq<byte>>

  /** Every selected PCR has a value. */
  predicate Complete(selection: seq<nat>, values: Values) {
    forall i :: i in selection ==> i in values && values[i] != []
  }

  /** The selected values one after the other. */
  function Concatenated(selection: seq<nat>, values: Values): seq<byte>
    requires Complete(selection, values)
  {
    if selection == [] then []
    else
      var last := |selection| - 1;
      Concatenated(selection[..last], values) + values[selection[last]]
  }

  function Insert(x: nat, s: seq<nat>): seq<nat> {
    if s == [] || x <= s[0] then [x] + s else [s[0]] + Insert(x, s[1..])
  }

  /** sort.Ints. */
  function Sort(s: seq<nat>): (r: seq<nat>)
    ensures forall i :: i in r <==> i in s
  {
    if s == [] then []
    else
      InsertMembers(s[0], Sort(s[1..]));
      assert s == [s[0]] + s[1..];
      Insert(s[0], Sort(s[1..]))
  }

  lemma {:induction false} InsertMembers(x: nat, s: seq<nat>)
    ensures forall i :: i in Insert(x, s) <==> i == x || i in s
  {
    if s != [] && x > s[0] {
      InsertMembers(x, s[1..]);
      assert s == [s[0]] + s[1..];
    }
  }

  lemma {:induction false} SortAscending(s: seq<nat>)
    requires Ascending(s)
    ensures Sort(s) == s
  {
    if s != [] {
      SortAscending(s[1..]);
      assert s == [s[0]] + s[1..];
    }
  }

  /** PCRDigest: the hash over the selected values in ascending index order. */
  method PCRDigest(hash: seq<byte> -> seq<byte>, selection: seq<nat>, values: Values)
      returns (r: Result<seq<byte>, Error>)
    ensures r.Ok? <==> Complete(selection, values)
    ensures r.Ok? ==> r.value == hash(Concatenated(Sort(selection), values))
    ensures r.Err? ==> r.error == ErrPCRValue
  {
    var idx := Sort(selection);
    var written: seq<byte> := [];
    for n := 0 to |idx|
      invariant Complete(idx[..n], values)
      invariant written == Concatenated(idx[..n], values)
    {
      assert idx[..n + 1][..n] == idx[..n];
      if idx[n] !in values || values[idx[n]] == [] {
        assert idx[n] in selection;
        return Err(ErrPCRValue);
      }
      written := written + values[idx[n]];
    }
    assert idx[..|idx|] == idx;
    return Ok(hash(written));
  }

  datatype Quote = Quote(bank: string, pcrs: seq<nat>, pcrDigest: seq<byte>)

  /** VerifyPCRs: values of the bank's size that reproduce the quoted digest. */
  method VerifyPCRs(hash: seq<byte> -> seq<byte>, q: Quote, values: Values) returns (r: Result<(), Error>)
    ensures r.Ok? <==> Verifies(hash, q, values)
  {
    var size := BankSize(q.bank);
    if size.None? {
      return Err(ErrBank);
    }
    for n := 0 to |q.pcrs|
      invariant forall k :: 0 <= k < n && q.pcrs[k] in values ==> |values[q.pcrs[k]]| == size.value
    {
      if q.pcrs[n] in values && |values[q.pcrs[n]]| != size.value {
        return Err(ErrPCRValue);
      }
    }
    var got := PCRDigest(hash, q.pcrs, values);
    if got.Err? {
      return Err(got.error);
    }
    if got.value != q.pcrDigest {
      return Err(ErrPCRDigest);
    }
    return Ok(());
  }

  /** All selected values present, each of the given size. */
  predicate Sized(pcrs: seq<nat>, values: Values, size: nat) {
    forall i :: i in pcrs ==> i in values && |values[i]| == size
  }

  predicate Verifies(hash: seq<byte> -> seq<byte>, q: Quote, values: Values) {
    var size := BankSize(q.bank);
    size.Some? && Sized(q.pcrs, values, size.value) && hash(Concatenated(Sort(q.pcrs), values)) == q.pcrDigest
  }

  // ---------------------------------------------------------------- what an accepted digest means

  ghost predicate Injective(hash: seq<byte> -> seq<byte>) {
    forall a, b :: hash(a) == hash(b) ==> a == b
  }

  /** Blocks of one size can be read back from their concatenation. */
  lemma {:induction false} ConcatenationUnambiguous(pcrs: seq<nat>, a: Values, b: Values, size: nat)
    requires Complete(pcrs, a) && Complete(pcrs, b) && Sized(pcrs, a, size) && Sized(pcrs, b, size)
    requires Concatenated(pcrs, a) == Concatenated(pcrs, b)
    ensures forall i :: i in pcrs ==> a[i] == b[i]
  {
    if pcrs != [] {
      var last := |pcrs| - 1;
      var x, y := Concatenated(pcrs[..last], a), Concatenated(pcrs[..last], b);
      ConcatenatedSize(pcrs[..last], a, size);
      ConcatenatedSize(pcrs[..last], b, size);
      assert x == (x + a[pcrs[last]])[..|x|] && y == (y + b[pcrs[last]])[..|y|];
      assert a[pcrs[last]] == (x + a[pcrs[last]])[|x|..] && b[pcrs[last]] == (y + b[pcrs[last]])[|y|..];
      ConcatenationUnambiguous(pcrs[..last], a, b, size);
      assert pcrs == pcrs[..last] + [pcrs[last]];
    }
  }

  lemma {:induction false} ConcatenatedSize(pcrs: seq<nat>, a: Values, size: nat)
    requires Complete(pcrs, a) && Sized(pcrs, a, size)
    ensures |Concatenated(pcrs, a)| == |pcrs| * size
  {
    if pcrs != [] {
      var last := |pcrs| - 1;
      ConcatenatedSize(pcrs[..last], a, size);
      assert |pcrs| * size == last * size + size;
    }
  }

  /** The n-th block of the concatenation is the value of the n-th PCR. */
  lemma {:induction false} BlockAt(pcrs: seq<nat>, a: Values, size: nat, n: nat)
    requires Complete(pcrs, a) && Sized(pcrs, a, size) && n < |pcrs|
    ensures n * size + size <= |Concatenated(pcrs, a)|
    ensures Concatenated(pcrs, a)[n * size..n * size + size] == a[pcrs[n]]
  {
    var last := |pcrs| - 1;
    ConcatenatedSize(pcrs[..last], a, size);
    var front := Concatenated(pcrs[..last], a);
    if n == last {
      assert (front + a[pcrs[n]])[|front|..|front| + size] == a[pcrs[n]];
    } else {
      BlockAt(pcrs[..last], a, size, n);
      assert (front + a[pcrs[last]])[n * size..n * size + size] == front[n * size..n * size + size];
    }
  }

  lemma {:induction false} SameConcatenation(pcrs: seq<nat>, a: Values, b: Values)
    requires Complete(pcrs, a) && Complete(pcrs, b) && forall i :: i in pcrs ==> a[i] == b[i]
    ensures Concatenated(pcrs, a) == Concatenated(pcrs, b)
  {
    if pcrs != [] {
      SameConcatenation(pcrs[..|pcrs| - 1], a, b);
    }
  }

  /**
   * With an injective hash, VerifyPCRs accepts exactly the values the TPM had in the selected PCRs
   * when it quoted them: pcrDigest is the hash of their concatenation in ascending index order,
   * as TPM2_Quote of the TPM 2.0 Library, Part 3, section 18.4, computes it.
   */
  lemma VerifiesIffQuoted(hash: seq<byte> -> seq<byte>, q: Quote, quoted: Values, values: Values)
    requires Injective(hash) && Ascending(q.pcrs) && BankSize(q.bank).Some?
    requires Sized(q.pcrs, quoted, BankSize(q.bank).value)
    requires q.pcrDigest == hash(Concatenated(q.pcrs, quoted))
    ensures Verifies(hash, q, values) <==> forall i :: i in q.pcrs ==> i in values && values[i] == quoted[i]
  {
    SortAscending(q.pcrs);
    if Verifies(hash, q, values) {
      ConcatenationUnambiguous(q.pcrs, values, quoted, BankSize(q.bank).value);
    }
    if forall i :: i in q.pcrs ==> i in values && values[i] == quoted[i] {
      SameConcatenation(q.pcrs, values, quoted);
    }
  }
}
