/** internal/attest/policy.go: what an image's policy expects of the quoted PCRs. */
module Policy {
  import opened Common
  import opened Text

  const BANK := "sha256"
  const PHASE_INITRD := "enter-initrd"
  const PHASE_READY := "enter-initrd:leave-initrd:sysinit:ready"
  const PCR_UKI: nat := 11
  const PCR_SYSEXT: nat := 13
  const MAX_PCR: int := 23
  const STAGE_INITRD := "initrd"
  const STAGE_READY := "ready"

  const FIRMWARE_PCRS: seq<nat> := [0, 1, 2, 3, 4, 5, 6, 7]
  const GOLDEN_FIRMWARE_PCRS: seq<nat> := [0, 2, 3, 4, 6, 7]
  const GOLDEN_INDEXES: seq<nat> := GOLDEN_FIRMWARE_PCRS + [PCR_SYSEXT]

  datatype Policy = Policy(
    pcr11: map<string, string>, pcr13: map<string, string>,
    golden: map<string, map<int, string>>, goldenFirmware: Option<string>, kubernetesVersion: string)

  predicate ValidStage(stage: string) {
    stage == STAGE_INITRD || stage == STAGE_READY
  }

  function PhaseFor(stage: string): string {
    if stage == STAGE_READY then PHASE_READY else PHASE_INITRD
  }

  function RequiredPCRs(stage: string): seq<nat> {
    FIRMWARE_PCRS + [PCR_UKI] + if stage == STAGE_READY then [PCR_SYSEXT] else []
  }

  /** The PCRs compared at a stage, in the order they are compared. */
  function ComparedPCRs(stage: string): seq<nat> {
    GOLDEN_FIRMWARE_PCRS + if stage == STAGE_READY then [PCR_SYSEXT] else []
  }

  // ---------------------------------------------------------------- well-formed policies

  predicate IsDigest(v: string) {
    HexDecode(v).Some? && |HexDecode(v).value| == 32
  }

  predicate WellFormed(p: Policy) {
    && PHASE_INITRD in p.pcr11 && IsDigest(p.pcr11[PHASE_INITRD])
    && PHASE_READY in p.pcr11 && IsDigest(p.pcr11[PHASE_READY])
    && VersionsWellFormed(p.pcr13)
    && (p.goldenFirmware.Some? ==> IsDigest(p.goldenFirmware.value))
    && (forall bank :: bank in p.golden ==> bank == BANK)
    && (BANK in p.golden ==> GoldenWellFormed(p.golden[BANK]))
  }

  predicate GoldenWellFormed(values: map<int, string>) {
    forall i :: i in values ==> 0 <= i <= MAX_PCR && IsDigest(values[i])
  }

  predicate VersionsWellFormed(versions: map<string, string>) {
    forall version :: version in versions ==> version != "" && IsDigest(versions[version])
  }

  predicate IsHexDigit(c: char) {
    '0' <= c <= '9' || 'a' <= c <= 'f' || 'A' <= c <= 'F'
  }

  lemma {:induction false} HexTextMeans(v: string)
    ensures HexDecode(v).Some? <==> |v| % 2 == 0 && forall i :: 0 <= i < |v| ==> IsHexDigit(v[i])
  {
    if |v| >= 2 {
      HexTextMeans(v[2..]);
      assert IsHexDigit(v[0]) <==> HexValue(v[0]).Some?;
      assert IsHexDigit(v[1]) <==> HexValue(v[1]).Some?;
      assert forall i :: 2 <= i < |v| ==> v[i] == v[2..][i - 2];
    }
  }

  /** A digest is 64 hex digits. */
  predicate SixtyFourDigits(v: string) {
    |v| == 64 && forall i :: 0 <= i < 64 ==> IsHexDigit(v[i])
  }

  lemma DigestMeans(v: string)
    ensures IsDigest(v) <==> SixtyFourDigits(v)
  {
    HexTextMeans(v);
  }

  /** What Validate accepts, entry by entry. */
  lemma WellFormedMeans(p: Policy)
    ensures WellFormed(p) <==>
              && "enter-initrd" in p.pcr11 && SixtyFourDigits(p.pcr11["enter-initrd"])
              && "enter-initrd:leave-initrd:sysinit:ready" in p.pcr11
              && SixtyFourDigits(p.pcr11["enter-initrd:leave-initrd:sysinit:ready"])
              && (forall version :: version in p.pcr13 ==> version != "" && SixtyFourDigits(p.pcr13[version]))
              && (p.goldenFirmware.Some? ==> SixtyFourDigits(p.goldenFirmware.value))
              && (forall bank :: bank in p.golden ==> bank == "sha256")
              && ("sha256" in p.golden ==> forall i :: i in p.golden["sha256"] ==>
                    0 <= i <= 23 && SixtyFourDigits(p.golden["sha256"][i]))
  {
    forall v ensures IsDigest(v) <==> SixtyFourDigits(v) {
      DigestMeans(v);
    }
  }

  method ValidateGolden(values: map<int, string>) returns (ok: bool)
    ensures ok <==> GoldenWellFormed(values)
  {
    var todo: set<int> := values.Keys;
    while todo != {}
      invariant todo <= values.Keys
      invariant forall i :: i in values && i !in todo ==> 0 <= i <= MAX_PCR && IsDigest(values[i])
      decreases todo
    {
      var i := AnyOf(todo);
      if i < 0 || i > MAX_PCR || !IsDigest(values[i]) {
        return false;
      }
      todo := todo - {i};
    }
    return true;
  }

  method ValidateVersions(versions: map<string, string>) returns (ok: bool)
    ensures ok <==> VersionsWellFormed(versions)
  {
    var todo := versions.Keys;
    while todo != {}
      invariant todo <= versions.Keys
      invariant forall v :: v in versions && v !in todo ==> v != "" && IsDigest(versions[v])
      decreases todo
    {
      var v :| v in todo;
      if v == "" || !IsDigest(versions[v]) {
        return false;
      }
      todo := todo - {v};
    }
    return true;
  }

  /** Validate: both phases, well-formed entries, the sha256 bank only. */
  method Validate(p: Policy) returns (ok: bool)
    ensures ok <==> WellFormed(p)
  {
    var phases := [PHASE_INITRD, PHASE_READY];
    for n := 0 to |phases|
      invariant forall k :: 0 <= k < n ==> phases[k] in p.pcr11 && IsDigest(p.pcr11[phases[k]])
    {
      if phases[n] !in p.pcr11 || !IsDigest(p.pcr11[phases[n]]) {
        return false;
      }
    }
    assert phases[0] == PHASE_INITRD && phases[1] == PHASE_READY;
    ok := ValidateVersions(p.pcr13);
    if !ok || (p.goldenFirmware.Some? && !IsDigest(p.goldenFirmware.value)) {
      return false;
    }
    var banks := p.golden.Keys;
    while banks != {}
      invariant banks <= p.golden.Keys
      invariant forall b :: b in p.golden && b !in banks ==> b == BANK && GoldenWellFormed(p.golden[b])
      decreases banks
    {
      var b :| b in banks;
      if b != BANK {
        return false;
      }
      ok := ValidateGolden(p.golden[b]);
      if !ok {
        return false;
      }
      banks := banks - {b};
    }
    return true;
  }

  // ---------------------------------------------------------------- expected values

  function Golden(p: Policy, index: nat): Option<string> {
    if BANK in p.golden && index in p.golden[BANK] then Some(ToLower(p.golden[BANK][index])) else None
  }

  /**
   * The value a quoted PCR must have: for PCR 13 the entry of the VM's Kubernetes version first, else the
   * golden value.
   */
  function Expected(p: Policy, index: nat): Option<string> {
    if index == PCR_SYSEXT && p.kubernetesVersion != "" && p.kubernetesVersion in p.pcr13 then
      Some(ToLower(p.pcr13[p.kubernetesVersion]))
    else Golden(p, index)
  }

  /** An expected value of a well-formed policy is a digest: comparing text compares its 32 bytes. */
  lemma ExpectedIsDigest(p: Policy, index: nat) returns (digest: seq<byte>)
    requires WellFormed(p) && Expected(p, index).Some?
    ensures |digest| == 32
    ensures forall v: seq<byte> :: HexEncode(v) == Expected(p, index).value <==> v == digest
  {
    var text := if index == PCR_SYSEXT && p.kubernetesVersion != "" && p.kubernetesVersion in p.pcr13
      then p.pcr13[p.kubernetesVersion] else p.golden[BANK][index];
    digest := HexDecode(text).value;
    forall v: seq<byte> ensures HexEncode(v) == ToLower(text) <==> v == digest {
      HexComparesBytes(v, text);
    }
  }

  /** GoldenFromPCRs: the golden indexes a quote covered. */
  method GoldenFromPCRs(pcrs: map<nat, string>) returns (out: map<int, string>)
    ensures forall i: int :: i in out <==> i in GOLDEN_INDEXES && i in pcrs
    ensures forall i: int :: i in out ==> out[i] == pcrs[i]
  {
    out := map[];
    for n := 0 to |GOLDEN_INDEXES|
      invariant forall i: int :: i in out <==> i in GOLDEN_INDEXES[..n] && i in pcrs
      invariant forall i: int :: i in out ==> out[i] == pcrs[i]
    {
      var i := GOLDEN_INDEXES[n];
      assert GOLDEN_INDEXES[..n + 1] == GOLDEN_INDEXES[..n] + [i];
      if i in pcrs {
        out := out[i := pcrs[i]];
      }
    }
    assert GOLDEN_INDEXES[..|GOLDEN_INDEXES|] == GOLDEN_INDEXES;
  }
}
