/** internal/attest/verifier.go: judging guest quotes. */
module Verifier {
  import opened Common
  import opened Text
  import opened TpmQuote
  import opened Policy
  import NonceStore

  /** The fingerprint of an attestation key, the hex digest of its public area. */
  type Fingerprint = s: string | s != "" witness "0"

  /** What go-tpm makes of quote, signature and ak_pub: `alg` is the signature's hash, `signed` the outcome of its check. */
  datatype Attest =
    | Undecodable
    | Attest(selection: seq<Selection>, extraData: seq<byte>, pcrDigest: seq<byte>, fingerprint: Fingerprint, alg: Alg,
             signed: bool)

  /** A quote request; `pcrs` is its sha256 bank, index text to hex value. */
  datatype Request = Request(stage: string, nonce: string, pcrs: map<string, string>, attest: Attest)

  /** The PolicyProvider's answer. */
  datatype PolicyAnswer = Found(policy: Policy) | Missing | Broken

  datatype Reason =
    | Verified | BadNonce | BadStage | NoPolicy | BadQuote | BadSignature | NonceMismatch | WrongBank | BadPCRs
    | BadDigest | PCRsMissing | PinMismatch | Pcr11Mismatch | GoldenMismatch | NoGoldenValue | NotEnrolled

  datatype Verdict = Verdict(reason: Reason, fingerprint: string, pcrs: map<nat, string>, learned: seq<nat>)

  datatype VmState = VmState(ak: string, results: map<string, Verdict>)

  // ---------------------------------------------------------------- what a quote must satisfy

  /** The qualifying data is the nonce, decoded. */
  predicate NonceQuoted(extraData: seq<byte>, nonce: string) {
    HexDecode(nonce).Some? && HexDecode(nonce).value != [] && HexDecode(nonce).value == extraData
  }

  /** `values` are the selected PCRs of the request's bank. */
  ghost predicate Decoded(bank: map<string, string>, selected: seq<nat>, values: Values) {
    && (forall i :: i in values <==> i in selected)
    && forall i :: i in selected ==> Itoa(i) in bank && HexDecode(bank[Itoa(i)]) == Some(values[i])
  }

  /** The quote parses, selects sha256 PCRs, is signed over the nonce, and its digest is of the values sent. */
  ghost predicate Genuine(hash: Hashes, req: Request, pcrs: seq<nat>, values: Values) {
    && req.attest.Attest? && req.attest.signed
    && (exists k: nat :: OneBank(req.attest.selection, k, Selected(BANK, pcrs)))
    && NonceQuoted(req.attest.extraData, req.nonce)
    && Decoded(req.pcrs, pcrs, values)
    && Verifies(hash(req.attest.alg), TpmQuote.Quote(BANK, pcrs, req.attest.pcrDigest), values)
  }

  /** VerifyNonce: the qualifying data, not empty, is the nonce in hex. */
  method VerifyNonce(extraData: seq<byte>, nonce: string) returns (ok: bool)
    ensures ok <==> extraData != [] && HexEncode(extraData) == ToLower(nonce)
    ensures ok <==> NonceQuoted(extraData, nonce)
  {
    HexComparesBytes(extraData, nonce);
    var want := HexDecode(nonce);
    return want.Some? && want.value != [] && want.value == extraData;
  }

  predicate CoversStage(stage: string, pcrs: seq<nat>) {
    forall i :: i in RequiredPCRs(stage) ==> i in pcrs
  }

  /** One compared PCR is as expected, or has no expected value and may be learned. */
  predicate Acceptable(p: Policy, learn: bool, index: nat, value: seq<byte>) {
    var want := Expected(p, index);
    if want.Some? then HexEncode(value) == want.value else learn || index == PCR_SYSEXT
  }

  function Pcr11(p: Policy, stage: string): string {
    if PhaseFor(stage) in p.pcr11 then ToLower(p.pcr11[PhaseFor(stage)]) else ""
  }

  /** PCR 11 is the stage's, and every compared PCR is acceptable. */
  predicate MatchesPolicy(p: Policy, learn: bool, stage: string, values: Values) {
    && PCR_UKI in values && HexEncode(values[PCR_UKI]) == Pcr11(p, stage)
    && forall i :: i in ComparedPCRs(stage) ==> i in values && Acceptable(p, learn, i, values[i])
  }

  /** Everything about a quote that needs no state: the checks of a submission besides nonce and key pinning. */
  ghost predicate Sound(hash: Hashes, learn: bool, p: Policy, req: Request) {
    && ValidStage(req.stage)
    && exists pcrs, values ::
         Genuine(hash, req, pcrs, values) && CoversStage(req.stage, pcrs) && MatchesPolicy(p, learn, req.stage, values)
  }

  /** enroll: an initrd quote pins the first key, every quote must match the pin. */
  predicate PinAccepts(ak: string, stage: string, fingerprint: string) {
    if ak == "" then stage == STAGE_INITRD else ak == fingerprint
  }

  /** The compared PCRs without an expected value. */
  function LearnedOf(p: Policy, indexes: seq<nat>): seq<nat> {
    if indexes == [] then []
    else
      var last := |indexes| - 1;
      LearnedOf(p, indexes[..last]) + if Expected(p, indexes[last]).None? then [indexes[last]] else []
  }

  lemma {:induction false} LearnedExactly(p: Policy, indexes: seq<nat>, i: nat)
    ensures i in LearnedOf(p, indexes) <==> i in indexes && Expected(p, i).None?
  {
    if indexes != [] {
      LearnedExactly(p, indexes[..|indexes| - 1], i);
      assert indexes == indexes[..|indexes| - 1] + [indexes[|indexes| - 1]];
    }
  }

  // ---------------------------------------------------------------- the checks, step by step

  /** decodePCRs: every selected index must be present and hex. */
  method DecodePCRs(bank: map<string, string>, selected: seq<nat>) returns (r: Result<Values, ()>)
    ensures r.Ok? ==> Decoded(bank, selected, r.value)
    ensures r.Err? ==> forall values :: !Decoded(bank, selected, values)
  {
    var values: Values := map[];
    for n := 0 to |selected|
      invariant Decoded(bank, selected[..n], values)
    {
      var i := selected[n];
      assert selected[..n + 1] == selected[..n] + [i];
      if Itoa(i) !in bank || HexDecode(bank[Itoa(i)]).None? {
        assert i in selected;
        return Err(());
      }
      values := values[i := HexDecode(bank[Itoa(i)]).value];
    }
    assert selected[..|selected|] == selected;
    return Ok(values);
  }

  lemma DecodedUnique(bank: map<string, string>, selected: seq<nat>, a: Values, b: Values)
    requires Decoded(bank, selected, a) && Decoded(bank, selected, b)
    ensures a == b
  {
    forall i ensures i in a <==> i in b {
    }
    forall i | i in a ensures a[i] == b[i] {
      assert i in selected;
    }
  }

  /** hexPCRs. */
  function HexPCRs(values: Values): (out: map<nat, string>) {
    map i | i in values :: HexEncode(values[i])
  }

  /** missingPCRs: the needed indexes the quote does not cover. */
  method MissingPCRs(have: seq<nat>, need: seq<nat>) returns (missing: seq<nat>)
    ensures forall i :: i in missing <==> i in need && i !in have
  {
    missing := [];
    for n := 0 to |need|
      invariant forall i :: i in missing <==> i in need[..n] && i !in have
    {
      assert need[..n + 1] == need[..n] + [need[n]];
      if need[n] !in have {
        missing := missing + [need[n]];
      }
    }
    assert need[..|need|] == need;
  }

  /** The compare loop: mismatched, unknown and learned indexes in the order compared. */
  method ComparePCRs(p: Policy, learn: bool, indexes: seq<nat>, pcrs: map<nat, string>)
      returns (mismatched: bool, unknown: bool, learned: seq<nat>)
    requires forall i :: i in indexes ==> i in pcrs
    ensures mismatched <==> exists i :: i in indexes && Expected(p, i).Some? && Expected(p, i).value != pcrs[i]
    ensures unknown <==> exists i :: i in indexes && Expected(p, i).None? && !learn && i != PCR_SYSEXT
    ensures !unknown ==> learned == LearnedOf(p, indexes)
  {
    mismatched, unknown, learned := false, false, [];
    for n := 0 to |indexes|
      invariant mismatched <==> exists i :: i in indexes[..n] && Expected(p, i).Some? && Expected(p, i).value != pcrs[i]
      invariant unknown <==> exists i :: i in indexes[..n] && Expected(p, i).None? && !learn && i != PCR_SYSEXT
      invariant !unknown ==> learned == LearnedOf(p, indexes[..n])
    {
      var i := indexes[n];
      ghost var done := indexes[..n + 1];
      assert done == indexes[..n] + [i] && done[..n] == indexes[..n];
      assert forall j :: j in done <==> j in indexes[..n] || j == i;
      var want := Expected(p, i);
      if want.None? && (learn || i == PCR_SYSEXT) {
        learned := learned + [i];
      } else if want.None? {
        unknown := true;
      } else if want.value != pcrs[i] {
        mismatched := true;
      }
    }
    assert indexes[..|indexes|] == indexes;
  }

  lemma GenuineUnique(hash: Hashes, req: Request, p: seq<nat>, v: Values, p': seq<nat>, v': Values)
    requires Genuine(hash, req, p, v) && Genuine(hash, req, p', v')
    ensures p == p' && v == v'
  {
    var k: nat :| OneBank(req.attest.selection, k, Selected(BANK, p));
    var k': nat :| OneBank(req.attest.selection, k', Selected(BANK, p'));
    OneBankUnique(req.attest.selection, k, k', Selected(BANK, p), Selected(BANK, p'));
    DecodedUnique(req.pcrs, p, v, v');
  }

  /** Parsing, signature, nonce, bank, values, digest and coverage, in that order. */
  method CheckQuote(hash: Hashes, req: Request) returns (reason: Reason, pcrs: seq<nat>, values: Values)
    ensures reason in {Verified, PCRsMissing} ==> Genuine(hash, req, pcrs, values)
    ensures reason == Verified ==> CoversStage(req.stage, pcrs)
    ensures reason == PCRsMissing ==> !CoversStage(req.stage, pcrs)
    ensures reason !in {Verified, PCRsMissing} ==> forall p, v :: !Genuine(hash, req, p, v)
    ensures req.attest.Undecodable? ==> reason == BadQuote
    ensures reason == BadQuote ==> req.attest.Undecodable? || forall k: nat, s :: !OneBank(req.attest.selection, k, s)
    ensures reason == BadSignature ==> req.attest.Attest? && !req.attest.signed
    ensures reason == NonceMismatch ==> req.attest.Attest? && !NonceQuoted(req.attest.extraData, req.nonce)
    ensures reason in {Verified, BadQuote, BadSignature, NonceMismatch, WrongBank, BadPCRs, BadDigest, PCRsMissing}
  {
    pcrs, values := [], map[];
    if req.attest.Undecodable? {
      return BadQuote, pcrs, values;
    }
    var selected := DecodeSelection(req.attest.selection);
    if selected.Err? {
      return BadQuote, pcrs, values;
    }
    ghost var at: nat :| OneBank(req.attest.selection, at, selected.value);
    pcrs := selected.value.pcrs;
    if !req.attest.signed {
      return BadSignature, pcrs, values;
    }
    var quoted := VerifyNonce(req.attest.extraData, req.nonce);
    if !quoted {
      return NonceMismatch, pcrs, values;
    }
    forall p, v | Genuine(hash, req, p, v) ensures p == pcrs && selected.value.bank == BANK {
      var k: nat :| OneBank(req.attest.selection, k, Selected(BANK, p));
      OneBankUnique(req.attest.selection, k, at, Selected(BANK, p), selected.value);
    }
    if selected.value.bank != BANK {
      return WrongBank, pcrs, values;
    }
    var decoded := DecodePCRs(req.pcrs, pcrs);
    if decoded.Err? {
      return BadPCRs, pcrs, values;
    }
    values := decoded.value;
    forall v | Decoded(req.pcrs, pcrs, v) ensures v == values {
      DecodedUnique(req.pcrs, pcrs, v, values);
    }
    var digest := VerifyPCRs(hash(req.attest.alg), TpmQuote.Quote(BANK, pcrs, req.attest.pcrDigest), values);
    if digest.Err? {
      return BadDigest, pcrs, values;
    }
    assert Genuine(hash, req, pcrs, values);
    var missing := MissingPCRs(pcrs, RequiredPCRs(req.stage));
    if missing != [] {
      assert missing[0] in missing;
      return PCRsMissing, pcrs, values;
    }
    return Verified, pcrs, values;
  }

  lemma ComparedAreCovered(stage: string, pcrs: seq<nat>)
    requires CoversStage(stage, pcrs)
    ensures PCR_UKI in pcrs && forall i :: i in ComparedPCRs(stage) ==> i in pcrs
  {
    assert PCR_UKI in FIRMWARE_PCRS + [PCR_UKI];
    forall i | i in ComparedPCRs(stage) ensures i in RequiredPCRs(stage) {
      if i in GOLDEN_FIRMWARE_PCRS {
        assert i in FIRMWARE_PCRS;
      }
    }
  }

  /** The policy is there and the quote is sound under it. */
  ghost predicate Convincing(hash: Hashes, learn: bool, answer: PolicyAnswer, req: Request) {
    answer.Found? && Sound(hash, learn, answer.policy, req)
  }

  /** Recorded PCR values are ones the signed digest is of. */
  ghost predicate Attested(hash: Hashes, req: Request, pcrs: map<nat, string>) {
    exists selected, values :: Genuine(hash, req, selected, values) && pcrs == HexPCRs(values)
  }

  /** Given what CheckQuote found, soundness is a matter of the policy alone. */
  lemma SoundIffMatches(hash: Hashes, learn: bool, p: Policy, req: Request, pcrs: seq<nat>,
      values: Values)
    requires ValidStage(req.stage) && Genuine(hash, req, pcrs, values) && CoversStage(req.stage, pcrs)
    ensures Sound(hash, learn, p, req) <==> MatchesPolicy(p, learn, req.stage, values)
  {
    forall p', v' | Genuine(hash, req, p', v') ensures v' == values {
      GenuineUnique(hash, req, p', v', pcrs, values);
    }
  }

  lemma UncoveredIsUnsound(hash: Hashes, learn: bool, p: Policy, req: Request, pcrs: seq<nat>,
      values: Values)
    requires Genuine(hash, req, pcrs, values) && !CoversStage(req.stage, pcrs)
    ensures !Sound(hash, learn, p, req)
  {
    forall p', v' | Genuine(hash, req, p', v') ensures p' == pcrs {
      GenuineUnique(hash, req, p', v', pcrs, values);
    }
  }

  /** The policy part: PCR 11 and the golden values against the quoted ones. */
  method CheckPolicy(p: Policy, learn: bool, stage: string, values: Values) returns (reason: Reason, learned: seq<nat>)
    requires PCR_UKI in values && forall i :: i in ComparedPCRs(stage) ==> i in values
    ensures reason == Verified <==> MatchesPolicy(p, learn, stage, values)
    ensures reason == Verified ==> learned == LearnedOf(p, ComparedPCRs(stage))
    ensures reason == Pcr11Mismatch <==> HexEncode(values[PCR_UKI]) != Pcr11(p, stage)
    ensures reason == GoldenMismatch ==>
              exists i :: i in ComparedPCRs(stage) && Expected(p, i).Some? && Expected(p, i).value != HexEncode(values[i])
    ensures reason == NoGoldenValue ==>
              !learn && exists i :: i in ComparedPCRs(stage) && Expected(p, i).None? && i != PCR_SYSEXT
    ensures reason in {Verified, Pcr11Mismatch, GoldenMismatch, NoGoldenValue}
  {
    var quoted := HexPCRs(values);
    if quoted[PCR_UKI] != Pcr11(p, stage) {
      return Pcr11Mismatch, [];
    }
    var mismatched, unknown;
    mismatched, unknown, learned := ComparePCRs(p, learn, ComparedPCRs(stage), quoted);
    if mismatched {
      return GoldenMismatch, learned;
    }
    if unknown {
      return NoGoldenValue, learned;
    }
    return Verified, learned;
  }

  /** Every decision below the nonce: the verdict on a request under a policy, for a VM whose pin is `ak`. */
  method Judge(hash: Hashes, learn: bool, req: Request, p: Policy, ak: string) returns (v: Verdict)
    requires ValidStage(req.stage)
    ensures v.reason == Verified <==> Sound(hash, learn, p, req) && (ak == "" || ak == req.attest.fingerprint)
    ensures v.reason == Verified ==>
              v.fingerprint == req.attest.fingerprint && v.learned == LearnedOf(p, ComparedPCRs(req.stage))
    ensures v.pcrs != map[] || v.reason == Verified ==> Attested(hash, req, v.pcrs)
    ensures v.reason != BadNonce
  {
    var reason, pcrs, values := CheckQuote(hash, req);
    if reason == BadQuote {
      return Verdict(reason, "", map[], []);
    }
    if reason != Verified && reason != PCRsMissing {
      return Verdict(reason, req.attest.fingerprint, map[], []);
    }
    assert Attested(hash, req, HexPCRs(values));
    if reason == PCRsMissing {
      UncoveredIsUnsound(hash, learn, p, req, pcrs, values);
      return Verdict(reason, req.attest.fingerprint, HexPCRs(values), []);
    }
    if ak != "" && ak != req.attest.fingerprint {
      return Verdict(PinMismatch, req.attest.fingerprint, HexPCRs(values), []);
    }
    ComparedAreCovered(req.stage, pcrs);
    SoundIffMatches(hash, learn, p, req, pcrs, values);
    var learned;
    reason, learned := CheckPolicy(p, learn, req.stage, values);
    return Verdict(reason, req.attest.fingerprint, HexPCRs(values), learned);
  }

  // ---------------------------------------------------------------- the rules, stage by stage and PCR by PCR

  /** Exactly one bitmap selects PCRs, one of the sha256 bank, and it selects these. */
  ghost predicate SelectsSha256(sel: seq<Selection>, pcrs: seq<nat>) {
    && pcrs != []
    && exists k :: 0 <= k < |sel| && sel[k].alg == Sha256 && Lists(sel[k].bits, pcrs)
                   && forall j :: 0 <= j < |sel| && j != k ==> Empty(sel[j])
  }

  /** The values are those of the request's texts for the selected PCRs. */
  ghost predicate AsSent(bank: map<string, string>, pcrs: seq<nat>, values: Values) {
    && (forall i :: i in values <==> i in pcrs)
    && (forall i :: i in pcrs ==> Itoa(i) in bank && HexEncode(values[i]) == ToLower(bank[Itoa(i)]))
  }

  /**
   * A genuine quote, in full: signed, of sha256 PCRs only, made for the nonce, its values 32 bytes each as sent
   * and its digest the signature's hash over them in ascending order.
   */
  lemma GenuineMeans(hash: Hashes, req: Request, pcrs: seq<nat>, values: Values)
    ensures Genuine(hash, req, pcrs, values) <==>
              && req.attest.Attest? && req.attest.signed && SelectsSha256(req.attest.selection, pcrs)
              && req.attest.extraData != [] && HexEncode(req.attest.extraData) == ToLower(req.nonce)
              && AsSent(req.pcrs, pcrs, values) && Sized(pcrs, values, 32)
              && hash(req.attest.alg)(Concatenated(pcrs, values)) == req.attest.pcrDigest
  {
    if req.attest.Attest? {
      HexComparesBytes(req.attest.extraData, req.nonce);
      SelectsOneBank(req.attest.selection, pcrs);
      DecodedMeans(req.pcrs, pcrs, values);
      if SelectsSha256(req.attest.selection, pcrs) {
        VerifiesMeans(hash(req.attest.alg), pcrs, req.attest.pcrDigest, values);
      }
    }
  }

  lemma DecodedMeans(bank: map<string, string>, pcrs: seq<nat>, values: Values)
    ensures Decoded(bank, pcrs, values) <==> AsSent(bank, pcrs, values)
  {
    forall i | i in pcrs && i in values && Itoa(i) in bank
      ensures HexEncode(values[i]) == ToLower(bank[Itoa(i)]) <==> HexDecode(bank[Itoa(i)]) == Some(values[i])
    {
      HexComparesBytes(values[i], bank[Itoa(i)]);
    }
  }

  lemma VerifiesMeans(h: seq<byte> -> seq<byte>, pcrs: seq<nat>, digest: seq<byte>, values: Values)
    requires Ascending(pcrs)
    ensures Verifies(h, TpmQuote.Quote("sha256", pcrs, digest), values) <==>
              Sized(pcrs, values, 32) && h(Concatenated(pcrs, values)) == digest
  {
    SortAscending(pcrs);
  }

  lemma SelectsOneBank(sel: seq<Selection>, pcrs: seq<nat>)
    ensures (exists k: nat :: OneBank(sel, k, Selected("sha256", pcrs))) <==> SelectsSha256(sel, pcrs)
  {
    if SelectsSha256(sel, pcrs) {
      var k :| 0 <= k < |sel| && sel[k].alg == Sha256 && Lists(sel[k].bits, pcrs)
               && forall j :: 0 <= j < |sel| && j != k ==> Empty(sel[j]);
      assert OneBank(sel, k, Selected("sha256", pcrs));
    }
  }

  /** Each firmware PCR but 1 and 5 has its golden value, or none is recorded and values are being learned. */
  predicate FirmwareAccepted(p: Policy, learn: bool, values: Values) {
    forall i :: i in [0, 2, 3, 4, 6, 7] ==>
      i in values &&
      if "sha256" in p.golden && i in p.golden["sha256"] then HexEncode(values[i]) == ToLower(p.golden["sha256"][i])
      else learn
  }

  /** PCR 13 is the Kubernetes version's, or without an entry for it the golden value, or neither is known. */
  predicate SysextAccepted(p: Policy, values: Values) {
    13 in values &&
    if p.kubernetesVersion != "" && p.kubernetesVersion in p.pcr13
    then HexEncode(values[13]) == ToLower(p.pcr13[p.kubernetesVersion])
    else if "sha256" in p.golden && 13 in p.golden["sha256"]
    then HexEncode(values[13]) == ToLower(p.golden["sha256"][13])
    else true
  }

  predicate Pcr11Accepted(p: Policy, phase: string, values: Values) {
    11 in values && phase in p.pcr11 && HexEncode(values[11]) == ToLower(p.pcr11[phase])
  }

  ghost predicate InitrdAccepted(hash: Hashes, learn: bool, p: Policy, req: Request) {
    exists pcrs, values ::
      && Genuine(hash, req, pcrs, values)
      && (forall i: nat :: i in [0, 1, 2, 3, 4, 5, 6, 7, 11] ==> i in pcrs)
      && Pcr11Accepted(p, "enter-initrd", values) && FirmwareAccepted(p, learn, values)
  }

  ghost predicate ReadyAccepted(hash: Hashes, learn: bool, p: Policy, req: Request) {
    exists pcrs, values ::
      && Genuine(hash, req, pcrs, values)
      && (forall i: nat :: i in [0, 1, 2, 3, 4, 5, 6, 7, 11, 13] ==> i in pcrs)
      && Pcr11Accepted(p, "enter-initrd:leave-initrd:sysinit:ready", values)
      && FirmwareAccepted(p, learn, values) && SysextAccepted(p, values)
  }

  /** What the checks demand of a quote at each stage, PCR by PCR. */
  ghost predicate Accepted(hash: Hashes, learn: bool, p: Policy, req: Request) {
    || (req.stage == "initrd" && InitrdAccepted(hash, learn, p, req))
    || (req.stage == "ready" && ReadyAccepted(hash, learn, p, req))
  }

  lemma CoversMeans(pcrs: seq<nat>)
    ensures CoversStage("initrd", pcrs) <==> forall i: nat :: i in [0, 1, 2, 3, 4, 5, 6, 7, 11] ==> i in pcrs
    ensures CoversStage("ready", pcrs) <==> forall i: nat :: i in [0, 1, 2, 3, 4, 5, 6, 7, 11, 13] ==> i in pcrs
  {
    assert RequiredPCRs("initrd") == [0, 1, 2, 3, 4, 5, 6, 7, 11];
    assert RequiredPCRs("ready") == [0, 1, 2, 3, 4, 5, 6, 7, 11, 13];
  }

  lemma FirmwareMeans(p: Policy, learn: bool, values: Values)
    ensures FirmwareAccepted(p, learn, values) <==>
              forall i: nat :: i in [0, 2, 3, 4, 6, 7] ==> i in values && Acceptable(p, learn, i, values[i])
  {
    forall i: nat | i in [0, 2, 3, 4, 6, 7] && i in values
      ensures Acceptable(p, learn, i, values[i]) <==>
                if "sha256" in p.golden && i in p.golden["sha256"]
                then HexEncode(values[i]) == ToLower(p.golden["sha256"][i]) else learn
    {
      assert i != 13;
    }
  }

  lemma Pcr11Means(p: Policy, stage: string, phase: string, values: Values)
    requires (stage == "initrd" && phase == "enter-initrd")
             || (stage == "ready" && phase == "enter-initrd:leave-initrd:sysinit:ready")
    requires 11 in values ==> |values[11]| == 32
    ensures 11 in values && HexEncode(values[11]) == Pcr11(p, stage) <==> Pcr11Accepted(p, phase, values)
  {
  }

  lemma MatchesMeans(p: Policy, learn: bool, values: Values)
    requires forall i :: i in values ==> |values[i]| == 32
    ensures MatchesPolicy(p, learn, "initrd", values) <==>
              Pcr11Accepted(p, "enter-initrd", values) && FirmwareAccepted(p, learn, values)
    ensures MatchesPolicy(p, learn, "ready", values) <==>
              && Pcr11Accepted(p, "enter-initrd:leave-initrd:sysinit:ready", values)
              && FirmwareAccepted(p, learn, values) && SysextAccepted(p, values)
  {
    Pcr11Means(p, "initrd", "enter-initrd", values);
    Pcr11Means(p, "ready", "enter-initrd:leave-initrd:sysinit:ready", values);
    FirmwareMeans(p, learn, values);
    ComparedMeans();
    assert SysextAccepted(p, values) <==> 13 in values && Acceptable(p, learn, 13, values[13]);
  }

  lemma ComparedMeans()
    ensures forall i: nat :: i in ComparedPCRs("initrd") <==> i in [0, 2, 3, 4, 6, 7]
    ensures forall i: nat :: i in ComparedPCRs("ready") <==> i in [0, 2, 3, 4, 6, 7] || i == 13
  {
    assert ComparedPCRs("initrd") == [0, 2, 3, 4, 6, 7];
    assert ComparedPCRs("ready") == [0, 2, 3, 4, 6, 7] + [13];
  }

  /** Soundness is exactly that. */
  lemma SoundMeans(hash: Hashes, learn: bool, p: Policy, req: Request)
    ensures Sound(hash, learn, p, req) <==> Accepted(hash, learn, p, req)
  {
    forall pcrs, values | Genuine(hash, req, pcrs, values)
      ensures CoversStage(req.stage, pcrs) && MatchesPolicy(p, learn, req.stage, values) && ValidStage(req.stage) ==>
                Accepted(hash, learn, p, req)
    {
      GenuineMeans(hash, req, pcrs, values);
      CoversMeans(pcrs);
      MatchesMeans(p, learn, values);
    }
    if Accepted(hash, learn, p, req) {
      AcceptedIsSound(hash, learn, p, req);
    }
  }

  lemma AcceptedIsSound(hash: Hashes, learn: bool, p: Policy, req: Request)
    requires Accepted(hash, learn, p, req)
    ensures Sound(hash, learn, p, req)
  {
    if req.stage == "initrd" {
      var pcrs, values :|
        && Genuine(hash, req, pcrs, values)
        && (forall i: nat :: i in [0, 1, 2, 3, 4, 5, 6, 7, 11] ==> i in pcrs)
        && Pcr11Accepted(p, "enter-initrd", values) && FirmwareAccepted(p, learn, values);
      GenuineMeans(hash, req, pcrs, values);
      CoversMeans(pcrs);
      MatchesMeans(p, learn, values);
    } else {
      var pcrs, values :|
        && Genuine(hash, req, pcrs, values)
        && (forall i: nat :: i in [0, 1, 2, 3, 4, 5, 6, 7, 11, 13] ==> i in pcrs)
        && Pcr11Accepted(p, "enter-initrd:leave-initrd:sysinit:ready", values)
        && FirmwareAccepted(p, learn, values) && SysextAccepted(p, values);
      GenuineMeans(hash, req, pcrs, values);
      CoversMeans(pcrs);
      MatchesMeans(p, learn, values);
    }
  }

  // ---------------------------------------------------------------- the verifier

  function AkOf(vms: map<string, VmState>, vm: string): string {
    if vm in vms then vms[vm].ak else ""
  }

  function ResultsOf(vms: map<string, VmState>, vm: string): map<string, Verdict> {
    if vm in vms then vms[vm].results else map[]
  }

  /**
   * The verdict on a request whose nonce was live: verified exactly when the quote is sound under the
   * policy and the pin accepts its key; learned are the compared PCRs without an expected value.
   */
  ghost predicate Judged(hash: Hashes, learn: bool, answer: PolicyAnswer, req: Request, ak: string,
                         v: Verdict)
  {
    && (v.reason == Verified <==>
          Convincing(hash, learn, answer, req) && PinAccepts(ak, req.stage, req.attest.fingerprint))
    && (v.reason == Verified ==>
          v.fingerprint == req.attest.fingerprint && v.learned == LearnedOf(answer.policy, ComparedPCRs(req.stage)))
    && (v.pcrs != map[] || v.reason == Verified ==> Attested(hash, req, v.pcrs))
    && v.reason != BadNonce
  }

  /** The table after a verdict: the last one of the stage kept, the key pinned when it is verified. */
  function Recorded(vms: map<string, VmState>, vm: string, stage: string, v: Verdict): map<string, VmState> {
    vms[vm := VmState(if v.reason == Verified then v.fingerprint else AkOf(vms, vm), ResultsOf(vms, vm)[stage := v])]
  }

  /** The verdict is the VM's last of its stage, only a verified one pins its key, and no other VM is touched. */
  predicate Keeps(vms: map<string, VmState>, now: map<string, VmState>, vm: string, stage: string, v: Verdict) {
    && now.Keys == vms.Keys + {vm} && (forall other :: other in vms && other != vm ==> now[other] == vms[other])
    && stage in now[vm].results && now[vm].results[stage] == v
    && (forall s :: s in now[vm].results && s != stage ==>
          vm in vms && s in vms[vm].results && now[vm].results[s] == vms[vm].results[s])
    && now[vm].ak == if v.reason == Verified then v.fingerprint else if vm in vms then vms[vm].ak else ""
  }

  lemma RecordedMeans(vms: map<string, VmState>, vm: string, stage: string, v: Verdict)
    ensures Keeps(vms, Recorded(vms, vm, stage, v), vm, stage, v)
  {
  }

  class Verifier {
    const hash: Hashes
    const learn: bool
    const nonces: NonceStore.Store
    var vms: map<string, VmState>

    ghost predicate Valid()
      reads this, nonces
    {
      nonces.Valid()
    }

    constructor (hash: Hashes, learn: bool)
      ensures Valid() && fresh(nonces) && nonces.byVM == map[] && vms == map[]
      ensures this.hash == hash && this.learn == learn
      ensures nonces.ttl == NonceStore.DEFAULT_TTL && nonces.maxPerVM == NonceStore.DEFAULT_MAX_PER_VM
    {
      this.hash, this.learn := hash, learn;
      nonces := new NonceStore.Store(0, 0);
      vms := map[];
    }

    /** store: keeps the last verdict per stage. */
    method Store(vm: string, stage: string, v: Verdict)
      modifies this
      ensures vms == old(vms)[vm := VmState(AkOf(old(vms), vm), ResultsOf(old(vms), vm)[stage := v])]
    {
      var st := if vm in vms then vms[vm] else VmState("", map[]);
      vms := vms[vm := st.(results := st.results[stage := v])];
    }

    /** enroll: pins the first key of an initrd quote under the lock; every quote must match the pin. */
    method Enroll(vm: string, stage: string, fingerprint: Fingerprint) returns (ok: bool)
      modifies this
      ensures ok == PinAccepts(AkOf(old(vms), vm), stage, fingerprint)
      ensures vms == old(vms)[vm := VmState(if ok then fingerprint else AkOf(old(vms), vm), ResultsOf(old(vms), vm))]
    {
      var st := if vm in vms then vms[vm] else VmState("", map[]);
      if st.ak == "" && stage == STAGE_INITRD {
        st := st.(ak := fingerprint);
        ok := true;
      } else if st.ak == "" {
        ok := false;
      } else {
        ok := st.ak == fingerprint;
      }
      vms := vms[vm := st];
    }

    /** Forget drops the pinned key, the results and the nonces of a VM. */
    method Forget(vm: string)
      requires Valid()
      modifies this, nonces
      ensures Valid() && vms == old(vms) - {vm}
      ensures nonces.byVM == NonceStore.Apply(old(nonces.byVM), NonceStore.Forget(vm), nonces.Cfg())
    {
      vms := vms - {vm};
      nonces.ForgetVM(vm);
    }

    /** The end of a submission: a good quote still has to enrol; the verdict is kept. */
    method Settle(vm: string, stage: string, judged: Verdict) returns (v: Verdict)
      requires judged.reason == Verified ==> judged.fingerprint != ""
      modifies this
      ensures v == if judged.reason == Verified && !PinAccepts(AkOf(old(vms), vm), stage, judged.fingerprint)
                   then judged.(reason := NotEnrolled) else judged
      ensures vms == Recorded(old(vms), vm, stage, v)
    {
      v := judged;
      if judged.reason == Verified {
        var ok := Enroll(vm, stage, judged.fingerprint);
        if !ok {
          v := judged.(reason := NotEnrolled);
        }
      }
      Store(vm, stage, v);
    }

    /** The submission once its nonce was accepted: stage, policy, quote, enrolment, recording. */
    method Decide(vm: string, req: Request, answer: PolicyAnswer) returns (r: Result<Verdict, ()>)
      modifies this
      ensures r.Err? <==> ValidStage(req.stage) && answer.Broken?
      ensures r.Ok? ==> Judged(hash, learn, answer, req, AkOf(old(vms), vm), r.value)
      ensures vms == if r.Ok? then Recorded(old(vms), vm, req.stage, r.value) else old(vms)
    {
      if !ValidStage(req.stage) {
        r := Ok(Verdict(BadStage, "", map[], []));
        Store(vm, req.stage, r.value);
        return;
      }
      if answer.Missing? {
        r := Ok(Verdict(NoPolicy, "", map[], []));
        Store(vm, req.stage, r.value);
        return;
      }
      if answer.Broken? {
        return Err(());
      }
      var v := Judge(hash, learn, req, answer.policy, AkOf(vms, vm));
      v := Settle(vm, req.stage, v);
      r := Ok(v);
    }

    /**
     * SubmitQuote: verified exactly when the nonce is live, the quote is sound under the VM's policy
     * and the pin accepts the key; the nonce is used up either way, and only a verified quote pins a key.
     */
    method SubmitQuote(vm: string, req: Request, answer: PolicyAnswer, now: int) returns (r: Result<Verdict, ()>)
      requires Valid()
      modifies this, nonces
      ensures Valid()
      ensures nonces.byVM == NonceStore.Apply(old(nonces.byVM), NonceStore.Consume(vm, req.nonce, now), nonces.Cfg())
      ensures r.Err? <==> NonceStore.Accepts(old(nonces.byVM), vm, req.nonce, now, nonces.ttl)
                          && ValidStage(req.stage) && answer.Broken?
      ensures r.Ok? ==>
                if NonceStore.Accepts(old(nonces.byVM), vm, req.nonce, now, nonces.ttl)
                then Judged(hash, learn, answer, req, AkOf(old(vms), vm), r.value)
                else r.value == Verdict(BadNonce, "", map[], [])
      ensures r.Ok? && r.value.reason == Verified <==>
                && NonceStore.Accepts(old(nonces.byVM), vm, req.nonce, now, nonces.ttl)
                && answer.Found? && Accepted(hash, learn, answer.policy, req)
                && (if vm in old(vms) && old(vms)[vm].ak != "" then old(vms)[vm].ak == req.attest.fingerprint
                    else req.stage == "initrd")
      ensures vms == if r.Ok? then Recorded(old(vms), vm, req.stage, r.value) else old(vms)
      ensures r.Ok? ==> Keeps(old(vms), vms, vm, req.stage, r.value)
    {
      if answer.Found? {
        SoundMeans(hash, learn, answer.policy, req);
      }
      var live := nonces.ConsumeNonce(vm, req.nonce, now);
      if live {
        r := Decide(vm, req, answer);
      } else {
        r := Ok(Verdict(BadNonce, "", map[], []));
        Store(vm, req.stage, r.value);
      }
      if r.Ok? {
        RecordedMeans(old(vms), vm, req.stage, r.value);
      }
    }
  }
}
