/** `vm-manager image golden`: recording the values of a verified quote as the image's golden values. */
module Learning {
  import opened Common
  import opened Text
  import opened TpmQuote
  import opened Policy
  import opened Verifier

  function GoldenOf(pcrs: map<nat, string>): map<int, string> {
    map i: int | i in GOLDEN_INDEXES && i in pcrs :: pcrs[i]
  }

  /** The policy with the golden values replaced by those of a quote. */
  function RecordedPolicy(p: Policy, pcrs: map<nat, string>, firmware: string): Policy {
    p.(golden := map[BANK := GoldenOf(pcrs)], goldenFirmware := Some(firmware))
  }

  /** Recorded are the quoted values of these PCRs with the firmware they are of; everything else is kept. */
  predicate Records(p: Policy, next: Policy, pcrs: map<nat, string>, firmware: string) {
    && next == p.(golden := next.golden, goldenFirmware := Some(firmware)) && next.golden.Keys == {"sha256"}
    && GoldenValues(next.golden["sha256"], pcrs)
  }

  predicate GoldenValues(golden: map<int, string>, pcrs: map<nat, string>) {
    && golden.Keys == {0, 2, 3, 4, 6, 7, 13}
    && forall i: int :: i in golden ==> i in pcrs && golden[i] == pcrs[i]
  }

  lemma GoldenOfMeans(pcrs: map<nat, string>)
    requires CoversGolden(pcrs)
    ensures GoldenValues(GoldenOf(pcrs), pcrs)
  {
    assert GOLDEN_INDEXES == [0, 2, 3, 4, 6, 7, 13];
    assert forall i: int :: i in GoldenOf(pcrs) <==> i in GOLDEN_INDEXES;
  }

  lemma RecordsMeans(p: Policy, pcrs: map<nat, string>, firmware: string)
    requires CoversGolden(pcrs)
    ensures Records(p, RecordedPolicy(p, pcrs, firmware), pcrs, firmware)
  {
    GoldenOfMeans(pcrs);
  }

  predicate CoversGolden(pcrs: map<nat, string>) {
    forall i :: i in GOLDEN_INDEXES ==> i in pcrs
  }

  ghost function GoldenSet(): set<int> {
    {0, 2, 3, 4, 6, 7, 13}
  }

  lemma GoldenSetIsIndexes()
    ensures |GoldenSet()| == |GOLDEN_INDEXES|
    ensures forall i: int :: i in GoldenSet() <==> i in GOLDEN_INDEXES
  {
  }

  lemma GoldenCount(pcrs: map<nat, string>)
    ensures |GoldenOf(pcrs)| == |GOLDEN_INDEXES| <==> CoversGolden(pcrs)
  {
    GoldenSetIsIndexes();
    var keys := GoldenOf(pcrs).Keys;
    assert keys <= GoldenSet();
    if |keys| == |GoldenSet()| {
      SubsetSize(keys, GoldenSet());
      forall i | i in GOLDEN_INDEXES ensures i in pcrs {
        assert i in keys;
      }
    }
    if CoversGolden(pcrs) {
      assert keys == GoldenSet();
    }
  }

  /**
   * runImageGolden and writeGolden: refuses a quote without every golden index and a result that is no valid
   * policy.
   */
  method RecordGolden(p: Policy, pcrs: map<nat, string>, firmware: string) returns (r: Result<Policy, ()>)
    ensures r.Ok? <==> CoversGolden(pcrs) && WellFormed(RecordedPolicy(p, pcrs, firmware))
    ensures r.Ok? ==> r.value == RecordedPolicy(p, pcrs, firmware)
    ensures r.Ok? ==> Records(p, r.value, pcrs, firmware)
  {
    var golden := GoldenFromPCRs(pcrs);
    assert forall i: int :: i in golden <==> i in GoldenOf(pcrs);
    assert golden == GoldenOf(pcrs);
    GoldenCount(pcrs);
    if |golden| != |GOLDEN_INDEXES| {
      return Err(());
    }
    var next := p.(golden := map[BANK := golden], goldenFirmware := Some(firmware));
    var ok := Validate(next);
    if !ok {
      return Err(());
    }
    RecordsMeans(p, pcrs, firmware);
    return Ok(next);
  }

  /** A ready-stage quote with these values was verified. */
  ghost predicate VerifiedReady(hash: Hashes, learn: bool, p: Policy, req: Request, pcrs: seq<nat>,
      values: Values)
  {
    && req.stage == STAGE_READY && Genuine(hash, req, pcrs, values) && CoversStage(req.stage, pcrs)
    && MatchesPolicy(p, learn, req.stage, values)
  }

  /** Every golden index has a value of the bank's size. */
  predicate HoldsGolden(values: Values) {
    forall i :: i in GOLDEN_INDEXES ==> i in values && |values[i]| == 32
  }

  lemma ReadyHoldsGolden(hash: Hashes, req: Request, pcrs: seq<nat>, values: Values)
    requires Genuine(hash, req, pcrs, values) && CoversStage(STAGE_READY, pcrs)
    ensures HoldsGolden(values)
  {
    assert Sized(pcrs, values, 32);
    forall i | i in GOLDEN_INDEXES ensures i in pcrs {
      assert i in FIRMWARE_PCRS || i == PCR_SYSEXT;
      assert i in RequiredPCRs(STAGE_READY);
    }
  }

  lemma RecordedWellFormed(p: Policy, values: Values, firmware: string)
    requires HoldsGolden(values) && WellFormed(p) && IsDigest(firmware)
    ensures CoversGolden(HexPCRs(values)) && WellFormed(RecordedPolicy(p, HexPCRs(values), firmware))
  {
    var golden := GoldenOf(HexPCRs(values));
    forall i | i in golden ensures 0 <= i <= MAX_PCR && IsDigest(golden[i]) {
      HexDecodeEncode(values[i]);
    }
  }

  /** Recording a verified ready-stage quote into a valid policy never fails for want of a value. */
  lemma RecordingSucceeds(hash: Hashes, learn: bool, p: Policy, req: Request, pcrs: seq<nat>,
                          values: Values, firmware: string)
    requires VerifiedReady(hash, learn, p, req, pcrs, values) && WellFormed(p) && IsDigest(firmware)
    ensures CoversGolden(HexPCRs(values)) && WellFormed(RecordedPolicy(p, HexPCRs(values), firmware))
  {
    ReadyHoldsGolden(hash, req, pcrs, values);
    RecordedWellFormed(p, values, firmware);
  }

  lemma LowerHex(b: seq<byte>)
    ensures ToLower(HexEncode(b)) == HexEncode(b)
  {
    HexDecodeEncode(b);
    HexEncodeDecode(HexEncode(b));
  }

  lemma HexInjective(a: seq<byte>, b: seq<byte>)
    ensures HexEncode(a) == HexEncode(b) <==> a == b
  {
    HexDecodeEncode(a);
    HexDecodeEncode(b);
  }

  lemma GoldenRecorded(p: Policy, values: Values, firmware: string, i: nat)
    requires i in GOLDEN_INDEXES && i in values
    ensures Golden(RecordedPolicy(p, HexPCRs(values), firmware), i) == Some(HexEncode(values[i]))
  {
    LowerHex(values[i]);
    assert GoldenOf(HexPCRs(values))[i] == HexEncode(values[i]);
  }

  /** After recording, every golden index expects exactly the value of the recorded quote. */
  lemma ExpectsRecorded(p: Policy, learn: bool, values: Values, firmware: string, i: nat)
    requires HoldsGolden(values) && MatchesPolicy(p, learn, STAGE_READY, values) && i in GOLDEN_INDEXES
    ensures Expected(RecordedPolicy(p, HexPCRs(values), firmware), i) == Some(HexEncode(values[i]))
  {
    GoldenRecorded(p, values, firmware, i);
    if i == PCR_SYSEXT {
      assert i in ComparedPCRs(STAGE_READY);
      assert Acceptable(p, learn, i, values[i]);
    }
  }

  lemma ComparedAreGolden(stage: string, i: nat)
    requires i in ComparedPCRs(stage)
    ensures i in GOLDEN_INDEXES
  {
  }

  lemma RecordedMatches(p: Policy, learn: bool, values: Values, firmware: string, learn': bool, stage: string,
      values': Values)
    requires HoldsGolden(values) && MatchesPolicy(p, learn, STAGE_READY, values)
    requires PCR_UKI in values' && forall i :: i in ComparedPCRs(stage) ==> i in values'
    ensures forall i :: i in ComparedPCRs(stage) ==> i in values
    ensures MatchesPolicy(RecordedPolicy(p, HexPCRs(values), firmware), learn', stage, values') <==>
              && HexEncode(values'[PCR_UKI]) == Pcr11(p, stage)
              && forall i :: i in ComparedPCRs(stage) ==> values'[i] == values[i]
  {
    var p' := RecordedPolicy(p, HexPCRs(values), firmware);
    forall i | i in ComparedPCRs(stage)
      ensures i in values && (Acceptable(p', learn', i, values'[i]) <==> values'[i] == values[i])
    {
      ComparedAreGolden(stage, i);
      ExpectsRecorded(p, learn, values, firmware, i);
      HexInjective(values'[i], values[i]);
    }
  }

  lemma NothingLearned(p: Policy, learn: bool, values: Values, firmware: string, stage: string)
    requires HoldsGolden(values) && MatchesPolicy(p, learn, STAGE_READY, values)
    ensures LearnedOf(RecordedPolicy(p, HexPCRs(values), firmware), ComparedPCRs(stage)) == []
  {
    var p' := RecordedPolicy(p, HexPCRs(values), firmware);
    var learned := LearnedOf(p', ComparedPCRs(stage));
    if learned != [] {
      LearnedExactly(p', ComparedPCRs(stage), learned[0]);
      ComparedAreGolden(stage, learned[0]);
      ExpectsRecorded(p, learn, values, firmware, learned[0]);
    }
  }

  /**
   * Learning, then recording, is a fixpoint: under the recorded policy, with learning on or off, a
   * genuine quote is sound exactly when its PCR 11 is the stage's and every compared PCR is the
   * recorded quote's, and nothing is learned from it.
   */
  lemma LearnThenRecord(hash: Hashes, learn: bool, p: Policy, req: Request, pcrs: seq<nat>,
                        values: Values, firmware: string,
                        learn': bool, req': Request, pcrs': seq<nat>, values': Values)
    requires VerifiedReady(hash, learn, p, req, pcrs, values)
    requires ValidStage(req'.stage) && Genuine(hash, req', pcrs', values') && CoversStage(req'.stage, pcrs')
    ensures PCR_UKI in values' && forall i :: i in ComparedPCRs(req'.stage) ==> i in values && i in values'
    ensures Sound(hash, learn', RecordedPolicy(p, HexPCRs(values), firmware), req') <==>
              && HexEncode(values'[PCR_UKI]) == Pcr11(p, req'.stage)
              && forall i :: i in ComparedPCRs(req'.stage) ==> values'[i] == values[i]
    ensures LearnedOf(RecordedPolicy(p, HexPCRs(values), firmware), ComparedPCRs(req'.stage)) == []
  {
    ComparedAreCovered(req'.stage, pcrs');
    SoundIffMatches(hash, learn', RecordedPolicy(p, HexPCRs(values), firmware), req', pcrs', values');
    ReadyHoldsGolden(hash, req, pcrs, values);
    RecordedMatches(p, learn, values, firmware, learn', req'.stage, values');
    NothingLearned(p, learn, values, firmware, req'.stage);
  }
}
