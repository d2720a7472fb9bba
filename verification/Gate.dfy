/**
 * The user-data gate: the VM lifecycle, the nonce store, the pinned keys and the submissions in
 * flight as one transition system. A submission is several critical sections (nonce, pin check,
 * enrolment, recording), and everything else may happen between them.
 */
module Gate {
  import opened Common
  import opened Lifecycle
  import opened LifecycleRuns
  import opened LifecycleWaits
  import opened NonceStore
  import NonceHistory
  import Policy
  import TpmQuote
  import V = Verifier

  /** What a vm-manager is configured with. */
  datatype Site = Site(hash: TpmQuote.Hashes, learn: bool, store: Config)

  /** How far a submission has come; a rejected one ends the same way as a verified one, recorded. */
  datatype Progress = Consumed | Passed(ak: V.Fingerprint) | Verified(ak: V.Fingerprint) | Rejected | Recorded

  datatype Submission = Submission(vm: Id, req: V.Request, progress: Progress)

  datatype Gate = Gate(svc: Service, nonces: Table, pins: map<Id, string>, subs: seq<Submission>, clock: int)

  datatype Event =
    | Serve(action: Action)
    | IssueNonce(vm: Id, nonce: string, now: int, victim: Option<string>)
    | Submit(vm: Id, req: V.Request, now: int)
    | Examine(k: nat, answer: V.PolicyAnswer)
    | Enrol(k: nat)
    | RecordVerdict(k: nat, fingerprint: string)
    | ForgetKey(vm: Id)
    | ForgetNonces(vm: Id)

  function PinOf(g: Gate, vm: Id): string {
    if vm in g.pins then g.pins[vm] else ""
  }

  function StageOf(stage: string): Stage {
    if stage == Policy.STAGE_INITRD then InitrdStage else ReadyStage
  }

  predicate InMap(s: Service, vm: Id) {
    vm in s.entries && s.entries[vm].inMap
  }

  /** Delete calls Forget once the VM has left the map. */
  predicate Removed(s: Service, vm: Id) {
    vm in s.entries && !s.entries[vm].inMap
  }

  predicate Quoted(a: Action) {
    a.At? && a.step.RecordQuote?
  }

  /** A guest's request reaches the verifier only after its address was resolved to a VM. */
  predicate Can(site: Site, g: Gate, ev: Event) {
    match ev
    case Serve(a) => Possible(g.svc, a) && !Quoted(a)
    case IssueNonce(vm, nonce, now, victim) =>
      vm in g.svc.entries && g.clock <= now && Legal(g.nonces, Issue(vm, nonce, now, victim), site.store)
    case Submit(vm, _, now) => vm in g.svc.entries && g.clock <= now
    case Examine(k, answer) => k < |g.subs| && g.subs[k].progress.Consumed? && !answer.Broken?
    case Enrol(k) => k < |g.subs| && g.subs[k].progress.Passed?
    case RecordVerdict(k, _) => k < |g.subs| && (g.subs[k].progress.Verified? || g.subs[k].progress.Rejected?)
    case ForgetKey(vm) => Removed(g.svc, vm)
    case ForgetNonces(vm) => Removed(g.svc, vm)
  }

  ghost function Submitted(site: Site, g: Gate, vm: Id, req: V.Request, now: int): Gate {
    var progress := if Accepts(g.nonces, vm, req.nonce, now, site.store.ttl) then Consumed else Rejected;
    g.(nonces := Apply(g.nonces, Consume(vm, req.nonce, now), site.store), clock := now,
       subs := g.subs + [Submission(vm, req, progress)])
  }

  function With(g: Gate, k: nat, progress: Progress): Gate
    requires k < |g.subs|
  {
    g.(subs := g.subs[k := g.subs[k].(progress := progress)])
  }

  /** The checks on the quote itself and the early look at the pin. */
  ghost predicate Passes(site: Site, g: Gate, vm: Id, req: V.Request, answer: V.PolicyAnswer) {
    && V.Convincing(site.hash, site.learn, answer, req)
    && (PinOf(g, vm) == "" || PinOf(g, vm) == req.attest.fingerprint)
  }

  ghost function Examined(site: Site, g: Gate, k: nat, answer: V.PolicyAnswer): Gate
    requires k < |g.subs|
  {
    With(g, k, if Passes(site, g, g.subs[k].vm, g.subs[k].req, answer) then Passed(g.subs[k].req.attest.fingerprint) else Rejected)
  }

  predicate Enrols(g: Gate, k: nat) {
    k < |g.subs| && g.subs[k].progress.Passed? &&
    V.PinAccepts(PinOf(g, g.subs[k].vm), g.subs[k].req.stage, g.subs[k].progress.ak)
  }

  function Enrolled(g: Gate, k: nat): Gate
    requires k < |g.subs| && g.subs[k].progress.Passed?
  {
    var s := g.subs[k];
    if Enrols(g, k) then With(g, k, Verified(s.progress.ak)).(pins := g.pins[s.vm := s.progress.ak])
    else With(g, k, Rejected)
  }

  /** recordQuote; the fingerprint it notes is read afterwards and may be of a later submission. */
  function Recording(s: Submission, fingerprint: string): Action {
    At(s.vm, RecordQuote(StageOf(s.req.stage), Quote(s.progress.Verified?, fingerprint)))
  }

  ghost function AfterRecord(g: Gate, k: nat, fingerprint: string): Gate
    requires k < |g.subs|
  {
    var s := g.subs[k];
    var g' := With(g, k, Progress.Recorded);
    if InMap(g.svc, s.vm) && Policy.ValidStage(s.req.stage) then g'.(svc := Next(g.svc, Recording(s, fingerprint))) else g'
  }

  /** A restart loses what the verifier keeps in memory. */
  ghost function Served(g: Gate, a: Action): Gate
    requires Possible(g.svc, a)
  {
    if a.Crash? then Gate(Next(g.svc, a), map[], map[], [], g.clock) else g.(svc := Next(g.svc, a))
  }

  ghost function Happen(site: Site, g: Gate, ev: Event): Gate
    requires Can(site, g, ev)
  {
    match ev
    case Serve(a) => Served(g, a)
    case IssueNonce(vm, nonce, now, victim) =>
      g.(nonces := Apply(g.nonces, Issue(vm, nonce, now, victim), site.store), clock := now)
    case Submit(vm, req, now) => Submitted(site, g, vm, req, now)
    case Examine(k, answer) => Examined(site, g, k, answer)
    case Enrol(k) => Enrolled(g, k)
    case RecordVerdict(k, fingerprint) => AfterRecord(g, k, fingerprint)
    case ForgetKey(vm) => g.(pins := g.pins - {vm})
    case ForgetNonces(vm) => g.(nonces := Apply(g.nonces, Forget(vm), site.store))
  }

  datatype Trace = Trace(states: seq<Gate>, events: seq<Event>)

  ghost predicate HappensAt(site: Site, t: Trace, i: nat)
    requires |t.states| == |t.events| + 1 && i < |t.events|
  {
    Can(site, t.states[i], t.events[i]) && t.states[i + 1] == Happen(site, t.states[i], t.events[i])
  }

  ghost predicate IsTrace(site: Site, t: Trace) {
    && |t.states| == |t.events| + 1
    && t.states[0] == Gate(Init(t.states[0].svc.env.detach), map[], map[], [], t.states[0].clock)
    && forall i :: 0 <= i < |t.events| ==> HappensAt(site, t, i)
  }

  // ---------------------------------------------------------------- the service part of a trace

  predicate Crashes(ev: Event) {
    ev.Serve? && ev.action.Crash?
  }

  /** The lifecycle action an event performs, if any. */
  ghost function ActionOf(g: Gate, ev: Event): Option<Action> {
    match ev
    case Serve(a) => Some(a)
    case RecordVerdict(k, fingerprint) =>
      if k < |g.subs| && InMap(g.svc, g.subs[k].vm) && Policy.ValidStage(g.subs[k].req.stage)
      then Some(Recording(g.subs[k], fingerprint)) else None
    case _ => None
  }

  lemma ServiceMoves(site: Site, g: Gate, ev: Event)
    requires Can(site, g, ev)
    ensures var a := ActionOf(g, ev);
            if a.Some? then Possible(g.svc, a.value) && Happen(site, g, ev).svc == Next(g.svc, a.value)
            else Happen(site, g, ev).svc == g.svc
  {
  }

  lemma ServiceMovesAt(site: Site, t: Trace, i: nat)
    requires IsTrace(site, t) && i < |t.events|
    ensures var a := ActionOf(t.states[i], t.events[i]);
            if a.Some? then Possible(t.states[i].svc, a.value) && t.states[i + 1].svc == Next(t.states[i].svc, a.value)
            else t.states[i + 1].svc == t.states[i].svc
  {
    assert HappensAt(site, t, i);
    ServiceMoves(site, t.states[i], t.events[i]);
  }

  lemma {:induction false} GateOK(site: Site, t: Trace, i: nat)
    requires IsTrace(site, t) && i < |t.states|
    ensures ServiceOK(t.states[i].svc)
  {
    if i > 0 {
      GateOK(site, t, i - 1);
      ServiceMovesAt(site, t, i - 1);
      var a := ActionOf(t.states[i - 1], t.events[i - 1]);
      if a.Some? {
        NextKeepsService(t.states[i - 1].svc, a.value);
      }
    }
  }

  // ---------------------------------------------------------------- where a verdict comes from

  /** No restart between two points of a trace. */
  ghost predicate NoRestart(t: Trace, i: nat, j: nat)
    requires j <= |t.events|
  {
    forall m :: i <= m < j ==> !Crashes(t.events[m])
  }

  /** What one event may do to the `k`-th submission. */
  ghost predicate SubmissionMoves(site: Site, g: Gate, ev: Event, g': Gate, k: nat) {
    && !Crashes(ev) && k <= |g.subs| && k < |g'.subs|
    && (k == |g.subs| ==>
          && ev.Submit? && g'.subs[k].vm == ev.vm && g'.subs[k].req == ev.req
          && g'.subs[k].progress ==
             if Accepts(g.nonces, ev.vm, ev.req.nonce, ev.now, site.store.ttl) then Consumed else Rejected)
    && (k < |g.subs| ==>
          var s, s' := g.subs[k], g'.subs[k];
          && s.vm == s'.vm && s.req == s'.req
          && (|| s' == s
              || (&& ev.Examine? && ev.k == k && s.progress.Consumed?
                  && (if Passes(site, g, s.vm, s.req, ev.answer) then s'.progress == Passed(s.req.attest.fingerprint)
                      else s'.progress == Rejected))
              || (&& ev == Enrol(k) && s.progress.Passed?
                  && s'.progress == if Enrols(g, k) then Verified(s.progress.ak) else Rejected)
              || (ev.RecordVerdict? && s'.progress.Recorded?)))
  }

  lemma SubmissionStep(site: Site, g: Gate, ev: Event, k: nat)
    requires Can(site, g, ev) && k < |Happen(site, g, ev).subs|
    ensures SubmissionMoves(site, g, ev, Happen(site, g, ev), k)
  {
  }

  lemma SubmissionStepAt(site: Site, t: Trace, i: nat, k: nat)
    requires IsTrace(site, t) && i < |t.events| && k < |t.states[i + 1].subs|
    ensures SubmissionMoves(site, t.states[i], t.events[i], t.states[i + 1], k)
  {
    assert HappensAt(site, t, i);
    SubmissionStep(site, t.states[i], t.events[i], k);
  }

  /** Every submission was made by a Submit; unless rejected or done with, its nonce was accepted there. */
  lemma {:induction false} SubmittedBefore(site: Site, t: Trace, i: nat, k: nat) returns (c: nat)
    requires IsTrace(site, t) && i < |t.states| && k < |t.states[i].subs|
    ensures c < i && t.events[c].Submit? && NoRestart(t, c, i) && |t.states[c].subs| == k
    ensures t.events[c].vm == t.states[i].subs[k].vm && t.events[c].req == t.states[i].subs[k].req
    ensures t.states[i].subs[k].progress.Consumed? || t.states[i].subs[k].progress.Passed? ||
            t.states[i].subs[k].progress.Verified? ==>
              Accepts(t.states[c].nonces, t.events[c].vm, t.events[c].req.nonce, t.events[c].now, site.store.ttl)
  {
    SubmissionStepAt(site, t, i - 1, k);
    if k == |t.states[i - 1].subs| {
      c := i - 1;
    } else {
      c := SubmittedBefore(site, t, i - 1, k);
    }
  }

  /** The event that let a submission pass. */
  lemma PassedAt(site: Site, t: Trace, i: nat, k: nat)
    requires IsTrace(site, t) && i < |t.events| && k < |t.states[i + 1].subs| && t.states[i + 1].subs[k].progress.Passed?
    ensures k < |t.states[i].subs| && !Crashes(t.events[i])
    ensures t.states[i].subs[k] != t.states[i + 1].subs[k] ==>
              && t.events[i].Examine? && t.events[i].k == k
              && t.states[i].subs[k] == t.states[i + 1].subs[k].(progress := Consumed)
              && Passes(site, t.states[i], t.states[i + 1].subs[k].vm, t.states[i + 1].subs[k].req, t.events[i].answer)
              && t.states[i + 1].subs[k].progress.ak == t.states[i + 1].subs[k].req.attest.fingerprint
  {
    SubmissionStepAt(site, t, i, k);
  }

  /** A submission past its checks had a quote that convinced under the policy it was checked against. */
  lemma {:induction false} ExaminedBefore(site: Site, t: Trace, i: nat, k: nat) returns (x: nat)
    requires IsTrace(site, t) && i < |t.states| && k < |t.states[i].subs| && t.states[i].subs[k].progress.Passed?
    ensures x < i && t.events[x].Examine? && t.events[x].k == k && NoRestart(t, x, i)
    ensures k < |t.states[x].subs| && t.states[x].subs[k] == t.states[i].subs[k].(progress := Consumed)
    ensures Passes(site, t.states[x], t.states[i].subs[k].vm, t.states[i].subs[k].req, t.events[x].answer)
    ensures t.states[i].subs[k].progress.ak == t.states[i].subs[k].req.attest.fingerprint
  {
    PassedAt(site, t, i - 1, k);
    if t.states[i - 1].subs[k] == t.states[i].subs[k] {
      x := ExaminedBefore(site, t, i - 1, k);
    } else {
      x := i - 1;
    }
  }

  /** A verified submission enrolled: the pin accepted its key, and was that key from then on. */
  lemma {:induction false} EnrolledBefore(site: Site, t: Trace, i: nat, k: nat) returns (e: nat)
    requires IsTrace(site, t) && i < |t.states| && k < |t.states[i].subs| && t.states[i].subs[k].progress.Verified?
    ensures e < i && t.events[e] == Enrol(k) && Enrols(t.states[e], k) && NoRestart(t, e, i)
    ensures t.states[e].subs[k] == t.states[i].subs[k].(progress := Passed(t.states[i].subs[k].progress.ak))
  {
    SubmissionStepAt(site, t, i - 1, k);
    if t.states[i - 1].subs[k] == t.states[i].subs[k] {
      e := EnrolledBefore(site, t, i - 1, k);
    } else {
      e := i - 1;
    }
  }

  /**
   * The chain behind an enrolment: a nonce of that VM accepted, then a quote with that nonce that
   * convinced, all since the last restart.
   */
  ghost predicate Vetted(site: Site, t: Trace, e: nat, vm: Id, stage: string, ak: string, c: nat, x: nat)
    requires |t.states| == |t.events| + 1 && e < |t.events|
  {
    && c < x < e && NoRestart(t, c, e)
    && t.events[e].Enrol? && Enrols(t.states[e], t.events[e].k)
    && t.events[c].Submit? && t.events[c].vm == vm && t.events[c].req.stage == stage
    && Accepts(t.states[c].nonces, vm, t.events[c].req.nonce, t.events[c].now, site.store.ttl)
    && t.events[x].Examine? && t.events[x].k == t.events[e].k
    && V.Convincing(site.hash, site.learn, t.events[x].answer, t.events[c].req)
    && t.events[c].req.attest.fingerprint == ak
    && V.PinAccepts(PinOf(t.states[e], vm), stage, ak) && PinOf(t.states[e + 1], vm) == ak
  }

  lemma EnrolmentVetted(site: Site, t: Trace, e: nat) returns (c: nat, x: nat)
    requires IsTrace(site, t) && e < |t.events| && t.events[e].Enrol? && Enrols(t.states[e], t.events[e].k)
    ensures var s := t.states[e].subs[t.events[e].k];
            Vetted(site, t, e, s.vm, s.req.stage, s.progress.ak, c, x)
  {
    var k := t.events[e].k;
    x := ExaminedBefore(site, t, e, k);
    c := SubmittedBefore(site, t, x, k);
    PinStepAt(site, t, e, t.states[e].subs[k].vm);
  }

  // ---------------------------------------------------------------- one key per VM

  /** Nothing between two points of a trace makes the verifier forget the VM's key. */
  ghost predicate KeyKept(t: Trace, i: nat, j: nat, vm: Id)
    requires j <= |t.events|
  {
    forall m :: i <= m < j ==> !Crashes(t.events[m]) && t.events[m] != ForgetKey(vm)
  }

  lemma PinStep(site: Site, g: Gate, ev: Event, vm: Id)
    requires Can(site, g, ev)
    ensures PinOf(g, vm) != "" && !Crashes(ev) && ev != ForgetKey(vm) ==> PinOf(Happen(site, g, ev), vm) == PinOf(g, vm)
    ensures PinOf(Happen(site, g, ev), vm) != PinOf(g, vm) && PinOf(Happen(site, g, ev), vm) != "" ==>
              ev.Enrol? && Enrols(g, ev.k) && g.subs[ev.k].vm == vm
              && PinOf(Happen(site, g, ev), vm) == g.subs[ev.k].progress.ak
    ensures ev.Enrol? && Enrols(g, ev.k) && g.subs[ev.k].vm == vm ==>
              PinOf(Happen(site, g, ev), vm) == g.subs[ev.k].progress.ak
    ensures Crashes(ev) || ev == ForgetKey(vm) ==> PinOf(Happen(site, g, ev), vm) == ""
  {
  }

  lemma PinStepAt(site: Site, t: Trace, i: nat, vm: Id)
    requires IsTrace(site, t) && i < |t.events|
    ensures PinOf(t.states[i], vm) != "" && !Crashes(t.events[i]) && t.events[i] != ForgetKey(vm) ==>
              PinOf(t.states[i + 1], vm) == PinOf(t.states[i], vm)
    ensures PinOf(t.states[i + 1], vm) != PinOf(t.states[i], vm) && PinOf(t.states[i + 1], vm) != "" ==>
              && t.events[i].Enrol? && Enrols(t.states[i], t.events[i].k) && t.states[i].subs[t.events[i].k].vm == vm
              && PinOf(t.states[i + 1], vm) == t.states[i].subs[t.events[i].k].progress.ak
    ensures t.events[i].Enrol? && Enrols(t.states[i], t.events[i].k) && t.states[i].subs[t.events[i].k].vm == vm ==>
              PinOf(t.states[i + 1], vm) == t.states[i].subs[t.events[i].k].progress.ak
    ensures Crashes(t.events[i]) || t.events[i] == ForgetKey(vm) ==> PinOf(t.states[i + 1], vm) == ""
  {
    assert HappensAt(site, t, i);
    PinStep(site, t.states[i], t.events[i], vm);
  }

  lemma {:induction false} PinStays(site: Site, t: Trace, i: nat, j: nat, vm: Id)
    requires IsTrace(site, t) && i <= j < |t.states| && KeyKept(t, i, j, vm) && PinOf(t.states[i], vm) != ""
    ensures PinOf(t.states[j], vm) == PinOf(t.states[i], vm)
  {
    if i < j {
      PinStays(site, t, i, j - 1, vm);
      PinStepAt(site, t, j - 1, vm);
    }
  }

  /** The successful enrolment of a quote of `vm`. */
  predicate EnrolsKey(g: Gate, ev: Event, vm: Id, stage: string, ak: string) {
    ev.Enrol? && Enrols(g, ev.k) && g.subs[ev.k].vm == vm && g.subs[ev.k].req.stage == stage && g.subs[ev.k].progress.ak == ak
  }

  /** Between two forgettings every verified quote of a VM carries the same key, however submissions interleave. */
  lemma OneKeyUntilForgotten(site: Site, t: Trace, i: nat, j: nat, vm: Id, stage: string, ak: string, stage': string,
      ak': string)
    requires IsTrace(site, t) && i < j < |t.events| && KeyKept(t, i, j, vm)
    requires EnrolsKey(t.states[i], t.events[i], vm, stage, ak) && EnrolsKey(t.states[j], t.events[j], vm, stage', ak')
    ensures ak == ak'
  {
    PinStepAt(site, t, i, vm);
    PinStays(site, t, i + 1, j, vm);
  }

  /** A pin was set by an initrd-stage enrolment, and nothing has made the verifier forget it since. */
  lemma {:induction false} PinnedByInitrd(site: Site, t: Trace, i: nat, vm: Id) returns (e: nat)
    requires IsTrace(site, t) && i < |t.states| && PinOf(t.states[i], vm) != ""
    ensures e < i && KeyKept(t, e, i, vm)
    ensures EnrolsKey(t.states[e], t.events[e], vm, Policy.STAGE_INITRD, PinOf(t.states[i], vm))
  {
    var g, ev := t.states[i - 1], t.events[i - 1];
    PinStepAt(site, t, i - 1, vm);
    if PinOf(g, vm) == PinOf(t.states[i], vm) {
      e := PinnedByInitrd(site, t, i - 1, vm);
    } else {
      e := i - 1;
    }
  }

  /**
   * A ready-stage quote is verified only after an initrd-stage quote with the same key passed every
   * check and enrolled, with the key not forgotten in between.
   */
  lemma ReadyOnlyAfterInitrd(site: Site, t: Trace, j: nat, vm: Id, ak: string) returns (e: nat, c: nat, x: nat)
    requires IsTrace(site, t) && j < |t.events| && EnrolsKey(t.states[j], t.events[j], vm, Policy.STAGE_READY, ak)
    ensures e < j && KeyKept(t, e, j, vm)
    ensures EnrolsKey(t.states[e], t.events[e], vm, Policy.STAGE_INITRD, ak)
    ensures Vetted(site, t, e, vm, Policy.STAGE_INITRD, ak, c, x)
  {
    e := PinnedByInitrd(site, t, j, vm);
    c, x := EnrolmentVetted(site, t, e);
  }

  // ---------------------------------------------------------------- live nonces

  /** The event ends an outstanding nonce. */
  predicate Uses(ev: Event, vm: Id, nonce: string) {
    || Crashes(ev)
    || (ev.IssueNonce? && ev.vm == vm && (ev.nonce == nonce || ev.victim == Some(nonce)))
    || (ev.Submit? && ev.vm == vm && ev.req.nonce == nonce)
    || ev == ForgetNonces(vm)
  }

  lemma NonceStep(site: Site, g: Gate, ev: Event, vm: Id, nonce: string)
    requires Can(site, g, ev) && nonce in Of(Happen(site, g, ev).nonces, vm)
    ensures var n' := Of(Happen(site, g, ev).nonces, vm);
            || (ev.IssueNonce? && ev.vm == vm && ev.nonce == nonce && n'[nonce] == ev.now)
            || (nonce in Of(g.nonces, vm) && Of(g.nonces, vm)[nonce] == n'[nonce] && !Uses(ev, vm, nonce))
  {
    match ev {
      case IssueNonce(v, n, now, victim) => NonceHistory.HeldStep(g.nonces, Issue(v, n, now, victim), site.store, vm, nonce);
      case Submit(v, req, now) => NonceHistory.HeldStep(g.nonces, Consume(v, req.nonce, now), site.store, vm, nonce);
      case ForgetNonces(v) => NonceHistory.HeldStep(g.nonces, Forget(v), site.store, vm, nonce);
      case _ =>
    }
  }

  lemma NonceStepAt(site: Site, t: Trace, i: nat, vm: Id, nonce: string)
    requires IsTrace(site, t) && i < |t.events| && nonce in Of(t.states[i + 1].nonces, vm)
    ensures var ev, at := t.events[i], Of(t.states[i + 1].nonces, vm)[nonce];
            || (ev.IssueNonce? && ev.vm == vm && ev.nonce == nonce && ev.now == at)
            || (nonce in Of(t.states[i].nonces, vm) && Of(t.states[i].nonces, vm)[nonce] == at && !Uses(ev, vm, nonce))
  {
    assert HappensAt(site, t, i);
    NonceStep(site, t.states[i], t.events[i], vm, nonce);
  }

  /** An outstanding nonce was issued to that VM at the time noted, and nothing has used it since. */
  lemma {:induction false} IssuedBefore(site: Site, t: Trace, i: nat, vm: Id, nonce: string) returns (n: nat)
    requires IsTrace(site, t) && i < |t.states| && nonce in Of(t.states[i].nonces, vm)
    ensures n < i && t.events[n].IssueNonce? && t.events[n].vm == vm && t.events[n].nonce == nonce
    ensures t.events[n].now == Of(t.states[i].nonces, vm)[nonce]
    ensures forall m :: n < m < i ==> !Uses(t.events[m], vm, nonce)
  {
    NonceStepAt(site, t, i - 1, vm, nonce);
    if t.events[i - 1].IssueNonce? && t.events[i - 1].vm == vm && t.events[i - 1].nonce == nonce
       && Of(t.states[i].nonces, vm)[nonce] == t.events[i - 1].now {
      n := i - 1;
    } else {
      n := IssuedBefore(site, t, i - 1, vm, nonce);
    }
  }

  /** The nonce submitted at `c` was issued to that VM at `n`, in time, and not used in between. */
  ghost predicate LiveAt(site: Site, t: Trace, n: nat, c: nat)
    requires c < |t.events|
  {
    && n < c && t.events[c].Submit? && t.events[n].IssueNonce?
    && t.events[n].vm == t.events[c].vm && t.events[n].nonce == t.events[c].req.nonce
    && t.events[c].now - t.events[n].now <= site.store.ttl
    && forall m :: n < m < c ==> !Uses(t.events[m], t.events[c].vm, t.events[c].req.nonce)
  }

  lemma AcceptedWhileLive(site: Site, t: Trace, c: nat) returns (n: nat)
    requires IsTrace(site, t) && c < |t.events| && t.events[c].Submit?
    requires Accepts(t.states[c].nonces, t.events[c].vm, t.events[c].req.nonce, t.events[c].now, site.store.ttl)
    ensures LiveAt(site, t, n, c)
  {
    n := IssuedBefore(site, t, c, t.events[c].vm, t.events[c].req.nonce);
  }

  // ---------------------------------------------------------------- the gate

  /** The event publishes an installed boot of the VM, or creates it. */
  ghost predicate Resets(g: Gate, ev: Event, vm: Id) {
    ev.Serve? && (BootsAt(g.svc, ev.action, vm) || AllocatesAt(ev.action, vm))
  }

  ghost predicate NoReset(t: Trace, i: nat, j: nat, vm: Id)
    requires |t.states| == |t.events| + 1 && j <= |t.events|
  {
    forall m :: i < m < j ==> !Resets(t.states[m], t.events[m], vm)
  }

  /** The recording of a verified initrd-stage verdict of the VM. */
  predicate Releases(g: Gate, ev: Event, vm: Id) {
    && ev.RecordVerdict? && ev.k < |g.subs| && g.subs[ev.k].vm == vm && g.subs[ev.k].progress.Verified?
    && g.subs[ev.k].req.stage == Policy.STAGE_INITRD
  }

  ghost predicate Open(s: Service, vm: Id) {
    RecordOf(s, vm).Some? && RecordOf(s, vm).value.requireAttestation && RecordOf(s, vm).value.attestation.released
  }

  lemma ReleaseStep(site: Site, g: Gate, ev: Event, vm: Id)
    requires ServiceOK(g.svc) && Can(site, g, ev) && Open(Happen(site, g, ev).svc, vm)
    ensures Releases(g, ev, vm) || (Open(g.svc, vm) && !Resets(g, ev, vm))
  {
    ServiceMoves(site, g, ev);
    var a := ActionOf(g, ev);
    if a.Some? {
      ActionSourced(g.svc, a.value, vm);
    }
  }

  lemma ReleaseStepAt(site: Site, t: Trace, i: nat, vm: Id)
    requires IsTrace(site, t) && i < |t.events| && Open(t.states[i + 1].svc, vm)
    ensures Releases(t.states[i], t.events[i], vm) || (Open(t.states[i].svc, vm) && !Resets(t.states[i], t.events[i], vm))
  {
    GateOK(site, t, i);
    assert HappensAt(site, t, i);
    ReleaseStep(site, t.states[i], t.events[i], vm);
  }

  lemma {:induction false} ReleasedBefore(site: Site, t: Trace, i: nat, vm: Id) returns (q: nat)
    requires IsTrace(site, t) && i < |t.states| && Open(t.states[i].svc, vm)
    ensures q < i && Releases(t.states[q], t.events[q], vm) && NoReset(t, q, i, vm)
  {
    ReleaseStepAt(site, t, i - 1, vm);
    if Releases(t.states[i - 1], t.events[i - 1], vm) {
      q := i - 1;
    } else {
      q := ReleasedBefore(site, t, i - 1, vm);
    }
  }

  /** Without a restart, a VM that is not in the map was there never before, or is removed. */
  lemma MapStepAt(site: Site, t: Trace, i: nat, vm: Id)
    requires IsTrace(site, t) && i < |t.events| && !Crashes(t.events[i])
    ensures vm in t.states[i].svc.entries ==> vm in t.states[i + 1].svc.entries
    ensures Removed(t.states[i].svc, vm) ==> Removed(t.states[i + 1].svc, vm)
  {
    GateOK(site, t, i);
    ServiceMovesAt(site, t, i);
    var a := ActionOf(t.states[i], t.events[i]);
    if a.Some? && vm in t.states[i].svc.entries {
      ActionStays(t.states[i].svc, a.value, vm);
    }
  }

  /** While vm-manager runs, a VM once taken out of the map stays out of it. */
  lemma {:induction false} StaysRemoved(site: Site, t: Trace, m: nat, i: nat, vm: Id)
    requires IsTrace(site, t) && m <= i < |t.states| && NoRestart(t, m, i) && Removed(t.states[m].svc, vm)
    ensures Removed(t.states[i].svc, vm)
  {
    if m < i {
      StaysRemoved(site, t, m, i - 1, vm);
      MapStepAt(site, t, i - 1, vm);
    }
  }

  /** Without a restart, the key of a VM that is in the map is still the one enrolled. */
  lemma KeyStillPinned(site: Site, t: Trace, e: nat, i: nat, vm: Id)
    requires IsTrace(site, t) && e <= i < |t.states| && NoRestart(t, e, i) && InMap(t.states[i].svc, vm)
    requires PinOf(t.states[e], vm) != ""
    ensures PinOf(t.states[i], vm) == PinOf(t.states[e], vm)
  {
    forall m | e <= m < i ensures t.events[m] != ForgetKey(vm) {
      if t.events[m] == ForgetKey(vm) {
        assert HappensAt(site, t, m);
        StaysRemoved(site, t, m, i, vm);
      }
    }
    PinStays(site, t, e, i, vm);
  }

  lemma KeyPinnedSince(site: Site, t: Trace, e: nat, q: nat, i: nat, vm: Id)
    requires IsTrace(site, t) && e < q < i < |t.states| && NoRestart(t, e, q) && NoRestart(t, q, i)
    requires InMap(t.states[i].svc, vm) && PinOf(t.states[e + 1], vm) != ""
    ensures PinOf(t.states[i], vm) == PinOf(t.states[e + 1], vm)
  {
    assert NoRestart(t, e + 1, i);
    KeyStillPinned(site, t, e + 1, i, vm);
  }

  /** The key behind a release. */
  function ReleasedKey(g: Gate, ev: Event, vm: Id): V.Fingerprint
    requires Releases(g, ev, vm)
  {
    g.subs[ev.k].progress.ak
  }

  /** A verdict that releases user-data was enrolled, convinced, and used a live nonce. */
  lemma ReleaseVetted(site: Site, t: Trace, q: nat, vm: Id) returns (n: nat, c: nat, x: nat, e: nat)
    requires IsTrace(site, t) && q < |t.events| && Releases(t.states[q], t.events[q], vm)
    ensures e < q && NoRestart(t, e, q)
    ensures Vetted(site, t, e, vm, Policy.STAGE_INITRD, ReleasedKey(t.states[q], t.events[q], vm), c, x)
    ensures LiveAt(site, t, n, c)
    ensures PinOf(t.states[e + 1], vm) == ReleasedKey(t.states[q], t.events[q], vm)
  {
    e := EnrolledBefore(site, t, q, t.events[q].k);
    c, x := EnrolmentVetted(site, t, e);
    n := AcceptedWhileLive(site, t, c);
  }

  /**
   * The user-data gate. When an address resolves to a VM that requires attestation and whose
   * user-data is released, then in this order: a nonce was issued to that VM; not later than its
   * lifetime a submission of that VM used it, nothing having used it before; the submitted
   * initrd-stage quote convinced; its key was enrolled; and the verdict was recorded, since when no
   * installed boot of the VM has begun. Unless vm-manager restarted, that key is the VM's pinned key.
   */
  lemma UserDataGate(site: Site, t: Trace, i: nat, ip: string, vm: Id) returns (n: nat, c: nat, x: nat, e: nat, q: nat)
    requires IsTrace(site, t) && i < |t.states| && Resolves(t.states[i].svc, ip, vm) && Open(t.states[i].svc, vm)
    ensures e < q < i && NoRestart(t, e, q)
    ensures Releases(t.states[q], t.events[q], vm) && NoReset(t, q, i, vm)
    ensures Vetted(site, t, e, vm, Policy.STAGE_INITRD, ReleasedKey(t.states[q], t.events[q], vm), c, x)
    ensures LiveAt(site, t, n, c)
    ensures NoRestart(t, q, i) ==> PinOf(t.states[i], vm) == ReleasedKey(t.states[q], t.events[q], vm)
  {
    q := ReleasedBefore(site, t, i, vm);
    n, c, x, e := ReleaseVetted(site, t, q, vm);
    if NoRestart(t, q, i) {
      KeyPinnedSince(site, t, e, q, i, vm);
    }
  }

  /** Recording a verified initrd-stage verdict unlocks it, whenever the verdict was reached. */
  lemma RecordingUnlocks(site: Site, g: Gate, k: nat, fingerprint: string)
    requires k < |g.subs| && Releases(g, RecordVerdict(k, fingerprint), g.subs[k].vm)
    requires InMap(g.svc, g.subs[k].vm) && g.svc.entries[g.subs[k].vm].rec.requireAttestation
    ensures Can(site, g, RecordVerdict(k, fingerprint))
    ensures Open(Happen(site, g, RecordVerdict(k, fingerprint)).svc, g.subs[k].vm)
  {
    var vm := g.subs[k].vm;
    assert Happen(site, g, RecordVerdict(k, fingerprint)).svc == Next(g.svc, Recording(g.subs[k], fingerprint));
  }

  lemma ExaminedAlone(site: Site, g: Gate, k: nat, answer: V.PolicyAnswer)
    requires k < |g.subs| && g.subs[k].progress.Consumed?
    ensures var s, p := g.subs[k], Examined(site, g, k, answer).subs[k].progress;
            && (p.Passed? <==> Passes(site, g, s.vm, s.req, answer)) && !p.Verified?
            && (p.Passed? ==> p.ak == s.req.attest.fingerprint)
  {
  }

  lemma EnrolledAlone(g: Gate, k: nat)
    requires k < |g.subs| && g.subs[k].progress.Passed?
    ensures var s, g' := g.subs[k], Enrolled(g, k);
            && (g'.subs[k].progress.Verified? <==> V.PinAccepts(PinOf(g, s.vm), s.req.stage, s.progress.ak))
            && g'.pins == if g'.subs[k].progress.Verified? then g.pins[s.vm := s.progress.ak] else g.pins
  {
  }

  /** A submission that nothing interrupts is verified exactly as the sequential verifier decides. */
  lemma UninterruptedSubmission(site: Site, g: Gate, vm: Id, req: V.Request, now: int, answer: V.PolicyAnswer)
    ensures var k := |g.subs|;
            var g1 := Submitted(site, g, vm, req, now);
            var g2 := if g1.subs[k].progress.Consumed? then Examined(site, g1, k, answer) else g1;
            var g3 := if g2.subs[k].progress.Passed? then Enrolled(g2, k) else g2;
            && (g3.subs[k].progress.Verified? <==>
                  && Accepts(g.nonces, vm, req.nonce, now, site.store.ttl)
                  && V.Convincing(site.hash, site.learn, answer, req)
                  && V.PinAccepts(PinOf(g, vm), req.stage, req.attest.fingerprint))
            && g3.pins == if g3.subs[k].progress.Verified? then g.pins[vm := req.attest.fingerprint] else g.pins
  {
    var k, g1 := |g.subs|, Submitted(site, g, vm, req, now);
    if g1.subs[k].progress.Consumed? {
      ExaminedAlone(site, g1, k, answer);
      var g2 := Examined(site, g1, k, answer);
      if g2.subs[k].progress.Passed? {
        EnrolledAlone(g2, k);
      }
    }
  }

  /** The events happen one after the other and lead from one state to another. */
  ghost predicate LeadsTo(site: Site, g: Gate, events: seq<Event>, g': Gate)
    decreases |events|
  {
    if events == [] then g == g'
    else Can(site, g, events[0]) && LeadsTo(site, Happen(site, g, events[0]), events[1..], g')
  }

  /** A nonce just issued is accepted. */
  lemma IssuedIsAccepted(site: Site, g: Gate, vm: Id, nonce: string, now: int, victim: Option<string>)
    requires Can(site, g, IssueNonce(vm, nonce, now, victim)) && site.store.ttl >= 0
    ensures Accepts(Happen(site, g, IssueNonce(vm, nonce, now, victim)).nonces, vm, nonce, now, site.store.ttl)
  {
  }

  lemma EnrolledVerifies(g: Gate, k: nat, vm: Id, req: V.Request, ak: V.Fingerprint)
    requires k < |g.subs| && g.subs[k] == Submission(vm, req, Passed(ak)) && V.PinAccepts(PinOf(g, vm), req.stage, ak)
    ensures Enrolled(g, k).subs[k] == Submission(vm, req, Verified(ak)) && Enrolled(g, k).svc == g.svc
    ensures |Enrolled(g, k).subs| == |g.subs|
  {
  }

  /** A quote past its checks, enrolled and recorded, opens the gate. */
  lemma PassedQuoteOpens(site: Site, g: Gate, k: nat, vm: Id, req: V.Request, ak: V.Fingerprint, fingerprint: string)
      returns (g': Gate)
    requires k < |g.subs| && g.subs[k] == Submission(vm, req, Passed(ak)) && req.stage == Policy.STAGE_INITRD
    requires PinOf(g, vm) == "" || PinOf(g, vm) == ak
    requires InMap(g.svc, vm) && g.svc.entries[vm].rec.requireAttestation
    ensures LeadsTo(site, g, [Enrol(k), RecordVerdict(k, fingerprint)], g') && Open(g'.svc, vm)
  {
    var events := [Enrol(k), RecordVerdict(k, fingerprint)];
    EnrolledVerifies(g, k, vm, req, ak);
    var g1 := Enrolled(g, k);
    RecordingUnlocks(site, g1, k, fingerprint);
    g' := Happen(site, g1, RecordVerdict(k, fingerprint));
    LeadsOnce(site, g1, RecordVerdict(k, fingerprint), g');
    LeadsFirst(site, g, Enrol(k), g1, [RecordVerdict(k, fingerprint)], g');
    assert [Enrol(k)] + [RecordVerdict(k, fingerprint)] == events;
  }

  lemma LeadsOnce(site: Site, g: Gate, ev: Event, g': Gate)
    requires Can(site, g, ev) && g' == Happen(site, g, ev)
    ensures LeadsTo(site, g, [ev], g')
  {
    assert [ev][1..] == [];
  }

  lemma LeadsFirst(site: Site, g: Gate, ev: Event, g1: Gate, events: seq<Event>, g': Gate)
    requires Can(site, g, ev) && g1 == Happen(site, g, ev) && LeadsTo(site, g1, events, g')
    ensures LeadsTo(site, g, [ev] + events, g')
  {
    assert ([ev] + events)[1..] == events;
  }

  /** The quote passes its checks. */
  lemma ConvincingPasses(site: Site, g: Gate, k: nat, vm: Id, req: V.Request, answer: V.PolicyAnswer)
    requires V.Convincing(site.hash, site.learn, answer, req)
    requires PinOf(g, vm) == "" || PinOf(g, vm) == req.attest.fingerprint
    requires k < |g.subs| && g.subs[k] == Submission(vm, req, Consumed)
    ensures Can(site, g, Examine(k, answer)) && |Happen(site, g, Examine(k, answer)).subs| == |g.subs|
    ensures Happen(site, g, Examine(k, answer)).subs[k] == Submission(vm, req, Passed(req.attest.fingerprint))
    ensures Happen(site, g, Examine(k, answer)).svc == g.svc && Happen(site, g, Examine(k, answer)).pins == g.pins
  {
  }

  /** From an accepted nonce on: examined, enrolled and recorded, the quote opens the gate. */
  lemma AcceptedQuoteOpens(site: Site, g: Gate, vm: Id, req: V.Request, now: int, answer: V.PolicyAnswer,
      fingerprint: string)
      returns (g': Gate)
    requires V.Convincing(site.hash, site.learn, answer, req) && req.stage == Policy.STAGE_INITRD
    requires Accepts(g.nonces, vm, req.nonce, now, site.store.ttl) && g.clock <= now
    requires PinOf(g, vm) == "" || PinOf(g, vm) == req.attest.fingerprint
    requires InMap(g.svc, vm) && g.svc.entries[vm].rec.requireAttestation
    ensures LeadsTo(site, g, [Submit(vm, req, now)] + ([Examine(|g.subs|, answer)] +
                    [Enrol(|g.subs|), RecordVerdict(|g.subs|, fingerprint)]), g')
    ensures Open(g'.svc, vm)
  {
    var k, g1 := |g.subs|, Submitted(site, g, vm, req, now);
    ConvincingPasses(site, g1, k, vm, req, answer);
    var g2 := Happen(site, g1, Examine(k, answer));
    g' := PassedQuoteOpens(site, g2, k, vm, req, req.attest.fingerprint, fingerprint);
    LeadsFirst(site, g1, Examine(k, answer), g2, [Enrol(k), RecordVerdict(k, fingerprint)], g');
    LeadsFirst(site, g, Submit(vm, req, now), g1,
               [Examine(k, answer)] + [Enrol(k), RecordVerdict(k, fingerprint)], g');
  }

  /**
   * The gate opens: for any VM in the map, whatever its state and whatever else is in flight, a fresh
   * nonce and a convincing initrd-stage quote with it by the VM's key, or a first key, release its user-data.
   */
  lemma ConvincingQuoteOpensGate(site: Site, g: Gate, vm: Id, req: V.Request, now: int, victim: Option<string>,
                                 answer: V.PolicyAnswer, fingerprint: string) returns (g': Gate)
    requires V.Convincing(site.hash, site.learn, answer, req) && req.stage == Policy.STAGE_INITRD
    requires Can(site, g, IssueNonce(vm, req.nonce, now, victim)) && site.store.ttl >= 0
    requires PinOf(g, vm) == "" || PinOf(g, vm) == req.attest.fingerprint
    requires InMap(g.svc, vm) && g.svc.entries[vm].rec.requireAttestation
    ensures LeadsTo(site, g, [IssueNonce(vm, req.nonce, now, victim)] + ([Submit(vm, req, now)] +
                    ([Examine(|g.subs|, answer)] + [Enrol(|g.subs|), RecordVerdict(|g.subs|, fingerprint)])), g')
    ensures Open(g'.svc, vm)
  {
    IssuedIsAccepted(site, g, vm, req.nonce, now, victim);
    var g1 := Happen(site, g, IssueNonce(vm, req.nonce, now, victim));
    g' := AcceptedQuoteOpens(site, g1, vm, req, now, answer, fingerprint);
    var k := |g.subs|;
    LeadsFirst(site, g, IssueNonce(vm, req.nonce, now, victim), g1,
               [Submit(vm, req, now)] + ([Examine(k, answer)] + [Enrol(k), RecordVerdict(k, fingerprint)]), g');
  }
}
