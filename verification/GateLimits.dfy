/** What the gate does not promise: a trace in which a verdict on one boot unlocks the next. */
module GateLimits {
  import opened Common
  import opened Lifecycle
  import opened LifecycleSteps
  import opened NonceStore
  import opened Gate
  import Policy
  import V = Verifier

  // ---------------------------------------------------------------- building traces

  ghost function End(t: Trace): Gate
    requires |t.states| > 0
  {
    t.states[|t.states| - 1]
  }

  ghost function Fresh0(): Gate {
    Gate(Init(false), map[], map[], [], 0)
  }

  ghost function Begin(site: Site): (t: Trace)
    ensures IsTrace(site, t) && End(t) == Fresh0() && t.events == []
  {
    Trace([Fresh0()], [])
  }

  ghost function And(site: Site, t: Trace, ev: Event): (u: Trace)
    requires IsTrace(site, t) && Can(site, End(t), ev)
    ensures IsTrace(site, u) && u.events == t.events + [ev] && u.states == t.states + [End(u)]
    ensures End(u) == Happen(site, End(t), ev)
  {
    var u := Trace(t.states + [Happen(site, End(t), ev)], t.events + [ev]);
    assert forall i :: 0 <= i < |t.events| ==> HappensAt(site, t, i) && HappensAt(site, u, i);
    assert HappensAt(site, u, |t.events|);
    u
  }

  /** A state that differs from another only in what the service does. */
  predicate OnlyService(g: Gate, g': Gate) {
    g'.nonces == g.nonces && g'.pins == g.pins && g'.subs == g.subs && g'.clock == g.clock
  }

  lemma AndStep(site: Site, t: Trace, s: Step) returns (u: Trace)
    requires IsTrace(site, t) && Running(End(t)) && Enabled(End(t).svc.entries["a"], End(t).svc.env, s)
    requires !s.RecordQuote?
    ensures IsTrace(site, u) && u.events == t.events + [Serve(At("a", s))] && u.states == t.states + [End(u)]
    ensures Running(End(u)) && OnlyService(End(t), End(u))
    ensures End(u).svc.entries["a"] == After(End(t).svc.entries["a"], End(t).svc.env, s)
  {
    u := And(site, t, Serve(At("a", s)));
  }

  lemma {:induction false} AndSteps(site: Site, t: Trace, steps: seq<Step>, e: Entry) returns (u: Trace)
    requires IsTrace(site, t) && Running(End(t)) && EntryLeads(End(t).svc.entries["a"], End(t).svc.env, steps, e)
    ensures IsTrace(site, u) && Continues(t, u) && Running(End(u)) && OnlyService(End(t), End(u))
    ensures End(u).svc.entries["a"] == e && |u.events| == |t.events| + |steps|
    decreases |steps|
  {
    u := t;
    if steps != [] {
      var v := AndStep(site, t, steps[0]);
      u := AndSteps(site, v, steps[1..], e);
    }
  }

  /** `u` continues `t`. */
  predicate Continues(t: Trace, u: Trace) {
    t.states <= u.states && t.events <= u.events
  }

  predicate Running(g: Gate) {
    "a" in g.svc.entries && g.svc.env == Env(false, false, false)
  }

  // ---------------------------------------------------------------- from creation to the first boot

  lemma Created(site: Site) returns (t: Trace)
    ensures IsTrace(site, t) && Running(End(t)) && OnlyService(Fresh0(), End(t)) && Creates(End(t).svc.entries["a"])
  {
    t := And(site, Begin(site), Serve(Allocate("a", true, 3)));
  }

  lemma InstallerUp(site: Site) returns (t: Trace)
    ensures IsTrace(site, t) && Running(End(t)) && OnlyService(Fresh0(), End(t)) && Installs(End(t).svc.entries["a"])
  {
    var u := Created(site);
    var steps, e := LaunchLeads(End(u).svc.entries["a"], End(u).svc.env);
    t := AndSteps(site, u, steps, e);
  }

  predicate Booted(g: Gate, p: Pid) {
    Running(g) && BootedEntry(g.svc.entries["a"], p)
  }

  /** The boot is published by the last of two steps. */
  lemma BootFrom(site: Site, t: Trace, p: Pid) returns (u: Trace)
    requires IsTrace(site, t) && Running(End(t)) && BootsNext(End(t).svc.entries["a"], p)
    ensures IsTrace(site, u) && Continues(t, u) && Booted(End(u), p) && OnlyService(End(t), End(u))
    ensures |u.events| == |t.events| + 2 && Resets(u.states[|t.events| + 1], u.events[|t.events| + 1], "a")
  {
    SpawnedBoots(End(t).svc.entries["a"], p);
    var v := AndStep(site, t, Spawn(p));
    u := AndStep(site, v, Publish);
  }

  lemma FirstBoot(site: Site) returns (t: Trace)
    ensures IsTrace(site, t) && Booted(End(t), 1) && OnlyService(Fresh0(), End(t))
  {
    var u := InstallerUp(site);
    var steps, e := InstallLeads(End(u).svc.entries["a"], End(u).svc.env);
    var v := AndSteps(site, u, steps, e);
    t := BootFrom(site, v, 1);
  }

  // ---------------------------------------------------------------- a verdict in flight

  /** A submission of "a", verified and not yet recorded. */
  predicate Pending(g: Gate, req: V.Request) {
    |g.subs| == 1 && g.subs[0].vm == "a" && g.subs[0].req == req && g.subs[0].progress.Verified?
  }

  /** A nonce for the new boot, and a quote with it up to its enrolment. */
  lemma QuoteEnrolled(site: Site, t: Trace, req: V.Request, answer: V.PolicyAnswer) returns (u: Trace, c: nat)
    requires IsTrace(site, t) && Booted(End(t), 1) && OnlyService(Fresh0(), End(t))
    requires V.Convincing(site.hash, site.learn, answer, req) && req.stage == Policy.STAGE_INITRD
    requires site.store.ttl >= 0 && site.store.max > 0
    ensures IsTrace(site, u) && Continues(t, u) && End(u).svc == End(t).svc && Pending(End(u), req)
    ensures |t.events| <= c < |u.events| && u.events[c] == Submit("a", req, 0)
  {
    var v := IssueFirst(site, t, req.nonce);
    c := |v.events|;
    var w := And(site, v, Submit("a", req, 0));
    ConvincingPasses(site, End(w), 0, "a", req, answer);
    var x := And(site, w, Examine(0, answer));
    EnrolledVerifies(End(x), 0, "a", req, req.attest.fingerprint);
    u := And(site, x, Enrol(0));
  }

  lemma IssueFirst(site: Site, t: Trace, nonce: string) returns (u: Trace)
    requires IsTrace(site, t) && Running(End(t)) && OnlyService(Fresh0(), End(t))
    requires site.store.ttl >= 0 && site.store.max > 0
    ensures IsTrace(site, u) && u.events == t.events + [IssueNonce("a", nonce, 0, None)] && u.states == t.states + [End(u)]
    ensures End(u).svc == End(t).svc && End(u).pins == map[] && End(u).subs == [] && End(u).clock == 0
    ensures Accepts(End(u).nonces, "a", nonce, 0, site.store.ttl)
  {
    assert Swept(map[], 0, site.store.ttl) == map[];
    IssuedIsAccepted(site, End(t), "a", nonce, 0, None);
    u := And(site, t, IssueNonce("a", nonce, 0, None));
  }

  // ---------------------------------------------------------------- the next boot

  lemma StoppedAndStarted(site: Site, t: Trace) returns (u: Trace)
    requires IsTrace(site, t) && Booted(End(t), 1)
    ensures IsTrace(site, u) && Continues(t, u) && Running(End(u)) && OnlyService(End(t), End(u))
    ensures BootsNext(End(u).svc.entries["a"], 2)
  {
    var steps, e := StopLeads(End(t).svc.entries["a"], End(t).svc.env);
    var v := AndSteps(site, t, steps, e);
    steps, e := ExitLeads(End(v).svc.entries["a"], End(v).svc.env);
    u := AndSteps(site, v, steps, e);
  }

  /** Stopped and started again, with the verdict still in flight. */
  lemma SecondBoot(site: Site, t: Trace, req: V.Request) returns (u: Trace, b: nat)
    requires IsTrace(site, t) && Booted(End(t), 1) && Pending(End(t), req)
    ensures IsTrace(site, u) && Continues(t, u) && Booted(End(u), 2) && Pending(End(u), req)
    ensures |t.events| <= b < |u.events| && Resets(u.states[b], u.events[b], "a")
  {
    var v := StoppedAndStarted(site, t);
    u := BootFrom(site, v, 2);
    b := |v.events| + 1;
  }

  lemma QuotedOnce(site: Site, req: V.Request, answer: V.PolicyAnswer) returns (t: Trace, c: nat)
    requires V.Convincing(site.hash, site.learn, answer, req) && req.stage == Policy.STAGE_INITRD
    requires site.store.ttl >= 0 && site.store.max > 0
    ensures IsTrace(site, t) && Booted(End(t), 1) && Pending(End(t), req)
    ensures c < |t.events| && t.events[c] == Submit("a", req, 0)
  {
    var u := FirstBoot(site);
    t, c := QuoteEnrolled(site, u, req, answer);
  }

  lemma RecordedLast(site: Site, t: Trace, req: V.Request, fingerprint: string) returns (u: Trace)
    requires IsTrace(site, t) && Booted(End(t), 2) && Pending(End(t), req) && req.stage == Policy.STAGE_INITRD
    ensures IsTrace(site, u) && u.events == t.events + [RecordVerdict(0, fingerprint)] && u.states == t.states + [End(u)]
    ensures Releases(End(t), RecordVerdict(0, fingerprint), "a") && !Open(End(t).svc, "a") && Open(End(u).svc, "a")
  {
    RecordingUnlocks(site, End(t), 0, fingerprint);
    u := And(site, t, RecordVerdict(0, fingerprint));
  }

  /**
   * For every quote that convinces there is a trace in which it is submitted and enrolled in one boot,
   * recorded in the next, and unlocks that one: a stop and a start come between the verdict and its recording.
   */
  lemma VerdictUnlocksNextBoot(site: Site, req: V.Request, answer: V.PolicyAnswer, fingerprint: string)
      returns (t: Trace, c: nat, b: nat, q: nat)
    requires V.Convincing(site.hash, site.learn, answer, req) && req.stage == Policy.STAGE_INITRD
    requires site.store.ttl >= 0 && site.store.max > 0
    ensures IsTrace(site, t) && c < b < q == |t.events| - 1
    ensures t.events[c] == Submit("a", req, 0) && Resets(t.states[b], t.events[b], "a")
    ensures Releases(t.states[q], t.events[q], "a") && !Open(t.states[q].svc, "a") && Open(End(t).svc, "a")
  {
    var u;
    u, c := QuotedOnce(site, req, answer);
    t, b, q := UnlocksNext(site, u, c, req, fingerprint);
  }

  lemma UnlocksNext(site: Site, u: Trace, c: nat, req: V.Request, fingerprint: string) returns (t: Trace, b: nat, q: nat)
    requires IsTrace(site, u) && Booted(End(u), 1) && Pending(End(u), req) && req.stage == Policy.STAGE_INITRD
    requires c < |u.events|
    ensures IsTrace(site, t) && c < b < q == |t.events| - 1 && t.events[c] == u.events[c]
    ensures Resets(t.states[b], t.events[b], "a")
    ensures Releases(t.states[q], t.events[q], "a") && !Open(t.states[q].svc, "a") && Open(End(t).svc, "a")
  {
    var v;
    v, b := SecondBoot(site, u, req);
    q := |v.events|;
    t := RecordedLast(site, v, req, fingerprint);
  }
}
