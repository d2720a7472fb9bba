/** internal/varlink: calls over one connection, on values and as the object that makes them. */
module VarlinkConn {
  import opened Common
  import opened Text
  import opened VarlinkStream

  datatype Reply = Reply(parameters: seq<byte>, continues: bool, error: string)

  /** JSON decoding of a message. */
  type Parser = seq<byte> -> Option<Reply>

  /**
   * A connection: its reading side, whether it is closed or broken, the descriptors handed to
   * callers and the descriptors closed. The service answers requests in order, so with `answered`
   * requests answered in full, the next reply belongs to request number `answered` of the `sent` ones.
   */
  datatype Peer = Peer(
    link: Link, broken: bool, handed: multiset<int>, closed: multiset<int>, sent: nat, answered: nat)

  /** What a callback makes of a reply: an error may or may not wrap a Varlink error. */
  datatype Callback = Accept | Refuse | RefuseVarlink

  datatype Ended = Fine | ErrorReply | FinalCallback | MidCallback(varlink: bool) | Failure

  /** `send` and the states of the context come from outside; `decodes` is whether the result decodes. */
  datatype Call =
    | Single(send: bool, expired: bool, expires: bool, decodes: bool)
    | Stream(send: bool, expired: bool, expires: bool, verdicts: seq<Callback>)
    | Oneway(send: bool, expired: bool, expires: bool)
    | CloseConn

  /** The last reply to a request. */
  predicate Final(r: Reply) {
    r.error != "" || !r.continues
  }

  datatype Got = Got(reply: Reply, files: seq<int>, link: Link) | Nothing(link: Link)

  function Receive(parse: Parser, s: Link): (g: Got)
    ensures g.Got? ==> |g.link.wire| < |s.wire| || (|g.link.wire| == |s.wire| && |g.link.rbuf| < |s.rbuf|)
  {
    AwaitReads(s);
    match Received(s)
    case Undelivered(t) => Nothing(t)
    case Delivered(message, files, t) =>
      var r := parse(message);
      if r.None? then Nothing(Await(s).value) else Got(r.value, files, t)
  }

  function Handed(p: Peer, files: seq<int>): Peer {
    p.(handed := p.handed + Counted(files))
  }

  function Closed(p: Peer, files: seq<int>): Peer {
    p.(closed := p.closed + Counted(files))
  }

  /** The connection with one reply taken off it. */
  function Took(p: Peer, g: Got): Peer
    requires g.Got?
  {
    p.(link := g.link, answered := if Final(g.reply) then p.answered + 1 else p.answered)
  }

  /** shutdown: once, closing what was never attached. */
  function ShutDown(p: Peer): Peer {
    if p.broken then p
    else p.(broken := true, closed := p.closed + Pending(p.link.rights), link := p.link.(rights := []))
  }

  datatype Exchange = Exchange(ended: Ended, peer: Peer)

  /** CallWithFiles' exchange, given what came back for the request sent. */
  function One(p: Peer, g: Got, decodes: bool): Exchange {
    if g.Nothing? then Exchange(Failure, p.(link := g.link))
    else
      var q := Took(p, g);
      if g.reply.error != "" then Exchange(ErrorReply, Closed(q, g.files))
      else if g.reply.continues then Exchange(Failure, Closed(q, g.files))
      else Exchange(Fine, if decodes then Handed(q, g.files) else Closed(q, g.files))
  }

  /** How a reply ends a stream, if it does, given the callback's verdict on it. */
  function Turn(g: Got, verdict: Callback): Option<Ended>
    requires g.Got?
  {
    if g.reply.error != "" then Some(ErrorReply)
    else if !verdict.Accept? then
      Some(if g.reply.continues then MidCallback(verdict.RefuseVarlink?) else FinalCallback)
    else if g.reply.continues then None else Some(Fine)
  }

  /** The files of a reply go to the callback; those of an error reply are closed. */
  function Turned(p: Peer, g: Got): Peer
    requires g.Got?
  {
    if g.reply.error != "" then Closed(Took(p, g), g.files) else Handed(Took(p, g), g.files)
  }

  /** CallMoreWithFiles' loop; `verdicts` are the callback's answers, Accept once they run out. */
  function Many(parse: Parser, p: Peer, verdicts: seq<Callback>): Exchange
    decreases |p.link.wire|, |p.link.rbuf|
  {
    var g := Receive(parse, p.link);
    if g.Nothing? then Exchange(Failure, p.(link := g.link))
    else
      var end := Turn(g, if verdicts == [] then Accept else verdicts[0]);
      if end.Some? then Exchange(end.value, Turned(p, g))
      else Many(parse, Turned(p, g), if verdicts == [] then [] else verdicts[1..])
  }

  /** The end of do: which errors leave the connection usable. */
  function Settled(x: Exchange, expires: bool): Peer {
    match x.ended
    case Fine => x.peer
    case ErrorReply => if expires then ShutDown(x.peer) else x.peer
    case FinalCallback => if expires then ShutDown(x.peer) else x.peer
    case MidCallback(varlink) => if expires || !varlink then ShutDown(x.peer) else x.peer
    case Failure => ShutDown(x.peer)
  }

  function Exchanged(parse: Parser, p: Peer, call: Call): Exchange
    requires !call.CloseConn?
  {
    if !call.send then Exchange(Failure, p)
    else
      match call
      case Single(_, _, _, decodes) => One(p.(sent := p.sent + 1), Receive(parse, p.link), decodes)
      case Stream(_, _, _, verdicts) => Many(parse, p.(sent := p.sent + 1), verdicts)
      case Oneway(_, _, _) => Exchange(Fine, p)
  }

  /** One call under the lock: nothing happens on a broken connection or with an expired context. */
  function Do(parse: Parser, p: Peer, call: Call): Peer {
    if call.CloseConn? then ShutDown(p)
    else if p.broken || call.expired then p
    else Settled(Exchanged(parse, p, call), call.expires)
  }

  // ---------------------------------------------------------------- conservation of descriptors

  /** Every descriptor collected is pending, with a caller, or closed; a broken connection has none pending. */
  predicate Conserved(p: Peer) {
    && p.link.collected == Pending(p.link.rights) + p.handed + p.closed
    && (p.broken ==> p.link.rights == [])
  }

  /** A link with `out` descriptors taken off it. */
  predicate Balanced(s: Link, out: multiset<int>) {
    s.collected == Pending(s.rights) + out
  }

  lemma {:induction false} PendingSplit(a: seq<Batch>, b: seq<Batch>)
    ensures Pending(a + b) == Pending(a) + Pending(b)
  {
    if a == [] {
      assert a + b == b;
    } else {
      PendingSplit(a[1..], b);
      assert (a + b)[1..] == a[1..] + b;
    }
  }

  lemma {:induction false} PendingDivided(b: seq<Batch>, end: nat)
    ensures Pending(b) == Pending(UpTo(b, end)) + Pending(Later(b, end))
  {
    if b != [] {
      PendingDivided(b[1..], end);
      PendingCons(b[0], UpTo(b[1..], end));
      PendingCons(b[0], Later(b[1..], end));
    }
  }

  lemma PendingCons(b: Batch, rest: seq<Batch>)
    ensures Pending([b] + rest) == Counted(b.fds) + Pending(rest)
  {
    assert ([b] + rest)[1..] == rest;
  }

  /** What the control messages from the n-th on carry. */
  lemma CollectedNext(control: seq<Control>, n: nat, last: nat)
    requires n < |control|
    ensures var all, rest := Collected(control[n..], last), Collected(control[n + 1..], last);
            match control[n]
            case Unparsable => all == []
            case Other => all == rest
            case Rights(fds) => all == [Batch(last, fds)] + rest && Pending(all) == Counted(fds) + Pending(rest)
  {
    assert control[n..][1..] == control[n + 1..];
    if control[n].Rights? {
      PendingCons(Batch(last, control[n].fds), Collected(control[n + 1..], last));
    }
  }

  lemma ReadBalanced(s: Link, out: multiset<int>)
    requires s.wire != [] && Balanced(s, out)
    ensures AfterRead(s).Ok? ==> Balanced(AfterRead(s).value, out)
    ensures AfterRead(s).Err? ==> Balanced(AfterRead(s).error, out)
  {
    var c := s.wire[0];
    PendingSplit(s.rights, Collected(c.control, LastByte(s.pos + |s.rbuf|, |c.data|)));
  }

  lemma {:induction false} AwaitBalanced(s: Link, out: multiset<int>)
    requires Balanced(s, out)
    ensures Await(s).Ok? ==> Balanced(Await(s).value, out)
    ensures Await(s).Err? ==> Balanced(Await(s).error, out)
    decreases |s.wire|
  {
    if NulAt(s.rbuf).None? && |s.rbuf| <= MAX_MESSAGE_SIZE && s.wire != [] {
      ReadBalanced(s, out);
      if AfterRead(s).Ok? {
        AwaitBalanced(AfterRead(s).value, out);
      }
    }
  }

  /** What came back keeps the account of the descriptors taken off the link. */
  predicate BalancedGot(g: Got, out: multiset<int>) {
    Balanced(g.link, if g.Got? then out + Counted(g.files) else out)
  }

  lemma ConsumedBalanced(t: Link, i: nat, out: multiset<int>)
    requires i < |t.rbuf| && Balanced(t, out)
    ensures Balanced(Consumed(t, i), out + Counted(FdsOf(UpTo(t.rights, t.pos + i))))
  {
    PendingDivided(t.rights, t.pos + i);
    CountedFds(UpTo(t.rights, t.pos + i));
  }

  lemma DeliverBalanced(t: Link, out: multiset<int>)
    requires NulAt(t.rbuf).Some? && Balanced(t, out)
    ensures Balanced(Deliver(t).link, out + Counted(Deliver(t).files))
  {
    ConsumedBalanced(t, NulAt(t.rbuf).value, out);
  }

  lemma ReceiveBalanced(parse: Parser, s: Link, out: multiset<int>)
    requires Balanced(s, out)
    ensures BalancedGot(Receive(parse, s), out)
  {
    AwaitBalanced(s, out);
    if Await(s).Ok? {
      DeliverBalanced(Await(s).value, out);
    }
  }

  lemma ShutDownConserves(p: Peer)
    requires Conserved(p)
    ensures Conserved(ShutDown(p))
  {
  }

  lemma TookConserves(p: Peer, g: Got)
    requires !p.broken && g.Got? && BalancedGot(g, p.handed + p.closed)
    ensures Conserved(Handed(Took(p, g), g.files)) && Conserved(Closed(Took(p, g), g.files))
  {
  }

  lemma OneConserves(p: Peer, g: Got, decodes: bool)
    requires Conserved(p) && !p.broken && BalancedGot(g, p.handed + p.closed)
    ensures Conserved(One(p, g, decodes).peer) && !One(p, g, decodes).peer.broken
  {
    if g.Got? {
      TookConserves(p, g);
    }
  }

  lemma {:induction false} ManyConserves(parse: Parser, p: Peer, verdicts: seq<Callback>)
    requires Conserved(p) && !p.broken
    ensures Conserved(Many(parse, p, verdicts).peer) && !Many(parse, p, verdicts).peer.broken
    decreases |p.link.wire|, |p.link.rbuf|
  {
    ReceiveBalanced(parse, p.link, p.handed + p.closed);
    var g := Receive(parse, p.link);
    if g.Got? {
      TookConserves(p, g);
    }
    if g.Got? && Turn(g, if verdicts == [] then Accept else verdicts[0]).None? {
      ManyConserves(parse, Turned(p, g), if verdicts == [] then [] else verdicts[1..]);
    }
  }

  lemma SettledConserves(x: Exchange, expires: bool)
    requires Conserved(x.peer)
    ensures Conserved(Settled(x, expires))
  {
    ShutDownConserves(x.peer);
  }

  lemma SingleConserves(parse: Parser, p: Peer, q: Peer, decodes: bool)
    requires Conserved(p) && !p.broken && q == p.(sent := p.sent + 1)
    ensures Conserved(One(q, Receive(parse, p.link), decodes).peer)
  {
    ReceiveBalanced(parse, p.link, p.handed + p.closed);
    OneConserves(q, Receive(parse, p.link), decodes);
  }

  lemma ExchangedConserves(parse: Parser, p: Peer, call: Call)
    requires Conserved(p) && !p.broken && !call.CloseConn?
    ensures Conserved(Exchanged(parse, p, call).peer)
  {
    var q := p.(sent := p.sent + 1);
    if call.Single? {
      SingleConserves(parse, p, q, call.decodes);
    } else if call.Stream? {
      ManyConserves(parse, q, call.verdicts);
    }
  }

  /** Every call keeps every collected descriptor in exactly one place. */
  lemma DoConserves(parse: Parser, p: Peer, call: Call)
    requires Conserved(p)
    ensures Conserved(Do(parse, p, call))
  {
    if call.CloseConn? {
      ShutDownConserves(p);
    } else if !p.broken && !call.expired {
      ExchangedConserves(parse, p, call);
      SettledConserves(Exchanged(parse, p, call), call.expires);
    }
  }

  // ---------------------------------------------------------------- alignment of the wire

  /** Replies requests still wait for. */
  function Outstanding(p: Peer): int {
    p.sent - p.answered
  }

  /** The `k`-th reply a link has to give, if it receives and parses that many. */
  function NthReply(parse: Parser, s: Link, k: nat): Option<Reply>
    decreases k
  {
    var g := Receive(parse, s);
    if g.Nothing? then None else if k == 0 then Some(g.reply) else NthReply(parse, g.link, k - 1)
  }

  /** A reply without error that others follow. */
  predicate OpenReply(r: Option<Reply>) {
    r.Some? && r.value.error == "" && r.value.continues
  }

  /**
   * The callback accepts the replies before the `k`-th and refuses that one with an error that wraps
   * a Varlink error, and none of them is the last.
   */
  predicate RefusesAt(parse: Parser, s: Link, verdicts: seq<Callback>, k: nat) {
    && k < |verdicts| && verdicts[k] == RefuseVarlink
    && (forall j :: 0 <= j < k ==> verdicts[j].Accept?)
    && (forall j :: 0 <= j <= k ==> OpenReply(NthReply(parse, s, j)))
  }

  /** Such a refusal in a call whose context does not expire: do takes it for an error reply and keeps the connection. */
  ghost predicate Abandons(parse: Parser, p: Peer, call: Call) {
    && call.Stream? && call.send && !p.broken && !call.expired && !call.expires
    && exists k: nat :: RefusesAt(parse, p.link, call.verdicts, k)
  }

  lemma RefusesStep(parse: Parser, s: Link, g: Got, verdicts: seq<Callback>, k: nat)
    requires g == Receive(parse, s) && g.Got? && verdicts != [] && verdicts[0].Accept? && OpenReply(Some(g.reply))
    ensures RefusesAt(parse, s, verdicts, k + 1) <==> RefusesAt(parse, g.link, verdicts[1..], k)
  {
    forall j: nat ensures NthReply(parse, s, j + 1) == NthReply(parse, g.link, j) {
    }
    if RefusesAt(parse, s, verdicts, k + 1) {
      forall j | 0 <= j <= k ensures OpenReply(NthReply(parse, g.link, j)) {
        assert OpenReply(NthReply(parse, s, j + 1));
      }
    }
    if RefusesAt(parse, g.link, verdicts[1..], k) {
      forall j | 0 <= j <= k + 1 ensures OpenReply(NthReply(parse, s, j)) {
        assert j > 0 ==> OpenReply(NthReply(parse, g.link, j - 1));
      }
    }
  }

  /** The reply loop ends in such a refusal exactly when there is one among its inputs. */
  lemma {:induction false} EndsMidStreamIff(parse: Parser, p: Peer, verdicts: seq<Callback>)
    ensures Many(parse, p, verdicts).ended == MidCallback(true) <==> exists k: nat :: RefusesAt(parse, p.link, verdicts, k)
    decreases |p.link.wire|, |p.link.rbuf|
  {
    var g := Receive(parse, p.link);
    var first := if verdicts == [] then Accept else verdicts[0];
    if g.Nothing? || verdicts == [] || g.reply.error != "" || !g.reply.continues {
      NoneRefused(parse, p, verdicts);
    } else if !first.Accept? {
      assert RefusesAt(parse, p.link, verdicts, 0) <==> first == RefuseVarlink;
    } else {
      EndsMidStreamIff(parse, Turned(p, g), verdicts[1..]);
      if k: nat :| RefusesAt(parse, g.link, verdicts[1..], k) {
        RefusesStep(parse, p.link, g, verdicts, k);
      }
      if k: nat :| RefusesAt(parse, p.link, verdicts, k) {
        assert k > 0;
        RefusesStep(parse, p.link, g, verdicts, k - 1);
      }
    }
  }

  lemma {:induction false} NoneRefused(parse: Parser, p: Peer, verdicts: seq<Callback>)
    requires var g := Receive(parse, p.link); g.Nothing? || verdicts == [] || g.reply.error != "" || !g.reply.continues
    ensures Many(parse, p, verdicts).ended != MidCallback(true)
    ensures forall k: nat :: !RefusesAt(parse, p.link, verdicts, k)
    decreases |p.link.wire|, |p.link.rbuf|
  {
    var g := Receive(parse, p.link);
    if g.Got? && Turn(g, if verdicts == [] then Accept else verdicts[0]).None? {
      NoVerdictsNoRefusal(parse, Turned(p, g));
    }
    forall k: nat ensures !RefusesAt(parse, p.link, verdicts, k) {
      assert RefusesAt(parse, p.link, verdicts, k) ==> OpenReply(NthReply(parse, p.link, 0));
    }
  }

  lemma {:induction false} NoVerdictsNoRefusal(parse: Parser, p: Peer)
    ensures !Many(parse, p, []).ended.MidCallback?
    decreases |p.link.wire|, |p.link.rbuf|
  {
    var g := Receive(parse, p.link);
    if g.Got? && Turn(g, Accept).None? {
      NoVerdictsNoRefusal(parse, Turned(p, g));
    }
  }

  // ---------------------------------------------------------------- when a connection stays usable

  function VerdictOn(verdicts: seq<Callback>, k: nat): Callback {
    if k < |verdicts| then verdicts[k] else Accept
  }

  /** The `j`-th reply was received, without error and with others to follow, and accepted. */
  predicate OpenAt(parse: Parser, s: Link, verdicts: seq<Callback>, j: nat) {
    OpenReply(NthReply(parse, s, j)) && VerdictOn(verdicts, j).Accept?
  }

  predicate OpenUpTo(parse: Parser, s: Link, verdicts: seq<Callback>, k: nat) {
    forall j: nat :: j < k ==> OpenAt(parse, s, verdicts, j)
  }

  /**
   * The `k`-th reply ends the stream well for the connection: it is the last one and accepted; or, while the context
   * is alive, it is an error reply, the last one and refused, or refused with an error that wraps a Varlink error.
   */
  predicate EndsWell(r: Option<Reply>, verdict: Callback, expires: bool) {
    r.Some? &&
    if r.value.error != "" then !expires
    else if !r.value.continues then verdict.Accept? || !expires
    else verdict.RefuseVarlink? && !expires
  }

  predicate EndsAt(parse: Parser, s: Link, verdicts: seq<Callback>, expires: bool, k: nat) {
    OpenUpTo(parse, s, verdicts, k) && EndsWell(NthReply(parse, s, k), VerdictOn(verdicts, k), expires)
  }

  /** What keeps a usable connection usable, from what the call is given and receives. */
  ghost predicate KeepsUsable(parse: Parser, p: Peer, call: Call) {
    match call
    case CloseConn => false
    case Oneway(send, expired, _) => expired || send
    case Single(send, expired, expires, _) =>
      expired || (send && var r := NthReply(parse, p.link, 0);
                          r.Some? && if r.value.error != "" then !expires else !r.value.continues)
    case Stream(send, expired, expires, verdicts) =>
      expired || (send && exists k: nat :: EndsAt(parse, p.link, verdicts, expires, k))
  }

  /** Past an accepted reply that others follow, the stream goes on with the next. */
  lemma EndsLater(parse: Parser, s: Link, g: Got, verdicts: seq<Callback>, expires: bool, k: nat)
    requires g == Receive(parse, s) && g.Got? && OpenReply(Some(g.reply)) && VerdictOn(verdicts, 0).Accept?
    ensures EndsAt(parse, s, verdicts, expires, k + 1) <==>
              EndsAt(parse, g.link, if verdicts == [] then [] else verdicts[1..], expires, k)
  {
    var rest := if verdicts == [] then [] else verdicts[1..];
    forall j: nat ensures OpenAt(parse, s, verdicts, j + 1) <==> OpenAt(parse, g.link, rest, j) {
      assert NthReply(parse, s, j + 1) == NthReply(parse, g.link, j) && VerdictOn(verdicts, j + 1) == VerdictOn(rest, j);
    }
    assert OpenAt(parse, s, verdicts, 0);
    if OpenUpTo(parse, s, verdicts, k + 1) {
      forall j: nat | j < k ensures OpenAt(parse, g.link, rest, j) {
        assert OpenAt(parse, s, verdicts, j + 1);
      }
    }
    if OpenUpTo(parse, g.link, rest, k) {
      forall j: nat | j < k + 1 ensures OpenAt(parse, s, verdicts, j) {
        assert j > 0 ==> OpenAt(parse, g.link, rest, j - 1);
      }
    }
  }

  /** A stream whose first reply ends it, or does not come, ends there or nowhere. */
  lemma EndsFirst(parse: Parser, s: Link, g: Got, verdicts: seq<Callback>, expires: bool, k: nat)
    requires g == Receive(parse, s)
    requires g.Nothing? || Turn(g, VerdictOn(verdicts, 0)).Some?
    ensures EndsAt(parse, s, verdicts, expires, k) ==> k == 0
  {
    assert OpenUpTo(parse, s, verdicts, k) && k > 0 ==> OpenAt(parse, s, verdicts, 0);
  }

  lemma {:induction false} ManyUsableIff(parse: Parser, p: Peer, verdicts: seq<Callback>, expires: bool)
    requires !p.broken
    ensures !Settled(Many(parse, p, verdicts), expires).broken <==>
              exists k: nat :: EndsAt(parse, p.link, verdicts, expires, k)
    decreases |p.link.wire|, |p.link.rbuf|
  {
    var g := Receive(parse, p.link);
    var rest := if verdicts == [] then [] else verdicts[1..];
    if g.Nothing? || Turn(g, VerdictOn(verdicts, 0)).Some? {
      forall k: nat ensures EndsAt(parse, p.link, verdicts, expires, k) ==> k == 0 {
        EndsFirst(parse, p.link, g, verdicts, expires, k);
      }
      assert OpenUpTo(parse, p.link, verdicts, 0);
      assert EndsAt(parse, p.link, verdicts, expires, 0) <==> !Settled(Many(parse, p, verdicts), expires).broken;
    } else {
      ManyUsableIff(parse, Turned(p, g), rest, expires);
      assert !EndsAt(parse, p.link, verdicts, expires, 0);
      if k: nat :| EndsAt(parse, g.link, rest, expires, k) {
        EndsLater(parse, p.link, g, verdicts, expires, k);
      }
      if k: nat :| EndsAt(parse, p.link, verdicts, expires, k) {
        assert k > 0;
        EndsLater(parse, p.link, g, verdicts, expires, k - 1);
      }
    }
  }

  /**
   * When a call breaks a connection, from what it is given and receives: error replies, refused last replies,
   * undecodable results and one-way requests leave it usable; a request that cannot be sent, a reply that does not
   * come or parse, a reply with others to follow to a single call, and a refusal in mid-stream break it, and so does
   * any error but an undecodable result once the context has expired.
   */
  lemma UsableIff(parse: Parser, p: Peer, call: Call)
    ensures !Do(parse, p, call).broken <==> !p.broken && KeepsUsable(parse, p, call)
  {
    if !p.broken && !call.CloseConn? && !call.expired && call.send {
      var q := p.(sent := p.sent + 1);
      if call.Single? {
        SingleUsableIff(parse, p, q, call.expires, call.decodes);
      } else if call.Stream? {
        StreamUsableIff(parse, p, q, call);
      }
    }
  }

  lemma StreamUsableIff(parse: Parser, p: Peer, q: Peer, call: Call)
    requires call.Stream? && !p.broken && !call.expired && call.send && q == p.(sent := p.sent + 1)
    ensures !Settled(Many(parse, q, call.verdicts), call.expires).broken <==> KeepsUsable(parse, p, call)
  {
    ManyUsableIff(parse, q, call.verdicts, call.expires);
  }

  lemma SingleUsableIff(parse: Parser, p: Peer, q: Peer, expires: bool, decodes: bool)
    requires !p.broken && q == p.(sent := p.sent + 1)
    ensures var r := NthReply(parse, p.link, 0);
            !Settled(One(q, Receive(parse, p.link), decodes), expires).broken <==>
              r.Some? && if r.value.error != "" then !expires else !r.value.continues
  {
  }

  // ---------------------------------------------------------------- who gets the files

  /** The files of the `k`-th reply a link has to give. */
  function NthFiles(parse: Parser, s: Link, k: nat): seq<int>
    decreases k
  {
    var g := Receive(parse, s);
    if g.Nothing? then [] else if k == 0 then g.files else NthFiles(parse, g.link, k - 1)
  }

  /** The files of the first `k` replies. */
  function FilesUpTo(parse: Parser, s: Link, k: nat): multiset<int>
    decreases k
  {
    if k == 0 then multiset{}
    else
      var g := Receive(parse, s);
      if g.Nothing? then multiset{} else Counted(g.files) + FilesUpTo(parse, g.link, k - 1)
  }

  predicate ErrorAt(parse: Parser, s: Link, k: nat) {
    NthReply(parse, s, k).Some? && NthReply(parse, s, k).value.error != ""
  }

  /** Of a stream that ended with reply `k`: the callback got the files of every reply but those of an error reply. */
  predicate FilesGiven(parse: Parser, p: Peer, q: Peer, k: nat) {
    if ErrorAt(parse, p.link, k)
    then q.handed == p.handed + FilesUpTo(parse, p.link, k) && q.closed == p.closed + Counted(NthFiles(parse, p.link, k))
    else q.handed == p.handed + FilesUpTo(parse, p.link, k + 1) && q.closed == p.closed
  }

  lemma FilesGivenLater(parse: Parser, p: Peer, g: Got, q: Peer, k: nat)
    requires g == Receive(parse, p.link) && g.Got? && g.reply.error == "" && FilesGiven(parse, Turned(p, g), q, k)
    ensures FilesGiven(parse, p, q, k + 1)
  {
    assert NthReply(parse, p.link, k + 1) == NthReply(parse, g.link, k);
    assert NthFiles(parse, p.link, k + 1) == NthFiles(parse, g.link, k);
    assert FilesUpTo(parse, p.link, k + 1) == Counted(g.files) + FilesUpTo(parse, g.link, k);
    assert FilesUpTo(parse, p.link, k + 2) == Counted(g.files) + FilesUpTo(parse, g.link, k + 1);
  }

  lemma FilesGivenFirst(parse: Parser, p: Peer, g: Got)
    requires g == Receive(parse, p.link)
    ensures FilesGiven(parse, p, if g.Got? then Turned(p, g) else p.(link := g.link), 0)
  {
    if g.Got? {
      assert FilesUpTo(parse, p.link, 1) == Counted(g.files) + FilesUpTo(parse, g.link, 0);
    }
  }

  /** How a stream ends with a reply that came or did not, given the callback's verdict on it. */
  function EndWith(r: Option<Reply>, verdict: Callback): Ended {
    if r.None? then Failure
    else if r.value.error != "" then ErrorReply
    else if !r.value.continues then if verdict.Accept? then Fine else FinalCallback
    else MidCallback(verdict.RefuseVarlink?)
  }

  /** A stream ends with its first reply that is not accepted with others to follow, and ends as that says. */
  predicate StreamEnds(parse: Parser, s: Link, verdicts: seq<Callback>, ended: Ended, k: nat) {
    && OpenUpTo(parse, s, verdicts, k) && !OpenAt(parse, s, verdicts, k)
    && ended == EndWith(NthReply(parse, s, k), VerdictOn(verdicts, k))
  }

  lemma StreamEndsFirst(parse: Parser, p: Peer, g: Got, verdicts: seq<Callback>)
    requires g == Receive(parse, p.link) && (g.Nothing? || Turn(g, VerdictOn(verdicts, 0)).Some?)
    ensures var ended := if g.Nothing? then Failure else Turn(g, VerdictOn(verdicts, 0)).value;
            StreamEnds(parse, p.link, verdicts, ended, 0)
  {
  }

  lemma StreamEndsLater(parse: Parser, s: Link, g: Got, verdicts: seq<Callback>, ended: Ended, k: nat)
    requires g == Receive(parse, s) && g.Got? && OpenReply(Some(g.reply)) && VerdictOn(verdicts, 0).Accept?
    requires StreamEnds(parse, g.link, if verdicts == [] then [] else verdicts[1..], ended, k)
    ensures StreamEnds(parse, s, verdicts, ended, k + 1)
  {
    OpenLater(parse, s, g, verdicts, k);
  }

  lemma {:induction false} StreamGivesFiles(parse: Parser, p: Peer, verdicts: seq<Callback>) returns (k: nat)
    ensures StreamEnds(parse, p.link, verdicts, Many(parse, p, verdicts).ended, k)
    ensures FilesGiven(parse, p, Many(parse, p, verdicts).peer, k)
    decreases |p.link.wire|, |p.link.rbuf|
  {
    var g := Receive(parse, p.link);
    if g.Nothing? || Turn(g, VerdictOn(verdicts, 0)).Some? {
      k := 0;
      StreamEndsFirst(parse, p, g, verdicts);
      FilesGivenFirst(parse, p, g);
    } else {
      var rest := if verdicts == [] then [] else verdicts[1..];
      var x := Many(parse, Turned(p, g), rest);
      var j := StreamGivesFiles(parse, Turned(p, g), rest);
      k := j + 1;
      StreamEndsLater(parse, p.link, g, verdicts, x.ended, j);
      FilesGivenLater(parse, p, g, x.peer, j);
    }
  }

  /** The stream ends as its replies and the callback's verdicts say. */
  ghost predicate EndsAsSaid(parse: Parser, s: Link, verdicts: seq<Callback>, ended: Ended) {
    exists k: nat :: StreamEnds(parse, s, verdicts, ended, k)
  }

  lemma StreamEndsAsSaid(parse: Parser, p: Peer, verdicts: seq<Callback>, x: Exchange)
    requires x == Many(parse, p, verdicts)
    ensures EndsAsSaid(parse, p.link, verdicts, x.ended)
  {
    var k := StreamGivesFiles(parse, p, verdicts);
  }

  lemma OpenLater(parse: Parser, s: Link, g: Got, verdicts: seq<Callback>, k: nat)
    requires g == Receive(parse, s) && g.Got? && OpenReply(Some(g.reply)) && VerdictOn(verdicts, 0).Accept?
    ensures var rest := if verdicts == [] then [] else verdicts[1..];
            && (OpenAt(parse, s, verdicts, k + 1) <==> OpenAt(parse, g.link, rest, k))
            && (OpenUpTo(parse, g.link, rest, k) ==> OpenUpTo(parse, s, verdicts, k + 1))
            && NthReply(parse, s, k + 1) == NthReply(parse, g.link, k) && VerdictOn(verdicts, k + 1) == VerdictOn(rest, k)
  {
    var rest := if verdicts == [] then [] else verdicts[1..];
    forall j: nat ensures OpenAt(parse, s, verdicts, j + 1) <==> OpenAt(parse, g.link, rest, j) {
      assert NthReply(parse, s, j + 1) == NthReply(parse, g.link, j) && VerdictOn(verdicts, j + 1) == VerdictOn(rest, j);
    }
    if OpenUpTo(parse, g.link, rest, k) {
      forall j: nat | j < k + 1 ensures OpenAt(parse, s, verdicts, j) {
        assert j > 0 ==> OpenAt(parse, g.link, rest, j - 1);
      }
    }
  }

  /** A single call succeeds: its one reply came, parsed, without error, alone, and its result decodes. */
  predicate Succeeds(parse: Parser, p: Peer, call: Call) {
    && call.Single? && !p.broken && !call.expired && call.send && call.decodes
    && NthReply(parse, p.link, 0).Some?
    && NthReply(parse, p.link, 0).value.error == "" && !NthReply(parse, p.link, 0).value.continues
  }

  /** Then its caller gets exactly the files of that reply; otherwise they are closed, unless the reply never came. */
  lemma SingleGivesFiles(parse: Parser, p: Peer, call: Call)
    requires call.Single? && !p.broken && !call.expired && call.send
    ensures var x := Exchanged(parse, p, call).peer;
            var files := Counted(NthFiles(parse, p.link, 0));
            if Succeeds(parse, p, call) then x.handed == p.handed + files && x.closed == p.closed
            else x.handed == p.handed && x.closed == p.closed + files
  {
  }

  // ---------------------------------------------------------------- what is left outstanding

  predicate Complete(ended: Ended) {
    ended.Fine? || ended.ErrorReply? || ended.FinalCallback?
  }

  lemma {:induction false} ManyAnswers(parse: Parser, p: Peer, verdicts: seq<Callback>)
    ensures var x := Many(parse, p, verdicts);
            && x.peer.sent == p.sent
            && (Complete(x.ended) ==> x.peer.answered == p.answered + 1)
            && (x.ended.MidCallback? ==> x.peer.answered == p.answered)
    decreases |p.link.wire|, |p.link.rbuf|
  {
    var g := Receive(parse, p.link);
    if g.Got? && Turn(g, if verdicts == [] then Accept else verdicts[0]).None? {
      ManyAnswers(parse, Turned(p, g), if verdicts == [] then [] else verdicts[1..]);
    }
  }

  lemma OneAnswers(p: Peer, g: Got, decodes: bool)
    ensures var x := One(p, g, decodes);
            && x.peer.sent == p.sent && !x.ended.MidCallback?
            && (Complete(x.ended) ==> x.peer.answered == p.answered + 1)
  {
  }

  lemma ExchangedAnswers(parse: Parser, p: Peer, call: Call)
    requires !call.CloseConn?
    ensures var x := Exchanged(parse, p, call);
            && (Complete(x.ended) ==> Outstanding(x.peer) == Outstanding(p))
            && (x.ended.MidCallback? ==> call.Stream? && Outstanding(x.peer) == Outstanding(p) + 1)
  {
    var q := p.(sent := p.sent + 1);
    if call.Single? {
      OneAnswers(q, Receive(parse, p.link), call.decodes);
    } else if call.Stream? {
      ManyAnswers(parse, q, call.verdicts);
    }
  }

  lemma SettledOutstanding(x: Exchange, expires: bool)
    requires !Settled(x, expires).broken
    ensures Settled(x, expires) == x.peer && (Complete(x.ended) || (x.ended == MidCallback(true) && !expires))
  {
  }

  /**
   * A call that leaves the connection usable leaves as many replies outstanding as before, one more
   * if and only if it abandoned a stream: error replies, callback errors on the last reply and
   * one-way requests leave nothing behind.
   */
  lemma OutstandingAfterCall(parse: Parser, p: Peer, call: Call)
    requires !Do(parse, p, call).broken
    ensures Outstanding(Do(parse, p, call)) == Outstanding(p) + if Abandons(parse, p, call) then 1 else 0
  {
    if !call.CloseConn? && !p.broken && !call.expired {
      ExchangedAnswers(parse, p, call);
      SettledOutstanding(Exchanged(parse, p, call), call.expires);
      if call.Stream? && call.send {
        EndsMidStreamIff(parse, p.(sent := p.sent + 1), call.verdicts);
      }
    }
  }

  function Session(parse: Parser, p: Peer, calls: seq<Call>): Peer
    decreases calls
  {
    if calls == [] then p else Session(parse, Do(parse, p, calls[0]), calls[1..])
  }

  ghost function Abandoned(parse: Parser, p: Peer, calls: seq<Call>): nat
    decreases calls
  {
    if calls == [] then 0
    else (if Abandons(parse, p, calls[0]) then 1 else 0) + Abandoned(parse, Do(parse, p, calls[0]), calls[1..])
  }

  lemma {:induction false} BrokenStays(parse: Parser, p: Peer, calls: seq<Call>)
    requires p.broken
    ensures Session(parse, p, calls) == p
  {
    if calls != [] {
      BrokenStays(parse, Do(parse, p, calls[0]), calls[1..]);
    }
  }

  /**
   * Over any sequence of calls, a connection that is still usable has exactly as many replies
   * outstanding as streams were abandoned, and no descriptor is lost or in two places.
   */
  lemma {:induction false} OutstandingIffAbandoned(parse: Parser, p: Peer, calls: seq<Call>)
    requires Conserved(p) && !Session(parse, p, calls).broken
    ensures Outstanding(Session(parse, p, calls)) == Outstanding(p) + Abandoned(parse, p, calls)
    ensures Conserved(Session(parse, p, calls))
    decreases calls
  {
    if calls != [] {
      var q := Do(parse, p, calls[0]);
      if q.broken {
        BrokenStays(parse, q, calls[1..]);
        assert false;
      }
      DoConserves(parse, p, calls[0]);
      OutstandingAfterCall(parse, p, calls[0]);
      OutstandingIffAbandoned(parse, q, calls[1..]);
    }
  }

  // ---------------------------------------------------------------- the object

  lemma {:induction false} UsableSplit(a: seq<int>, fd: int)
    ensures Usable(a + [fd]) == Usable(a) + if fd >= 0 then [fd] else []
  {
    if a != [] {
      UsableSplit(a[1..], fd);
      assert (a + [fd])[1..] == a[1..] + [fd];
    } else {
      assert (a + [fd])[1..] == [];
    }
  }

  class Conn {
    const parse: Parser
    var rbuf: seq<byte>
    var pos: nat
    var rights: seq<Batch>
    var wire: seq<Recv>
    var broken: bool
    ghost var collected: multiset<int>
    ghost var handed: multiset<int>
    ghost var closed: multiset<int>
    ghost var sent: nat
    ghost var answered: nat

    ghost function Reading(): Link
      reads this
    {
      Link(rbuf, pos, rights, wire, collected)
    }

    ghost function Now(): Peer
      reads this
    {
      Peer(Reading(), broken, handed, closed, sent, answered)
    }

    constructor (parse: Parser, wire: seq<Recv>)
      ensures this.parse == parse
      ensures Now() == Peer(Link([], 0, [], wire, multiset{}), false, multiset{}, multiset{}, 0, 0)
    {
      this.parse, this.wire := parse, wire;
      rbuf, pos, rights, broken := [], 0, [], false;
      collected, handed, closed, sent, answered := multiset{}, multiset{}, multiset{}, 0, 0;
    }

    /** collectRights: notes the descriptors of each control message up to one that does not parse. */
    method CollectRights(control: seq<Control>, last: nat) returns (ok: bool)
      modifies this`rights, this`collected
      ensures rights == old(rights) + Collected(control, last)
      ensures collected == old(collected) + Pending(Collected(control, last))
      ensures ok <==> Unparsable !in control
    {
      var n := 0;
      while n < |control|
        invariant n <= |control| && Unparsable !in control[..n]
        invariant rights + Collected(control[n..], last) == old(rights) + Collected(control, last)
        invariant collected + Pending(Collected(control[n..], last)) == old(collected) + Pending(Collected(control, last))
      {
        var c := control[n];
        CollectedNext(control, n, last);
        assert control[..n + 1] == control[..n] + [c];
        match c {
          case Unparsable => return false;
          case Other =>
          case Rights(fds) =>
            rights := rights + [Batch(last, fds)];
            collected := collected + Counted(fds);
        }
        n := n + 1;
      }
      return true;
    }

    /** read: one recvmsg(2). */
    method Read() returns (ok: bool)
      requires wire != []
      modifies this`rbuf, this`rights, this`wire, this`collected
      ensures ok <==> AfterRead(old(Reading())).Ok?
      ensures Reading() == if ok then AfterRead(old(Reading())).value else AfterRead(old(Reading())).error
    {
      var c, at := wire[0], pos + |rbuf|;
      wire := wire[1..];
      var parsed := CollectRights(c.control, if |c.data| > 0 then at + |c.data| - 1 else at);
      if !parsed || c.truncated {
        return false;
      }
      rbuf := rbuf + c.data;
      return !c.failed;
    }

    /** takeFiles: the descriptors of batches that ended by `end`; later batches stay. */
    method TakeFiles(end: nat) returns (files: seq<int>)
      modifies this`rights
      ensures files == FdsOf(UpTo(old(rights), end)) && rights == Later(old(rights), end)
    {
      files := [];
      var kept := [];
      var n := 0;
      while n < |rights|
        invariant n <= |rights| && rights == old(rights)
        invariant files + FdsOf(UpTo(rights[n..], end)) == FdsOf(UpTo(rights, end))
        invariant kept + Later(rights[n..], end) == Later(rights, end)
      {
        var b := rights[n];
        assert rights[n..][1..] == rights[n + 1..];
        if b.last > end {
          kept := kept + [b];
        } else {
          ghost var rest := UpTo(rights[n + 1..], end);
          assert ([b] + rest)[1..] == rest;
          var usable := TakeUsable(b.fds);
          assert files + (usable + FdsOf(rest)) == files + usable + FdsOf(rest);
          files := files + usable;
        }
        n := n + 1;
      }
      rights := kept;
    }

    /** Negative descriptors are skipped. */
    method TakeUsable(fds: seq<int>) returns (usable: seq<int>)
      ensures usable == Usable(fds)
    {
      usable := [];
      for n := 0 to |fds|
        invariant usable == Usable(fds[..n])
      {
        assert fds[..n + 1] == fds[..n] + [fds[n]];
        UsableSplit(fds[..n], fds[n]);
        if fds[n] >= 0 {
          usable := usable + [fds[n]];
        }
      }
      assert fds[..|fds|] == fds;
    }

    /** The reading half of receive. */
    method AwaitMessage() returns (ok: bool)
      modifies this`rbuf, this`rights, this`wire, this`collected
      ensures ok <==> Await(old(Reading())).Ok?
      ensures Reading() == if ok then Await(old(Reading())).value else Await(old(Reading())).error
    {
      while NulAt(rbuf).None?
        invariant Await(Reading()) == Await(old(Reading()))
        decreases |wire|
      {
        if |rbuf| > MAX_MESSAGE_SIZE || wire == [] {
          return false;
        }
        ok := Read();
        if !ok {
          return;
        }
      }
      return true;
    }

    /** The consuming half. */
    method ConsumeMessage(i: nat) returns (files: seq<int>)
      requires i < |rbuf|
      modifies this`rbuf, this`pos, this`rights
      ensures Reading() == Consumed(old(Reading()), i) && files == FdsOf(UpTo(old(rights), old(pos) + i))
    {
      var end := pos + i;
      rbuf := rbuf[i + 1..];
      pos := end + 1;
      files := TakeFiles(end);
    }

    /** receive: reads until a message is complete, then takes it with its descriptors. */
    method ReceiveReply() returns (r: Option<Reply>, files: seq<int>)
      modifies this`rbuf, this`pos, this`rights, this`wire, this`collected
      ensures Receive(parse, old(Reading())) == if r.Some? then Got(r.value, files, Reading()) else Nothing(Reading())
    {
      files := [];
      var ok := AwaitMessage();
      if !ok {
        return None, [];
      }
      var i := NulAt(rbuf).value;
      r := parse(rbuf[..i]);
      if r.Some? {
        files := ConsumeMessage(i);
      }
    }

    /** closeFiles. */
    method CloseFiles(files: seq<int>)
      modifies this`closed
      ensures closed == old(closed) + Counted(files)
    {
      var n := 0;
      while n < |files|
        invariant n <= |files|
        invariant closed + Counted(files[n..]) == old(closed) + Counted(files)
      {
        assert files[n..][1..] == files[n + 1..];
        if files[n] >= 0 {
          closed := closed + multiset{files[n]};
        }
        n := n + 1;
      }
    }

    /** shutdown: once, closing the descriptors nobody took. */
    method Shutdown()
      modifies this
      ensures Now() == ShutDown(old(Now()))
    {
      if broken {
        return;
      }
      broken := true;
      var n := 0;
      while n < |rights|
        invariant n <= |rights|
        invariant Now() == old(Now()).(broken := true, closed := closed)
        invariant closed + Pending(rights[n..]) == old(closed) + Pending(rights)
      {
        assert rights[n..][1..] == rights[n + 1..];
        CloseFiles(rights[n].fds);
        n := n + 1;
      }
      rights := [];
    }

    /** The end of do: every error but an error reply or a refused last reply breaks the connection. */
    method Settle(ended: Ended, expires: bool)
      modifies this
      ensures Now() == Settled(Exchange(ended, old(Now())), expires)
    {
      if ended.Fine? {
        return;
      }
      if !expires && (ended.ErrorReply? || ended.FinalCallback? || ended == MidCallback(true)) {
        return;
      }
      Shutdown();
    }

    /** What CallWithFiles makes of the reply it got. */
    method FinishOne(r: Reply, fds: seq<int>, decodes: bool, ghost p: Peer) returns (ended: Ended,
        files: Option<seq<int>>)
      requires Now() == p.(link := Reading())
      modifies this`answered, this`handed, this`closed
      ensures Exchange(ended, Now()) == One(p, Got(r, fds, old(Reading())), decodes)
      ensures handed == if files.Some? then old(handed) + Counted(files.value) else old(handed)
      ensures files.Some? ==> ended.Fine?
      ensures files == if r.error == "" && !r.continues && decodes then Some(fds) else None
    {
      files := None;
      if Final(r) {
        answered := answered + 1;
      }
      if r.error != "" {
        CloseFiles(fds);
        return ErrorReply, None;
      }
      if r.continues {
        CloseFiles(fds);
        return Failure, None;
      }
      if decodes {
        handed := handed + Counted(fds);
        return Fine, Some(fds);
      }
      CloseFiles(fds);
      return Fine, None;
    }

    method ExchangeOne(decodes: bool) returns (ended: Ended, files: Option<seq<int>>)
      modifies this
      ensures Exchange(ended, Now()) == One(old(Now()), Receive(parse, old(Reading())), decodes)
      ensures handed == if files.Some? then old(handed) + Counted(files.value) else old(handed)
      ensures files.Some? ==> ended.Fine?
      ensures var r := NthReply(parse, old(Reading()), 0);
              files == if r.Some? && r.value.error == "" && !r.value.continues && decodes
                       then Some(NthFiles(parse, old(Reading()), 0)) else None
    {
      ghost var p := Now();
      var r, fds := ReceiveReply();
      if r.None? {
        return Failure, None;
      }
      ended, files := FinishOne(r.value, fds, decodes, p);
    }

    /** The exchange do runs for CallWithFiles. */
    method ExchangeSingle(send: bool, expires: bool, decodes: bool) returns (ended: Ended, files: Option<seq<int>>)
      modifies this
      ensures Exchange(ended, Now()) == Exchanged(parse, old(Now()), Single(send, false, expires, decodes))
      ensures handed == if files.Some? then old(handed) + Counted(files.value) else old(handed)
      ensures var r := NthReply(parse, old(Reading()), 0);
              files == if send && r.Some? && r.value.error == "" && !r.value.continues && decodes
                       then Some(NthFiles(parse, old(Reading()), 0)) else None
    {
      if !send {
        return Failure, None;
      }
      ghost var link, p := Reading(), Now();
      sent := sent + 1;
      ghost var q := Now();
      assert Reading() == link && q == p.(sent := p.sent + 1);
      ended, files := ExchangeOne(decodes);
      assert Exchange(ended, Now()) == One(q, Receive(parse, link), decodes);
    }

    /** CallWithFiles: the files of the reply belong to the caller, if the call succeeds. */
    method CallWithFiles(send: bool, expired: bool, expires: bool, decodes: bool) returns (files: Option<seq<int>>)
      modifies this
      ensures Now() == Do(parse, old(Now()), Single(send, expired, expires, decodes))
      ensures handed == if files.Some? then old(handed) + Counted(files.value) else old(handed)
      ensures var r := NthReply(parse, old(Reading()), 0);
              files == if && !old(broken) && !expired && send && r.Some? && r.value.error == "" && !r.value.continues
                          && decodes then Some(NthFiles(parse, old(Reading()), 0)) else None
      ensures !broken <==> !old(broken) && KeepsUsable(parse, old(Now()), Single(send, expired, expires, decodes))
    {
      UsableIff(parse, Now(), Single(send, expired, expires, decodes));
      if broken || expired {
        return None;
      }
      var ended;
      ended, files := ExchangeSingle(send, expires, decodes);
      ghost var x := Exchange(ended, Now());
      Settle(ended, expires);
      assert Now() == Settled(x, expires) && Now().handed == x.peer.handed;
    }

    /** One turn of CallMoreWithFiles' loop, after a reply was received: how the stream ended, if it did. */
    method TakeReply(r: Reply, fds: seq<int>, verdict: Callback, ghost p: Peer) returns (ended: Option<Ended>)
      requires Now() == p.(link := Reading())
      modifies this`answered, this`handed, this`closed
      ensures ended == Turn(Got(r, fds, old(Reading())), verdict)
      ensures Now() == Turned(p, Got(r, fds, old(Reading())))
    {
      if Final(r) {
        answered := answered + 1;
      }
      if r.error != "" {
        CloseFiles(fds);
        return Some(ErrorReply);
      }
      handed := handed + Counted(fds);
      if !verdict.Accept? {
        return Some(if r.continues then MidCallback(verdict.RefuseVarlink?) else FinalCallback);
      }
      return if r.continues then None else Some(Fine);
    }

    /** CallMoreWithFiles' loop. */
    method StreamReplies(verdicts: seq<Callback>) returns (ended: Ended)
      modifies this
      ensures Exchange(ended, Now()) == Many(parse, old(Now()), verdicts)
    {
      var left := verdicts;
      while true
        invariant Many(parse, Now(), left) == Many(parse, old(Now()), verdicts)
        decreases |wire|, |rbuf|
      {
        ghost var p := Now();
        var r, fds := ReceiveReply();
        if r.None? {
          return Failure;
        }
        var end := TakeReply(r.value, fds, if left == [] then Accept else left[0], p);
        if end.Some? {
          return end.value;
        }
        left := if left == [] then [] else left[1..];
      }
    }

    /** The exchange do runs for CallMoreWithFiles. */
    method ExchangeStream(send: bool, expires: bool, verdicts: seq<Callback>) returns (ended: Ended)
      modifies this
      ensures Exchange(ended, Now()) == Exchanged(parse, old(Now()), Stream(send, false, expires, verdicts))
      ensures send ==> Exchange(ended, Now()) == Many(parse, old(Now()).(sent := old(sent) + 1), verdicts)
      ensures !send ==> ended == Failure
    {
      if !send {
        return Failure;
      }
      sent := sent + 1;
      ended := StreamReplies(verdicts);
    }

    /** CallMoreWithFiles: the stream ends with the first reply that is not accepted with others to follow. */
    method CallMoreWithFiles(send: bool, expired: bool, expires: bool, verdicts: seq<Callback>) returns (ended: Ended)
      modifies this
      ensures Now() == Do(parse, old(Now()), Stream(send, expired, expires, verdicts))
      ensures !old(broken) && !expired && send ==> EndsAsSaid(parse, old(Reading()), verdicts, ended)
      ensures old(broken) || expired || !send ==> ended == Failure
      ensures !broken <==> !old(broken) && KeepsUsable(parse, old(Now()), Stream(send, expired, expires, verdicts))
    {
      UsableIff(parse, Now(), Stream(send, expired, expires, verdicts));
      if broken || expired {
        return Failure;
      }
      ghost var p := Now();
      ended := ExchangeStream(send, expires, verdicts);
      if send {
        StreamEndsAsSaid(parse, p.(sent := p.sent + 1), verdicts, Exchange(ended, Now()));
      }
      Settle(ended, expires);
    }
  }
}
