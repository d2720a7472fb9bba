/**
 * Which request a reply answers. A Varlink service answers requests in order, so the replies of a
 * stream come in groups, one per request, each ending with its last reply.
 */
module VarlinkReplies {
  import opened Common
  import opened Text
  import opened VarlinkStream
  import opened VarlinkConn

  /** Receiving from `s` yields these replies and leaves `t`. */
  predicate Reads(parse: Parser, s: Link, replies: seq<Reply>, t: Link)
    decreases |replies|
  {
    if replies == [] then s == t
    else
      var g := Receive(parse, s);
      g.Got? && g.reply == replies[0] && Reads(parse, g.link, replies[1..], t)
  }

  lemma ReadsHead(parse: Parser, s: Link, replies: seq<Reply>, t: Link) returns (g: Got)
    requires replies != [] && Reads(parse, s, replies, t)
    ensures g == Receive(parse, s) && g.Got? && g.reply == replies[0] && Reads(parse, g.link, replies[1..], t)
  {
    g := Receive(parse, s);
  }

  lemma ReadsFrom(parse: Parser, s: Link, g: Got, a: seq<Reply>, b: seq<Reply>, u: Link)
    requires a != [] && g == Receive(parse, s) && g.Got? && g.reply == a[0] && Reads(parse, g.link, a[1..] + b, u)
    ensures Reads(parse, s, a + b, u)
  {
    assert (a + b)[1..] == a[1..] + b;
  }

  lemma {:induction false} ReadsConcat(parse: Parser, s: Link, a: seq<Reply>, t: Link, b: seq<Reply>, u: Link)
    requires Reads(parse, s, a, t) && Reads(parse, t, b, u)
    ensures Reads(parse, s, a + b, u)
    decreases |a|
  {
    if a == [] {
      assert a + b == b;
    } else {
      var g := ReadsHead(parse, s, a, t);
      ReadsConcat(parse, g.link, a[1..], t, b, u);
      ReadsFrom(parse, s, g, a, b, u);
    }
  }

  lemma ReadsFirst(parse: Parser, s: Link, g: Got, rest: seq<Reply>, t: Link)
    requires g == Receive(parse, s) && g.Got? && Reads(parse, g.link, rest, t)
    ensures Reads(parse, s, [g.reply] + rest, t)
  {
    assert ([g.reply] + rest)[1..] == rest;
  }

  // ---------------------------------------------------------------- replies are messages of the stream

  lemma {:induction false} AfterFront(s: Link, k: nat)
    ensures After(s, k + 1) == if Received(s).Delivered? then After(Received(s).link, k) else None
  {
    if k > 0 {
      AfterFront(s, k - 1);
    } else {
      assert After(s, 0) == Some(s);
    }
  }

  /** The `k`-th message delivered parses to this reply. */
  predicate MessageParses(parse: Parser, s: Link, k: nat, r: Reply) {
    Nth(s, k).Some? && parse(Nth(s, k).value.message) == Some(r)
  }

  lemma MessageParsesFront(parse: Parser, s: Link, g: Got, k: nat, r: Reply)
    requires g == Receive(parse, s) && g.Got? && MessageParses(parse, g.link, k, r)
    ensures MessageParses(parse, s, k + 1, r)
  {
    AfterFront(s, k);
  }

  lemma FirstMessageParses(parse: Parser, s: Link, g: Got)
    requires g == Receive(parse, s) && g.Got?
    ensures MessageParses(parse, s, 0, g.reply)
  {
    assert After(s, 0) == Some(s);
  }

  /** The replies read are the first messages delivered, parsed. */
  lemma {:induction false} RepliesAreMessages(parse: Parser, s: Link, replies: seq<Reply>, t: Link, k: nat)
    requires Reads(parse, s, replies, t) && k < |replies|
    ensures MessageParses(parse, s, k, replies[k])
    decreases k
  {
    var g := Receive(parse, s);
    if k == 0 {
      FirstMessageParses(parse, s, g);
    } else {
      RepliesAreMessages(parse, g.link, replies[1..], t, k - 1);
      MessageParsesFront(parse, s, g, k - 1, replies[k]);
    }
  }

  // ---------------------------------------------------------------- groups of replies

  /** How many requests these replies answer in full. */
  function Finals(replies: seq<Reply>): nat {
    if replies == [] then 0
    else Finals(replies[..|replies| - 1]) + if Final(replies[|replies| - 1]) then 1 else 0
  }

  /** Replies to one request: none but the last ends the answer. */
  predicate OneGroup(replies: seq<Reply>) {
    forall j :: 0 <= j < |replies| - 1 ==> !Final(replies[j])
  }

  predicate Whole(replies: seq<Reply>) {
    replies != [] && Final(replies[|replies| - 1])
  }

  lemma {:induction false} FinalsConcat(a: seq<Reply>, b: seq<Reply>)
    ensures Finals(a + b) == Finals(a) + Finals(b)
  {
    if b == [] {
      assert a + b == a;
    } else {
      FinalsConcat(a, b[..|b| - 1]);
      assert (a + b)[..|a + b| - 1] == a + b[..|b| - 1];
    }
  }

  lemma {:induction false} NoFinals(replies: seq<Reply>)
    requires forall j :: 0 <= j < |replies| ==> !Final(replies[j])
    ensures Finals(replies) == 0
  {
    if replies != [] {
      NoFinals(replies[..|replies| - 1]);
    }
  }

  /** A whole group answers one request, a part of one none. */
  lemma GroupAnswers(replies: seq<Reply>)
    requires OneGroup(replies)
    ensures Finals(replies) == if Whole(replies) then 1 else 0
  {
    if replies != [] {
      NoFinals(replies[..|replies| - 1]);
    }
  }

  /** What an exchange takes off a link: replies to one request, all of them when the exchange is complete. */
  predicate Takes(parse: Parser, s: Link, x: Exchange, replies: seq<Reply>) {
    && OneGroup(replies)
    && (!x.ended.Failure? ==> Reads(parse, s, replies, x.peer.link))
    && (Complete(x.ended) ==> Whole(replies)) && (x.ended.MidCallback? ==> !Whole(replies))
  }

  lemma TakesOneMore(parse: Parser, s: Link, g: Got, x: Exchange, rest: seq<Reply>)
    requires g == Receive(parse, s) && g.Got? && !Final(g.reply) && Takes(parse, g.link, x, rest)
    ensures Takes(parse, s, x, [g.reply] + rest)
  {
    if !x.ended.Failure? {
      ReadsFirst(parse, s, g, rest, x.peer.link);
    }
  }

  lemma TakesLast(parse: Parser, s: Link, g: Got, x: Exchange)
    requires g == Receive(parse, s) && g.Got? && x.peer.link == g.link && (Complete(x.ended) ==> Final(g.reply))
    requires x.ended.MidCallback? ==> !Final(g.reply)
    ensures Takes(parse, s, x, [g.reply])
  {
    ReadsFirst(parse, s, g, [], g.link);
    assert [g.reply] + [] == [g.reply];
  }

  lemma {:induction false} ManyTakes(parse: Parser, p: Peer, verdicts: seq<Callback>) returns (replies: seq<Reply>)
    ensures Takes(parse, p.link, Many(parse, p, verdicts), replies)
    decreases |p.link.wire|, |p.link.rbuf|
  {
    var g := Receive(parse, p.link);
    if g.Nothing? {
      replies := [];
    } else if Turn(g, if verdicts == [] then Accept else verdicts[0]).Some? {
      replies := [g.reply];
      TakesLast(parse, p.link, g, Many(parse, p, verdicts));
    } else {
      var rest := if verdicts == [] then [] else verdicts[1..];
      var more := ManyTakes(parse, Turned(p, g), rest);
      replies := [g.reply] + more;
      TakesOneMore(parse, p.link, g, Many(parse, Turned(p, g), rest), more);
    }
  }

  lemma OneTakes(parse: Parser, p: Peer, decodes: bool) returns (replies: seq<Reply>)
    ensures Takes(parse, p.link, One(p, Receive(parse, p.link), decodes), replies)
  {
    var g := Receive(parse, p.link);
    if g.Nothing? {
      replies := [];
    } else {
      replies := [g.reply];
      TakesLast(parse, p.link, g, One(p, g, decodes));
    }
  }

  // ---------------------------------------------------------------- calls and their groups

  /** The connection has taken these replies off `s`, and counts the requests they answer in full. */
  predicate HasTaken(parse: Parser, s: Link, p: Peer, replies: seq<Reply>) {
    Reads(parse, s, replies, p.link) && p.answered == Finals(replies)
  }

  /** The call sends a request that is answered. */
  predicate Asks(p: Peer, call: Call) {
    (call.Single? || call.Stream?) && call.send && !p.broken && !call.expired
  }

  lemma ExchangeTakes(parse: Parser, p: Peer, call: Call) returns (replies: seq<Reply>)
    requires Asks(p, call)
    ensures Takes(parse, p.link, Exchanged(parse, p, call), replies)
  {
    var q := p.(sent := p.sent + 1);
    if call.Single? {
      replies := OneTakes(parse, q, call.decodes);
    } else {
      replies := ManyTakes(parse, q, call.verdicts);
    }
  }

  /** An exchange after which the connection is usable counts what it took. */
  lemma ExchangeCounts(parse: Parser, p: Peer, call: Call)
    requires Asks(p, call)
    ensures var x := Exchanged(parse, p, call);
            && x.peer.sent == p.sent + 1
            && (Complete(x.ended) ==> x.peer.answered == p.answered + 1)
            && (x.ended.MidCallback? ==> x.peer.answered == p.answered && call.Stream?)
  {
    var q := p.(sent := p.sent + 1);
    if call.Single? {
      OneAnswers(q, Receive(parse, p.link), call.decodes);
    } else {
      ManyAnswers(parse, q, call.verdicts);
    }
  }

  lemma MidMeansAbandoned(parse: Parser, p: Peer, call: Call)
    requires Asks(p, call) && call.Stream? && !call.expires
    ensures Exchanged(parse, p, call).ended == MidCallback(true) <==> Abandons(parse, p, call)
  {
    EndsMidStreamIff(parse, p.(sent := p.sent + 1), call.verdicts);
  }

  /** The connection as a call leaves it, given what the call took. */
  lemma TakenAfter(parse: Parser, s: Link, p: Peer, replies: seq<Reply>, x: Exchange, more: seq<Reply>)
    requires HasTaken(parse, s, p, replies) && Takes(parse, p.link, x, more) && !x.ended.Failure?
    requires x.peer.answered == p.answered + if Complete(x.ended) then 1 else 0
    requires Complete(x.ended) || x.ended.MidCallback?
    ensures HasTaken(parse, s, x.peer, replies + more)
  {
    ReadsConcat(parse, s, replies, p.link, more, x.peer.link);
    FinalsConcat(replies, more);
    GroupAnswers(more);
  }

  /**
   * A call takes replies to one request only, the first not answered in full yet. If the connection
   * stays usable it takes all of them, unless it abandons them.
   */
  lemma CallTakesGroup(parse: Parser, s: Link, p: Peer, replies: seq<Reply>, call: Call) returns (more: seq<Reply>)
    requires HasTaken(parse, s, p, replies) && Asks(p, call)
    ensures Takes(parse, p.link, Exchanged(parse, p, call), more)
    ensures !Do(parse, p, call).broken ==> HasTaken(parse, s, Do(parse, p, call), replies + more)
    ensures !Do(parse, p, call).broken && !Abandons(parse, p, call) ==> Whole(more)
  {
    more := ExchangeTakes(parse, p, call);
    ExchangeCounts(parse, p, call);
    if !Do(parse, p, call).broken {
      var x := Exchanged(parse, p, call);
      SettledOutstanding(x, call.expires);
      TakenAfter(parse, s, p, replies, x, more);
      if x.ended.MidCallback? {
        MidMeansAbandoned(parse, p, call);
      }
    }
  }

  /** A call that asks nothing takes no reply off a connection it leaves usable. */
  lemma OthersTakeNothing(parse: Parser, p: Peer, call: Call)
    requires !Asks(p, call) && !Do(parse, p, call).broken
    ensures Do(parse, p, call) == p && !Abandons(parse, p, call)
  {
  }

  /** Whole groups only: the next reply begins another. */
  predicate WholeGroups(replies: seq<Reply>) {
    replies == [] || Whole(replies)
  }

  lemma {:induction false} SessionTakes(parse: Parser, s: Link, p: Peer, replies: seq<Reply>, calls: seq<Call>)
      returns (taken: seq<Reply>)
    requires HasTaken(parse, s, p, replies) && WholeGroups(replies) && !Session(parse, p, calls).broken
    requires Abandoned(parse, p, calls) == 0
    ensures HasTaken(parse, s, Session(parse, p, calls), taken) && WholeGroups(taken)
    decreases calls
  {
    taken := replies;
    if calls != [] {
      var q := Do(parse, p, calls[0]);
      if q.broken {
        BrokenStays(parse, q, calls[1..]);
        assert false;
      }
      if Asks(p, calls[0]) {
        var more := CallTakesGroup(parse, s, p, replies, calls[0]);
        taken := replies + more;
      } else {
        OthersTakeNothing(parse, p, calls[0]);
      }
      taken := SessionTakes(parse, s, q, taken, calls[1..]);
    }
  }

  /** A new connection to a socket. */
  function Dialled(wire: seq<Recv>): Peer {
    Peer(Link([], 0, [], wire, multiset{}), false, multiset{}, multiset{}, 0, 0)
  }

  /**
   * Each later reply answers its own call. After any calls on a new connection, none of which abandoned
   * a stream, the replies taken are whole answers to exactly the requests sent; so the next call takes
   * replies to its own request only, from the first on, and all of them if the connection stays
   * usable and the call does not abandon them.
   */
  lemma EachCallTakesItsReplies(parse: Parser, wire: seq<Recv>, calls: seq<Call>, call: Call)
      returns (before: seq<Reply>, own: seq<Reply>)
    requires var p := Session(parse, Dialled(wire), calls); !p.broken && Asks(p, call)
    requires Abandoned(parse, Dialled(wire), calls) == 0
    ensures var p := Session(parse, Dialled(wire), calls);
            && Reads(parse, Dialled(wire).link, before, p.link) && WholeGroups(before) && Finals(before) == p.sent
            && Takes(parse, p.link, Exchanged(parse, p, call), own)
            && (!Do(parse, p, call).broken && !Abandons(parse, p, call) ==> Whole(own))
  {
    var p0 := Dialled(wire);
    var p := Session(parse, p0, calls);
    OutstandingIffAbandoned(parse, p0, calls);
    before := SessionTakes(parse, p0.link, p0, [], calls);
    own := CallTakesGroup(parse, p0.link, p, before, call);
  }

  // ---------------------------------------------------------------- a call that takes another's reply

  /** A socket about to return two replies to a first request, one of them not the last, and one to a second. */
  const THREE_REPLIES: seq<Recv> := [Recv([1, 0, 2, 0, 3, 0], [], false, false)]

  lemma TakeBuffered(parse: Parser, s: Link, b: byte, rest: seq<byte>, r: Reply)
    requires s.rights == [] && b != 0 && s.rbuf == [b, 0] + rest && parse([b]) == Some(r)
    ensures Receive(parse, s) == Got(r, [], s.(rbuf := rest, pos := s.pos + 2))
  {
    assert s.rbuf[1..] == [0] + rest && NulAt(s.rbuf[1..]) == Some(0) && NulAt(s.rbuf) == Some(1);
    assert s.rbuf[..1] == [b] && s.rbuf[2..] == rest;
  }

  /** The first reply is read off the socket, the others with it. */
  lemma FirstRead(parse: Parser, r: Reply) returns (t: Link)
    requires parse([1]) == Some(r)
    ensures t.rights == [] && t.wire == [] && t.rbuf == [2, 0, 3, 0]
    ensures Receive(parse, Dialled(THREE_REPLIES).link) == Got(r, [], t)
  {
    var s := Dialled(THREE_REPLIES).link;
    var u := AfterRead(s).value;
    assert u.rbuf == [1, 0] + [2, 0, 3, 0];
    assert Collected([], LastByte(0, 6)) == [] && Pending([]) == multiset{};
    TakeBuffered(parse, u, 1, [2, 0, 3, 0], r);
    t := Receive(parse, u).link;
    assert NulAt(s.rbuf).None? && Await(s) == Await(u);
  }

  lemma StreamAbandons(parse: Parser, p: Peer, first: Reply, t: Link)
    requires !p.broken && Receive(parse, p.link) == Got(first, [], t) && first.error == "" && first.continues
    ensures var stream := Stream(true, false, false, [RefuseVarlink]);
            && Abandons(parse, p, stream)
            && Do(parse, p, stream) == p.(link := t, sent := p.sent + 1, handed := p.handed + Counted([]))
  {
    assert NthReply(parse, p.link, 0) == Some(first);
    assert RefusesAt(parse, p.link, [RefuseVarlink], 0);
  }

  /**
   * Abandoning happens, on a new connection: the callback refuses the first of two replies with an
   * error that wraps a Varlink error. The connection stays usable, and the next call, request number 1,
   * succeeds with the second reply to request number 0.
   */
  lemma AbandonedStreamMisaligns(parse: Parser, first: Reply, second: Reply)
    requires parse([1]) == Some(first) && first.error == "" && first.continues
    requires parse([2]) == Some(second) && second.error == "" && !second.continues
    ensures var p := Dialled(THREE_REPLIES);
            var q := Do(parse, p, Stream(true, false, false, [RefuseVarlink]));
            && Abandons(parse, p, Stream(true, false, false, [RefuseVarlink]))
            && !q.broken && Outstanding(q) == 1 && q.sent == 1
            && HasTaken(parse, p.link, q, [first]) && Finals([first]) == 0
            && Takes(parse, q.link, Exchanged(parse, q, Single(true, false, false, true)), [second])
            && Exchanged(parse, q, Single(true, false, false, true)).ended == Fine
  {
    var p := Dialled(THREE_REPLIES);
    var t := FirstRead(parse, first);
    StreamAbandons(parse, p, first, t);
    var q := Do(parse, p, Stream(true, false, false, [RefuseVarlink]));
    ReadsFirst(parse, p.link, Got(first, [], t), [], t);
    assert [first] + [] == [first] && [first][..0] == [];
    TakeBuffered(parse, t, 2, [3, 0], second);
    SingleTakes(parse, q, second, Receive(parse, t).link);
  }

  lemma SingleTakes(parse: Parser, q: Peer, r: Reply, u: Link)
    requires Receive(parse, q.link) == Got(r, [], u) && r.error == "" && !r.continues
    ensures Exchanged(parse, q, Single(true, false, false, true)).ended == Fine
    ensures Takes(parse, q.link, Exchanged(parse, q, Single(true, false, false, true)), [r])
  {
    TakesLast(parse, q.link, Got(r, [], u), Exchanged(parse, q, Single(true, false, false, true)));
  }
}
