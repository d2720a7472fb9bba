/**
 * internal/varlink: reassembling NUL-terminated messages, and the descriptors sent with them, from
 * the pieces recvmsg(2) returns.
 */
module VarlinkStream {
  import opened Common
  import opened Text

  const MAX_MESSAGE_SIZE: nat := 0x100_0000
  const READ_CHUNK: nat := 0x1_0000

  /** One control message: descriptors, something else, or bytes that do not parse. */
  datatype Control = Rights(fds: seq<int>) | Other | Unparsable

  /** What one recvmsg(2) returns; `failed` is an end of file or transport error. */
  datatype Recv = Recv(data: seq<byte>, control: seq<Control>, truncated: bool, failed: bool)

  /** Descriptors with the stream offset of the last data byte they arrived with. */
  datatype Batch = Batch(last: nat, fds: seq<int>)

  /**
   * The reading side of a connection: bytes not yet consumed, the stream offset of the first of
   * them, descriptors not yet attached, what the socket will still return, and (as history) every
   * descriptor collected so far.
   */
  datatype Link = Link(rbuf: seq<byte>, pos: nat, rights: seq<Batch>, wire: seq<Recv>, collected: multiset<int>)

  /** The first NUL. */
  function NulAt(s: seq<byte>): (r: Option<nat>)
    ensures r.Some? ==> r.value < |s|
  {
    if s == [] then None
    else if s[0] == 0 then Some(0)
    else
      var r := NulAt(s[1..]);
      if r.None? then None else Some(r.value + 1)
  }

  lemma {:induction false} NulAtIsFirst(s: seq<byte>)
    ensures NulAt(s).Some? ==> s[NulAt(s).value] == 0 && forall j :: 0 <= j < NulAt(s).value ==> s[j] != 0
    ensures NulAt(s).None? ==> forall j :: 0 <= j < |s| ==> s[j] != 0
  {
    if s != [] {
      NulAtIsFirst(s[1..]);
      assert forall j :: 1 <= j < |s| ==> s[j] == s[1..][j - 1];
    }
  }

  // ---------------------------------------------------------------- descriptors

  /** The usable descriptors of some batches, in order. */
  function FdsOf(batches: seq<Batch>): (fds: seq<int>) {
    if batches == [] then [] else Usable(batches[0].fds) + FdsOf(batches[1..])
  }

  /** The usable descriptors of some batches, without their order. */
  function Pending(batches: seq<Batch>): multiset<int> {
    if batches == [] then multiset{} else Counted(batches[0].fds) + Pending(batches[1..])
  }

  /** The usable descriptors of a list, without their order. */
  function Counted(fds: seq<int>): multiset<int> {
    if fds == [] then multiset{}
    else if fds[0] >= 0 then multiset{fds[0]} + Counted(fds[1..])
    else Counted(fds[1..])
  }

  lemma {:induction false} CountedSplit(a: seq<int>, b: seq<int>)
    ensures Counted(a + b) == Counted(a) + Counted(b)
  {
    if a == [] {
      assert a + b == b;
    } else {
      CountedSplit(a[1..], b);
      assert (a + b)[1..] == a[1..] + b;
    }
  }

  lemma {:induction false} CountedUsable(fds: seq<int>)
    ensures Counted(Usable(fds)) == Counted(fds)
  {
    if fds != [] {
      CountedUsable(fds[1..]);
      if fds[0] >= 0 {
        assert Usable(fds)[1..] == Usable(fds[1..]);
      }
    }
  }

  lemma {:induction false} CountedFds(batches: seq<Batch>)
    ensures Counted(FdsOf(batches)) == Pending(batches)
  {
    if batches != [] {
      CountedFds(batches[1..]);
      CountedUsable(batches[0].fds);
      CountedSplit(Usable(batches[0].fds), FdsOf(batches[1..]));
    }
  }

  function Usable(fds: seq<int>): seq<int> {
    if fds == [] then []
    else if fds[0] >= 0 then [fds[0]] + Usable(fds[1..])
    else Usable(fds[1..])
  }

  function UpTo(batches: seq<Batch>, end: nat): seq<Batch> {
    if batches == [] then []
    else if batches[0].last <= end then [batches[0]] + UpTo(batches[1..], end)
    else UpTo(batches[1..], end)
  }

  function Later(batches: seq<Batch>, end: nat): seq<Batch> {
    if batches == [] then []
    else if batches[0].last > end then [batches[0]] + Later(batches[1..], end)
    else Later(batches[1..], end)
  }

  /** The batches whose last byte lies in a byte range. */
  function Within(batches: seq<Batch>, from: nat, end: nat): seq<Batch> {
    if batches == [] then []
    else if from <= batches[0].last <= end then [batches[0]] + Within(batches[1..], from, end)
    else Within(batches[1..], from, end)
  }

  function Collected(control: seq<Control>, last: nat): seq<Batch> {
    if control == [] || control[0].Unparsable? then []
    else if control[0].Rights? then [Batch(last, control[0].fds)] + Collected(control[1..], last)
    else Collected(control[1..], last)
  }

  function LastByte(at: nat, n: nat): nat {
    if n > 0 then at + n - 1 else at
  }

  // ---------------------------------------------------------------- read and receive

  /** read: one recvmsg(2); the descriptors are kept even when the read then fails. */
  function AfterRead(s: Link): Result<Link, Link>
    requires s.wire != []
  {
    var c := s.wire[0];
    var got := Collected(c.control, LastByte(s.pos + |s.rbuf|, |c.data|));
    var t := s.(wire := s.wire[1..], rights := s.rights + got, collected := s.collected + Pending(got));
    if Unparsable in c.control || c.truncated then Err(t)
    else
      var u := t.(rbuf := t.rbuf + c.data);
      if c.failed then Err(u) else Ok(u)
  }

  /** Reading until a whole message is buffered. */
  function Await(s: Link): (r: Result<Link, Link>)
    ensures r.Ok? ==> NulAt(r.value.rbuf).Some?
    decreases |s.wire|
  {
    if NulAt(s.rbuf).Some? then Ok(s)
    else if |s.rbuf| > MAX_MESSAGE_SIZE || s.wire == [] then Err(s)
    else
      var t := AfterRead(s);
      if t.Err? then t else Await(t.value)
  }

  /** Either nothing had to be read, or part of the wire was. */
  lemma {:induction false} AwaitReads(s: Link)
    ensures Await(s).Ok? ==> Await(s).value == s || |Await(s).value.wire| < |s.wire|
    decreases |s.wire|
  {
    if NulAt(s.rbuf).None? && |s.rbuf| <= MAX_MESSAGE_SIZE && s.wire != [] && AfterRead(s).Ok? {
      AwaitReads(AfterRead(s).value);
    }
  }

  datatype Receipt = Delivered(message: seq<byte>, files: seq<int>, link: Link) | Undelivered(link: Link)

  function Consumed(s: Link, i: nat): Link
    requires i < |s.rbuf|
  {
    s.(rbuf := s.rbuf[i + 1..], pos := s.pos + i + 1, rights := Later(s.rights, s.pos + i))
  }

  /** The buffered message with its descriptors. */
  function Deliver(t: Link): Receipt
    requires NulAt(t.rbuf).Some?
  {
    var i := NulAt(t.rbuf).value;
    Delivered(t.rbuf[..i], FdsOf(UpTo(t.rights, t.pos + i)), Consumed(t, i))
  }

  /** receive: the next message with its descriptors, or the state it failed in. */
  function Received(s: Link): Receipt {
    match Await(s)
    case Err(t) => Undelivered(t)
    case Ok(t) => Deliver(t)
  }

  // ---------------------------------------------------------------- the stream, however it is split

  function Flat(wire: seq<Recv>): seq<byte> {
    if wire == [] then [] else wire[0].data + Flat(wire[1..])
  }

  /** Every byte not yet consumed. */
  function Unread(s: Link): seq<byte> {
    s.rbuf + Flat(s.wire)
  }

  function WireBatches(wire: seq<Recv>, at: nat): seq<Batch> {
    if wire == [] then []
    else
      Collected(wire[0].control, LastByte(at, |wire[0].data|)) + WireBatches(wire[1..], at + |wire[0].data|)
  }

  /** Every batch not yet attached, received or still to come. */
  function Unattached(s: Link): seq<Batch> {
    s.rights + WireBatches(s.wire, s.pos + |s.rbuf|)
  }

  /** No read fails. */
  predicate Clean(wire: seq<Recv>) {
    forall k :: 0 <= k < |wire| ==> Unparsable !in wire[k].control && !wire[k].truncated && !wire[k].failed
  }

  /** No batch belongs to a message already consumed. */
  predicate WellPlaced(s: Link) {
    AllFrom(Unattached(s), s.pos)
  }

  predicate AllFrom(batches: seq<Batch>, from: nat) {
    forall k :: 0 <= k < |batches| ==> batches[k].last >= from
  }

  lemma {:induction false} CollectedFrom(control: seq<Control>, last: nat, from: nat)
    requires from <= last
    ensures AllFrom(Collected(control, last), from)
  {
    if control != [] {
      CollectedFrom(control[1..], last, from);
    }
  }

  lemma {:induction false} WireBatchesFrom(wire: seq<Recv>, at: nat, from: nat)
    requires from <= at
    ensures AllFrom(WireBatches(wire, at), from)
  {
    if wire != [] {
      CollectedFrom(wire[0].control, LastByte(at, |wire[0].data|), from);
      WireBatchesFrom(wire[1..], at + |wire[0].data|, from);
    }
  }

  lemma {:induction false} LaterFrom(batches: seq<Batch>, end: nat)
    ensures AllFrom(Later(batches, end), end + 1)
  {
    if batches != [] {
      LaterFrom(batches[1..], end);
    }
  }

  lemma ReadKeepsStream(s: Link)
    requires s.wire != [] && Clean(s.wire)
    ensures AfterRead(s).Ok?
    ensures var t := AfterRead(s).value;
            && Unread(t) == Unread(s) && Unattached(t) == Unattached(s) && t.pos == s.pos && Clean(t.wire)
            && t.rbuf == s.rbuf + s.wire[0].data && t.wire == s.wire[1..]
  {
    var t := AfterRead(s).value;
    assert Unread(t) == s.rbuf + s.wire[0].data + Flat(s.wire[1..]);
    var got := Collected(s.wire[0].control, LastByte(s.pos + |s.rbuf|, |s.wire[0].data|));
    assert s.rights + got + WireBatches(s.wire[1..], t.pos + |t.rbuf|) == s.rights + (got + WireBatches(s.wire[1..], t.pos + |t.rbuf|));
  }

  lemma NulInPrefix(a: seq<byte>, b: seq<byte>)
    ensures NulAt(a).Some? ==> NulAt(a + b) == NulAt(a)
    ensures NulAt(a).None? && NulAt(a + b).Some? ==> |a| <= NulAt(a + b).value
  {
    assert forall j :: 0 <= j < |a| ==> (a + b)[j] == a[j];
    NulAtIsFirst(a);
    NulAtIsFirst(a + b);
  }

  /** A message of at most the maximal size is always assembled, and only once its end has arrived. */
  lemma {:induction false} AwaitFindsMessage(s: Link, i: nat)
    requires Clean(s.wire) && NulAt(Unread(s)) == Some(i) && i <= MAX_MESSAGE_SIZE
    ensures Await(s).Ok?
    ensures var t := Await(s).value;
            && Unread(t) == Unread(s) && Unattached(t) == Unattached(s) && t.pos == s.pos && Clean(t.wire)
            && NulAt(t.rbuf) == Some(i)
    decreases |s.wire|
  {
    NulInPrefix(s.rbuf, Flat(s.wire));
    if NulAt(s.rbuf).None? {
      assert s.wire == [] ==> Unread(s) == s.rbuf;
      ReadKeepsStream(s);
      AwaitFindsMessage(AfterRead(s).value, i);
    }
  }

  /** Without a message end in the stream no message is assembled. */
  lemma {:induction false} AwaitNeedsEnd(s: Link)
    requires Clean(s.wire) && NulAt(Unread(s)).None?
    ensures Await(s).Err?
    decreases |s.wire|
  {
    NulInPrefix(s.rbuf, Flat(s.wire));
    if s.wire != [] {
      ReadKeepsStream(s);
      AwaitNeedsEnd(AfterRead(s).value);
    }
  }

  lemma {:induction false} UpToSplit(a: seq<Batch>, b: seq<Batch>, end: nat)
    ensures UpTo(a + b, end) == UpTo(a, end) + UpTo(b, end)
  {
    if a == [] {
      assert a + b == b;
    } else {
      UpToSplit(a[1..], b, end);
      assert (a + b)[1..] == a[1..] + b;
      assert [a[0]] + (UpTo(a[1..], end) + UpTo(b, end)) == [a[0]] + UpTo(a[1..], end) + UpTo(b, end);
    }
  }

  lemma LaterCons(x: Batch, rest: seq<Batch>, end: nat)
    ensures Later([x] + rest, end) == if x.last > end then [x] + Later(rest, end) else Later(rest, end)
  {
    assert ([x] + rest)[1..] == rest;
  }

  lemma PrependSplit(x: Batch, a: seq<Batch>, b: seq<Batch>)
    ensures [x] + (a + b) == [x] + a + b
  {
  }

  lemma {:induction false} LaterSplit(a: seq<Batch>, b: seq<Batch>, end: nat)
    ensures Later(a + b, end) == Later(a, end) + Later(b, end)
  {
    if a == [] {
      assert a + b == b;
    } else {
      LaterSplit(a[1..], b, end);
      assert a + b == [a[0]] + (a[1..] + b) && a == [a[0]] + a[1..];
      LaterCons(a[0], a[1..] + b, end);
      LaterCons(a[0], a[1..], end);
      PrependSplit(a[0], Later(a[1..], end), Later(b, end));
    }
  }

  lemma {:induction false} AllLater(b: seq<Batch>, end: nat)
    requires AllFrom(b, end + 1)
    ensures UpTo(b, end) == [] && Later(b, end) == b
  {
    if b != [] {
      AllLater(b[1..], end);
    }
  }

  lemma {:induction false} UpToIsWithin(b: seq<Batch>, from: nat, end: nat)
    requires AllFrom(b, from)
    ensures UpTo(b, end) == Within(b, from, end)
  {
    if b != [] {
      UpToIsWithin(b[1..], from, end);
    }
  }

  /** Batches of consumed messages do not matter to later ones. */
  lemma {:induction false} WithinLater(b: seq<Batch>, end: nat, from: nat, to: nat)
    requires from > end
    ensures Within(Later(b, end), from, to) == Within(b, from, to)
  {
    if b != [] {
      WithinLater(b[1..], end, from, to);
      if b[0].last > end {
        assert Later(b, end)[1..] == Later(b[1..], end);
      } else {
        assert Later(b, end) == Later(b[1..], end);
      }
    }
  }

  lemma AttachesRange(rights: seq<Batch>, rest: seq<Batch>, from: nat, end: nat)
    requires AllFrom(rights + rest, from) && AllFrom(rest, end + 1)
    ensures UpTo(rights, end) == Within(rights + rest, from, end)
    ensures Later(rights, end) + rest == Later(rights + rest, end)
  {
    UpToSplit(rights, rest, end);
    LaterSplit(rights, rest, end);
    AllLater(rest, end);
    UpToIsWithin(rights + rest, from, end);
  }

  /** Batches that have not arrived yet end after the message that has: those attached are those of its range. */
  lemma ConsumeAttachesRange(t: Link, i: nat)
    requires WellPlaced(t) && i < |t.rbuf|
    ensures UpTo(t.rights, t.pos + i) == Within(Unattached(t), t.pos, t.pos + i)
    ensures Unattached(Consumed(t, i)) == Later(Unattached(t), t.pos + i)
    ensures WellPlaced(Consumed(t, i))
  {
    WireBatchesFrom(t.wire, t.pos + |t.rbuf|, t.pos + i + 1);
    AttachesRange(t.rights, WireBatches(t.wire, t.pos + |t.rbuf|), t.pos, t.pos + i);
    LaterFrom(Unattached(t), t.pos + i);
    assert Consumed(t, i).pos + |Consumed(t, i).rbuf| == t.pos + |t.rbuf|;
  }

  /**
   * What receive returns, read off the stream: the bytes up to the next NUL, with the batches of exactly that
   * range.
   */
  predicate FromStream(s: Link, i: nat, got: Receipt) {
    && got.Delivered? && i < |Unread(s)| && got.message == Unread(s)[..i]
    && got.files == FdsOf(Within(Unattached(s), s.pos, s.pos + i))
    && Unread(got.link) == Unread(s)[i + 1..] && got.link.pos == s.pos + i + 1
    && Unattached(got.link) == Later(Unattached(s), s.pos + i)
    && Clean(got.link.wire) && WellPlaced(got.link)
  }

  lemma ReceiveReadsStream(s: Link, i: nat)
    requires Clean(s.wire) && WellPlaced(s) && NulAt(Unread(s)) == Some(i) && i <= MAX_MESSAGE_SIZE
    ensures FromStream(s, i, Received(s))
  {
    AwaitFindsMessage(s, i);
    var t := Await(s).value;
    assert t.rbuf[..i] == Unread(s)[..i];
    ConsumeAttachesRange(t, i);
    assert Unread(Consumed(t, i)) == Unread(t)[i + 1..];
  }

  /** The connection after delivering `k` messages. */
  function After(s: Link, k: nat): Option<Link> {
    if k == 0 then Some(s)
    else
      var t := After(s, k - 1);
      if t.None? then None
      else
        var got := Received(t.value);
        if got.Delivered? then Some(got.link) else None
  }

  /** Where the `k`-th message of a stream begins, if the ones before it are complete. */
  function StartOf(bytes: seq<byte>, k: nat): (at: Option<nat>)
    ensures at.Some? ==> at.value <= |bytes|
  {
    if k == 0 then Some(0)
    else
      var at := StartOf(bytes, k - 1);
      if at.None? then None
      else
        var i := NulAt(bytes[at.value..]);
        if i.None? then None else Some(at.value + i.value + 1)
  }

  /** Every complete message is at most the maximal size. */
  ghost predicate SmallMessages(bytes: seq<byte>) {
    forall k: nat :: SmallAt(bytes, k)
  }

  predicate SmallAt(bytes: seq<byte>, k: nat) {
    StartOf(bytes, k).Some? ==> SmallNext(bytes[StartOf(bytes, k).value..])
  }

  predicate SmallNext(bytes: seq<byte>) {
    NulAt(bytes).Some? ==> NulAt(bytes).value <= MAX_MESSAGE_SIZE
  }

  /** Batches that agree from `from` on. */
  ghost predicate SameFrom(a: seq<Batch>, b: seq<Batch>, from: nat) {
    forall lo: nat, hi: nat :: from <= lo ==> Within(a, lo, hi) == Within(b, lo, hi)
  }

  lemma LaterSameFrom(a: seq<Batch>, b: seq<Batch>, from: nat, end: nat)
    requires from <= end && SameFrom(a, b, from)
    ensures SameFrom(Later(a, end), b, end + 1)
  {
    forall lo: nat, hi: nat | end + 1 <= lo ensures Within(Later(a, end), lo, hi) == Within(b, lo, hi) {
      WithinLater(a, end, lo, hi);
    }
  }

  /** `t` is `s` moved on to offset `at` of what `s` had not read yet. */
  ghost predicate MovedTo(s: Link, t: Link, at: nat) {
    && at <= |Unread(s)| && Unread(t) == Unread(s)[at..] && t.pos == s.pos + at
    && SameFrom(Unattached(t), Unattached(s), t.pos) && Clean(t.wire) && WellPlaced(t)
  }

  /** The message beginning at offset `at` of some bytes, with the descriptors whose last byte lies in it. */
  predicate IsMessage(bytes: seq<byte>, pos: nat, batches: seq<Batch>, at: nat, message: seq<byte>, files: seq<int>) {
    && at + |message| < |bytes| && NulAt(bytes[at..]) == Some(|message|) && message == bytes[at..at + |message|]
    && files == FdsOf(Within(batches, pos + at, pos + at + |message|))
  }

  /** The same for the stream `s` has yet to read. */
  predicate IsMessageAt(s: Link, at: nat, message: seq<byte>, files: seq<int>) {
    IsMessage(Unread(s), s.pos, Unattached(s), at, message, files)
  }

  lemma BytesMoveOn(bytes: seq<byte>, at: nat, left: seq<byte>, i: nat)
    requires at <= |bytes| && left == bytes[at..] && i < |left|
    ensures left[..i] == bytes[at..at + i] && left[i + 1..] == bytes[at + i + 1..]
  {
    SliceOfSlice(bytes, at, i);
  }

  lemma MessageThere(bytes: seq<byte>, pos: nat, a: seq<Batch>, b: seq<Batch>, at: nat, i: nat)
    requires at <= |bytes| && NulAt(bytes[at..]) == Some(i) && SameFrom(a, b, pos + at)
    ensures IsMessage(bytes, pos, b, at, bytes[at..][..i], FdsOf(Within(a, pos + at, pos + at + i)))
  {
    BytesMoveOn(bytes, at, bytes[at..], i);
  }

  lemma LinkMovesOn(s: Link, t: Link, u: Link, at: nat, i: nat)
    requires MovedTo(s, t, at) && i < |Unread(t)| && Unread(u) == Unread(t)[i + 1..] && u.pos == t.pos + i + 1
    requires Unattached(u) == Later(Unattached(t), t.pos + i) && Clean(u.wire) && WellPlaced(u)
    ensures MovedTo(s, u, at + i + 1)
  {
    LaterSameFrom(Unattached(t), Unattached(s), t.pos, t.pos + i);
    BytesMoveOn(Unread(s), at, Unread(t), i);
  }

  lemma MovesOn(s: Link, t: Link, at: nat, i: nat, got: Receipt)
    requires MovedTo(s, t, at) && NulAt(Unread(t)) == Some(i) && FromStream(t, i, got)
    ensures IsMessageAt(s, at, got.message, got.files) && MovedTo(s, got.link, at + |got.message| + 1)
  {
    MessageThere(Unread(s), s.pos, Unattached(t), Unattached(s), at, i);
    LinkMovesOn(s, t, got.link, at, i);
  }

  /** The next message of a connection that has moved on to offset `at` is the one the whole stream has there. */
  lemma NextMessage(s: Link, t: Link, at: nat)
    requires MovedTo(s, t, at) && SmallNext(Unread(s)[at..])
    ensures Received(t).Delivered? <==> NulAt(Unread(s)[at..]).Some?
    ensures Received(t).Delivered? ==>
              && IsMessageAt(s, at, Received(t).message, Received(t).files)
              && MovedTo(s, Received(t).link, at + |Received(t).message| + 1)
  {
    var i := NulAt(Unread(t));
    if i.None? {
      AwaitNeedsEnd(t);
    } else {
      ReceiveReadsStream(t, i.value);
      MovesOn(s, t, at, i.value, Received(t));
    }
  }

  lemma SliceOfSlice(b: seq<byte>, at: nat, i: nat)
    requires at + i < |b|
    ensures b[at..][..i] == b[at..at + i] && b[at..][i + 1..] == b[at + i + 1..]
  {
  }

  ghost predicate Follows(s: Link, k: nat) {
    && (After(s, k).Some? <==> StartOf(Unread(s), k).Some?)
    && (After(s, k).Some? ==> MovedTo(s, After(s, k).value, StartOf(Unread(s), k).value))
  }

  lemma FollowsNext(s: Link, k: nat)
    requires k > 0 && Follows(s, k - 1) && SmallAt(Unread(s), k - 1)
    ensures Follows(s, k)
  {
    var t, at := After(s, k - 1), StartOf(Unread(s), k - 1);
    if t.Some? {
      NextMessage(s, t.value, at.value);
    }
  }

  lemma {:induction false} FollowsStream(s: Link, k: nat)
    requires Clean(s.wire) && WellPlaced(s) && SmallMessages(Unread(s))
    ensures Follows(s, k)
  {
    if k == 0 {
      assert Unread(s)[0..] == Unread(s);
    } else {
      FollowsStream(s, k - 1);
      assert SmallAt(Unread(s), k - 1);
      FollowsNext(s, k);
    }
  }

  /** The `k`-th message the connection delivers, if it does. */
  function Nth(s: Link, k: nat): Option<Receipt> {
    var t := After(s, k);
    if t.Some? && Received(t.value).Delivered? then Some(Received(t.value)) else None
  }

  /**
   * However the stream is split into reads, the `k`-th message delivered is the `k`-th message of the
   * stream, with exactly the descriptors whose last byte lies in that message.
   */
  lemma DeliversStream(s: Link, k: nat)
    requires Clean(s.wire) && WellPlaced(s) && SmallMessages(Unread(s))
    ensures Nth(s, k).Some? <==> StartOf(Unread(s), k + 1).Some?
    ensures Nth(s, k).Some? ==>
              IsMessageAt(s, StartOf(Unread(s), k).value, Nth(s, k).value.message, Nth(s, k).value.files)
  {
    FollowsStream(s, k);
    if After(s, k).Some? {
      assert SmallAt(Unread(s), k);
      NextMessage(s, After(s, k).value, StartOf(Unread(s), k).value);
    }
  }

  /** The stream offset lies in the `k`-th message, its NUL included. */
  predicate LiesIn(bytes: seq<byte>, pos: nat, k: nat, offset: nat) {
    && StartOf(bytes, k).Some? && StartOf(bytes, k + 1).Some?
    && pos + StartOf(bytes, k).value <= offset < pos + StartOf(bytes, k + 1).value
  }

  /** The same descriptors, arriving with bytes of the same message (or of none that is complete). */
  ghost predicate SameOwner(bytes: seq<byte>, pos: nat, a: Batch, b: Batch) {
    a.fds == b.fds && forall k: nat :: LiesIn(bytes, pos, k, a.last) <==> LiesIn(bytes, pos, k, b.last)
  }

  /** Two lists of batches that agree batch by batch, wherever in its message each one arrives. */
  ghost predicate SameOwners(bytes: seq<byte>, pos: nat, a: seq<Batch>, b: seq<Batch>) {
    |a| == |b| && forall j :: 0 <= j < |a| ==> SameOwnerAt(bytes, pos, a, b, j)
  }

  ghost predicate SameOwnerAt(bytes: seq<byte>, pos: nat, a: seq<Batch>, b: seq<Batch>, j: nat)
    requires j < |a| && j < |b|
  {
    SameOwner(bytes, pos, a[j], b[j])
  }

  /** Batch by batch the same descriptors, in or outside the byte range alike. */
  predicate AlikeWithin(a: seq<Batch>, b: seq<Batch>, from: nat, end: nat) {
    |a| == |b| && forall j :: 0 <= j < |a| ==> AlikeAt(a, b, from, end, j)
  }

  predicate AlikeAt(a: seq<Batch>, b: seq<Batch>, from: nat, end: nat, j: nat)
    requires j < |a| && j < |b|
  {
    a[j].fds == b[j].fds && (from <= a[j].last <= end <==> from <= b[j].last <= end)
  }

  lemma {:induction false} AlikeFds(a: seq<Batch>, b: seq<Batch>, from: nat, end: nat)
    requires AlikeWithin(a, b, from, end)
    ensures FdsOf(Within(a, from, end)) == FdsOf(Within(b, from, end))
  {
    if a != [] {
      forall j | 0 <= j < |a| - 1 ensures AlikeAt(a[1..], b[1..], from, end, j) {
        assert AlikeAt(a, b, from, end, j + 1);
      }
      AlikeFds(a[1..], b[1..], from, end);
      assert AlikeAt(a, b, from, end, 0);
      FdsOfCons(a[0], Within(a[1..], from, end));
      FdsOfCons(b[0], Within(b[1..], from, end));
    }
  }

  lemma FdsOfCons(b: Batch, rest: seq<Batch>)
    ensures FdsOf([b] + rest) == Usable(b.fds) + FdsOf(rest)
  {
    assert ([b] + rest)[1..] == rest;
  }

  lemma OwnersAlike(bytes: seq<byte>, pos: nat, a: seq<Batch>, b: seq<Batch>, k: nat, at: nat, i: nat)
    requires SameOwners(bytes, pos, a, b) && StartOf(bytes, k) == Some(at) && NulAt(bytes[at..]) == Some(i)
    ensures AlikeWithin(a, b, pos + at, pos + at + i)
  {
    assert StartOf(bytes, k + 1) == Some(at + i + 1);
    var from, end := pos + at, pos + at + i;
    forall j | 0 <= j < |a| ensures AlikeAt(a, b, from, end, j) {
      assert SameOwnerAt(bytes, pos, a, b, j);
      assert LiesIn(bytes, pos, k, a[j].last) <==> LiesIn(bytes, pos, k, b[j].last);
    }
  }

  lemma SameDelivery(bytes: seq<byte>, pos: nat, a: seq<Batch>, b: seq<Batch>, k: nat, at: nat,
                     m: seq<byte>, f: seq<int>, m': seq<byte>, f': seq<int>)
    requires SameOwners(bytes, pos, a, b) && StartOf(bytes, k) == Some(at)
    requires IsMessage(bytes, pos, a, at, m, f) && IsMessage(bytes, pos, b, at, m', f')
    ensures m == m' && f == f'
  {
    OwnersAlike(bytes, pos, a, b, k, at, |m|);
    AlikeFds(a, b, pos + at, pos + at + |m|);
  }

  /** Two splits of the same stream deliver the same messages, wherever descriptors arrive. */
  lemma SameMessages(s: Link, t: Link, k: nat)
    requires Clean(s.wire) && WellPlaced(s) && Clean(t.wire) && WellPlaced(t) && SmallMessages(Unread(s))
    requires Unread(s) == Unread(t)
    ensures Nth(s, k).Some? <==> Nth(t, k).Some?
    ensures Nth(s, k).Some? ==> Nth(s, k).value.message == Nth(t, k).value.message
  {
    DeliversStream(s, k);
    DeliversStream(t, k);
  }

  /**
   * They also hand out the same descriptors with each message, as long as every batch arrives with
   * bytes of the message it belongs to: which of its bytes, and in how many reads, does not matter.
   */
  lemma SplitIndependent(s: Link, t: Link, k: nat)
    requires Clean(s.wire) && WellPlaced(s) && Clean(t.wire) && WellPlaced(t) && SmallMessages(Unread(s))
    requires Unread(s) == Unread(t) && s.pos == t.pos && SameOwners(Unread(s), s.pos, Unattached(s), Unattached(t))
    ensures Nth(s, k).Some? <==> Nth(t, k).Some?
    ensures Nth(s, k).Some? ==>
              Nth(s, k).value.message == Nth(t, k).value.message && Nth(s, k).value.files == Nth(t, k).value.files
  {
    DeliversStream(s, k);
    DeliversStream(t, k);
    if Nth(s, k).Some? {
      SameDelivery(Unread(s), s.pos, Unattached(s), Unattached(t), k, StartOf(Unread(s), k).value,
                   Nth(s, k).value.message, Nth(s, k).value.files, Nth(t, k).value.message, Nth(t, k).value.files);
    }
  }

  // ---------------------------------------------------------------- which message a batch comes with

  /** The usable descriptors of a read's control messages, in the order they were sent. */
  function SentFds(control: seq<Control>): seq<int> {
    if control == [] then []
    else (if control[0].Rights? then Usable(control[0].fds) else []) + SentFds(control[1..])
  }

  lemma {:induction false} CollectedFds(control: seq<Control>, last: nat)
    requires Unparsable !in control
    ensures FdsOf(Collected(control, last)) == SentFds(control)
  {
    if control != [] {
      assert control[0] in control && Unparsable !in control[1..];
      CollectedFds(control[1..], last);
      var rest := Collected(control[1..], last);
      if control[0].Rights? {
        assert ([Batch(last, control[0].fds)] + rest)[1..] == rest;
      }
    }
  }

  /** All batches of one read end at the same byte. */
  lemma {:induction false} CollectedTogether(control: seq<Control>, last: nat, end: nat)
    ensures last <= end ==> UpTo(Collected(control, last), end) == Collected(control, last)
    ensures last <= end ==> Later(Collected(control, last), end) == []
    ensures last > end ==> UpTo(Collected(control, last), end) == []
    ensures last > end ==> Later(Collected(control, last), end) == Collected(control, last)
  {
    if control != [] && !control[0].Unparsable? {
      CollectedTogether(control[1..], last, end);
      var rest := Collected(control[1..], last);
      if control[0].Rights? {
        assert ([Batch(last, control[0].fds)] + rest)[1..] == rest;
      }
    }
  }

  /** A connection with nothing buffered that next reads these bytes with these control messages. */
  function NextReads(pos: nat, data: seq<byte>, control: seq<Control>, rest: seq<Recv>, collected: multiset<int>): Link {
    Link([], pos, [], [Recv(data, control, false, false)] + rest, collected)
  }

  /** That read, with a message in it. */
  lemma ReadInto(pos: nat, data: seq<byte>, control: seq<Control>, rest: seq<Recv>, collected: multiset<int>)
      returns (t: Link)
    requires Unparsable !in control && data != [] && NulAt(data).Some?
    ensures t.rbuf == data && t.pos == pos && t.rights == Collected(control, pos + |data| - 1)
    ensures Received(NextReads(pos, data, control, rest, collected)) == Deliver(t)
  {
    var s := NextReads(pos, data, control, rest, collected);
    assert s.wire[1..] == rest && [] + data == data;
    assert [] + Collected(control, pos + |data| - 1) == Collected(control, pos + |data| - 1);
    assert AfterRead(s).Ok?;
    t := AfterRead(s).value;
    assert Await(s) == Await(t) == Ok(t);
  }

  lemma BufferedDelivers(t: Link)
    requires NulAt(t.rbuf).Some?
    ensures Received(t) == Deliver(t)
  {
  }

  /** What is delivered from a buffer whose batches all end at byte `last`. */
  lemma DeliversTogether(t: Link, control: seq<Control>, last: nat, n: nat)
    requires Unparsable !in control && NulAt(t.rbuf) == Some(n) && t.rights == Collected(control, last)
    ensures var got := Deliver(t);
            && got.message == t.rbuf[..n] && got.link.rbuf == t.rbuf[n + 1..] && got.link.pos == t.pos + n + 1
            && got.files == (if last <= t.pos + n then SentFds(control) else [])
            && got.link.rights == if last <= t.pos + n then [] else Collected(control, last)
  {
    CollectedTogether(control, last, t.pos + n);
    CollectedFds(control, last);
  }

  /** A message that arrives whole in one read comes with all descriptors of that read, and leaves none behind. */
  lemma FilesComeWithMessage(pos: nat, data: seq<byte>, control: seq<Control>, rest: seq<Recv>, collected: multiset<int>)
    requires Unparsable !in control && data != [] && NulAt(data) == Some(|data| - 1)
    ensures var got := Received(NextReads(pos, data, control, rest, collected));
            && got.Delivered? && got.message == data[..|data| - 1]
            && got.files == SentFds(control) && got.link.rights == []
  {
    var t := ReadInto(pos, data, control, rest, collected);
    DeliversTogether(t, control, pos + |data| - 1, |data| - 1);
  }

  /** What comes after the first message of a buffer is a message, and gets what the first did not. */
  lemma DeliversSecond(u: Link, control: seq<Control>)
    requires Unparsable !in control && u.rbuf != [] && NulAt(u.rbuf) == Some(|u.rbuf| - 1)
    requires u.rights == Collected(control, u.pos + |u.rbuf| - 1)
    ensures var next := Received(u);
            next.Delivered? && next.message == u.rbuf[..|u.rbuf| - 1] && next.files == SentFds(control)
  {
    BufferedDelivers(u);
    DeliversTogether(u, control, u.pos + |u.rbuf| - 1, |u.rbuf| - 1);
  }

  /** A message without descriptors, and after it one with these. */
  predicate FirstWithout(got: Receipt, first: seq<byte>, second: seq<byte>, files: seq<int>) {
    && got.Delivered? && got.message == first && got.files == []
    && var next := Received(got.link);
       next.Delivered? && next.message == second && next.files == files
  }

  lemma BothDelivered(t: Link, n: nat, control: seq<Control>)
    requires Unparsable !in control && NulAt(t.rbuf) == Some(n) && n + 1 < |t.rbuf|
    requires NulAt(t.rbuf[n + 1..]) == Some(|t.rbuf| - n - 2) && t.rights == Collected(control, t.pos + |t.rbuf| - 1)
    ensures FirstWithout(Deliver(t), t.rbuf[..n], t.rbuf[n + 1..][..|t.rbuf| - n - 2], SentFds(control))
  {
    DeliversTogether(t, control, t.pos + |t.rbuf| - 1, n);
    DeliversSecond(Deliver(t).link, control);
  }

  /** Of two messages that arrive in one read the last comes with its descriptors, the first with none. */
  lemma FilesComeWithLast(pos: nat, data: seq<byte>, n: nat, control: seq<Control>, rest: seq<Recv>,
      collected: multiset<int>)
    requires Unparsable !in control && NulAt(data) == Some(n) && n + 1 < |data|
    requires NulAt(data[n + 1..]) == Some(|data| - n - 2)
    ensures FirstWithout(Received(NextReads(pos, data, control, rest, collected)), data[..n],
                         data[n + 1..][..|data| - n - 2], SentFds(control))
  {
    var t := ReadInto(pos, data, control, rest, collected);
    BothDelivered(t, n, control);
  }

  // ---------------------------------------------------------------- messages over the limit

  /** After `k` reads more than the limit is buffered, and the end of the message is not. */
  predicate Stalls(s: Link, i: nat, k: nat) {
    k <= |s.wire| && MAX_MESSAGE_SIZE < |s.rbuf| + |Flat(s.wire[..k])| <= i
  }

  /** A longer message is refused exactly when some read ends past the limit but before its end. */
  lemma {:induction false} LongMessageIffJumped(s: Link, i: nat)
    requires Clean(s.wire) && NulAt(Unread(s)) == Some(i)
    ensures Await(s).Ok? <==> !exists k: nat :: Stalls(s, i, k)
    decreases |s.wire|
  {
    NulInPrefix(s.rbuf, Flat(s.wire));
    if NulAt(s.rbuf).Some? {
      assert !exists k: nat :: Stalls(s, i, k);
    } else if |s.rbuf| > MAX_MESSAGE_SIZE {
      assert s.wire[..0] == [];
      assert Stalls(s, i, 0);
    } else {
      assert s.wire == [] ==> Unread(s) == s.rbuf;
      ReadKeepsStream(s);
      var t := AfterRead(s).value;
      LongMessageIffJumped(t, i);
      forall k: nat ensures Stalls(s, i, k + 1) <==> Stalls(t, i, k) {
        if k + 1 <= |s.wire| {
          assert s.wire[..k + 1] == [s.wire[0]] + t.wire[..k];
        }
      }
      assert s.wire[..0] == [];
      assert !Stalls(s, i, 0);
      if k: nat :| Stalls(s, i, k) {
        assert k > 0 && Stalls(t, i, k - 1);
      }
    }
  }

  function Ones(n: nat): seq<byte> {
    seq(n, i => 1 as byte)
  }

  /** `n` full reads without a NUL. */
  function FullReads(n: nat): seq<Recv> {
    seq(n, i => Recv(Ones(READ_CHUNK), [], false, false))
  }

  lemma {:induction false} FullReadsFlat(n: nat, rest: seq<Recv>)
    ensures Flat(FullReads(n) + rest) == Ones(n * READ_CHUNK) + Flat(rest)
  {
    if n == 0 {
      assert FullReads(0) + rest == rest;
    } else {
      FullReadsFlat(n - 1, rest);
      assert (FullReads(n) + rest)[1..] == FullReads(n - 1) + rest;
      assert Ones(READ_CHUNK) + Ones((n - 1) * READ_CHUNK) == Ones(n * READ_CHUNK);
    }
  }

  /** A new connection that first receives the limit in full reads, then what is left in `rest`. */
  function AfterFullReads(rest: seq<Recv>): (s: Link)
    ensures s.rbuf == [] && s.pos == 0 && s.rights == [] && s.collected == multiset{}
  {
    Link([], 0, [], FullReads(MAX_MESSAGE_SIZE / READ_CHUNK) + rest, multiset{})
  }

  lemma AllFullReads(rest: seq<Recv>)
    ensures Unread(AfterFullReads(rest)) == Ones(MAX_MESSAGE_SIZE) + Flat(rest)
  {
    FullReadsFlat(MAX_MESSAGE_SIZE / READ_CHUNK, rest);
  }

  /** After no more than the full reads, nothing is over the limit. */
  lemma FullReadsFit(rest: seq<Recv>, i: nat, k: nat)
    requires k <= MAX_MESSAGE_SIZE / READ_CHUNK
    ensures !Stalls(AfterFullReads(rest), i, k)
  {
    assert AfterFullReads(rest).wire[..k] == FullReads(k) + [];
    FullReadsFlat(k, []);
  }

  lemma OneOver(rest: seq<Recv>)
    requires Flat(rest) == [1, 0]
    ensures NulAt(Unread(AfterFullReads(rest))) == Some(MAX_MESSAGE_SIZE + 1)
  {
    AllFullReads(rest);
    NulAtIsFirst(Unread(AfterFullReads(rest)));
    assert Unread(AfterFullReads(rest))[MAX_MESSAGE_SIZE + 1] == 0;
  }

  lemma TakenAtOnce(rest: seq<Recv>)
    requires rest == [Recv([1, 0], [], false, false)]
    ensures Flat(rest) == [1, 0] && Await(AfterFullReads(rest)).Ok?
  {
    var s, i := AfterFullReads(rest), MAX_MESSAGE_SIZE + 1;
    assert Flat(rest[1..]) == [];
    OneOver(rest);
    AllFullReads(rest);
    forall k: nat ensures !Stalls(s, i, k) {
      if k <= MAX_MESSAGE_SIZE / READ_CHUNK {
        FullReadsFit(rest, i, k);
      } else {
        assert s.wire[..|s.wire|] == s.wire;
      }
    }
    LongMessageIffJumped(s, i);
  }

  lemma RefusedInTwo(rest: seq<Recv>)
    requires rest == [Recv([1], [], false, false), Recv([0], [], false, false)]
    ensures Flat(rest) == [1, 0] && Await(AfterFullReads(rest)).Err?
  {
    var t, i, n := AfterFullReads(rest), MAX_MESSAGE_SIZE + 1, MAX_MESSAGE_SIZE / READ_CHUNK;
    assert Flat(rest[2..]) == [] && Flat(rest[1..]) == [0];
    OneOver(rest);
    assert Flat([rest[0]]) == [1];
    FullReadsFlat(n, [rest[0]]);
    assert t.wire[..n + 1] == FullReads(n) + [rest[0]];
    assert Stalls(t, i, n + 1);
    LongMessageIffJumped(t, i);
  }

  /**
   * So the split decides, on a new connection: one byte over the limit is delivered from one split of the
   * stream and refused from another.
   */
  lemma OversizeDependsOnSplit() returns (a: seq<Recv>, b: seq<Recv>)
    ensures var s, t := AfterFullReads(a), AfterFullReads(b);
            && Clean(s.wire) && Clean(t.wire) && Unread(s) == Unread(t) && NulAt(Unread(s)) == Some(MAX_MESSAGE_SIZE + 1)
            && Await(s).Ok? && Await(t).Err?
    ensures forall r :: r in AfterFullReads(a).wire || r in AfterFullReads(b).wire ==> |r.data| <= READ_CHUNK
  {
    a, b := [Recv([1, 0], [], false, false)], [Recv([1], [], false, false), Recv([0], [], false, false)];
    TakenAtOnce(a);
    RefusedInTwo(b);
    OneOver(a);
    AllFullReads(a);
    AllFullReads(b);
  }
}
