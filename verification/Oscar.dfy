/**
 Oscar: packets framed as a start byte, a packed length and the payload, written into
 a fixed buffer, drained by partial sends and taken off again from arbitrary reads.
 */
module Oscar {
  import opened Prelude
  import opened PackedNumber
  import opened IoBuffer

  const SB_SINGLEPACKET: byte := 0x01

  // ---------------------------------------------------------------- frames

  function Frame(payload: Bytes): Bytes
  {
    [SB_SINGLEPACKET] + Pack(|payload| % TWO_64) + payload
  }

  function Frames(payloads: seq<Bytes>): Bytes
  {
    if payloads == [] then [] else Frame(payloads[0]) + Frames(payloads[1..])
  }

  /** Not a whole frame yet, one whose length is refused, or one that can be taken. */
  datatype FrameRead = NeedMore | TooBig | Taken(start: byte, payload: Bytes, rest: Bytes)

  function ReadFrame(maxSize: nat, s: Bytes): FrameRead
  {
    if s == [] then NeedMore
    else
      match Unpack(s[1..])
      case None => NeedMore
      case Some((len, rest)) =>
        if len > maxSize then TooBig
        else if |rest| < len then NeedMore
        else Taken(s[0], rest[..len], rest[len..])
  }

  /** Packets passed on, bytes left in the buffer, and whether the socket was closed. */
  datatype Extraction = Extraction(packets: seq<Bytes>, rest: Bytes, closed: bool)

  /** At least two bytes go with every frame. */
  lemma TakenShortens(maxSize: nat, s: Bytes)
    requires ReadFrame(maxSize, s).Taken?
    ensures |ReadFrame(maxSize, s).rest| + |ReadFrame(maxSize, s).payload| + 2 <= |s|
  {
    UnpackConsumes(0, s[1..]);
  }

  /** What on_StreamRead does with the whole input buffer. */
  function Extract(maxSize: nat, s: Bytes): Extraction
    decreases |s|
  {
    match ReadFrame(maxSize, s)
    case NeedMore => Extraction([], s, false)
    case TooBig => Extraction([], s, false)
    case Taken(start, payload, rest) =>
      TakenShortens(maxSize, s);
      if start != SB_SINGLEPACKET then Extraction([], rest, true)
      else
        var more := Extract(maxSize, rest);
        Extraction([payload] + more.packets, more.rest, more.closed)
  }

  lemma FrameIsTaken(maxSize: nat, payload: Bytes, tail: Bytes)
    requires |payload| < TWO_64
    ensures ReadFrame(maxSize, Frame(payload) + tail) ==
            if |payload| <= maxSize then Taken(SB_SINGLEPACKET, payload, tail) else TooBig
  {
    var n := |payload| % TWO_64;
    assert n == |payload|;
    var s := Frame(payload) + tail;
    assert s[1..] == Pack(n) + (payload + tail);
    UnpackPack(n, payload + tail);
    assert (payload + tail)[..n] == payload && (payload + tail)[n..] == tail;
  }

  lemma TakenExtends(maxSize: nat, s: Bytes, more: Bytes)
    requires ReadFrame(maxSize, s).Taken?
    ensures var t := ReadFrame(maxSize, s);
            ReadFrame(maxSize, s + more) == Taken(t.start, t.payload, t.rest + more)
  {
    assert (s + more)[1..] == s[1..] + more;
    UnpackExtends(0, s[1..], more);
    var (len, rest) := Unpack(s[1..]).value;
    assert (rest + more)[..len] == rest[..len] && (rest + more)[len..] == rest[len..] + more;
  }

  /** One extraction followed by another once `b` has arrived. */
  function Resume(maxSize: nat, x: Extraction, b: Bytes): Extraction
  {
    if x.closed then Extraction(x.packets, x.rest + b, true)
    else
      var y := Extract(maxSize, x.rest + b);
      Extraction(x.packets + y.packets, y.rest, y.closed)
  }

  /** Any byte stream gives the same packets however it is cut into reads. */
  lemma {:induction false} ExtractSplit(maxSize: nat, a: Bytes, b: Bytes)
    ensures Extract(maxSize, a + b) == Resume(maxSize, Extract(maxSize, a), b)
    decreases |a|
  {
    var t := ReadFrame(maxSize, a);
    if t.Taken? {
      TakenShortens(maxSize, a);
      TakenExtends(maxSize, a, b);
      if t.start == SB_SINGLEPACKET {
        ExtractSplit(maxSize, t.rest, b);
        ResumeAfterOne(maxSize, t.payload, Extract(maxSize, t.rest), b);
      }
    } else {
      var y := Extract(maxSize, a + b);
      assert [] + y.packets == y.packets;
    }
  }

  lemma ResumeAfterOne(maxSize: nat, payload: Bytes, x: Extraction, b: Bytes)
    ensures var r := Resume(maxSize, x, b);
            Resume(maxSize, Extraction([payload] + x.packets, x.rest, x.closed), b) ==
            Extraction([payload] + r.packets, r.rest, r.closed)
  {
    if !x.closed {
      var y := Extract(maxSize, x.rest + b);
      assert [payload] + (x.packets + y.packets) == [payload] + x.packets + y.packets;
    }
  }

  /** What is left after an extraction holds no further frame. */
  lemma {:induction false} ExtractSettles(maxSize: nat, s: Bytes)
    requires !Extract(maxSize, s).closed
    ensures Extract(maxSize, Extract(maxSize, s).rest) == Extraction([], Extract(maxSize, s).rest, false)
    decreases |s|
  {
    if ReadFrame(maxSize, s).Taken? {
      TakenShortens(maxSize, s);
      ExtractSettles(maxSize, ReadFrame(maxSize, s).rest);
    }
  }

  predicate AllWithin(maxSize: nat, payloads: seq<Bytes>)
  {
    forall i :: 0 <= i < |payloads| ==> |payloads[i]| <= maxSize
  }

  /** How many payloads come before the first that exceeds the limit. */
  function Clear(maxSize: nat, payloads: seq<Bytes>): (k: nat)
    ensures k <= |payloads| && AllWithin(maxSize, payloads[..k])
    ensures k < |payloads| ==> |payloads[k]| > maxSize
  {
    if payloads == [] || |payloads[0]| > maxSize then 0 else 1 + Clear(maxSize, payloads[1..])
  }

  /** From a stream of frames come the payloads before the first over the limit; that one stays, and all behind it. */
  lemma {:induction false} ExtractFrames(maxSize: nat, payloads: seq<Bytes>)
    requires AllWithin(TWO_64 - 1, payloads)
    ensures var k := Clear(maxSize, payloads);
            Extract(maxSize, Frames(payloads)) == Extraction(payloads[..k], Frames(payloads[k..]), false)
    ensures AllWithin(maxSize, payloads) <==> Extract(maxSize, Frames(payloads)) == Extraction(payloads, [], false)
  {
    hide Frame, Unpack;
    var k := Clear(maxSize, payloads);
    if payloads == [] {
      assert Extract(maxSize, []) == Extraction([], [], false);
    } else {
      hide ReadFrame;
      FrameIsTaken(maxSize, payloads[0], Frames(payloads[1..]));
      if |payloads[0]| <= maxSize {
        ExtractFrames(maxSize, payloads[1..]);
        assert payloads[..k] == [payloads[0]] + payloads[1..][..k - 1];
        assert payloads[k..] == payloads[1..][k - 1..];
      } else {
        assert payloads[..k] == [] && payloads[k..] == payloads;
      }
    }
    assert k == |payloads| ==> payloads[..k] == payloads && payloads[k..] == [];
  }

  lemma {:induction false} FramesAppend(payloads: seq<Bytes>, p: Bytes)
    ensures Frames(payloads + [p]) == Frames(payloads) + Frame(p)
  {
    if payloads == [] {
      assert payloads + [p] == [p];
      assert Frames([p]) == Frame(p) + Frames([]);
    } else {
      FramesAppend(payloads[1..], p);
      assert (payloads + [p])[1..] == payloads[1..] + [p];
      Assoc(Frame(payloads[0]), Frames(payloads[1..]), Frame(p));
    }
  }

  /** A further payload is clear if it is within the limit and so are all before it. */
  lemma {:induction false} ClearAppend(maxSize: nat, payloads: seq<Bytes>, p: Bytes)
    ensures Clear(maxSize, payloads + [p]) ==
            if Clear(maxSize, payloads) == |payloads| && |p| <= maxSize then |payloads| + 1 else Clear(maxSize, payloads)
  {
    if payloads == [] {
      assert payloads + [p] == [p];
      assert Clear(maxSize, [p][1..]) == 0;
    } else {
      ClearAppend(maxSize, payloads[1..], p);
      assert (payloads + [p])[1..] == payloads[1..] + [p];
    }
  }

  // ---------------------------------------------------------------- one direction of a connection

  /** Payloads accepted, the sender's buffer, bytes in flight, the receiver's buffer, packets passed on. */
  datatype Link = Link(submitted: seq<Bytes>, outBuffer: Bytes, wire: Bytes, inBuffer: Bytes, emitted: seq<Bytes>)

  datatype LinkStep =
    | Submit(payload: Bytes)    // sendPacketPlain
    | SendSome(count: nat)      // ::send accepted a prefix
    | ReadSome(count: nat)      // ::recv returned a chunk, then on_StreamRead ran

  const IDLE: Link := Link([], [], [], [], [])

  predicate LinkEnabled(maxSize: nat, k: Link, step: LinkStep)
  {
    match step
    case Submit(p) => |p| < TWO_64
    case SendSome(n) => n <= |k.outBuffer|
    case ReadSome(n) => n <= |k.wire|
  }

  function LinkNext(maxSize: nat, k: Link, step: LinkStep): Link
    requires LinkEnabled(maxSize, k, step)
  {
    match step
    case Submit(p) => k.(submitted := k.submitted + [p], outBuffer := k.outBuffer + Frame(p))
    case SendSome(n) => k.(outBuffer := k.outBuffer[n..], wire := k.wire + k.outBuffer[..n])
    case ReadSome(n) =>
      var x := Extract(maxSize, k.inBuffer + k.wire[..n]);
      k.(wire := k.wire[n..], inBuffer := x.rest, emitted := k.emitted + x.packets)
  }

  /** A run is a list of steps, each enabled where it is taken. */
  predicate LinkRun(maxSize: nat, k: Link, steps: seq<LinkStep>)
    decreases steps
  {
    steps == [] || (LinkEnabled(maxSize, k, steps[0]) && LinkRun(maxSize, LinkNext(maxSize, k, steps[0]), steps[1..]))
  }

  function LinkAfter(maxSize: nat, k: Link, steps: seq<LinkStep>): Link
    requires LinkRun(maxSize, k, steps)
    decreases steps
  {
    if steps == [] then k else LinkAfter(maxSize, LinkNext(maxSize, k, steps[0]), steps[1..])
  }

  /** The bytes still under way extract to the payloads not passed on yet, up to the first that is too long. */
  ghost predicate LinkInv(maxSize: nat, k: Link)
  {
    && AllWithin(TWO_64 - 1, k.submitted)
    && var clear := Clear(maxSize, k.submitted);
       && |k.emitted| <= clear
       && k.emitted == k.submitted[..|k.emitted|]
       && Extract(maxSize, k.inBuffer + k.wire + k.outBuffer) ==
          Extraction(k.submitted[|k.emitted|..clear], Frames(k.submitted[clear..]), false)
       && Extract(maxSize, k.inBuffer) == Extraction([], k.inBuffer, false)
  }

  /** What is stuck stays stuck; what is not lets the next frame through if it is within the limit. */
  lemma OneFrame(maxSize: nat, stuck: seq<Bytes>, p: Bytes)
    requires AllWithin(TWO_64 - 1, stuck) && |p| < TWO_64 && (stuck != [] ==> |stuck[0]| > maxSize)
    ensures Extract(maxSize, Frames(stuck) + Frame(p)) ==
            if stuck == [] && |p| <= maxSize then Extraction([p], [], false)
            else Extraction([], Frames(stuck + [p]), false)
  {
    hide Frame, Extract;
    FramesAppend(stuck, p);
    var ps := stuck + [p];
    ExtractFrames(maxSize, ps);
    if stuck == [] && |p| <= maxSize {
      assert Clear(maxSize, ps) == 1;
      assert ps[..1] == [p] && ps[1..] == [];
    } else {
      assert ps[..0] == [] && ps[0..] == ps;
    }
  }

  lemma SubmitKeeps(maxSize: nat, k: Link, p: Bytes)
    requires LinkInv(maxSize, k) && LinkEnabled(maxSize, k, Submit(p))
    ensures LinkInv(maxSize, LinkNext(maxSize, k, Submit(p)))
  {
    hide Extract, Frame, Clear;
    var all := k.inBuffer + k.wire + k.outBuffer;
    var clear, e := Clear(maxSize, k.submitted), |k.emitted|;
    ExtractSplit(maxSize, all, Frame(p));
    OneFrame(maxSize, k.submitted[clear..], p);
    ClearAppend(maxSize, k.submitted, p);
    assert k.inBuffer + k.wire + (k.outBuffer + Frame(p)) == all + Frame(p);
    if clear == |k.submitted| && |p| <= maxSize {
      assert (k.submitted + [p])[e..clear + 1] == k.submitted[e..clear] + [p];
      assert (k.submitted + [p])[clear + 1..] == [];
    } else {
      assert (k.submitted + [p])[e..clear] == k.submitted[e..clear] + [];
      assert (k.submitted + [p])[clear..] == k.submitted[clear..] + [p];
    }
  }

  lemma ReadKeeps(maxSize: nat, k: Link, n: nat)
    requires LinkInv(maxSize, k) && LinkEnabled(maxSize, k, ReadSome(n))
    ensures LinkInv(maxSize, LinkNext(maxSize, k, ReadSome(n)))
  {
    var got, later := k.inBuffer + k.wire[..n], k.wire[n..] + k.outBuffer;
    assert got + later == k.inBuffer + k.wire + k.outBuffer;
    ExtractSplit(maxSize, got, later);
    ExtractSettles(maxSize, got);
    var x := Extract(maxSize, got);
    assert x.rest + k.wire[n..] + k.outBuffer == x.rest + later;
    var clear := k.submitted[..Clear(maxSize, k.submitted)];
    SplitPrefix(clear, k.emitted, x.packets, Extract(maxSize, x.rest + later).packets);
  }

  lemma SplitPrefix(all: seq<Bytes>, a: seq<Bytes>, b: seq<Bytes>, c: seq<Bytes>)
    requires |a| <= |all| && a == all[..|a|] && all[|a|..] == b + c
    ensures |a + b| <= |all| && a + b == all[..|a + b|] && all[|a + b|..] == c
  {
    assert all == a + (b + c);
  }

  lemma LinkStepKeeps(maxSize: nat, k: Link, step: LinkStep)
    requires LinkInv(maxSize, k) && LinkEnabled(maxSize, k, step)
    ensures LinkInv(maxSize, LinkNext(maxSize, k, step))
  {
    match step
    case Submit(p) =>
      SubmitKeeps(maxSize, k, p);
    case ReadSome(n) =>
      ReadKeeps(maxSize, k, n);
    case SendSome(n) =>
      assert k.inBuffer + (k.wire + k.outBuffer[..n]) + k.outBuffer[n..] == k.inBuffer + k.wire + k.outBuffer;
  }

  lemma {:induction false} LinkRunKeeps(maxSize: nat, k: Link, steps: seq<LinkStep>)
    requires LinkInv(maxSize, k) && LinkRun(maxSize, k, steps)
    ensures LinkInv(maxSize, LinkAfter(maxSize, k, steps))
    decreases steps
  {
    if steps != [] {
      LinkStepKeeps(maxSize, k, steps[0]);
      LinkRunKeeps(maxSize, LinkNext(maxSize, k, steps[0]), steps[1..]);
    }
  }

  /** The payloads given to sendPacketPlain. */
  function Submissions(steps: seq<LinkStep>): seq<Bytes>
  {
    if steps == [] then []
    else (if steps[0].Submit? then [steps[0].payload] else []) + Submissions(steps[1..])
  }

  lemma {:induction false} SubmittedIs(maxSize: nat, k: Link, steps: seq<LinkStep>)
    requires LinkRun(maxSize, k, steps)
    ensures LinkAfter(maxSize, k, steps).submitted == k.submitted + Submissions(steps)
    decreases steps
  {
    hide Extract, Frame;
    if steps != [] {
      SubmittedIs(maxSize, LinkNext(maxSize, k, steps[0]), steps[1..]);
    }
  }

  /**
   Packets come out in order, none altered or invented; once everything has been read, all of them
   up to the first over the limit, which stays in the buffer with everything behind it.
   */
  lemma EveryRunDelivers(maxSize: nat, steps: seq<LinkStep>)
    requires LinkRun(maxSize, IDLE, steps)
    ensures var k, all := LinkAfter(maxSize, IDLE, steps), Submissions(steps);
            var clear := Clear(maxSize, all);
            && k.emitted <= all[..clear]
            && (k.wire == [] && k.outBuffer == [] ==> k.emitted == all[..clear] && k.inBuffer == Frames(all[clear..]))
  {
    hide LinkInv, LinkAfter, LinkRun, Clear, Frames, Submissions;
    IdleIsOk(maxSize);
    SubmittedIs(maxSize, IDLE, steps);
    assert [] + Submissions(steps) == Submissions(steps);
    LinkRunKeeps(maxSize, IDLE, steps);
    Delivered(maxSize, LinkAfter(maxSize, IDLE, steps));
  }

  lemma IdleIsOk(maxSize: nat)
    ensures LinkInv(maxSize, IDLE)
  {
  }

  lemma Delivered(maxSize: nat, k: Link)
    requires LinkInv(maxSize, k)
    ensures var clear := Clear(maxSize, k.submitted);
            && k.emitted <= k.submitted[..clear]
            && (k.wire == [] && k.outBuffer == [] ==>
                  k.emitted == k.submitted[..clear] && k.inBuffer == Frames(k.submitted[clear..]))
  {
    hide Extract, Clear, Frames;
    var clear, e := Clear(maxSize, k.submitted), |k.emitted|;
    assert k.submitted[..clear] == k.emitted + k.submitted[e..clear];
    if k.wire == [] && k.outBuffer == [] {
      assert k.inBuffer + k.wire + k.outBuffer == k.inBuffer;
    }
  }

  // ---------------------------------------------------------------- oBuf

  /** The fixed-capacity writer; an operation answers false where oBuf throws bad_alloc. */
  class OBuf {
    const buffer: array<byte>
    var curPos: nat

    ghost predicate Valid()
      reads this
    {
      curPos <= buffer.Length
    }

    function Written(): Bytes
      requires Valid()
      reads this, buffer
    {
      buffer[..curPos]
    }

    constructor (b: array<byte>)
      ensures Valid() && buffer == b && Written() == []
    {
      buffer := b;
      curPos := 0;
    }

    method Put8(c: byte) returns (ok: bool)
      requires Valid()
      modifies this, buffer
      ensures Valid()
      ensures ok <==> |old(Written())| + 1 <= buffer.Length
      ensures Written() == if ok then old(Written()) + [c] else old(Written())
    {
      if curPos + 1 > buffer.Length {
        return false;
      }
      buffer[curPos] := c;
      curPos := curPos + 1;
      return true;
    }

    method PutPN(n: nat) returns (ok: bool)
      requires Valid() && n < TWO_64
      modifies this, buffer
      ensures Valid()
      ensures ok <==> |old(Written())| + |Pack(n)| <= buffer.Length
      ensures Written() == old(Written()) + if ok then Pack(n) else Pack(n)[..buffer.Length - |old(Written())|]
    {
      ShrPastTop(n);
      var i := 63;
      while i >= 0
        invariant i >= 0 && i % 7 == 0 && Shr(n, i + 7) == 0
        invariant Valid() && Written() == old(Written())
      {
        if Shr(n, i) % 128 != 0 || i == 0 {
          ok := PutGroups(n, i);
          return;
        }
        ShrBy7(n, i);
        i := i - 7;
      }
    }

    /** The inner loop, from the first group that is not empty. */
    method PutGroups(n: nat, first: int) returns (ok: bool)
      requires Valid() && n < TWO_64 && first >= 0 && first % 7 == 0
      requires Shr(n, first + 7) == 0 && (first > 0 ==> Shr(n, first) != 0)
      modifies this, buffer
      ensures Valid()
      ensures ok <==> |old(Written())| + |Pack(n)| <= buffer.Length
      ensures Written() == old(Written()) + if ok then Pack(n) else Pack(n)[..buffer.Length - |old(Written())|]
    {
      hide Shr, HighGroups, Pack;
      NoGroups(n, first);
      var i := first;
      while i >= 0
        invariant i >= -7 && i % 7 == 0
        invariant i > 0 ==> Shr(n, i) != 0
        invariant Valid()
        invariant Written() == old(Written()) + if i >= 0 then HighGroups(Shr(n, i + 7)) else Pack(n)
      {
        HighGroupsFit(n, i);
        GroupStep(n, i);
        var c := if i != 0 then 128 + Shr(n, i) % 128 else n % 128;
        ok := Put8(c);
        if !ok {
          return;
        }
        i := i - 7;
      }
      ok := true;
    }

    method PackBytes(s: Bytes) returns (ok: bool)
      requires Valid()
      modifies this, buffer
      ensures Valid()
      ensures ok <==> |old(Written())| + |s| <= buffer.Length
      ensures Written() == if ok then old(Written()) + s else old(Written())
    {
      if curPos + |s| > buffer.Length {
        return false;
      }
      forall i | 0 <= i < |s| {
        buffer[curPos + i] := s[i];
      }
      curPos := curPos + |s|;
      return true;
    }
  }

  /** The groups above bit `i` are the first bytes of the whole number, and not all. */
  lemma {:induction false} HighGroupsFit(n: nat, i: nat)
    requires i % 7 == 0
    ensures HighGroups(Shr(n, i + 7)) < Pack(n)
    decreases i
  {
    ShrBy7(n, i);
    if i > 0 {
      HighGroupsFit(n, i - 7);
      assert i - 7 + 7 == i;
    }
  }

  // ---------------------------------------------------------------- the sockets

  datatype StreamType = Accepted | Connected

  /** What Oscar passes to the service above it. */
  datatype OscarEvent = PacketOnConnector(payload: Bytes) | PacketOnAcceptor(payload: Bytes)

  function Event(t: StreamType, payload: Bytes): OscarEvent
  {
    if t == Connected then PacketOnConnector(payload) else PacketOnAcceptor(payload)
  }

  function Events(t: StreamType, payloads: seq<Bytes>): seq<OscarEvent>
  {
    if payloads == [] then [] else [Event(t, payloads[0])] + Events(t, payloads[1..])
  }

  /** epoll_socket_info with its two buffers; `passed` logs what went to the service above. */
  class Socket {
    const streamType: StreamType
    var outBuffer: Bytes
    var inBuffer: Bytes
    var closed: bool
    var destroyOnSend: bool
    var passed: seq<OscarEvent>

    constructor (t: StreamType)
      ensures streamType == t && !closed && !destroyOnSend
      ensures outBuffer == [] && inBuffer == [] && passed == []
    {
      streamType := t;
      outBuffer, inBuffer, passed := [], [], [];
      closed, destroyOnSend := false, false;
    }

    /** write_buf over socketBuffersOut::append: nothing once the socket is closed. */
    method Write(s: Bytes)
      modifies this`outBuffer
      ensures outBuffer == if closed then old(outBuffer) else old(outBuffer) + s
    {
      if !closed {
        outBuffer := outBuffer + s;
      }
    }

    method WriteAndClose(s: Bytes)
      modifies this`outBuffer, this`destroyOnSend
      ensures outBuffer == if closed then old(outBuffer) else old(outBuffer) + s
      ensures destroyOnSend == (old(destroyOnSend) || !closed)
    {
      if !closed {
        outBuffer := outBuffer + s;
        destroyOnSend := true;
      }
    }

    /** socketBuffersOut::send; `res` is what ::send answered, at most the size it was given. */
    method Send(res: int) returns (sent: Bytes)
      requires res <= |outBuffer|
      modifies this`outBuffer
      ensures sent + outBuffer == old(outBuffer)
      ensures |sent| == if res > 0 then res else 0
    {
      sent := [];
      if |outBuffer| > 0 && res > 0 {
        sent := outBuffer[..res];
        if res == |outBuffer| {
          outBuffer := [];
        } else {
          outBuffer := outBuffer[res..];
        }
      }
    }

    /** sendPacketPlain: size + 0x100 is always room enough for the frame. */
    method SendPacketPlain(payload: Bytes)
      requires |payload| < TWO_64
      modifies this`outBuffer
      ensures outBuffer == if closed then old(outBuffer) else old(outBuffer) + Frame(payload)
    {
      var frame := FrameInBuffer(payload);
      Write(frame);
    }

    static method FrameInBuffer(payload: Bytes) returns (frame: Bytes)
      requires |payload| < TWO_64
      ensures frame == Frame(payload)
    {
      hide Pack;
      var n := |payload| % TWO_64;
      assert n == |payload|;
      PackShape(n);
      var b := new byte[|payload| + 0x100];
      var o := new OBuf(b);
      var ok := o.Put8(SB_SINGLEPACKET);
      assert o.Written() == [SB_SINGLEPACKET];
      ok := o.PutPN(n);
      assert o.Written() == [SB_SINGLEPACKET] + Pack(n);
      ok := o.PackBytes(payload);
      assert o.Written() == [SB_SINGLEPACKET] + Pack(n) + payload;
      frame := o.Written();
    }

    /** _inBuffer::append, then the loop. */
    method OnStreamRead(maxSize: nat, chunk: Bytes)
      modifies this`inBuffer, this`closed, this`passed
      ensures var x := Extract(maxSize, old(inBuffer) + chunk);
              && inBuffer == x.rest
              && closed == (old(closed) || x.closed)
              && passed == old(passed) + Events(streamType, x.packets)
      ensures var x, n := Extract(maxSize, old(inBuffer) + chunk), |old(passed)|;
              && |passed| == n + |x.packets|
              && (forall i: nat :: i < |x.packets| ==>
                    passed[n + i] == if streamType.Connected? then PacketOnConnector(x.packets[i]) else PacketOnAcceptor(x.packets[i]))
    {
      hide Extract, Events;
      inBuffer := inBuffer + chunk;
      EventsMean(streamType, Extract(maxSize, inBuffer).packets);
      TakePackets(maxSize);
    }

    /** The loop of on_StreamRead. */
    method TakePackets(maxSize: nat)
      modifies this`inBuffer, this`closed, this`passed
      ensures var x := Extract(maxSize, old(inBuffer));
              && inBuffer == x.rest
              && closed == (old(closed) || x.closed)
              && passed == old(passed) + Events(streamType, x.packets)
    {
      hide Extract, ReadFrame, Events;
      ghost var whole := Extract(maxSize, inBuffer);
      ghost var done: seq<Bytes> := [];
      assert After([], whole) == whole;
      assert Events(streamType, done) == [] by { EventsMean(streamType, done); }
      while true
        invariant closed == old(closed)
        invariant passed == old(passed) + Events(streamType, done)
        invariant After(done, Extract(maxSize, inBuffer)) == whole
        decreases |inBuffer|
      {
        AfterOne(maxSize, done, inBuffer);
        if |inBuffer| == 0 {
          return;
        }
        var t := TakeFrame(maxSize, inBuffer);
        if !t.Taken? {
          return;
        }
        inBuffer := t.rest;
        if t.start != SB_SINGLEPACKET {
          closed := true;
          return;
        }
        EventsAppend(streamType, done, t.payload);
        done := done + [t.payload];
        passed := passed + [Event(streamType, t.payload)];
      }
    }

    /** The part of the loop that runs under the buffer's lock. */
    static method TakeFrame(maxSize: nat, data: Bytes) returns (t: FrameRead)
      requires data != []
      ensures t == ReadFrame(maxSize, data)
    {
      var b := new InBuffer(data);
      var start := b.Get8();
      var len := b.GetPN();
      if len.None? {
        return NeedMore;
      }
      if len.value > maxSize {
        return TooBig;
      }
      if |b.Rest()| < len.value {
        return NeedMore;
      }
      var payload := b.Take(len.value);
      t := Taken(start.value, payload.value, b.Rest());
    }
  }

  ghost function After(done: seq<Bytes>, x: Extraction): Extraction
  {
    Extraction(done + x.packets, x.rest, x.closed)
  }

  lemma AfterOne(maxSize: nat, done: seq<Bytes>, s: Bytes)
    ensures var t := ReadFrame(maxSize, s);
            && (t.Taken? ==> s != [] && |t.rest| < |s|)
            && After(done, Extract(maxSize, s)) ==
               if !t.Taken? then Extraction(done, s, false)
               else if t.start != SB_SINGLEPACKET then Extraction(done, t.rest, true)
               else After(done + [t.payload], Extract(maxSize, t.rest))
  {
    var t := ReadFrame(maxSize, s);
    assert done + [] == done;
    if t.Taken? {
      TakenShortens(maxSize, s);
      var more := Extract(maxSize, t.rest).packets;
      assert done + ([t.payload] + more) == done + [t.payload] + more;
    }
  }

  /** One for each packet in order, for the connector on a connected socket and for the acceptor on an accepted one. */
  lemma {:induction false} EventsMean(t: StreamType, payloads: seq<Bytes>)
    ensures |Events(t, payloads)| == |payloads|
    ensures forall i: nat :: i < |payloads| ==>
              Events(t, payloads)[i] == if t.Connected? then PacketOnConnector(payloads[i]) else PacketOnAcceptor(payloads[i])
  {
    if payloads != [] {
      EventsMean(t, payloads[1..]);
    }
  }

  lemma {:induction false} EventsAppend(t: StreamType, done: seq<Bytes>, payload: Bytes)
    ensures Events(t, done + [payload]) == Events(t, done) + [Event(t, payload)]
  {
    if done != [] {
      assert (done + [payload])[1..] == done[1..] + [payload];
      EventsAppend(t, done[1..], payload);
    }
  }

  /** bufferVerify: a whole frame is there, whatever its start byte and its size. */
  method BufferVerify(s: Bytes) returns (ok: bool)
    ensures ok <==> exists maxSize: nat :: ReadFrame(maxSize, s).Taken?
  {
    hide ReadFrame, Unpack;
    WholeFrame(s);
    var b := new InBuffer(s);
    var start := b.Get8();
    if start.None? {
      return false;
    }
    var len := b.GetPN();
    if len.None? || |b.Rest()| < len.value {
      return false;
    }
    return true;
  }

  lemma WholeFrame(s: Bytes)
    ensures (exists maxSize: nat :: ReadFrame(maxSize, s).Taken?) <==>
            s != [] && Unpack(s[1..]).Some? && |Unpack(s[1..]).value.1| >= Unpack(s[1..]).value.0
  {
    hide Unpack;
    if s != [] && Unpack(s[1..]).Some? && |Unpack(s[1..]).value.1| >= Unpack(s[1..]).value.0 {
      assert ReadFrame(Unpack(s[1..]).value.0, s).Taken?;
    }
  }
}
