/**
 Recombination of L2CAP frames from ACL fragments (Bluetooth Core Specification, Vol 3 Part A,
 section 7.2) in the host's one buffer.

 A packet is its bytes: packet type, connection handle and flags, ACL length, then data that starts,
 in a first fragment, with the L2CAP length and channel.
 */
module AclReassembly {
  import opened Bytes
  import opened Options

  const FRAG_MAX := 1024
  const HEADERS := 5          // packet type and ACL header
  const L2CAP_HEADER := 4
  const ACL_CONT := 1
  const ACL_START := 2

  function Handle(p: seq<u8>): nat
    requires |p| >= HEADERS
  {
    U16(p, 1) % 4096
  }

  function Flags(p: seq<u8>): nat
    requires |p| >= HEADERS
  {
    U16(p, 1) / 4096
  }

  function AclLen(p: seq<u8>): nat
    requires |p| >= HEADERS
  {
    U16(p, 3)
  }

  function L2capLen(p: seq<u8>): nat
    requires |p| >= HEADERS + L2CAP_HEADER
  {
    U16(p, 5)
  }

  /** A packet announced as a first fragment that does not hold its whole frame. The length is
      unsigned in the code, so a packet without an L2CAP header does not count as short. */
  predicate Short(p: seq<u8>, len: nat)
    requires |p| >= HEADERS + L2CAP_HEADER
  {
    Flags(p) == ACL_START && len >= HEADERS + L2CAP_HEADER && len - (HEADERS + L2CAP_HEADER) < L2capLen(p)
  }

  /** A frame handed to the protocol handlers, for the connection the packet came on. */
  datatype Dispatch = Dispatch(handle: nat, frame: seq<u8>)

  datatype Buffer = Buffer(bytes: seq<u8>, offset: nat, size: nat)

  /** What the code relies on: packets have their headers, and fragments fit in the buffer. */
  predicate Fits(b: Buffer, p: seq<u8>) {
    && |b.bytes| == FRAG_MAX
    && |p| >= HEADERS
    && (if Flags(p) == ACL_CONT then HEADERS + AclLen(p) <= |p| && b.offset + AclLen(p) <= FRAG_MAX
        else |p| >= HEADERS + L2CAP_HEADER && (Short(p, |p|) ==> |p| <= FRAG_MAX))
  }

  /** Starts a frame or hands over a complete one. */
  function Accept(b: Buffer, p: seq<u8>, len: nat, handle: nat): (Buffer, Option<Dispatch>)
    requires |b.bytes| == FRAG_MAX && HEADERS + L2CAP_HEADER <= |p| && len <= |p|
    requires Short(p, len) ==> len <= FRAG_MAX
  {
    if Short(p, len) then
      (Buffer(Splice(b.bytes, 0, p[..len]), len, L2capLen(p) + HEADERS + L2CAP_HEADER), None)
    else (b, Some(Dispatch(handle, p[..len])))
  }

  function Step(b: Buffer, p: seq<u8>): (Buffer, Option<Dispatch>)
    requires Fits(b, p)
  {
    if Flags(p) == ACL_CONT then
      var b' := Buffer(Splice(b.bytes, b.offset, p[HEADERS..HEADERS + AclLen(p)]), b.offset + AclLen(p), b.size);
      if b'.offset < b'.size then (b', None) else Accept(b', b'.bytes, b'.size, Handle(p))
    else Accept(b, p, |p|, Handle(p))
  }

  // ----- the buffer in memory

  class Receiver {
    const fragBuf: array<u8>
    var fragOffset: nat
    var fragSize: nat

    ghost function View(): Buffer
      reads this, fragBuf
    {
      Buffer(fragBuf[..], fragOffset, fragSize)
    }

    constructor ()
      ensures fresh(fragBuf) && fragBuf.Length == FRAG_MAX && fragOffset == 0 && fragSize == 0
    {
      fragBuf := new u8[FRAG_MAX];
      fragOffset, fragSize := 0, 0;
    }

    method Copy(at: nat, data: seq<u8>)
      requires at + |data| <= fragBuf.Length
      modifies fragBuf
      ensures fragBuf[..] == Splice(old(fragBuf[..]), at, data)
    {
      for i := 0 to |data|
        invariant forall k :: 0 <= k < i ==> fragBuf[at + k] == data[k]
        invariant forall k :: 0 <= k < fragBuf.Length && !(at <= k < at + i) ==> fragBuf[k] == old(fragBuf[k])
      {
        fragBuf[at + i] := data[i];
      }
      forall k | 0 <= k < fragBuf.Length
        ensures fragBuf[k] == Splice(old(fragBuf[..]), at, data)[k]
      {
        if at <= k < at + |data| {
          assert fragBuf[at + (k - at)] == data[k - at];
        }
      }
    }

    method AclHdlr(p: seq<u8>) returns (out: Option<Dispatch>)
      requires Fits(View(), p)
      modifies this, fragBuf
      ensures (View(), out) == Step(old(View()), p)
    {
      var pkt, pktLen := p, |p|;
      var handle := Handle(p);
      if Flags(p) == ACL_CONT {
        Copy(fragOffset, p[HEADERS..HEADERS + AclLen(p)]);
        fragOffset := fragOffset + AclLen(p);
        if fragOffset < fragSize {
          return None;
        }
        pkt, pktLen := fragBuf[..], fragSize;
      }
      if Short(pkt, pktLen) {
        Copy(0, pkt[..pktLen]);
        fragOffset := pktLen;
        fragSize := L2capLen(pkt) + HEADERS + L2CAP_HEADER;
        return None;
      }
      return Some(Dispatch(handle, pkt[..pktLen]));
    }
  }

  // ----- every split frame arrives once and whole

  /** While a frame is being collected: a continuation of it, or a packet that is complete by itself. */
  datatype Arrival = Cont(packet: seq<u8>) | Whole(packet: seq<u8>)

  predicate WellFormed(a: Arrival) {
    && |a.packet| >= HEADERS
    && match a
       case Cont(p) => Flags(p) == ACL_CONT && AclLen(p) == |p| - HEADERS
       case Whole(p) => Flags(p) != ACL_CONT && |p| >= HEADERS + L2CAP_HEADER && !Short(p, |p|)
  }

  predicate AllWellFormed(arrivals: seq<Arrival>) {
    forall i :: 0 <= i < |arrivals| ==> WellFormed(arrivals[i])
  }

  /** The frame bytes the continuations carry. */
  function Carried(arrivals: seq<Arrival>): seq<u8>
    requires AllWellFormed(arrivals)
  {
    if arrivals == [] then []
    else (if arrivals[0].Cont? then arrivals[0].packet[HEADERS..] else []) + Carried(arrivals[1..])
  }

  /** What the host hands over: each complete packet as it comes, and `frame`, whose first fragment was
      kept in the buffer, with every continuation after which nothing is missing. */
  function Expected(arrivals: seq<Arrival>, frame: seq<u8>): seq<Option<Dispatch>>
    requires AllWellFormed(arrivals)
  {
    if arrivals == [] then []
    else
      var a := arrivals[0];
      var out := match a
        case Whole(p) => Some(Dispatch(Handle(p), p))
        case Cont(p) => if Carried(arrivals[1..]) == [] then Some(Dispatch(Handle(p), frame)) else None;
      [out] + Expected(arrivals[1..], frame)
  }

  /** What it does hand over; None where a packet does not fit. */
  function Run(b: Buffer, arrivals: seq<Arrival>): seq<Option<Dispatch>>
    decreases |arrivals|
  {
    if arrivals == [] then []
    else if !Fits(b, arrivals[0].packet) then []
    else
      var (b', out) := Step(b, arrivals[0].packet);
      [out] + Run(b', arrivals[1..])
  }

  /** The buffer holds the first `b.offset` bytes of `frame`, whose length it knows. */
  ghost predicate Collecting(b: Buffer, frame: seq<u8>) {
    && |b.bytes| == FRAG_MAX
    && HEADERS + L2CAP_HEADER <= b.offset <= |frame| == b.size <= FRAG_MAX
    && b.bytes[..b.offset] == frame[..b.offset]
    && L2capLen(frame) + HEADERS + L2CAP_HEADER == |frame|
  }

  lemma ContinuationStep(b: Buffer, frame: seq<u8>, p: seq<u8>)
    requires Collecting(b, frame)
    requires WellFormed(Cont(p)) && b.offset + AclLen(p) <= |frame|
    requires frame[b.offset..b.offset + AclLen(p)] == p[HEADERS..]
    ensures Fits(b, p)
    ensures var (b', out) := Step(b, p);
            && Collecting(b', frame) && b'.offset == b.offset + AclLen(p)
            && out == if b'.offset < |frame| then None else Some(Dispatch(Handle(p), frame))
  {
    var bytes := Splice(b.bytes, b.offset, p[HEADERS..HEADERS + AclLen(p)]);
    var k := b.offset + AclLen(p);
    assert p[HEADERS..HEADERS + AclLen(p)] == p[HEADERS..];
    assert bytes[..k] == b.bytes[..b.offset] + p[HEADERS..];
    assert frame[..k] == frame[..b.offset] + frame[b.offset..k];
    if k == |frame| {
      assert frame[..k] == frame;
      assert forall i :: 0 <= i < HEADERS + L2CAP_HEADER ==> bytes[i] == frame[i];
    }
  }

  lemma {:induction false} CollectsTheFrame(b: Buffer, frame: seq<u8>, arrivals: seq<Arrival>)
    requires AllWellFormed(arrivals)
    requires Collecting(b, frame)
    requires Carried(arrivals) == frame[b.offset..]
    ensures Run(b, arrivals) == Expected(arrivals, frame)
    decreases |arrivals|
  {
    if arrivals != [] {
      var a, rest := arrivals[0], arrivals[1..];
      var p := a.packet;
      match a
      case Whole(_) =>
        assert p[..|p|] == p;
        CollectsTheFrame(b, frame, rest);
      case Cont(_) =>
        var n := AclLen(p);
        assert Carried(arrivals) == p[HEADERS..] + Carried(rest);
        assert |frame[b.offset..]| >= n;
        assert frame[b.offset..b.offset + n] == frame[b.offset..][..n] == p[HEADERS..];
        assert frame[b.offset + n..] == frame[b.offset..][n..] == Carried(rest);
        ContinuationStep(b, frame, p);
        CollectsTheFrame(Step(b, p).0, frame, rest);
    }
  }

  /** How often the frame is handed over. */
  function Times(arrivals: seq<Arrival>): nat
    requires AllWellFormed(arrivals)
  {
    if arrivals == [] then 0
    else (if arrivals[0].Cont? && Carried(arrivals[1..]) == [] then 1 else 0) + Times(arrivals[1..])
  }

  /** The last continuation, if there is one, carries something. */
  predicate EndsWithData(arrivals: seq<Arrival>)
    requires AllWellFormed(arrivals)
  {
    arrivals == [] ||
    if arrivals[|arrivals| - 1].Cont? then |arrivals[|arrivals| - 1].packet| > HEADERS
    else EndsWithData(arrivals[..|arrivals| - 1])
  }

  predicate HasCont(arrivals: seq<Arrival>) {
    exists i :: 0 <= i < |arrivals| && arrivals[i].Cont?
  }

  lemma {:induction false} EndsWithDataTail(arrivals: seq<Arrival>)
    requires AllWellFormed(arrivals) && arrivals != []
    ensures EndsWithData(arrivals) <==>
            if HasCont(arrivals[1..]) then EndsWithData(arrivals[1..])
            else arrivals[0].Cont? ==> |arrivals[0].packet| > HEADERS
    decreases |arrivals|
  {
    var n := |arrivals| - 1;
    if n > 0 && !arrivals[n].Cont? {
      EndsWithDataTail(arrivals[..n]);
      assert arrivals[..n][1..] == arrivals[1..][..n - 1];
      assert HasCont(arrivals[1..]) == HasCont(arrivals[1..][..n - 1]) by {
        if i :| 0 <= i < n && arrivals[1..][i].Cont? { assert arrivals[1..][..n - 1][i].Cont?; }
      }
    }
  }

  lemma {:induction false} NoContCarriesNothing(arrivals: seq<Arrival>)
    requires AllWellFormed(arrivals) && !HasCont(arrivals)
    ensures Carried(arrivals) == [] && Times(arrivals) == 0
  {
    if arrivals != [] {
      assert !arrivals[0].Cont?;
      forall i | 0 <= i < |arrivals| - 1 ensures !arrivals[1..][i].Cont? { assert !arrivals[i + 1].Cont?; }
      NoContCarriesNothing(arrivals[1..]);
    }
  }

  lemma {:induction false} SomeContIsOver(arrivals: seq<Arrival>)
    requires AllWellFormed(arrivals) && HasCont(arrivals)
    ensures Times(arrivals) >= 1
    ensures Carried(arrivals) == [] ==> !EndsWithData(arrivals)
  {
    var rest := arrivals[1..];
    EndsWithDataTail(arrivals);
    var i :| 0 <= i < |arrivals| && arrivals[i].Cont?;
    assert i == 0 || rest[i - 1].Cont?;
    if HasCont(rest) {
      SomeContIsOver(rest);
    } else {
      NoContCarriesNothing(rest);
    }
  }

  /** The frame is handed over exactly once if and only if no empty continuation follows the last of its
      data; every one that does hands it over again. */
  lemma {:induction false} OnceExactly(arrivals: seq<Arrival>)
    requires AllWellFormed(arrivals) && Carried(arrivals) != []
    ensures Times(arrivals) == 1 <==> EndsWithData(arrivals)
  {
    var rest := arrivals[1..];
    EndsWithDataTail(arrivals);
    if HasCont(rest) {
      if Carried(rest) != [] { OnceExactly(rest); } else { SomeContIsOver(rest); }
    } else {
      NoContCarriesNothing(rest);
    }
  }

  /** Splitting a frame of at most 1024 bytes, with its packet headers, into a first fragment with the
      L2CAP header and any continuations hands it over when they are complete and not before, under the
      first fragment's header, whatever complete packets come in between; once, if the last continuation
      is not empty. */
  lemma SplitFrameIsHandedOverOnce(b: Buffer, first: seq<u8>, arrivals: seq<Arrival>)
    requires |b.bytes| == FRAG_MAX
    requires HEADERS + L2CAP_HEADER <= |first| && Flags(first) == ACL_START
    requires AllWellFormed(arrivals)
    requires Carried(arrivals) != []
    requires |first + Carried(arrivals)| == L2capLen(first) + HEADERS + L2CAP_HEADER <= FRAG_MAX
    ensures Fits(b, first)
    ensures var (b', out) := Step(b, first);
            out == None && Run(b', arrivals) == Expected(arrivals, first + Carried(arrivals))
    ensures Times(arrivals) == 1 <==> EndsWithData(arrivals)
  {
    OnceExactly(arrivals);
    var frame := first + Carried(arrivals);
    assert first[..|first|] == first;
    var b' := Step(b, first).0;
    assert b'.bytes[..|first|] == first == frame[..|first|];
    assert L2capLen(frame) == L2capLen(first);
    assert frame[|first|..] == Carried(arrivals);
    CollectsTheFrame(b', frame, arrivals);
  }

  /** An unfragmented frame is handed over at once and leaves the buffer alone. */
  lemma CompletePacketPassesThrough(b: Buffer, p: seq<u8>)
    requires |b.bytes| == FRAG_MAX && WellFormed(Whole(p))
    ensures Fits(b, p) && Step(b, p) == (b, Some(Dispatch(Handle(p), p)))
  {
    assert p[..|p|] == p;
  }

  /** The buffer still holds a frame that was handed over. */
  ghost predicate HandedOver(b: Buffer, frame: seq<u8>) {
    && |b.bytes| == FRAG_MAX
    && HEADERS + L2CAP_HEADER <= |frame| == b.size <= b.offset <= FRAG_MAX
    && b.bytes[..b.size] == frame
    && L2capLen(frame) + HEADERS + L2CAP_HEADER == |frame|
  }

  /** Any continuation that comes then, of whatever connection, hands the frame over again, under the
      handle it came on. */
  lemma LateContinuationRepeats(b: Buffer, frame: seq<u8>, p: seq<u8>)
    requires HandedOver(b, frame) && |p| >= HEADERS && Flags(p) == ACL_CONT && Fits(b, p)
    ensures Step(b, p).1 == Some(Dispatch(Handle(p), frame)) && HandedOver(Step(b, p).0, frame)
  {
    var bytes := Splice(b.bytes, b.offset, p[HEADERS..HEADERS + AclLen(p)]);
    assert bytes[..b.size] == b.bytes[..b.size];
    assert forall i :: 0 <= i < HEADERS + L2CAP_HEADER ==> bytes[i] == frame[i];
  }

  /** The buffer is shared: a second first fragment, of any connection, discards the frame so far, and a
      late continuation of the discarded frame hands the second frame over again, under the first
      connection's handle. */
  lemma SecondStartDiscardsFirst(b: Buffer, first: seq<u8>, second: seq<u8>, rest: seq<u8>, late: seq<u8>)
    requires |b.bytes| == FRAG_MAX
    requires HEADERS + L2CAP_HEADER <= |first| && Flags(first) == ACL_START && Short(first, |first|) && Fits(b, first)
    requires HEADERS + L2CAP_HEADER <= |second| && Flags(second) == ACL_START && Short(second, |second|)
    requires WellFormed(Cont(rest)) && |second + rest[HEADERS..]| == L2capLen(second) + HEADERS + L2CAP_HEADER <= FRAG_MAX
    requires |late| >= HEADERS && Flags(late) == ACL_CONT && HEADERS + AclLen(late) <= |late|
    requires |second + rest[HEADERS..]| + AclLen(late) <= FRAG_MAX
    ensures var (b1, frame) := (Step(b, first).0, second + rest[HEADERS..]);
            && Fits(b1, second) && Fits(Step(b1, second).0, rest)
            && var (b3, out) := Step(Step(b1, second).0, rest);
               && out == Some(Dispatch(Handle(rest), frame))
               && Fits(b3, late) && Step(b3, late).1 == Some(Dispatch(Handle(late), frame))
  {
    var b1, frame := Step(b, first).0, second + rest[HEADERS..];
    assert second[..|second|] == second;
    var b2 := Step(b1, second).0;
    assert b2.bytes[..|second|] == second == frame[..|second|];
    assert L2capLen(frame) == L2capLen(second);
    ContinuationStep(b2, frame, rest);
    var b3 := Step(b2, rest).0;
    assert b3.bytes[..b3.offset] == frame[..b3.offset] == frame;
    LateContinuationRepeats(b3, frame, late);
  }
}
