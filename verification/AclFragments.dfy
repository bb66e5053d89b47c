/**
 A frame cut into ACL packets as they are written on the wire (Bluetooth Core Specification, Vol 4 Part E,
 section 5.4.2, and Vol 3 Part A, section 3.1), and what the host makes of them.
 */
module AclFragments {
  import opened Bytes
  import opened Options
  import opened AclReassembly

  function Le16(n: nat): (r: seq<u8>)
    requires n < 0x1_0000
    ensures |r| == 2
  {
    [n % 256, n / 256]
  }

  /** Packet type, twelve bits of connection handle below four bits of flags, the length of the data, the data. */
  function AclPacket(kind: u8, handle: nat, flags: nat, data: seq<u8>): (p: seq<u8>)
    requires handle < 4096 && flags < 16 && |data| < 0x1_0000
    ensures |p| == 5 + |data|
  {
    [kind] + Le16(handle + 4096 * flags) + Le16(|data|) + data
  }

  /** Length and channel, then the payload. */
  function Frame(channel: nat, payload: seq<u8>): (f: seq<u8>)
    requires channel < 0x1_0000 && |payload| < 0x1_0000
    ensures |f| == 4 + |payload|
  {
    Le16(|payload|) + Le16(channel) + payload
  }

  lemma HeaderIsRead(kind: u8, handle: nat, flags: nat, data: seq<u8>)
    requires handle < 4096 && flags < 16 && |data| < 0x1_0000
    ensures var p := AclPacket(kind, handle, flags, data);
            && Handle(p) == handle && Flags(p) == flags && AclLen(p) == |data| && p[5..] == data
            && (|data| >= 4 ==> L2capLen(p) == U16(data, 0))
  {
    var p, n := AclPacket(kind, handle, flags, data), handle + 4096 * flags;
    assert p[1] == n % 256 && p[2] == n / 256 && p[3] == |data| % 256 && p[4] == |data| / 256;
    assert U16(p, 1) == n;
    if |data| >= 4 { assert p[5] == data[0] && p[6] == data[1]; }
  }

  function Joined(pieces: seq<seq<u8>>): seq<u8> {
    if pieces == [] then [] else pieces[0] + Joined(pieces[1..])
  }

  predicate AllPieces(pieces: seq<seq<u8>>) {
    forall i :: 0 <= i < |pieces| ==> 0 < |pieces[i]| < 0x1_0000
  }

  function Continuations(kind: u8, handle: nat, pieces: seq<seq<u8>>): (arrivals: seq<Arrival>)
    requires handle < 4096 && AllPieces(pieces)
    ensures |arrivals| == |pieces|
  {
    if pieces == [] then [] else [Cont(AclPacket(kind, handle, 1, pieces[0]))] + Continuations(kind, handle, pieces[1..])
  }

  /** What the host hands over while the pieces arrive: nothing before the last one, then the frame. */
  function AtTheLast(n: nat, d: Dispatch): seq<Option<Dispatch>> {
    if n == 0 then [] else if n == 1 then [Some(d)] else [None] + AtTheLast(n - 1, d)
  }

  lemma {:induction false} ContinuationsCarry(kind: u8, handle: nat, pieces: seq<seq<u8>>, frame: seq<u8>)
    requires handle < 4096 && AllPieces(pieces)
    ensures var arrivals := Continuations(kind, handle, pieces);
            && AllWellFormed(arrivals) && Carried(arrivals) == Joined(pieces)
            && Expected(arrivals, frame) == AtTheLast(|pieces|, Dispatch(handle, frame))
  {
    if pieces != [] {
      var arrivals := Continuations(kind, handle, pieces);
      ContinuationsCarry(kind, handle, pieces[1..], frame);
      HeaderIsRead(kind, handle, 1, pieces[0]);
      assert arrivals[1..] == Continuations(kind, handle, pieces[1..]);
      assert |pieces| > 1 ==> |pieces[1]| > 0 && |Joined(pieces[1..])| > 0;
    }
  }

  lemma StartIsRead(kind: u8, handle: nat, channel: nat, payload: seq<u8>, first: seq<u8>, rest: seq<u8>)
    requires handle < 4096 && channel < 0x1_0000 && |payload| <= 1015
    requires 4 <= |first| && first + rest == Frame(channel, payload)
    ensures |first| < 0x1_0000
    ensures var p := AclPacket(kind, handle, 2, first);
            && Handle(p) == handle && Flags(p) == 2 && L2capLen(p) == |payload|
            && p + rest == p[..5] + Frame(channel, payload)
  {
    var p, f := AclPacket(kind, handle, 2, first), Frame(channel, payload);
    HeaderIsRead(kind, handle, 2, first);
    assert f[0] == |payload| % 256 && f[1] == |payload| / 256;
    assert first[0] == f[0] && first[1] == f[1];
    assert p == p[..5] + first;
  }

  lemma SomeIsCarried(pieces: seq<seq<u8>>)
    requires AllPieces(pieces) && pieces != []
    ensures Joined(pieces) != []
  {
  }

  /** A frame cut into pieces, the first with flags 2 and holding at least its length and channel, the others
      with flags 1, is handed over on the last of them, under its handle and behind the first one's header. */
  lemma FragmentsAreRecombined(b: Buffer, kind: u8, handle: nat, channel: nat, payload: seq<u8>, first: seq<u8>, pieces: seq<seq<u8>>)
    requires |b.bytes| == FRAG_MAX && handle < 4096 && channel < 0x1_0000 && |payload| <= 1015
    requires 4 <= |first| && AllPieces(pieces) && pieces != [] && first + Joined(pieces) == Frame(channel, payload)
    ensures |first| < 0x1_0000
    ensures var p := AclPacket(kind, handle, 2, first);
            && Fits(b, p) && Step(b, p).1 == None
            && Run(Step(b, p).0, Continuations(kind, handle, pieces)) ==
                 AtTheLast(|pieces|, Dispatch(handle, p[..5] + Frame(channel, payload)))
  {
    var p, arrivals := AclPacket(kind, handle, 2, first), Continuations(kind, handle, pieces);
    StartIsRead(kind, handle, channel, payload, first, Joined(pieces));
    ContinuationsCarry(kind, handle, pieces, p + Joined(pieces));
    SomeIsCarried(pieces);
    SplitFrameIsHandedOverOnce(b, p, arrivals);
  }

  /** A continuation that comes before any first fragment hands over an empty frame. */
  lemma StrayContinuationIsHandedOver(b: Buffer, p: seq<u8>)
    requires b.size == 0 && Fits(b, p) && Flags(p) == 1
    ensures Step(b, p).1 == Some(Dispatch(Handle(p), []))
  {
  }
}
