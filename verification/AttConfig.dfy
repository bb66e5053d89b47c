/**
 The configuration attribute: each input's configuration is read and written through a window of at
 most 512 bytes that a control attribute moves, with responses limited by the ATT MTU (Bluetooth
 Core Specification, Vol 3 Part F, sections 3.4.4.5 and 3.4.6.1). Prepared writes land at once.
 */
module AttConfig {
  import opened Bytes

  const ATT_MAX_LEN := 512
  const MTU_MIN := 23
  const INPUTS := 12
  const MAP_MAX := 119
  const MAP_SIZE := 8
  const CFG_HEADER := 3          // the last of these bytes is the number of mappings
  const CFG_SIZE := 955

  /** The configurations of all inputs, one after the other. */
  predicate Shaped(mem: seq<u8>) {
    |mem| == INPUTS * CFG_SIZE
  }

  function MapCnt(mem: seq<u8>, id: nat): nat
    requires Shaped(mem) && id < INPUTS
  {
    mem[id * CFG_SIZE + CFG_HEADER - 1]
  }

  /** The part of an input's configuration that its number of mappings says is in use. */
  function CfgLen(mem: seq<u8>, id: nat): nat
    requires Shaped(mem) && id < INPUTS
  {
    CFG_HEADER + MAP_SIZE * MapCnt(mem, id)
  }

  /** It ends inside the configuration memory, which any number up to MAP_MAX ensures. */
  predicate InMemory(mem: seq<u8>, id: nat)
    requires Shaped(mem)
  {
    id < INPUTS && id * CFG_SIZE + CfgLen(mem, id) <= |mem|
  }

  lemma SmallMapIsInMemory(mem: seq<u8>, id: nat)
    requires Shaped(mem) && id < INPUTS && MapCnt(mem, id) <= MAP_MAX
    ensures InMemory(mem, id)
  {
  }

  function Image(mem: seq<u8>, id: nat): (s: seq<u8>)
    requires Shaped(mem) && InMemory(mem, id)
    ensures |s| == CFG_HEADER + MAP_SIZE * MapCnt(mem, id)
  {
    mem[id * CFG_SIZE..id * CFG_SIZE + CfgLen(mem, id)]
  }

  // ----- requests

  /** What an MTU leaves of a length. The code compares with `mtu - 1` as an unsigned number, so an MTU
      of 0 leaves all of it. */
  function Capped(len: nat, mtu: nat): nat {
    if mtu > 0 && len > mtu - 1 then mtu - 1 else len
  }

  /** How much of `left` bytes the answer to a read at `offset` holds. */
  function ResponseLen(left: nat, mtu: nat, offset: nat): (len: nat)
    requires offset <= ATT_MAX_LEN
    ensures len <= left && offset + len <= ATT_MAX_LEN
  {
    var len := Capped(left, mtu);
    if offset + len > ATT_MAX_LEN then ATT_MAX_LEN - offset else len
  }

  /** The answer to a read at `offset` of the window that starts at `base`. */
  function Response(image: seq<u8>, base: nat, mtu: nat, offset: nat): (r: seq<u8>)
    ensures r != [] ==> offset + |r| <= ATT_MAX_LEN
  {
    var sum := base + offset;
    if sum > |image| || offset > ATT_MAX_LEN then []
    else image[sum..sum + ResponseLen(|image| - sum, mtu, offset)]
  }

  /** An answer fits in the MTU exactly when there is one: the code takes whatever the peer asks for. */
  lemma ResponseFitsExactly(image: seq<u8>, base: nat, mtu: nat, offset: nat)
    ensures |Response(image, base, mtu, offset)| < mtu <==> mtu > 0
  {
  }

  /** A peer that asks for MTU 0 gets its answer at once, and as much of it as the attribute's limit allows. */
  lemma ZeroMtuIsNoLimit(image: seq<u8>, base: nat, offset: nat)
    requires base + offset <= |image| && offset <= ATT_MAX_LEN
    ensures Response(image, base, 0, offset) == image[base + offset..WindowEnd(image, base)]
  {
  }

  class AttServer {
    const cfg: array<u8>
    var mtu: nat
    var inCfgId: nat          // the control attribute sets these two
    var inCfgOffset: nat

    ghost predicate Valid()
      reads this, cfg
    {
      Shaped(cfg[..])
    }

    constructor (cfg: array<u8>)
      requires Shaped(cfg[..])
      ensures Valid() && this.cfg == cfg && mtu == MTU_MIN
    {
      this.cfg, mtu, inCfgId, inCfgOffset := cfg, MTU_MIN, 0, 0;
    }

    /** The smaller of the client's and the controller's limit. */
    method MtuRequest(requested: nat, max: nat)
      requires Valid()
      modifies this`mtu
      ensures Valid() && mtu <= requested && mtu <= max && (mtu == requested || mtu == max)
    {
      if requested < max {
        mtu := requested;
      } else {
        mtu := max;
      }
    }

    /** A write or a prepared write of the data attribute; a plain write has offset 0. */
    method DataWrite(offset: nat, data: seq<u8>)
      requires Valid() && inCfgId * CFG_SIZE + inCfgOffset + offset + |data| <= cfg.Length
      modifies cfg
      ensures Valid() && cfg[..] == Splice(old(cfg[..]), inCfgId * CFG_SIZE + inCfgOffset + offset, data)
    {
      var at := inCfgId * CFG_SIZE + inCfgOffset + offset;
      for i := 0 to |data|
        invariant forall k :: 0 <= k < i ==> cfg[at + k] == data[k]
        invariant forall k :: 0 <= k < cfg.Length && !(at <= k < at + i) ==> cfg[k] == old(cfg[k])
      {
        cfg[at + i] := data[i];
      }
      forall k | 0 <= k < cfg.Length
        ensures cfg[k] == Splice(old(cfg[..]), at, data)[k]
      {
        if at <= k < at + |data| {
          assert cfg[at + (k - at)] == data[k - at];
        }
      }
    }

    method ReadRequest(offset: nat) returns (rsp: seq<u8>)
      requires Valid() && InMemory(cfg[..], inCfgId)
      ensures rsp == Response(Image(cfg[..], inCfgId), inCfgOffset, mtu, offset)
    {
      var len := 0;
      var mapCnt := cfg[inCfgId * CFG_SIZE + 2];
      var cfgLen := CFG_SIZE - (MAP_MAX * MAP_SIZE - mapCnt * MAP_SIZE);
      var sumOffset := inCfgOffset + offset;
      if sumOffset > cfgLen || offset > ATT_MAX_LEN {
        return [];
      }
      len := cfgLen - sumOffset;
      if mtu > 0 && len > mtu - 1 {
        len := mtu - 1;
      }
      if offset + len > ATT_MAX_LEN {
        len := ATT_MAX_LEN - offset;
      }
      var start := inCfgId * CFG_SIZE;
      rsp := cfg[start + sumOffset..start + sumOffset + len];
      ghost var image := Image(cfg[..], inCfgId);
      assert image == cfg[..][start..start + cfgLen];
      ResponseOfMemory(cfg[..], start, image, inCfgOffset, mtu, offset);
    }
  }

  /** The answer is a slice of the memory that the image lies in. */
  lemma ResponseOfMemory(mem: seq<u8>, start: nat, image: seq<u8>, base: nat, mtu: nat, offset: nat)
    requires start + |image| <= |mem| && image == mem[start..start + |image|]
    requires base + offset <= |image| && offset <= ATT_MAX_LEN
    ensures var at := start + (base + offset);
            Response(image, base, mtu, offset) == mem[at..at + ResponseLen(|image| - (base + offset), mtu, offset)]
  {
    var sum := base + offset;
    SliceOfSlice(mem, start, start + |image|, sum, sum + ResponseLen(|image| - sum, mtu, offset));
  }

  // ----- a client that reads every window to its end, at any MTU that leaves room for a byte

  /** Reads on until a response is shorter than the MTU allows. */
  function LongRead(image: seq<u8>, base: nat, mtu: nat, offset: nat): seq<u8>
    requires mtu >= 2
    decreases if offset <= ATT_MAX_LEN then ATT_MAX_LEN + 1 - offset else 0
  {
    var r := Response(image, base, mtu, offset);
    if |r| < mtu - 1 then r else r + LongRead(image, base, mtu, offset + |r|)
  }

  /** Moves the window on until one is not full. */
  function ReadWindows(image: seq<u8>, mtu: nat, base: nat): seq<u8>
    requires mtu >= 2
    decreases |image| - base
  {
    var w := LongRead(image, base, mtu, 0);
    if |w| < ATT_MAX_LEN || base > |image| then w else w + ReadWindows(image, mtu, base + ATT_MAX_LEN)
  }

  function WindowEnd(image: seq<u8>, base: nat): nat {
    if base + ATT_MAX_LEN < |image| then base + ATT_MAX_LEN else |image|
  }

  lemma ResponseSlice(image: seq<u8>, base: nat, mtu: nat, offset: nat)
    requires mtu >= 2 && offset <= ATT_MAX_LEN && base + offset <= |image|
    ensures var n, left := |Response(image, base, mtu, offset)|, WindowEnd(image, base) - (base + offset);
            && n == (if left < mtu - 1 then left else mtu - 1)
            && Response(image, base, mtu, offset) == image[base + offset..base + offset + n]
  {
  }

  lemma JoinSlices(s: seq<u8>, a: nat, b: nat, c: nat, left: seq<u8>, right: seq<u8>)
    requires a <= b <= c <= |s| && left == s[a..b] && right == s[b..c]
    ensures left + right == s[a..c]
  {
  }

  lemma ShortRead(image: seq<u8>, base: nat, mtu: nat, offset: nat)
    requires mtu >= 2 && offset <= ATT_MAX_LEN && base + offset <= |image|
    requires WindowEnd(image, base) - (base + offset) < mtu - 1
    ensures LongRead(image, base, mtu, offset) == image[base + offset..WindowEnd(image, base)]
  {
    ResponseSlice(image, base, mtu, offset);
  }

  lemma FullRead(image: seq<u8>, base: nat, mtu: nat, offset: nat, next: nat)
    requires mtu >= 2 && offset <= ATT_MAX_LEN && base + offset <= |image| && next == offset + mtu - 1
    requires base + next <= WindowEnd(image, base)
    requires LongRead(image, base, mtu, next) == image[base + next..WindowEnd(image, base)]
    ensures LongRead(image, base, mtu, offset) == image[base + offset..WindowEnd(image, base)]
  {
    var r := Response(image, base, mtu, offset);
    ResponseSlice(image, base, mtu, offset);
    assert |r| == mtu - 1 && offset + |r| == next;
    JoinSlices(image, base + offset, base + next, WindowEnd(image, base), r, LongRead(image, base, mtu, next));
  }

  lemma {:induction false} LongReadIsWindow(image: seq<u8>, base: nat, mtu: nat, offset: nat)
    requires mtu >= 2 && offset <= ATT_MAX_LEN && base + offset <= |image|
    ensures LongRead(image, base, mtu, offset) == image[base + offset..WindowEnd(image, base)]
    decreases ATT_MAX_LEN + 1 - offset
  {
    if WindowEnd(image, base) - (base + offset) < mtu - 1 {
      ShortRead(image, base, mtu, offset);
    } else {
      LongReadIsWindow(image, base, mtu, offset + mtu - 1);
      FullRead(image, base, mtu, offset, offset + mtu - 1);
    }
  }

  lemma FullWindow(image: seq<u8>, mtu: nat, base: nat)
    requires mtu >= 2 && base + ATT_MAX_LEN <= |image|
    requires ReadWindows(image, mtu, base + ATT_MAX_LEN) == image[base + ATT_MAX_LEN..]
    ensures ReadWindows(image, mtu, base) == image[base..]
  {
    var next := base + ATT_MAX_LEN;
    LongReadIsWindow(image, base, mtu, 0);
    assert image[next..] == image[next..|image|] && image[base..] == image[base..|image|];
    JoinSlices(image, base, next, |image|, LongRead(image, base, mtu, 0), ReadWindows(image, mtu, next));
  }

  lemma LastWindow(image: seq<u8>, mtu: nat, base: nat)
    requires mtu >= 2 && base <= |image| < base + ATT_MAX_LEN
    ensures ReadWindows(image, mtu, base) == image[base..]
  {
    LongReadIsWindow(image, base, mtu, 0);
  }

  /** Every byte from `base` on is read once and in order. */
  lemma {:induction false} WindowsCoverImage(image: seq<u8>, mtu: nat, base: nat)
    requires mtu >= 2 && base <= |image|
    ensures ReadWindows(image, mtu, base) == image[base..]
    decreases |image| - base
  {
    if base + ATT_MAX_LEN <= |image| {
      WindowsCoverImage(image, mtu, base + ATT_MAX_LEN);
      FullWindow(image, mtu, base);
    } else {
      LastWindow(image, mtu, base);
    }
  }

  lemma SliceOfSlice(s: seq<u8>, a: nat, b: nat, c: nat, d: nat)
    requires a <= b <= |s| && c <= d <= b - a
    ensures s[a..b][c..d] == s[a + c..a + d]
  {
    forall k | 0 <= k < d - c
      ensures s[a..b][c..d][k] == s[a + c..a + d][k]
    {
    }
  }

  // ----- a client that writes an image in pieces

  /** One (prepared) write: the window's start, the offset in it and the bytes. */
  datatype Piece = Piece(base: nat, offset: nat, data: seq<u8>)

  /** The piece lies in its window and carries the image's bytes for its place. */
  predicate PieceOf(p: Piece, image: seq<u8>) {
    && p.offset + |p.data| <= ATT_MAX_LEN
    && p.base + p.offset + |p.data| <= |image|
    && image[p.base + p.offset..p.base + p.offset + |p.data|] == p.data
  }

  predicate Covers(p: Piece, i: nat) {
    p.base + p.offset <= i < p.base + p.offset + |p.data|
  }

  predicate Covered(pieces: seq<Piece>, i: nat) {
    exists k :: 0 <= k < |pieces| && Covers(pieces[k], i)
  }

  predicate AllPiecesOf(pieces: seq<Piece>, image: seq<u8>) {
    forall k :: 0 <= k < |pieces| ==> PieceOf(pieces[k], image)
  }

  predicate InBounds(pieces: seq<Piece>) {
    forall k :: 0 <= k < |pieces| ==> pieces[k].base + pieces[k].offset + |pieces[k].data| <= CFG_SIZE
  }

  function WritePieces(mem: seq<u8>, id: nat, pieces: seq<Piece>): (r: seq<u8>)
    requires Shaped(mem) && id < INPUTS
    requires InBounds(pieces)
    ensures Shaped(r)
    decreases |pieces|
  {
    if pieces == [] then mem
    else
      var p := pieces[0];
      WritePieces(Splice(mem, id * CFG_SIZE + p.base + p.offset, p.data), id, pieces[1..])
  }

  /** A byte holds the image's value once some piece covers it, or if it did before; bytes outside the
      image keep their value. */
  lemma {:induction false} PiecesWriteImage(mem: seq<u8>, id: nat, pieces: seq<Piece>, image: seq<u8>, i: nat)
    requires Shaped(mem) && id < INPUTS && |image| <= CFG_SIZE && i < |mem|
    requires AllPiecesOf(pieces, image)
    ensures InBounds(pieces)
    ensures var start := id * CFG_SIZE;
            if start <= i < start + |image| && (mem[i] == image[i - start] || Covered(pieces, i - start)) then
              WritePieces(mem, id, pieces)[i] == image[i - start]
            else WritePieces(mem, id, pieces)[i] == mem[i]
    decreases |pieces|
  {
    if pieces != [] {
      var p, start := pieces[0], id * CFG_SIZE;
      var at := start + p.base + p.offset;
      var mem' := Splice(mem, at, p.data);
      PiecesWriteImage(mem', id, pieces[1..], image, i);
      if at <= i < at + |p.data| {
        assert mem'[i] == p.data[i - at] == image[p.base + p.offset..p.base + p.offset + |p.data|][i - at];
        assert Covers(pieces[0], i - start);
      } else {
        assert forall k :: 0 < k < |pieces| ==> pieces[1..][k - 1] == pieces[k];
      }
    }
  }

  /** An image written in pieces that cover it, in any order and even overlapping, is read back
      exactly at any MTU of 2 and more, and no other input's configuration changes. */
  lemma ImageRoundTrips(mem: seq<u8>, id: nat, pieces: seq<Piece>, image: seq<u8>, mtu: nat)
    requires Shaped(mem) && id < INPUTS && mtu >= 2
    requires |image| >= CFG_HEADER && image[CFG_HEADER - 1] <= MAP_MAX
    requires |image| == CFG_HEADER + MAP_SIZE * image[CFG_HEADER - 1]
    requires AllPiecesOf(pieces, image)
    requires forall i :: 0 <= i < |image| ==> Covered(pieces, i)
    ensures InBounds(pieces)
    ensures var r := WritePieces(mem, id, pieces);
            && MapCnt(r, id) <= MAP_MAX
            && ReadWindows(Image(r, id), mtu, 0) == image
            && forall i :: 0 <= i < |mem| && !(id * CFG_SIZE <= i < (id + 1) * CFG_SIZE) ==> r[i] == mem[i]
  {
    var r, start := WritePieces(mem, id, pieces), id * CFG_SIZE;
    forall i | 0 <= i < |mem|
      ensures r[i] == if start <= i < start + |image| then image[i - start] else mem[i]
    {
      PiecesWriteImage(mem, id, pieces, image, i);
    }
    assert MapCnt(r, id) == image[CFG_HEADER - 1];
    assert Image(r, id) == image;
    WindowsCoverImage(image, mtu, 0);
  }
}
