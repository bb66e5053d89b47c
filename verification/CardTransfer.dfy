/** Reading the memory card over the air, one response at a time. */
module CardTransfer {
  import opened MemoryCard
  import opened Bytes

  /** The length of the next response: to the end of the block, or what the MTU takes in whole words. The
      code compares with `mtu - 2` as an unsigned number, so an MTU of 0 or 1 takes the whole rest. */
  function ChunkLen(offset: nat, mtu: nat): (len: nat)
    ensures offset % BLOCK_SIZE + len <= BLOCK_SIZE
  {
    var left := (offset / BLOCK_SIZE + 1) * BLOCK_SIZE - offset;
    if mtu >= 2 && left > mtu - 2 then (mtu - 2) - (mtu - 2) % 4 else left
  }

  /** A response leaves room for the opcode and a byte more exactly when the MTU has it. */
  lemma ResponseFitsExactly(offset: nat, mtu: nat)
    ensures ChunkLen(offset, mtu) + 2 <= mtu <==> mtu >= 2
  {
  }

  /** The octets of the packet buffer that a response goes to. */
  const ATT_DATA := 1014

  /** A response fits in the packet buffer exactly when little is left of the block or the MTU, and not the
      block's end, cuts it early enough. */
  lemma ResponseFitsBufferExactly(offset: nat, mtu: nat)
    ensures var left := BLOCK_SIZE - offset % BLOCK_SIZE;
            ChunkLen(offset, mtu) <= ATT_DATA <==> left <= ATT_DATA || (2 <= mtu <= ATT_DATA + 3 && left > mtu - 2)
  {
  }

  /** The transfer moves on exactly when the MTU takes a word, the rest of the block fits, or the MTU is
      too small to limit anything. */
  lemma ProgressIsExact(offset: nat, mtu: nat)
    ensures ChunkLen(offset, mtu) > 0 <==>
            mtu < 2 || mtu >= 6 || BLOCK_SIZE - offset % BLOCK_SIZE <= mtu - 2
  {
  }

  /** The card offset after `n` responses, or where the card ends. */
  function OffsetAfter(offset: nat, mtu: nat, n: nat): nat
    decreases n
  {
    if n == 0 || offset >= SIZE then offset else OffsetAfter(offset + ChunkLen(offset, mtu), mtu, n - 1)
  }

  /** The transfer can reach the end from here. */
  predicate Finishes(offset: nat, mtu: nat) {
    mtu < 2 || mtu >= 6 || SIZE <= offset + mtu - 2
  }

  lemma {:induction false} EndIsReached(offset: nat, mtu: nat) returns (n: nat)
    requires offset <= SIZE && (Finishes(offset, mtu) || offset == SIZE)
    ensures OffsetAfter(offset, mtu, n) == SIZE
    decreases SIZE - offset
  {
    n := 0;
    if offset < SIZE {
      ProgressIsExact(offset, mtu);
      n := EndIsReached(offset + ChunkLen(offset, mtu), mtu);
      n := n + 1;
    }
  }

  lemma {:induction false} EndIsNotReached(offset: nat, mtu: nat, n: nat)
    requires offset < SIZE && !Finishes(offset, mtu)
    ensures OffsetAfter(offset, mtu, n) < SIZE
    decreases n
  {
    if n > 0 { EndIsNotReached(offset + ChunkLen(offset, mtu), mtu, n - 1); }
  }

  /** A transfer reaches the end of the card exactly when the MTU is not between 2 and 5, or takes what is
      left of the card at once. */
  lemma TransferFinishesExactly(offset: nat, mtu: nat)
    requires offset < SIZE
    ensures (exists n :: OffsetAfter(offset, mtu, n) == SIZE) <==> Finishes(offset, mtu)
  {
    if Finishes(offset, mtu) {
      var n := EndIsReached(offset, mtu);
    } else {
      forall n: nat ensures OffsetAfter(offset, mtu, n) < SIZE { EndIsNotReached(offset, mtu, n); }
    }
  }

  /** With MTU 5 the first response is empty, and so is every other. */
  lemma {:induction false} StuckAtTheStart(n: nat)
    ensures ChunkLen(0, 5) == 0 && OffsetAfter(0, 5, n) == 0
  {
    if n > 0 { StuckAtTheStart(n - 1); }
  }

  class CardReader {
    const card: CardMemory
    var mcOffset: nat          // the control attribute sets it

    constructor (card: CardMemory)
      ensures this.card == card && mcOffset == 0
    {
      this.card, mcOffset := card, 0;
    }

    method McReadResponse(mtu: nat) returns (data: seq<u8>)
      requires card.Valid() && mcOffset < SIZE
      modifies this
      ensures mcOffset == old(mcOffset) + ChunkLen(old(mcOffset), mtu) <= SIZE
      ensures data == card.Flat()[old(mcOffset)..mcOffset]
    {
      var block := mcOffset / BLOCK_SIZE + 1;
      var len := block * BLOCK_SIZE - mcOffset;
      if mtu >= 2 && len > mtu - 2 {
        len := mtu - 2;
        len := len - len % 4;
      }
      data := card.McRead(mcOffset, len);
      mcOffset := mcOffset + len;
    }

    /** A write request: the data goes to the card at the current offset. */
    method McWriteRequest(data: seq<u8>)
      requires card.Valid() && InBlock(mcOffset, |data|)
      modifies this, card`dirty, card.pages[mcOffset / BLOCK_SIZE]
      ensures card.Valid() && card.View() == Write(old(card.View()), old(mcOffset), data)
      ensures mcOffset == old(mcOffset) + |data|
    {
      card.McWrite(mcOffset, data);
      mcOffset := mcOffset + |data|;
    }
  }

  /** Successive responses partition the card from any offset to its end. */
  function Chunks(flat: seq<u8>, offset: nat, mtu: nat): seq<seq<u8>>
    requires |flat| == SIZE && offset <= SIZE && (mtu < 2 || mtu >= 6)
    decreases SIZE - offset
  {
    if offset == SIZE then []
    else
      ProgressIsExact(offset, mtu);
      var len := ChunkLen(offset, mtu);
      [flat[offset..offset + len]] + Chunks(flat, offset + len, mtu)
  }

  function Concat(ss: seq<seq<u8>>): seq<u8> {
    if ss == [] then [] else ss[0] + Concat(ss[1..])
  }

  lemma {:induction false} ChunksPartition(flat: seq<u8>, offset: nat, mtu: nat)
    requires |flat| == SIZE && offset <= SIZE && (mtu < 2 || mtu >= 6)
    ensures Concat(Chunks(flat, offset, mtu)) == flat[offset..]
    ensures forall k :: 0 <= k < |Chunks(flat, offset, mtu)| ==> 0 < |Chunks(flat, offset, mtu)[k]| && (mtu >= 6 ==> |Chunks(flat, offset, mtu)[k]| <= mtu - 2)
    decreases SIZE - offset
  {
    if offset < SIZE {
      ProgressIsExact(offset, mtu);
      var len := ChunkLen(offset, mtu);
      ChunksPartition(flat, offset + len, mtu);
      assert Chunks(flat, offset, mtu) == [flat[offset..offset + len]] + Chunks(flat, offset + len, mtu);
      assert flat[offset..] == flat[offset..offset + len] + flat[offset + len..];
    }
  }
}
