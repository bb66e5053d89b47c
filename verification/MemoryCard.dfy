/**
 The emulated memory card: thirty-two 4 KiB pages that stand for one flat 128 KiB array, a mask of
 the blocks changed since they were last written to the backing file, and the one-block-at-a-time
 write-back. The mask is modelled as the set of its bit numbers.
 */
module MemoryCard {
  import opened Bytes

  const BLOCK_SIZE := 4096
  const BLOCK_CNT := 32
  const SIZE := 131072
  const BANKSEL_MAX := 4

  /** The backing file, which may be shorter than the card. */
  datatype File = Missing | Present(bytes: seq<u8>)

  /** `banksel` selects the bank; the card is only written back when it is below BANKSEL_MAX. */
  datatype Card = Card(flat: seq<u8>, dirty: set<nat>, file: File, banksel: nat)

  predicate WellFormed(c: Card) {
    && |c.flat| == SIZE && (forall b :: b in c.dirty ==> b < BLOCK_CNT)
    && (c.file.Present? ==> |c.file.bytes| <= SIZE)
  }

  /** Writing into a file: a gap behind its end fills with zeros. */
  function Overwrite(bytes: seq<u8>, at: nat, data: seq<u8>): (r: seq<u8>)
    ensures |r| == if data != [] && at + |data| > |bytes| then at + |data| else |bytes|
    ensures at + |data| <= |bytes| ==> r == Splice(bytes, at, data)
  {
    if data == [] then bytes
    else
      var padded := if |bytes| < at then bytes + seq(at - |bytes|, _ => 0) else bytes;
      padded[..at] + data + (if at + |data| < |padded| then padded[at + |data|..] else [])
  }

  /** Byte by byte: the data where it goes, the file as it was elsewhere, zeros in a gap. */
  lemma OverwriteIsBytewise(bytes: seq<u8>, at: nat, data: seq<u8>, k: nat)
    requires k < |Overwrite(bytes, at, data)|
    ensures Overwrite(bytes, at, data)[k] ==
            if at <= k < at + |data| then data[k - at] else if k < |bytes| then bytes[k] else 0
  {
  }

  function Block(s: seq<u8>, b: nat): seq<u8>
    requires b < BLOCK_CNT && |s| == SIZE
  {
    s[b * BLOCK_SIZE..(b + 1) * BLOCK_SIZE]
  }

  /** Accesses are assumed not to cross a block boundary. */
  predicate InBlock(addr: nat, size: nat) {
    addr < SIZE && addr % BLOCK_SIZE + size <= BLOCK_SIZE
  }

  lemma InBlockFits(addr: nat, size: nat)
    requires InBlock(addr, size)
    ensures addr + size <= SIZE && addr / BLOCK_SIZE < BLOCK_CNT
  {
  }

  function Write(c: Card, addr: nat, data: seq<u8>): (c': Card)
    requires WellFormed(c) && InBlock(addr, |data|)
    ensures WellFormed(c')
  {
    InBlockFits(addr, |data|);
    c.(flat := Splice(c.flat, addr, data),
       dirty := if c.banksel < BANKSEL_MAX then c.dirty + {addr / BLOCK_SIZE} else c.dirty)
  }

  /** After a write the card holds the data from the address on and is otherwise as it was, byte by byte; its
      block is waiting, if the bank has a file at all. */
  lemma WriteIsBytewise(c: Card, addr: nat, data: seq<u8>, k: nat)
    requires WellFormed(c) && InBlock(addr, |data|) && k < 131072
    ensures var c' := Write(c, addr, data);
            && |c'.flat| == 131072 && c'.flat[k] == (if addr <= k < addr + |data| then data[k - addr] else c.flat[k])
            && (k in c'.dirty <==> k in c.dirty || (c.banksel < 4 && k == addr / 4096))
            && c'.file == c.file && c'.banksel == c.banksel
  {
    InBlockFits(addr, |data|);
  }

  /** Reading back what was written, whatever is written elsewhere in between. */
  lemma ReadsBack(c: Card, addr: nat, data: seq<u8>, other: nat, more: seq<u8>)
    requires WellFormed(c) && InBlock(addr, |data|) && InBlock(other, |more|)
    requires other + |more| <= addr || addr + |data| <= other
    ensures addr + |data| <= SIZE && Write(Write(c, addr, data), other, more).flat[addr..addr + |data|] == data
  {
    var t := Write(c, addr, data);
    InBlockFits(addr, |data|);
    forall k | addr <= k < addr + |data| ensures Write(t, other, more).flat[k] == data[k - addr] {
      WriteIsBytewise(c, addr, data, k);
      WriteIsBytewise(t, other, more, k);
    }
  }

  /** The lowest block from `b` on that is waiting, or BLOCK_CNT. */
  function FirstDirty(dirty: set<nat>, b: nat): (r: nat)
    requires b <= BLOCK_CNT
    ensures b <= r <= BLOCK_CNT
    ensures r < BLOCK_CNT ==> r in dirty
    ensures forall k :: b <= k < r ==> k !in dirty
    decreases BLOCK_CNT - b
  {
    if b == BLOCK_CNT || b in dirty then b else FirstDirty(dirty, b + 1)
  }

  /** One write-back step. `openOk` and `writeOk` are what the file system makes of it; of a write that
      fails, `torn` reaches the block of the file. */
  function StoreSpread(c: Card, openOk: bool, writeOk: bool, torn: seq<u8>): (c': Card)
    requires WellFormed(c) && |torn| <= BLOCK_SIZE
    ensures WellFormed(c')
  {
    var b := FirstDirty(c.dirty, 0);
    if !openOk || c.file.Missing? || b == BLOCK_CNT then c
    else
      c.(file := Present(Overwrite(c.file.bytes, b * BLOCK_SIZE, if writeOk then Block(c.flat, b) else torn)),
         dirty := if writeOk then c.dirty - {b} else c.dirty)
  }

  /** A store of the whole card, to a new file. Of one that fails, `part` reaches the file. */
  function Store(c: Card, openOk: bool, writeOk: bool, part: seq<u8>): (c': Card)
    requires WellFormed(c) && |part| <= SIZE
    ensures WellFormed(c')
  {
    if !openOk then c
    else if writeOk then c.(file := Present(c.flat), dirty := {})
    else c.(file := Present(part))
  }

  /** Every block was read whole. */
  predicate AllRead(got: seq<seq<u8>>) {
    forall b :: 0 <= b < |got| ==> |got[b]| == BLOCK_SIZE
  }

  /** What reading the file block by block may give: possibly only part of a block, but the file's contents
      when every block is read whole. */
  predicate Readable(file: File, got: seq<seq<u8>>) {
    && |got| == BLOCK_CNT
    && (forall b :: 0 <= b < BLOCK_CNT ==> |got[b]| <= BLOCK_SIZE)
    && (file.Present? && AllRead(got) ==>
          |file.bytes| == SIZE && forall b :: 0 <= b < BLOCK_CNT ==> got[b] == Block(file.bytes, b))
  }

  /** The card after what was read of the first `n` blocks was put over it. */
  function Restored(flat: seq<u8>, got: seq<seq<u8>>, n: nat): (r: seq<u8>)
    requires |flat| == SIZE && |got| == BLOCK_CNT && n <= BLOCK_CNT
    ensures |r| == SIZE
  {
    seq(SIZE, k requires 0 <= k < SIZE =>
      if k / BLOCK_SIZE < n && k % BLOCK_SIZE < |got[k / BLOCK_SIZE]| then got[k / BLOCK_SIZE][k % BLOCK_SIZE] else flat[k])
  }

  /** Restoring every block of a file gives its contents. */
  lemma RestoredFile(flat: seq<u8>, got: seq<seq<u8>>, bytes: seq<u8>)
    requires |flat| == SIZE && Readable(Present(bytes), got) && AllRead(got)
    ensures Restored(flat, got, BLOCK_CNT) == bytes
  {
    forall k | 0 <= k < SIZE
      ensures Restored(flat, got, BLOCK_CNT)[k] == bytes[k]
    {
      assert Block(bytes, k / BLOCK_SIZE)[k % BLOCK_SIZE] == bytes[k];
    }
  }

  /** Restoring the card from its file, or creating the file; and whether that succeeded. */
  function Restore(c: Card, openOk: bool, got: seq<seq<u8>>, writeOk: bool, part: seq<u8>): (r: (Card, bool))
    requires WellFormed(c) && Readable(c.file, got) && |part| <= SIZE
    ensures WellFormed(r.0)
  {
    if c.file.Missing? then (Store(c, openOk, writeOk, part), openOk && writeOk)
    else if !openOk then (c, false)
    else (c.(flat := Restored(c.flat, got, BLOCK_CNT)), AllRead(got))
  }

  /** What memory and file hold when the firmware starts; the card is restored when its bank has a file. */
  function Boot(memory: seq<u8>, file: File, banksel: nat, openOk: bool, got: seq<seq<u8>>, writeOk: bool, part: seq<u8>):
      (r: (Card, bool))
    requires WellFormed(Card(memory, {}, file, banksel)) && Readable(file, got) && |part| <= SIZE
    ensures WellFormed(r.0)
  {
    var c := Card(memory, {}, file, banksel);
    if banksel < BANKSEL_MAX then Restore(c, openOk, got, writeOk, part) else (c, false)
  }

  // ----- what each operation does, byte by byte

  /** Byte `k` of the file once `data` was written over block `b`. */
  function SpreadByte(c: Card, data: seq<u8>, b: nat, k: nat): u8
    requires c.file.Present?
  {
    if 4096 * b <= k < 4096 * b + |data| then data[k - 4096 * b]
    else if k < |c.file.bytes| then c.file.bytes[k]
    else 0
  }

  /** A write-back step writes the lowest waiting block: all of it, which ends its waiting, or what a torn write
      reached. Nothing else in the file changes, and nothing on the card. */
  lemma SpreadIsBytewise(c: Card, writeOk: bool, torn: seq<u8>, b: nat, k: nat)
    requires WellFormed(c) && c.file.Present? && |torn| <= BLOCK_SIZE && b in c.dirty && forall j: nat :: j < b ==> j !in c.dirty
    ensures var c' := StoreSpread(c, true, writeOk, torn);
            && c'.flat == c.flat && c'.banksel == c.banksel && c'.file.Present?
            && c'.dirty == (if writeOk then c.dirty - {b} else c.dirty)
            && (k < |c'.file.bytes| ==> c'.file.bytes[k] == SpreadByte(c, if writeOk then Block(c.flat, b) else torn, b, k))
  {
    assert FirstDirty(c.dirty, 0) == b;
    var data := if writeOk then Block(c.flat, b) else torn;
    if k < |Overwrite(c.file.bytes, b * BLOCK_SIZE, data)| { OverwriteIsBytewise(c.file.bytes, b * BLOCK_SIZE, data, k); }
  }

  /** Without a file to open or a block that waits it does nothing. */
  lemma SpreadIsIdle(c: Card, openOk: bool, writeOk: bool, torn: seq<u8>)
    requires WellFormed(c) && |torn| <= BLOCK_SIZE && (!openOk || c.file.Missing? || c.dirty == {})
    ensures StoreSpread(c, openOk, writeOk, torn) == c
  {
  }

  /** A restore succeeds exactly when the missing file was created whole, or every block of it was read whole;
      of what was read each byte is on the card, and the rest is as it was. */
  lemma RestoreIsBytewise(c: Card, openOk: bool, got: seq<seq<u8>>, writeOk: bool, part: seq<u8>, k: nat)
    requires WellFormed(c) && Readable(c.file, got) && |part| <= SIZE && k < 131072
    ensures var (c', ok) := Restore(c, openOk, got, writeOk, part);
            && (ok <==> openOk && if c.file.Missing? then writeOk else forall b :: 0 <= b < 32 ==> |got[b]| == 4096)
            && |c'.flat| == 131072
            && c'.flat[k] == if openOk && c.file.Present? && k % 4096 < |got[k / 4096]| then got[k / 4096][k % 4096] else c.flat[k]
  {
  }

  /** A card stored whole is in its file, and nothing waits; one that is not leaves the waiting blocks. */
  lemma StoreSettles(c: Card, openOk: bool, writeOk: bool, part: seq<u8>)
    requires WellFormed(c) && |part| <= SIZE
    ensures var t := Store(c, openOk, writeOk, part);
            && t.flat == c.flat && t.banksel == c.banksel
            && t.dirty == (if openOk && writeOk then {} else c.dirty)
            && t.file == if !openOk then c.file else Present(if writeOk then c.flat else part)
  {
  }

  // ----- the write-back invariant

  /** Every block that is not waiting has the same contents in the file. */
  ghost predicate Synced(c: Card) {
    && WellFormed(c)
    && c.file.Present? && |c.file.bytes| == SIZE
    && forall b :: 0 <= b < BLOCK_CNT && b !in c.dirty ==> Block(c.file.bytes, b) == Block(c.flat, b)
  }

  lemma SpliceBlock(s: seq<u8>, at: nat, data: seq<u8>, b: nat)
    requires |s| == SIZE && InBlock(at, |data|) && b < BLOCK_CNT && at + |data| <= |s|
    requires b != at / BLOCK_SIZE
    ensures Block(Splice(s, at, data), b) == Block(s, b)
  {
    var t := Splice(s, at, data);
    assert (b + 1) * BLOCK_SIZE <= at || at + |data| <= b * BLOCK_SIZE;
    forall k | b * BLOCK_SIZE <= k < (b + 1) * BLOCK_SIZE
      ensures t[k] == s[k]
    {
    }
  }

  lemma SpliceOwnBlock(s: seq<u8>, b: nat, data: seq<u8>)
    requires |s| == SIZE && b < BLOCK_CNT && |data| == BLOCK_SIZE
    ensures Block(Splice(s, b * BLOCK_SIZE, data), b) == data
  {
  }

  /** A write keeps the file in step exactly when the bank is one that is written back, the block was
      waiting already, or the file already has the new contents. */
  lemma WriteKeepsSynced(c: Card, addr: nat, data: seq<u8>)
    requires Synced(c) && InBlock(addr, |data|)
    ensures var b := addr / BLOCK_SIZE;
            b < BLOCK_CNT &&
            (Synced(Write(c, addr, data)) <==>
              c.banksel < BANKSEL_MAX || b in c.dirty || Block(Write(c, addr, data).flat, b) == Block(c.flat, b))
  {
    var c', b := Write(c, addr, data), addr / BLOCK_SIZE;
    forall k | 0 <= k < BLOCK_CNT && k != b
      ensures Block(c'.flat, k) == Block(c.flat, k)
    {
      SpliceBlock(c.flat, addr, data, k);
    }
  }

  lemma StoreSpreadKeepsSynced(c: Card, openOk: bool, writeOk: bool, torn: seq<u8>)
    requires Synced(c) && |torn| <= BLOCK_SIZE
    ensures Synced(StoreSpread(c, openOk, writeOk, torn))
  {
    var c', b := StoreSpread(c, openOk, writeOk, torn), FirstDirty(c.dirty, 0);
    if openOk && b < BLOCK_CNT {
      var data := if writeOk then Block(c.flat, b) else torn;
      assert b * BLOCK_SIZE / BLOCK_SIZE == b && InBlock(b * BLOCK_SIZE, |data|);
      if writeOk { SpliceOwnBlock(c.file.bytes, b, data); }
      forall k | 0 <= k < BLOCK_CNT && k != b
        ensures Block(c'.file.bytes, k) == Block(c.file.bytes, k)
      {
        SpliceBlock(c.file.bytes, b * BLOCK_SIZE, data, k);
      }
    }
  }

  /** A step that succeeds leaves exactly one block fewer waiting. */
  lemma StoreSpreadProgresses(c: Card, torn: seq<u8>)
    requires Synced(c) && c.dirty != {} && |torn| <= BLOCK_SIZE
    ensures |StoreSpread(c, true, true, torn).dirty| == |c.dirty| - 1
    ensures StoreSpread(c, true, true, torn).flat == c.flat
  {
    var b :| b in c.dirty;
    assert FirstDirty(c.dirty, 0) <= b;
  }

  lemma SameBlocksSameBytes(s: seq<u8>, t: seq<u8>)
    requires |s| == |t| == SIZE && forall b :: 0 <= b < BLOCK_CNT ==> Block(s, b) == Block(t, b)
    ensures s == t
  {
    forall k | 0 <= k < SIZE
      ensures s[k] == t[k]
    {
      var b := k / BLOCK_SIZE;
      assert b * BLOCK_SIZE <= k < (b + 1) * BLOCK_SIZE;
      assert Block(s, b)[k - b * BLOCK_SIZE] == Block(t, b)[k - b * BLOCK_SIZE];
    }
  }

  lemma NothingWaiting(c: Card)
    requires Synced(c) && |c.dirty| == 0
    ensures c.dirty == {} && c.file == Present(c.flat)
  {
    SameBlocksSameBytes(c.file.bytes, c.flat);
  }

  function Blank(): (s: seq<u8>)
    ensures |s| == BLOCK_SIZE
  {
    seq(BLOCK_SIZE, _ => 0)
  }

  /** The card after `n` successful write-back steps. */
  function Drain(c: Card, n: nat): (c': Card)
    requires WellFormed(c)
    ensures WellFormed(c')
  {
    if n == 0 then c else StoreSpread(Drain(c, n - 1), true, true, Blank())
  }

  lemma {:induction false} DrainSteps(c: Card, n: nat)
    requires Synced(c) && n <= |c.dirty|
    ensures var t := Drain(c, n); Synced(t) && t.flat == c.flat && |t.dirty| == |c.dirty| - n
  {
    if n > 0 {
      DrainSteps(c, n - 1);
      StoreSpreadKeepsSynced(Drain(c, n - 1), true, true, Blank());
      StoreSpreadProgresses(Drain(c, n - 1), Blank());
    }
  }

  /** Without new writes, exactly as many successful steps as there are blocks waiting make the file
      equal to the card; fewer leave blocks waiting. */
  lemma DrainEmpties(c: Card, n: nat)
    requires Synced(c) && n <= |c.dirty|
    ensures var t := Drain(c, n);
            && |t.dirty| == |c.dirty| - n && t.flat == c.flat
            && (n == |c.dirty| ==> t.dirty == {} && t.file == Present(c.flat))
  {
    DrainSteps(c, n);
    if n == |c.dirty| {
      NothingWaiting(Drain(c, n));
    }
  }

  /** What was on the card comes back from the file, whatever the memory held before the restore. */
  lemma RestoreRecovers(c: Card, memory: seq<u8>, got: seq<seq<u8>>)
    requires Synced(c) && |memory| == SIZE && Readable(Drain(c, |c.dirty|).file, got) && AllRead(got)
    ensures Restored(memory, got, BLOCK_CNT) == c.flat
  {
    DrainEmpties(c, |c.dirty|);
    RestoredFile(memory, got, c.flat);
  }

  datatype Event =
    | EvWrite(addr: nat, data: seq<u8>)
    | EvTimer(openOk: bool, writeOk: bool, torn: seq<u8>)

  predicate Possible(ev: Event) {
    match ev
    case EvWrite(addr, data) => InBlock(addr, |data|)
    case EvTimer(_, _, torn) => |torn| <= BLOCK_SIZE
  }

  predicate AllPossible(evs: seq<Event>) {
    evs == [] || (Possible(evs[0]) && AllPossible(evs[1..]))
  }

  function Apply(c: Card, ev: Event): (c': Card)
    requires WellFormed(c) && Possible(ev)
    ensures WellFormed(c')
  {
    match ev
    case EvWrite(addr, data) => Write(c, addr, data)
    case EvTimer(openOk, writeOk, torn) => StoreSpread(c, openOk, writeOk, torn)
  }

  function Run(c: Card, evs: seq<Event>): Card
    requires WellFormed(c)
    requires AllPossible(evs)
    decreases |evs|
  {
    if evs == [] then c else Run(Apply(c, evs[0]), evs[1..])
  }

  /** A run is its steps one after the other. */
  lemma {:induction false} RunIsSteps(c: Card, evs: seq<Event>, ev: Event)
    requires WellFormed(c) && AllPossible(evs) && Possible(ev)
    ensures AllPossible(evs + [ev]) && WellFormed(Run(c, evs)) && Run(c, evs + [ev]) == Apply(Run(c, evs), ev)
    decreases |evs|
  {
    if evs == [] {
      assert evs + [ev] == [ev] && [ev][1..] == [];
    } else {
      RunIsSteps(Apply(c, evs[0]), evs[1..], ev);
      assert (evs + [ev])[1..] == evs[1..] + [ev];
    }
  }

  /** Writes and write-back steps, failing ones included, in any order never leave a block out of step
      that is not waiting. */
  lemma {:induction false} EveryRunIsSynced(c: Card, evs: seq<Event>)
    requires Synced(c) && c.banksel < BANKSEL_MAX
    requires AllPossible(evs)
    ensures Synced(Run(c, evs))
    decreases |evs|
  {
    if evs != [] {
      match evs[0] {
        case EvWrite(addr, data) =>
          WriteKeepsSynced(c, addr, data);
          EveryRunIsSynced(Write(c, addr, data), evs[1..]);
        case EvTimer(openOk, writeOk, torn) =>
          StoreSpreadKeepsSynced(c, openOk, writeOk, torn);
          EveryRunIsSynced(StoreSpread(c, openOk, writeOk, torn), evs[1..]);
      }
    }
  }

  // ----- from the start of the firmware

  /** A restore that succeeds leaves card and file in step. */
  lemma RestoreIsSynced(c: Card, openOk: bool, got: seq<seq<u8>>, writeOk: bool, part: seq<u8>)
    requires WellFormed(c) && Readable(c.file, got) && |part| <= SIZE
    requires Restore(c, openOk, got, writeOk, part).1
    ensures Synced(Restore(c, openOk, got, writeOk, part).0)
    ensures Restore(c, openOk, got, writeOk, part).0.banksel == c.banksel
  {
    if c.file.Present? { RestoredFile(c.flat, got, c.file.bytes); }
  }

  /** After a start that reports success, every block that is not waiting equals the file, whatever is
      written and however the write-back fares. */
  lemma BootedRunIsSynced(memory: seq<u8>, file: File, banksel: nat, openOk: bool, got: seq<seq<u8>>,
                          writeOk: bool, part: seq<u8>, evs: seq<Event>)
    requires WellFormed(Card(memory, {}, file, banksel)) && Readable(file, got) && |part| <= SIZE
    requires Boot(memory, file, banksel, openOk, got, writeOk, part).1 && AllPossible(evs)
    ensures Synced(Run(Boot(memory, file, banksel, openOk, got, writeOk, part).0, evs))
  {
    RestoreIsSynced(Card(memory, {}, file, banksel), openOk, got, writeOk, part);
    EveryRunIsSynced(Boot(memory, file, banksel, openOk, got, writeOk, part).0, evs);
  }

  lemma CleanIsSyncedExactly(c: Card)
    requires WellFormed(c) && c.dirty == {}
    ensures Synced(c) <==> c.file == Present(c.flat)
  {
    if Synced(c) { SameBlocksSameBytes(c.file.bytes, c.flat); }
  }

  /** Card and file are in step after the start exactly when it reports success or the memory happens to hold
      what the file does. The firmware goes on in either case. */
  lemma BootIsSyncedExactly(memory: seq<u8>, file: File, banksel: nat, openOk: bool, got: seq<seq<u8>>,
                            writeOk: bool, part: seq<u8>)
    requires WellFormed(Card(memory, {}, file, banksel)) && Readable(file, got) && |part| <= SIZE
    ensures var (c, ok) := Boot(memory, file, banksel, openOk, got, writeOk, part);
            Synced(c) <==> ok || c.file == Present(c.flat)
  {
    var c0 := Card(memory, {}, file, banksel);
    if Boot(memory, file, banksel, openOk, got, writeOk, part).1 {
      RestoreIsSynced(c0, openOk, got, writeOk, part);
    } else {
      CleanIsSyncedExactly(Boot(memory, file, banksel, openOk, got, writeOk, part).0);
    }
  }

  /** What that means for each way in which the start fails: a bank without a file, a file that cannot be
      created or opened, one that cannot be written whole, and one that is read short. */
  lemma FailedBootIsSyncedExactly(memory: seq<u8>, file: File, banksel: nat, openOk: bool, got: seq<seq<u8>>,
                                  writeOk: bool, part: seq<u8>)
    requires WellFormed(Card(memory, {}, file, banksel)) && Readable(file, got) && |part| <= SIZE
    requires !Boot(memory, file, banksel, openOk, got, writeOk, part).1
    ensures var c := Boot(memory, file, banksel, openOk, got, writeOk, part).0;
            Synced(c) <==>
              if banksel >= BANKSEL_MAX || !openOk then file == Present(memory)
              else if file.Missing? then part == memory
              else file == Present(Restored(memory, got, BLOCK_CNT))
  {
    CleanIsSyncedExactly(Boot(memory, file, banksel, openOk, got, writeOk, part).0);
  }

  /** Nothing in these events writes to the block. */
  predicate Spares(evs: seq<Event>, b: nat) {
    forall k :: 0 <= k < |evs| && evs[k].EvWrite? ==> evs[k].addr / BLOCK_SIZE != b
  }

  predicate OutOfStep(c: Card, b: nat) {
    && WellFormed(c) && c.file.Present? && |c.file.bytes| == SIZE
    && b < BLOCK_CNT && b !in c.dirty && Block(c.file.bytes, b) != Block(c.flat, b)
  }

  lemma StepLeavesOutOfStep(c: Card, ev: Event, b: nat)
    requires OutOfStep(c, b) && Possible(ev) && (ev.EvWrite? ==> ev.addr / BLOCK_SIZE != b)
    ensures OutOfStep(Apply(c, ev), b)
  {
    match ev
    case EvWrite(addr, data) =>
      InBlockFits(addr, |data|);
      SpliceBlock(c.flat, addr, data, b);
    case EvTimer(openOk, writeOk, torn) =>
      var d := FirstDirty(c.dirty, 0);
      if openOk && d < BLOCK_CNT {
        assert d != b && d * BLOCK_SIZE / BLOCK_SIZE == d;
        SpliceBlock(c.file.bytes, d * BLOCK_SIZE, if writeOk then Block(c.flat, d) else torn, b);
      }
  }

  /** Write-back never repairs a block that a failed restore left out of step: only a write to it can. */
  lemma {:induction false} OutOfStepStays(c: Card, evs: seq<Event>, b: nat)
    requires OutOfStep(c, b) && AllPossible(evs) && Spares(evs, b)
    ensures OutOfStep(Run(c, evs), b)
    decreases |evs|
  {
    if evs != [] {
      StepLeavesOutOfStep(c, evs[0], b);
      assert forall k :: 0 <= k < |evs[1..]| ==> evs[1..][k] == evs[k + 1];
      OutOfStepStays(Apply(c, evs[0]), evs[1..], b);
    }
  }

  /** A start that leaves card and file out of step does so in some block. */
  lemma SomeBlockIsOutOfStep(memory: seq<u8>, file: File, banksel: nat, openOk: bool, got: seq<seq<u8>>,
                             writeOk: bool, part: seq<u8>) returns (b: nat)
    requires WellFormed(Card(memory, {}, file, banksel)) && Readable(file, got) && |part| <= SIZE
    requires var c := Boot(memory, file, banksel, openOk, got, writeOk, part).0;
             !Synced(c) && c.file.Present? && |c.file.bytes| == SIZE
    ensures OutOfStep(Boot(memory, file, banksel, openOk, got, writeOk, part).0, b)
  {
    var c := Boot(memory, file, banksel, openOk, got, writeOk, part).0;
    b :| 0 <= b < BLOCK_CNT && b !in c.dirty && Block(c.file.bytes, b) != Block(c.flat, b);
  }

  // ----- the card in memory

  class CardMemory {
    const pages: seq<array<u8>>
    const banksel: nat
    var dirty: set<nat>
    var file: File
    var mcReady: bool

    ghost predicate Shaped() {
      && |pages| == BLOCK_CNT
      && (forall b :: 0 <= b < BLOCK_CNT ==> pages[b].Length == BLOCK_SIZE)
      && (forall b, b' :: 0 <= b < b' < BLOCK_CNT ==> pages[b] != pages[b'])
    }

    ghost function Flat(): (s: seq<u8>)
      requires Shaped()
      reads pages
      ensures |s| == SIZE
    {
      seq(SIZE, i requires 0 <= i < SIZE reads pages => pages[i / BLOCK_SIZE][i % BLOCK_SIZE])
    }

    ghost function View(): Card
      requires Shaped()
      reads this, pages
    {
      Card(Flat(), dirty, file, banksel)
    }

    ghost predicate Valid()
      reads this, pages
    {
      Shaped() && WellFormed(View())
    }

    constructor (pages: seq<array<u8>>, banksel: nat, file: File)
      requires |pages| == BLOCK_CNT && forall b :: 0 <= b < BLOCK_CNT ==> pages[b].Length == BLOCK_SIZE
      requires forall b, b' :: 0 <= b < b' < BLOCK_CNT ==> pages[b] != pages[b']
      requires file.Present? ==> |file.bytes| <= SIZE
      ensures Valid() && this.pages == pages && this.banksel == banksel && this.file == file && dirty == {} && !mcReady
    {
      this.pages, this.banksel, this.file, dirty, mcReady := pages, banksel, file, {}, false;
    }

    method McRead(addr: nat, size: nat) returns (data: seq<u8>)
      requires Valid() && InBlock(addr, size)
      ensures addr + size <= SIZE && data == Flat()[addr..addr + size]
    {
      var page, at := pages[addr / BLOCK_SIZE], addr % BLOCK_SIZE;
      data := page[at..at + size];
      InBlockFits(addr, size);
      forall k | 0 <= k < size
        ensures data[k] == Flat()[addr + k]
      {
        assert (addr + k) / BLOCK_SIZE == addr / BLOCK_SIZE && (addr + k) % BLOCK_SIZE == at + k;
      }
    }

    method McWrite(addr: nat, data: seq<u8>)
      requires Valid() && InBlock(addr, |data|)
      modifies this`dirty, pages[addr / BLOCK_SIZE]
      ensures Valid() && View() == Write(old(View()), addr, data)
    {
      InBlockFits(addr, |data|);
      var b, at := addr / BLOCK_SIZE, addr % BLOCK_SIZE;
      var page := pages[b];
      for i := 0 to |data|
        invariant dirty == old(dirty)
        invariant forall k :: 0 <= k < i ==> page[at + k] == data[k]
        invariant forall k :: 0 <= k < BLOCK_SIZE && !(at <= k < at + i) ==> page[k] == old(page[k])
      {
        page[at + i] := data[i];
      }
      if banksel < BANKSEL_MAX {
        dirty := dirty + {b};
      }
      forall k | 0 <= k < SIZE
        ensures Flat()[k] == Splice(old(Flat()), addr, data)[k]
      {
        if k / BLOCK_SIZE == b {
          assert k == b * BLOCK_SIZE + k % BLOCK_SIZE;
          if addr <= k < addr + |data| {
            assert page[at + (k - addr)] == data[k - addr];
          }
        } else {
          assert pages[k / BLOCK_SIZE] != page;
        }
      }
    }

    /** The timer callback. */
    method McStoreSpread(openOk: bool, writeOk: bool, torn: seq<u8>) returns (ret: int)
      requires Valid() && |torn| <= BLOCK_SIZE
      modifies this`dirty, this`file
      ensures Valid() && View() == StoreSpread(old(View()), openOk, writeOk, torn)
      ensures ret == if openOk && writeOk && !old(file).Missing? && old(dirty) != {} then 0 else -1
    {
      ret := -1;
      var b := FindFirstDirty();
      if openOk && !file.Missing? {
        if b < BLOCK_CNT {
          PageIsBlock(b);
          file := Present(Overwrite(file.bytes, b * BLOCK_SIZE, if writeOk then pages[b][..] else torn));
          if writeOk {
            ret := 0;
            dirty := dirty - {b};
          }
        }
      }
    }

    method FindFirstDirty() returns (b: nat)
      requires Valid()
      ensures b == FirstDirty(dirty, 0)
      ensures b == BLOCK_CNT <==> dirty == {}
    {
      b := 0;
      while b < BLOCK_CNT && b !in dirty
        invariant b <= BLOCK_CNT && FirstDirty(dirty, 0) == FirstDirty(dirty, b)
        invariant forall k :: 0 <= k < b ==> k !in dirty
      {
        b := b + 1;
      }
    }

    lemma PageIsBlock(b: nat)
      requires Valid() && b < BLOCK_CNT
      ensures pages[b][..] == Block(Flat(), b)
    {
      forall k | 0 <= k < BLOCK_SIZE
        ensures pages[b][k] == Block(Flat(), b)[k]
      {
        assert (b * BLOCK_SIZE + k) / BLOCK_SIZE == b && (b * BLOCK_SIZE + k) % BLOCK_SIZE == k;
      }
    }

    /** Writes all pages to a new file. */
    method McStore(openOk: bool, writeOk: bool, part: seq<u8>) returns (ret: int)
      requires Valid() && |part| <= SIZE
      modifies this`dirty, this`file
      ensures Valid() && View() == Store(old(View()), openOk, writeOk, part)
      ensures ret == if openOk && writeOk then 0 else -1
    {
      ret := -1;
      if !openOk {
        return;
      }
      var bytes: seq<u8> := [];
      for b := 0 to BLOCK_CNT
        invariant dirty == old(dirty) && file == old(file)
        invariant |bytes| == b * BLOCK_SIZE && bytes == Flat()[..b * BLOCK_SIZE]
      {
        PageIsBlock(b);
        assert Flat()[..(b + 1) * BLOCK_SIZE] == Flat()[..b * BLOCK_SIZE] + Block(Flat(), b);
        bytes := bytes + pages[b][..];
      }
      assert bytes == Flat();
      if writeOk {
        ret := 0;
        file := Present(bytes);
        dirty := {};
      } else {
        file := Present(part);
      }
    }

    /** Reads the file back into the pages, or creates it when there is none. `got` is what reading gives
        for each block. */
    method McRestore(openOk: bool, got: seq<seq<u8>>, writeOk: bool, part: seq<u8>) returns (ret: int)
      requires Valid() && Readable(file, got) && |part| <= SIZE
      modifies this`dirty, this`file, pages
      ensures Valid()
      ensures (View(), ret == 0) == Restore(old(View()), openOk, got, writeOk, part)
      ensures ret == 0 || ret == -1
    {
      ret := -1;
      if file.Missing? {
        ret := McStore(openOk, writeOk, part);
        return;
      }
      if !openOk {
        return;
      }
      var count := 0;
      for b := 0 to BLOCK_CNT
        invariant Valid() && dirty == old(dirty) && file == old(file)
        invariant 0 <= count <= b && (count == b <==> forall k :: 0 <= k < b ==> |got[k]| == BLOCK_SIZE)
        invariant Flat() == Restored(old(Flat()), got, b)
      {
        LoadPage(b, got[b]);
        if |got[b]| == BLOCK_SIZE {
          count := count + 1;
        }
      }
      if count == BLOCK_CNT {
        ret := 0;
      }
    }

    /** Puts what was read of a block over its page. */
    method LoadPage(b: nat, data: seq<u8>)
      requires Valid() && b < BLOCK_CNT && |data| <= BLOCK_SIZE
      modifies pages[b]
      ensures Valid()
      ensures forall k :: 0 <= k < SIZE ==>
        Flat()[k] == if k / BLOCK_SIZE == b && k % BLOCK_SIZE < |data| then data[k % BLOCK_SIZE] else old(Flat())[k]
    {
      var page := pages[b];
      for i := 0 to |data|
        invariant forall k :: 0 <= k < i ==> page[k] == data[k]
        invariant forall k :: i <= k < BLOCK_SIZE ==> page[k] == old(page[k])
      {
        page[i] := data[i];
      }
      forall k | 0 <= k < SIZE && k / BLOCK_SIZE != b
        ensures Flat()[k] == old(Flat())[k]
      {
        assert pages[k / BLOCK_SIZE] != page;
      }
    }

    /** Restores the card when its bank has a file, and remembers whether that succeeded. */
    method McInit(openOk: bool, got: seq<seq<u8>>, writeOk: bool, part: seq<u8>) returns (ret: int)
      requires Valid() && dirty == {} && !mcReady && Readable(file, got) && |part| <= SIZE
      modifies this, pages
      ensures Valid() && (View(), mcReady) == Boot(old(Flat()), old(file), banksel, openOk, got, writeOk, part)
      ensures ret == if mcReady then 0 else -1
    {
      ret := -1;
      if banksel < BANKSEL_MAX {
        ret := McRestore(openOk, got, writeOk, part);
      }
      if ret == 0 {
        mcReady := true;
      }
    }
  }
}
