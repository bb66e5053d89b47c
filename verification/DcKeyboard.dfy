/**
 The Dreamcast keyboard: six keys at a time, kept in order of arrival in an array that is compacted
 and filled in place, the scancodes that go on the wire for them, and the modifier byte between them.

 The generic input is given as two sequences of booleans, one per key: whether the input device has
 the key mapped, and whether it is pressed.
 */
module DcKeyboard {
  const NONE := -1
  const SLOTS := 6
  const KEYS := 128
  const KBM_MAX := 115

  // Keys that are reported in the modifier byte.
  const LCTRL := 26
  const LSHIFT := 30
  const LWIN := 22
  const LALT := 110
  const RCTRL := 111
  const RSHIFT := 112
  const RALT := 113
  const RWIN := 114

  const MODIFIER_BYTE := 3

  /** Where in the eight wire bytes each slot goes. */
  const KEYCODE_IDX: seq<nat> := [1, 0, 7, 6, 5, 4]

  // Scancodes of the keys from 0, 32, 64 and 96 on; 0 means that the key has none.
  const SCANCODES_0: seq<nat> := [
    0x04, 0x07, 0x16, 0x1A, 0x00, 0x00, 0x00, 0x00, 0x50, 0x4F, 0x51, 0x52, 0x00, 0x00, 0x00, 0x00,
    0x14, 0x15, 0x08, 0x09, 0x29, 0x28, 0x00, 0x35, 0x00, 0x1D, 0x00, 0x00, 0x00, 0x1B, 0x00, 0x2C
  ]
  const SCANCODES_32: seq<nat> := [
    0x05, 0x06, 0x0A, 0x0B, 0x0C, 0x0D, 0x0E, 0x0F, 0x10, 0x11, 0x12, 0x13, 0x17, 0x18, 0x19, 0x1C,
    0x1E, 0x1F, 0x20, 0x21, 0x22, 0x23, 0x24, 0x25, 0x26, 0x27, 0x2A, 0x2B, 0x2D, 0x2E, 0x30, 0x32
  ]
  const SCANCODES_64: seq<nat> := [
    0x87, 0x33, 0x34, 0x89, 0x36, 0x37, 0x38, 0x39, 0x3A, 0x3B, 0x3C, 0x3D, 0x3E, 0x3F, 0x40, 0x41,
    0x42, 0x43, 0x44, 0x45, 0x46, 0x47, 0x48, 0x49, 0x4A, 0x4B, 0x4C, 0x4D, 0x4E, 0x53, 0x54, 0x55
  ]
  const SCANCODES_96: seq<nat> := [
    0x56, 0x57, 0x58, 0x59, 0x5A, 0x5B, 0x5C, 0x5D, 0x5E, 0x5F, 0x60, 0x61, 0x62, 0x63, 0x00, 0x00,
    0x00, 0x00, 0x00
  ]

  const SCANCODES: seq<nat> := SCANCODES_0 + SCANCODES_32 + SCANCODES_64 + SCANCODES_96

  type Bits = s: seq<bool> | |s| == KEYS witness seq(KEYS, _ => false)
  type Table = s: seq<nat> | |s| == KBM_MAX witness seq(KBM_MAX, _ => 0)

  // ----- what one update does to the list of keys

  /** The keys that are still pressed, in their order. */
  function Held(keys: seq<int>, pressed: Bits): (r: seq<int>)
    requires AllKeys(keys)
    ensures AllKeys(r) && |r| <= |keys|
  {
    if keys == [] then []
    else if pressed[keys[0]] then [keys[0]] + Held(keys[1..], pressed)
    else Held(keys[1..], pressed)
  }

  /** A key that may take a slot. */
  predicate Wanted(k: int, pressed: Bits, mapped: Bits, scan: Table) {
    0 <= k < KBM_MAX && mapped[k] && pressed[k] && scan[k] != 0
  }

  /** The wanted keys below `n` that are not held, in ascending order. */
  function New(held: seq<int>, n: nat, pressed: Bits, mapped: Bits, scan: Table): seq<int>
    requires n <= KBM_MAX
  {
    if n == 0 then []
    else
      New(held, n - 1, pressed, mapped, scan) +
      (if Wanted(n - 1, pressed, mapped, scan) && n - 1 !in held then [n - 1] else [])
  }

  function Take(s: seq<int>): (r: seq<int>)
    ensures |r| <= SLOTS && r <= s
  {
    if |s| <= SLOTS then s else s[..SLOTS]
  }

  function Update(keys: seq<int>, pressed: Bits, mapped: Bits, scan: Table): seq<int>
    requires AllKeys(keys)
  {
    var held := Held(keys, pressed);
    Take(held + New(held, KBM_MAX, pressed, mapped, scan))
  }

  predicate AllKeys(keys: seq<int>) {
    forall i :: 0 <= i < |keys| ==> 0 <= keys[i] < KBM_MAX
  }

  predicate NoDuplicates(keys: seq<int>) {
    forall i, j :: 0 <= i < j < |keys| ==> keys[i] != keys[j]
  }

  predicate Listed(keys: seq<int>) {
    |keys| <= SLOTS && AllKeys(keys) && NoDuplicates(keys)
  }

  lemma {:induction false} HeldProperties(keys: seq<int>, pressed: Bits)
    requires AllKeys(keys)
    ensures forall k :: k in Held(keys, pressed) <==> k in keys && pressed[k]
    ensures NoDuplicates(keys) ==> NoDuplicates(Held(keys, pressed))
  {
    if keys != [] {
      HeldProperties(keys[1..], pressed);
      assert keys == [keys[0]] + keys[1..];
    }
  }

  /** `sub` is `keys` with some entries left out. */
  predicate Subsequence(sub: seq<int>, keys: seq<int>) {
    if sub == [] then true
    else if keys == [] then false
    else if sub[0] == keys[0] then Subsequence(sub[1..], keys[1..])
    else Subsequence(sub, keys[1..])
  }

  lemma {:induction false} HeldKeepsOrder(keys: seq<int>, pressed: Bits)
    requires AllKeys(keys)
    ensures Subsequence(Held(keys, pressed), keys)
  {
    if keys != [] {
      HeldKeepsOrder(keys[1..], pressed);
      HeldProperties(keys[1..], pressed);
      var rest := Held(keys[1..], pressed);
      assert rest != [] ==> rest[0] in rest;
    }
  }

  lemma {:induction false} NewMember(held: seq<int>, n: nat, pressed: Bits, mapped: Bits, scan: Table, k: int)
    requires n <= KBM_MAX
    ensures k in New(held, n, pressed, mapped, scan) <==> 0 <= k < n && Wanted(k, pressed, mapped, scan) && k !in held
  {
    if n > 0 {
      NewMember(held, n - 1, pressed, mapped, scan, k);
    }
  }

  lemma NewMembers(held: seq<int>, n: nat, pressed: Bits, mapped: Bits, scan: Table)
    requires n <= KBM_MAX
    ensures forall k :: k in New(held, n, pressed, mapped, scan) <==> 0 <= k < n && Wanted(k, pressed, mapped, scan) && k !in held
  {
    forall k
      ensures k in New(held, n, pressed, mapped, scan) <==> 0 <= k < n && Wanted(k, pressed, mapped, scan) && k !in held
    {
      NewMember(held, n, pressed, mapped, scan, k);
    }
  }

  lemma {:induction false} NewProperties(held: seq<int>, n: nat, pressed: Bits, mapped: Bits, scan: Table)
    requires n <= KBM_MAX
    ensures NoDuplicates(New(held, n, pressed, mapped, scan)) && AllKeys(New(held, n, pressed, mapped, scan))
  {
    if n > 0 {
      NewProperties(held, n - 1, pressed, mapped, scan);
      var r := New(held, n - 1, pressed, mapped, scan);
      NewMembers(held, n - 1, pressed, mapped, scan);
      assert forall i :: 0 <= i < |r| ==> r[i] in r;
    }
  }

  /** After an update the list has no duplicates and only pressed keys; the keys held over come first, in
      their old order, none displaced; and every wanted key is listed unless all slots are taken. */
  lemma UpdateIsRight(keys: seq<int>, pressed: Bits, mapped: Bits, scan: Table)
    requires Listed(keys)
    ensures var u, held := Update(keys, pressed, mapped, scan), Held(keys, pressed);
            && Listed(u)
            && held <= u && Subsequence(held, keys)
            && (forall k :: k in held <==> k in keys && pressed[k])
            && (forall k :: k in u ==> 0 <= k < KBM_MAX && pressed[k] && (k in keys || Wanted(k, pressed, mapped, scan)))
            && (|u| == SLOTS || forall k :: Wanted(k, pressed, mapped, scan) ==> k in u)
  {
    var held := Held(keys, pressed);
    var news := New(held, KBM_MAX, pressed, mapped, scan);
    var u := Take(held + news);
    HeldProperties(keys, pressed);
    HeldKeepsOrder(keys, pressed);
    NewProperties(held, KBM_MAX, pressed, mapped, scan);
    NewMembers(held, KBM_MAX, pressed, mapped, scan);
    assert NoDuplicates(held + news) by {
      assert forall i :: 0 <= i < |held| ==> held[i] in held;
      assert forall i :: 0 <= i < |news| ==> news[i] in news;
    }
    assert forall k :: k in u ==> k in held + news;
    assert held <= u;
  }

  /** While fewer than six keys are listed no key with a scancode is missing. */
  lemma PressedKeysAreListed(keys: seq<int>, pressed: Bits, mapped: Bits, scan: Table, k: nat)
    requires Listed(keys) && k < 115 && pressed[k] && mapped[k] && scan[k] != 0
    requires |Update(keys, pressed, mapped, scan)| < 6
    ensures k in Update(keys, pressed, mapped, scan)
  {
    UpdateIsRight(keys, pressed, mapped, scan);
    assert Wanted(k, pressed, mapped, scan);
  }

  // ----- runs

  datatype Report = Report(pressed: Bits, mapped: Bits)

  function Run(keys: seq<int>, reports: seq<Report>, scan: Table): seq<int>
    requires Listed(keys)
    decreases |reports|
  {
    if reports == [] then keys
    else
      UpdateIsRight(keys, reports[0].pressed, reports[0].mapped, scan);
      Run(Update(keys, reports[0].pressed, reports[0].mapped, scan), reports[1..], scan)
  }

  /** After any reports the list is sound, and complete for the last of them. */
  lemma {:induction false} RunIsRight(keys: seq<int>, reports: seq<Report>, scan: Table)
    requires Listed(keys) && reports != []
    ensures var u, last := Run(keys, reports, scan), reports[|reports| - 1];
            && Listed(u)
            && (forall k :: k in u ==> 0 <= k < KBM_MAX && last.pressed[k])
            && (|u| == SLOTS || forall k :: Wanted(k, last.pressed, last.mapped, scan) ==> k in u)
    decreases |reports|
  {
    UpdateIsRight(keys, reports[0].pressed, reports[0].mapped, scan);
    if |reports| > 1 {
      RunIsRight(Update(keys, reports[0].pressed, reports[0].mapped, scan), reports[1..], scan);
    }
  }

  // ----- the modifier byte

  function Flag(k: nat, pressed: Bits, mapped: Bits, weight: nat): nat
    requires k < KEYS
  {
    if mapped[k] && pressed[k] then weight else 0
  }

  function Modifiers(pressed: Bits, mapped: Bits): (b: nat)
    ensures b < 256
  {
    Flag(LCTRL, pressed, mapped, 1) + Flag(LSHIFT, pressed, mapped, 2) + Flag(LALT, pressed, mapped, 4) +
    Flag(LWIN, pressed, mapped, 8) + Flag(RCTRL, pressed, mapped, 16) + Flag(RSHIFT, pressed, mapped, 32) +
    Flag(RALT, pressed, mapped, 64) + Flag(RWIN, pressed, mapped, 128)
  }

  /** The keys behind the bits of the modifier byte, from the lowest on: control, shift, alt and window on the
      left, then on the right. */
  const MODIFIER_KEYS: seq<nat> := [26, 30, 110, 22, 111, 112, 113, 114]

  /** Bit `i` of a number, the lowest being bit 0. */
  predicate Bit(n: nat, i: nat) {
    if i == 0 then n % 2 == 1 else Bit(n / 2, i - 1)
  }

  /** The number whose bits these are, the lowest first. */
  function Number(bits: seq<bool>): nat {
    if bits == [] then 0 else (if bits[0] then 1 else 0) + 2 * Number(bits[1..])
  }

  lemma {:induction false} BitOfNumber(bits: seq<bool>, i: nat)
    requires i < |bits|
    ensures Bit(Number(bits), i) <==> bits[i]
    decreases i
  {
    if i > 0 { BitOfNumber(bits[1..], i - 1); }
  }

  function ModifierFlags(pressed: Bits, mapped: Bits): (fs: seq<bool>)
    ensures |fs| == 8
    ensures forall i :: 0 <= i < 8 ==>
              var k := MODIFIER_KEYS[i]; k < KEYS && fs[i] == (mapped[k] && pressed[k])
  {
    seq(8, i requires 0 <= i < 8 => mapped[MODIFIER_KEYS[i]] && pressed[MODIFIER_KEYS[i]])
  }

  function Weigh(bit: bool, weight: nat): nat {
    if bit then weight else 0
  }

  lemma FourBits(bits: seq<bool>)
    requires |bits| >= 4
    ensures Number(bits) ==
            Weigh(bits[0], 1) + Weigh(bits[1], 2) + Weigh(bits[2], 4) + Weigh(bits[3], 8) + 16 * Number(bits[4..])
  {
    assert bits[1..][1..] == bits[2..] && bits[2..][1..] == bits[3..] && bits[3..][1..] == bits[4..];
    assert Number(bits[2..]) == Weigh(bits[2], 1) + 2 * Number(bits[3..]);
    assert Number(bits[3..]) == Weigh(bits[3], 1) + 2 * Number(bits[4..]);
  }

  lemma ModifiersAreFlags(pressed: Bits, mapped: Bits)
    ensures Modifiers(pressed, mapped) == Number(ModifierFlags(pressed, mapped))
  {
    var f := ModifierFlags(pressed, mapped);
    FourBits(f);
    FourBits(f[4..]);
    assert f[4..][4..] == [];
  }

  /** Bit `i` of the modifier byte is set exactly when its key is mapped and pressed. */
  lemma ModifierBits(pressed: Bits, mapped: Bits, i: nat)
    requires i < 8
    ensures MODIFIER_KEYS[i] < KEYS
    ensures Bit(Modifiers(pressed, mapped), i) <==> mapped[MODIFIER_KEYS[i]] && pressed[MODIFIER_KEYS[i]]
  {
    ModifiersAreFlags(pressed, mapped);
    BitOfNumber(ModifierFlags(pressed, mapped), i);
  }

  /** Modifier keys have no scancode, so they never take a slot. */
  lemma ModifiersTakeNoSlot(k: int, pressed: Bits, mapped: Bits)
    requires k in {LCTRL, LSHIFT, LALT, LWIN, RCTRL, RSHIFT, RALT, RWIN}
    ensures |SCANCODES| == KBM_MAX && !Wanted(k, pressed, mapped, SCANCODES)
  {
    assert SCANCODES_0[LWIN] == 0 && SCANCODES_0[LCTRL] == 0 && SCANCODES_0[LSHIFT] == 0;
    assert SCANCODES_96[LALT - 96] == 0 && SCANCODES_96[RCTRL - 96] == 0 && SCANCODES_96[RSHIFT - 96] == 0;
    assert SCANCODES_96[RALT - 96] == 0 && SCANCODES_96[RWIN - 96] == 0;
  }

  // ----- the arrays

  /** The key list and its wire bytes: listed keys first, then empty slots. */
  ghost predicate Holds(a: seq<int>, keys: seq<int>) {
    && |a| == SLOTS && |keys| <= SLOTS && AllKeys(keys)
    && a[..|keys|] == keys
    && forall i :: |keys| <= i < SLOTS ==> a[i] == NONE
  }

  ghost predicate Wire(codes: seq<nat>, keys: seq<int>, scan: Table)
    requires |codes| == 8 && |keys| <= SLOTS && AllKeys(keys)
  {
    forall i :: 0 <= i < SLOTS ==> codes[KEYCODE_IDX[i]] == if i < |keys| then scan[keys[i]] else 0
  }

  class Keyboard {
    const brKeyCodes: array<int>
    const keyCodes: array<nat>
    const scan: Table
    ghost var keys: seq<int>

    ghost predicate Valid()
      reads this, brKeyCodes, keyCodes
    {
      && brKeyCodes.Length == SLOTS && keyCodes.Length == 8
      && Listed(keys) && Holds(brKeyCodes[..], keys)
    }

    constructor ()
      ensures Valid() && keys == [] && Wire(keyCodes[..], keys, scan)
      ensures scan == SCANCODES && keyCodes[MODIFIER_BYTE] == 0
      ensures fresh(brKeyCodes) && fresh(keyCodes)
    {
      brKeyCodes := new int[SLOTS](_ => NONE);
      keyCodes := new nat[8](_ => 0);
      scan := SCANCODES;
      keys := [];
    }

    /** Takes slot `i` out by moving the later ones up. */
    method Remove(i: nat)
      requires Valid() && i < |keys|
      modifies this`keys, brKeyCodes
      ensures Valid() && keys == old(keys)[..i] + old(keys)[i + 1..]
    {
      var j := i;
      while j < SLOTS - 1
        invariant i <= j <= SLOTS - 1
        invariant keys == old(keys)
        invariant forall k :: 0 <= k < i ==> brKeyCodes[k] == old(brKeyCodes[k])
        invariant forall k :: i <= k < j ==> brKeyCodes[k] == old(brKeyCodes[k + 1])
        invariant forall k :: j <= k < SLOTS ==> brKeyCodes[k] == old(brKeyCodes[k])
      {
        brKeyCodes[j] := brKeyCodes[j + 1];
        j := j + 1;
      }
      brKeyCodes[j] := NONE;
      assert forall k :: 0 <= k < |keys| ==> old(brKeyCodes[k]) == old(brKeyCodes[..|keys|])[k] == old(keys)[k];
      keys := keys[..i] + keys[i + 1..];
    }

    /** Clears released keys. After a removal the same slot is looked at again. */
    method ReleaseKeys(pressed: Bits)
      requires Valid()
      modifies this`keys, brKeyCodes
      ensures Valid() && keys == Held(old(keys), pressed)
    {
      var i := 0;
      while i < SLOTS
        invariant 0 <= i <= SLOTS && Valid()
        invariant forall k :: 0 <= k < i && k < |keys| ==> pressed[keys[k]]
        invariant Held(keys, pressed) == Held(old(keys), pressed)
        decreases |keys| + SLOTS - i
      {
        assert i < |keys| ==> brKeyCodes[i] == brKeyCodes[..|keys|][i];
        if brKeyCodes[i] > NONE && !pressed[brKeyCodes[i]] {
          HeldWithout(keys, i, pressed);
          Remove(i);
        } else {
          i := i + 1;
        }
      }
      HeldAll(keys, pressed);
    }

    /** Writes the scancodes of the listed keys and zeroes the other wire bytes. */
    method RefreshCodes() returns (codeIdx: nat)
      requires Valid()
      modifies keyCodes
      ensures codeIdx == |keys| && Wire(keyCodes[..], keys, scan)
      ensures keyCodes[2] == old(keyCodes[2]) && keyCodes[MODIFIER_BYTE] == old(keyCodes[MODIFIER_BYTE])
    {
      codeIdx := 0;
      for i := 0 to SLOTS
        invariant codeIdx == if i < |keys| then i else |keys|
        invariant forall k :: 0 <= k < i ==> keyCodes[KEYCODE_IDX[k]] == if k < |keys| then scan[keys[k]] else 0
        invariant keyCodes[2] == old(keyCodes[2]) && keyCodes[MODIFIER_BYTE] == old(keyCodes[MODIFIER_BYTE])
      {
        assert i < |keys| ==> brKeyCodes[i] == brKeyCodes[..|keys|][i];
        if brKeyCodes[i] == NONE {
          keyCodes[KEYCODE_IDX[i]] := 0;
        } else {
          keyCodes[KEYCODE_IDX[i]] := scan[brKeyCodes[i]];
          codeIdx := codeIdx + 1;
        }
      }
    }

    method IsListed(key: int) returns (found: bool)
      requires Valid() && key >= 0
      ensures found == (key in keys)
    {
      found := false;
      for j := 0 to SLOTS
        invariant forall k :: 0 <= k < j ==> brKeyCodes[k] != key
      {
        if brKeyCodes[j] == key {
          assert j < |keys|;
          assert keys[j] == brKeyCodes[..|keys|][j];
          return true;
        }
      }
      assert forall k :: 0 <= k < |keys| ==> keys[k] == brKeyCodes[..|keys|][k] == brKeyCodes[k];
    }

    method Append(codeIdx: nat, key: int)
      requires Valid() && codeIdx == |keys| < SLOTS && 0 <= key < KBM_MAX && key !in keys && Wire(keyCodes[..], keys, scan)
      modifies this`keys, brKeyCodes, keyCodes
      ensures Valid() && keys == old(keys) + [key] && Wire(keyCodes[..], keys, scan)
      ensures keyCodes[2] == old(keyCodes[2]) && keyCodes[MODIFIER_BYTE] == old(keyCodes[MODIFIER_BYTE])
    {
      brKeyCodes[codeIdx] := key;
      keyCodes[KEYCODE_IDX[codeIdx]] := scan[key];
      keys := keys + [key];
    }

    /** Adds key `i` when it is wanted and not listed. */
    method AddKey(ghost was: seq<int>, i: nat, codeIdx: nat, pressed: Bits, mapped: Bits) returns (codeIdx': nat)
      requires Valid() && Wire(keyCodes[..], keys, scan) && codeIdx == |keys| < SLOTS && i < KBM_MAX
      requires keys == was + New(was, i, pressed, mapped, scan)
      modifies this`keys, brKeyCodes, keyCodes
      ensures Valid() && Wire(keyCodes[..], keys, scan) && codeIdx' == |keys|
      ensures keys == was + New(was, i + 1, pressed, mapped, scan)
      ensures keyCodes[2] == old(keyCodes[2]) && keyCodes[MODIFIER_BYTE] == old(keyCodes[MODIFIER_BYTE])
    {
      codeIdx' := codeIdx;
      if mapped[i] && pressed[i] {
        if scan[i] != 0 {
          NewMember(was, i, pressed, mapped, scan, i);
          var listed := IsListed(i);
          if !listed {
            Append(codeIdx, i);
            codeIdx' := codeIdx + 1;
          }
        }
      }
    }

    /** Adds new keys while slots are free. */
    method AddKeys(held: nat, pressed: Bits, mapped: Bits)
      requires Valid() && held == |keys| && Wire(keyCodes[..], keys, scan)
      modifies this`keys, brKeyCodes, keyCodes
      ensures Valid() && keys == Take(old(keys) + New(old(keys), KBM_MAX, pressed, mapped, scan))
      ensures Wire(keyCodes[..], keys, scan)
      ensures keyCodes[2] == old(keyCodes[2]) && keyCodes[MODIFIER_BYTE] == old(keyCodes[MODIFIER_BYTE])
    {
      ghost var was := keys;
      var codeIdx, i := held, 0;
      while i < KBM_MAX && codeIdx < SLOTS
        invariant 0 <= i <= KBM_MAX && Valid() && Wire(keyCodes[..], keys, scan)
        invariant codeIdx == |keys| && keys == was + New(was, i, pressed, mapped, scan)
        invariant keyCodes[2] == old(keyCodes[2]) && keyCodes[MODIFIER_BYTE] == old(keyCodes[MODIFIER_BYTE])
      {
        codeIdx := AddKey(was, i, codeIdx, pressed, mapped);
        i := i + 1;
      }
      AddedAll(was, i, pressed, mapped, scan);
    }

    /** The bits that are set are all different, so adding their weights is or-ing them. */
    method SetModifiers(pressed: Bits, mapped: Bits)
      requires Valid() && Wire(keyCodes[..], keys, scan)
      modifies keyCodes
      ensures keyCodes[MODIFIER_BYTE] == Modifiers(pressed, mapped)
      ensures keyCodes[2] == old(keyCodes[2]) && Wire(keyCodes[..], keys, scan)
    {
      var bitfield := 0;
      if mapped[LCTRL] && pressed[LCTRL] { bitfield := bitfield + 1; }
      if mapped[LSHIFT] && pressed[LSHIFT] { bitfield := bitfield + 2; }
      if mapped[LALT] && pressed[LALT] { bitfield := bitfield + 4; }
      if mapped[LWIN] && pressed[LWIN] { bitfield := bitfield + 8; }
      if mapped[RCTRL] && pressed[RCTRL] { bitfield := bitfield + 16; }
      if mapped[RSHIFT] && pressed[RSHIFT] { bitfield := bitfield + 32; }
      if mapped[RALT] && pressed[RALT] { bitfield := bitfield + 64; }
      if mapped[RWIN] && pressed[RWIN] { bitfield := bitfield + 128; }
      keyCodes[MODIFIER_BYTE] := bitfield;
    }

    /** One keyboard report. */
    method FromGeneric(pressed: Bits, mapped: Bits)
      requires Valid()
      modifies this`keys, brKeyCodes, keyCodes
      ensures Valid() && keys == Update(old(keys), pressed, mapped, scan)
      ensures Wire(keyCodes[..], keys, scan)
      ensures keyCodes[MODIFIER_BYTE] == Modifiers(pressed, mapped) && keyCodes[2] == old(keyCodes[2])
    {
      ReleaseKeys(pressed);
      var codeIdx := RefreshCodes();
      AddKeys(codeIdx, pressed, mapped);
      SetModifiers(pressed, mapped);
    }
  }

  lemma {:induction false} NewGrows(held: seq<int>, n: nat, m: nat, pressed: Bits, mapped: Bits, scan: Table)
    requires n <= m <= KBM_MAX
    ensures New(held, n, pressed, mapped, scan) <= New(held, m, pressed, mapped, scan)
  {
    if n < m {
      NewGrows(held, n, m - 1, pressed, mapped, scan);
    }
  }

  /** Stopping at a full list or at the last key adds the same keys. */
  lemma AddedAll(held: seq<int>, n: nat, pressed: Bits, mapped: Bits, scan: Table)
    requires n <= KBM_MAX && |held + New(held, n, pressed, mapped, scan)| <= SLOTS
    requires n == KBM_MAX || |held + New(held, n, pressed, mapped, scan)| == SLOTS
    ensures held + New(held, n, pressed, mapped, scan) == Take(held + New(held, KBM_MAX, pressed, mapped, scan))
  {
    NewGrows(held, n, KBM_MAX, pressed, mapped, scan);
  }

  lemma {:induction false} HeldAll(keys: seq<int>, pressed: Bits)
    requires AllKeys(keys) && forall k :: 0 <= k < |keys| ==> pressed[keys[k]]
    ensures Held(keys, pressed) == keys
  {
    if keys != [] {
      HeldAll(keys[1..], pressed);
    }
  }

  /** A released key does not matter for what is held. */
  lemma {:induction false} HeldWithout(keys: seq<int>, i: nat, pressed: Bits)
    requires AllKeys(keys) && i < |keys| && !pressed[keys[i]]
    ensures AllKeys(keys[..i] + keys[i + 1..])
    ensures Held(keys[..i] + keys[i + 1..], pressed) == Held(keys, pressed)
  {
    var without := keys[..i] + keys[i + 1..];
    if i == 0 {
      assert without == keys[1..];
    } else {
      assert without[1..] == keys[1..][..i - 1] + keys[1..][i..];
      HeldWithout(keys[1..], i - 1, pressed);
    }
  }
}
