/** Loads from and stores to bitfields as the IR generator lowers them: mask, shift and
    merge with the unit that holds the field.  Words are sequences of bits, lowest first.
    The masks are computed in 32 bits, where a shift count counts modulo 32. */
module Bitfields {
  import opened StructLayout

  type Word = seq<bool>

  function And(a: Word, b: Word): (r: Word)
    requires |a| == |b|
    ensures |r| == |a|
  {
    seq(|a|, k requires 0 <= k < |a| => a[k] && b[k])
  }

  function Or(a: Word, b: Word): (r: Word)
    requires |a| == |b|
    ensures |r| == |a|
  {
    seq(|a|, k requires 0 <= k < |a| => a[k] || b[k])
  }

  function Not(a: Word): (r: Word)
    ensures |r| == |a|
  {
    seq(|a|, k requires 0 <= k < |a| => !a[k])
  }

  function Shl(a: Word, n: nat): (r: Word)
    ensures |r| == |a|
  {
    seq(|a|, k requires 0 <= k < |a| => k >= n && a[k - n])
  }

  /** A signed type shifts its sign in. */
  function Shr(a: Word, n: nat, signed: bool): (r: Word)
    ensures |r| == |a|
  {
    seq(|a|, k requires 0 <= k < |a| => if k + n < |a| then a[k + n] else signed && a[|a| - 1])
  }

  /** (1u << w) - 1 in 32 bits. */
  function Mask(w: nat): (r: Word)
    ensures |r| == 32
  {
    seq(32, k => k < w % 32)
  }

  /** A 32-bit unsigned constant as an operand of n bits. */
  function Resize(a: Word, n: nat): (r: Word)
    ensures |r| == n
  {
    seq(n, k requires 0 <= k < n => k < |a| && a[k])
  }

  /** A field of w bits from bit `off` of a unit of n bits. */
  predicate IsField(n: nat, w: nat, off: nat) {
    IsUnit(n) && 1 <= w && off + w <= n
  }

  function Store(cur: Word, rhs: Word, w: nat, off: nat): (r: Word)
    requires |cur| == |rhs|
    ensures |r| == |cur|
  {
    var shifted := Shl(And(rhs, Resize(Mask(w), |rhs|)), off);
    var kept := And(cur, Resize(Not(Shl(Mask(w), off % 32)), |cur|));
    Or(kept, shifted)
  }

  function Load(unit: Word, w: nat, off: nat, signed: bool): (r: Word)
    ensures |r| == |unit|
  {
    var shifted := if off != 0 then Shr(unit, off, signed) else unit;
    if w != |unit| then And(shifted, Resize(Mask(w), |unit|)) else shifted
  }

  /** The bits of a field. */
  function Field(unit: Word, w: nat, off: nat): Word
    requires off + w <= |unit|
  {
    unit[off..off + w]
  }

  function Word0(n: nat, b: bool): (r: Word)
    ensures |r| == n && forall k :: 0 <= k < n ==> r[k] == b
  {
    seq(n, k => b)
  }

  // ---------------------------------------------------------------- bit by bit

  /** What a store does to each bit. */
  lemma StoreBit(cur: Word, rhs: Word, w: nat, off: nat, k: nat)
    requires |cur| == |rhs| && k < |cur|
    ensures Store(cur, rhs, w, off)[k] ==
            ((k >= off && k - off < w % 32 && rhs[k - off]) ||
              (cur[k] && k < 32 && !(off % 32 <= k < off % 32 + w % 32)))
  {
  }

  lemma LoadBit(unit: Word, w: nat, off: nat, signed: bool, k: nat)
    requires off + w <= |unit| && k < |unit|
    ensures Load(unit, w, off, signed)[k] ==
            ((if k + off < |unit| then unit[k + off] else signed && unit[|unit| - 1]) && (w == |unit| || k < w % 32))
  {
  }

  // ---------------------------------------------------------------- when an access is right

  /** The field gets the value modulo 2^w. */
  ghost predicate FieldStored(cur: Word, rhs: Word, w: nat, off: nat)
    requires |cur| == |rhs| && off + w <= |cur|
  {
    Field(Store(cur, rhs, w, off), w, off) == rhs[..w]
  }

  /** All bits outside of the field stay. */
  ghost predicate OthersKept(cur: Word, rhs: Word, w: nat, off: nat)
    requires |cur| == |rhs|
  {
    forall k :: 0 <= k < |cur| && !(off <= k < off + w) ==> Store(cur, rhs, w, off)[k] == cur[k]
  }

  /** A load yields the field, with zeros above unless it fills the unit. */
  ghost predicate FieldLoaded(unit: Word, w: nat, off: nat, signed: bool)
    requires off + w <= |unit|
  {
    Load(unit, w, off, signed) == Field(unit, w, off) + Word0(|unit| - w, false)
  }

  ghost predicate AlwaysStored(n: nat, w: nat, off: nat)
    requires off + w <= n
  {
    forall cur: Word, rhs: Word :: |cur| == n && |rhs| == n ==> FieldStored(cur, rhs, w, off)
  }

  ghost predicate AlwaysKept(n: nat, w: nat, off: nat) {
    forall cur: Word, rhs: Word :: |cur| == n && |rhs| == n ==> OthersKept(cur, rhs, w, off)
  }

  ghost predicate AlwaysLoaded(n: nat, w: nat, off: nat)
    requires off + w <= n
  {
    forall unit: Word, signed: bool :: |unit| == n ==> FieldLoaded(unit, w, off, signed)
  }

  /** A store puts every value into the field exactly if the width is below 32. */
  lemma StoreIsRight(n: nat, w: nat, off: nat)
    requires IsField(n, w, off)
    ensures AlwaysStored(n, w, off) <==> w < 32
  {
    hide Store;
    if w < 32 {
      forall cur: Word, rhs: Word | |cur| == n && |rhs| == n
        ensures FieldStored(cur, rhs, w, off)
      {
        forall k | 0 <= k < w
          ensures Store(cur, rhs, w, off)[off + k] == rhs[k]
        {
          StoreBit(cur, rhs, w, off, off + k);
        }
      }
    } else {
      var cur, rhs := Word0(n, false), Word0(n, true);
      StoreBit(cur, rhs, w, off, off + w - 1);
      assert Field(Store(cur, rhs, w, off), w, off)[w - 1] != rhs[..w][w - 1];
      assert !FieldStored(cur, rhs, w, off);
    }
  }

  /** It leaves the other fields alone exactly if the unit has at most 32 bits, or the
      field has at least 32 and ends with the unit. */
  lemma StoreKeepsOthers(n: nat, w: nat, off: nat)
    requires IsField(n, w, off)
    ensures AlwaysKept(n, w, off) <==> n <= 32 || (w >= 32 && off + w == n)
  {
    hide Store;
    if n <= 32 || (w >= 32 && off + w == n) {
      forall cur: Word, rhs: Word | |cur| == n && |rhs| == n
        ensures OthersKept(cur, rhs, w, off)
      {
        forall k | 0 <= k < n && !(off <= k < off + w)
          ensures Store(cur, rhs, w, off)[k] == cur[k]
        {
          StoreBit(cur, rhs, w, off, k);
        }
      }
    } else {
      var cur, rhs := Word0(n, true), Word0(n, true);
      var k := if off + w < n then n - 1 else 32;
      StoreBit(cur, rhs, w, off, k);
      assert !OthersKept(cur, rhs, w, off);
    }
  }

  /** A load is right exactly if the width is below 32 or that of the unit. */
  lemma LoadIsRight(n: nat, w: nat, off: nat)
    requires IsField(n, w, off)
    ensures AlwaysLoaded(n, w, off) <==> w < 32 || w == n
  {
    hide Load;
    if w < 32 || w == n {
      forall unit: Word, signed: bool | |unit| == n
        ensures FieldLoaded(unit, w, off, signed)
      {
        forall k | 0 <= k < n
          ensures Load(unit, w, off, signed)[k] == (Field(unit, w, off) + Word0(n - w, false))[k]
        {
          LoadBit(unit, w, off, signed, k);
        }
      }
    } else {
      var unit := Word0(n, true);
      LoadBit(unit, w, off, false, w - 1);
      assert (Field(unit, w, off) + Word0(n - w, false))[w - 1];
      assert !FieldLoaded(unit, w, off, false);
    }
  }

  /** What was stored is read back as it was only if it has no bits above the field; a
      negative value of a signed field, whose upper bits are ones, comes back positive. */
  lemma StoreThenLoad(cur: Word, rhs: Word, w: nat, off: nat, signed: bool)
    requires |cur| == |rhs| && IsField(|cur|, w, off) && w < 32
    ensures Load(Store(cur, rhs, w, off), w, off, signed)[..w] == rhs[..w]
    ensures Load(Store(cur, rhs, w, off), w, off, signed) == rhs <==> w == |cur| || forall k :: w <= k < |rhs| ==>
              !rhs[k]
  {
    hide Store, Load;
    var r := Store(cur, rhs, w, off);
    StoreIsRight(|cur|, w, off);
    assert FieldStored(cur, rhs, w, off);
    LoadIsRight(|cur|, w, off);
    assert FieldLoaded(r, w, off, signed);
    var loaded := Load(r, w, off, signed);
    assert loaded == rhs[..w] + Word0(|rhs| - w, false);
    PaddedIs(rhs, w);
  }

  lemma PaddedIs(rhs: Word, w: nat)
    requires w <= |rhs|
    ensures rhs[..w] + Word0(|rhs| - w, false) == rhs <==> forall k :: w <= k < |rhs| ==> !rhs[k]
  {
    var padded := rhs[..w] + Word0(|rhs| - w, false);
    if padded == rhs {
      forall k | w <= k < |rhs|
        ensures !rhs[k]
      {
        assert !padded[k];
      }
    }
  }

  /** The bits that were stored are loaded. */
  ghost predicate ReadBack(cur: Word, rhs: Word, w: nat, off: nat, signed: bool)
    requires |cur| == |rhs| && off + w <= |cur|
  {
    Load(Store(cur, rhs, w, off), w, off, signed)[..w] == rhs[..w]
  }

  ghost predicate AlwaysReadBack(n: nat, w: nat, off: nat)
    requires off + w <= n
  {
    forall cur: Word, rhs: Word, signed: bool :: |cur| == n && |rhs| == n ==> ReadBack(cur, rhs, w, off, signed)
  }

  /** A store followed by a load gives every value back, modulo 2^w, exactly if the width
      is below 32: in wider fields the bit at width modulo 32 is never set. */
  lemma ReadBackIsRight(n: nat, w: nat, off: nat)
    requires IsField(n, w, off)
    ensures AlwaysReadBack(n, w, off) <==> w < 32
  {
    hide Store, Load;
    if w < 32 {
      forall cur: Word, rhs: Word, signed: bool | |cur| == n && |rhs| == n
        ensures ReadBack(cur, rhs, w, off, signed)
      {
        StoreThenLoad(cur, rhs, w, off, signed);
      }
    } else {
      var cur, rhs, k := Word0(n, false), Word0(n, true), w % 32;
      var r := Store(cur, rhs, w, off);
      StoreBit(cur, rhs, w, off, off + k);
      LoadBit(r, w, off, false, k);
      assert Load(r, w, off, false)[..w][k] != rhs[..w][k];
      assert !ReadBack(cur, rhs, w, off, false);
    }
  }

  /** In a unit of up to 32 bits every other field reads the same after a store. */
  lemma OtherFieldKept(cur: Word, rhs: Word, w: nat, off: nat, w': nat, off': nat, signed: bool)
    requires |cur| == |rhs| <= 32 && IsField(|cur|, w, off) && IsField(|cur|, w', off')
    requires off + w <= off' || off' + w' <= off
    ensures Load(Store(cur, rhs, w, off), w', off', signed) == Load(cur, w', off', signed)
  {
    hide Store, Load;
    var r := Store(cur, rhs, w, off);
    StoreKeepsOthers(|cur|, w, off);
    assert OthersKept(cur, rhs, w, off);
    forall k | 0 <= k < |cur|
      ensures Load(r, w', off', signed)[k] == Load(cur, w', off', signed)[k]
    {
      LoadBit(r, w', off', signed, k);
      LoadBit(cur, w', off', signed, k);
      if k < w' {
        assert r[off' + k] == cur[off' + k];
      }
    }
  }

  // ---------------------------------------------------------------- other fields of any unit

  /** A load looks at so many bits of its field. */
  function BitsRead(w: nat): nat {
    w % 32
  }

  /** None of the bits that the load of one field looks at is cleared by the store to
      another: they are below bit 32, and not where the 32-bit mask has its hole. */
  predicate OutOfReach(w: nat, off: nat, w': nat, off': nat) {
    || BitsRead(w') == 0
    || (off' + BitsRead(w') <= 32 && (w % 32 == 0 || off' + BitsRead(w') <= off % 32 || off % 32 + w % 32 <= off'))
  }

  ghost predicate ReadsSame(cur: Word, rhs: Word, w: nat, off: nat, w': nat, off': nat, signed: bool)
    requires |cur| == |rhs|
  {
    Load(Store(cur, rhs, w, off), w', off', signed) == Load(cur, w', off', signed)
  }

  ghost predicate AlwaysReadsSame(n: nat, w: nat, off: nat, w': nat, off': nat) {
    forall cur: Word, rhs: Word, signed: bool :: |cur| == n && |rhs| == n ==>
      ReadsSame(cur, rhs, w, off, w', off', signed)
  }

  /** In units of every width: a disjoint field always reads the same after a store exactly
      if the bits its load looks at are out of reach. */
  lemma OtherFieldReads(n: nat, w: nat, off: nat, w': nat, off': nat)
    requires IsField(n, w, off) && IsField(n, w', off') && (off + w <= off' || off' + w' <= off)
    ensures AlwaysReadsSame(n, w, off, w', off') <==> OutOfReach(w, off, w', off')
  {
    hide Store, Load;
    if OutOfReach(w, off, w', off') {
      forall cur: Word, rhs: Word, signed: bool | |cur| == n && |rhs| == n
        ensures ReadsSame(cur, rhs, w, off, w', off', signed)
      {
        BitsSame(cur, rhs, w, off, w', off', signed);
      }
    } else {
      var cur, rhs, r := Word0(n, true), Word0(n, false), BitsRead(w');
      var k := if off' + r > 32 then r - 1 else if off' >= off % 32 then 0 else off % 32 - off';
      assert k < r && k + off' < n;
      StoreBit(cur, rhs, w, off, k + off');
      LoadBit(Store(cur, rhs, w, off), w', off', false, k);
      LoadBit(cur, w', off', false, k);
      assert !ReadsSame(cur, rhs, w, off, w', off', false);
    }
  }

  lemma BitsSame(cur: Word, rhs: Word, w: nat, off: nat, w': nat, off': nat, signed: bool)
    requires |cur| == |rhs| && IsField(|cur|, w, off) && IsField(|cur|, w', off')
    requires (off + w <= off' || off' + w' <= off) && OutOfReach(w, off, w', off')
    ensures ReadsSame(cur, rhs, w, off, w', off', signed)
  {
    hide Store, Load;
    var r := Store(cur, rhs, w, off);
    forall k | 0 <= k < |cur|
      ensures Load(r, w', off', signed)[k] == Load(cur, w', off', signed)[k]
    {
      LoadBit(r, w', off', signed, k);
      LoadBit(cur, w', off', signed, k);
      if k < BitsRead(w') {
        StoreBit(cur, rhs, w, off, k + off');
      }
    }
  }

  // ---------------------------------------------------------------- the value of an assignment

  /** The value of the assignment is the merged unit; it should be what a load of the field
      yields then. */
  ghost predicate AssignedIsField(cur: Word, rhs: Word, w: nat, off: nat, signed: bool)
    requires |cur| == |rhs|
  {
    Store(cur, rhs, w, off) == Load(Store(cur, rhs, w, off), w, off, signed)
  }

  ghost predicate AlwaysAssigned(n: nat, w: nat, off: nat) {
    forall cur: Word, rhs: Word, signed: bool :: |cur| == n && |rhs| == n ==> AssignedIsField(cur, rhs, w, off, signed)
  }

  lemma WholeUnit(unit: Word, signed: bool)
    ensures Load(unit, |unit|, 0, signed) == unit
  {
  }

  /** A bit in which the value of the assignment differs from a load of the field. */
  function DifferingBit(n: nat, w: nat, off: nat): nat
    requires n > 0
  {
    if n == 64 && w < 32 && off > 0 then off + w - 1 else if n == 64 then 31 else n - 1
  }

  lemma AssignedDiffers(n: nat, w: nat, off: nat)
    requires IsField(n, w, off) && w < n
    ensures !AssignedIsField(Word0(n, true), Word0(n, true), w, off, false)
  {
    hide Store, Load;
    var ones, k := Word0(n, true), DifferingBit(n, w, off);
    StoreBit(ones, ones, w, off, k);
    LoadBit(Store(ones, ones, w, off), w, off, false, k);
  }

  /** That is so for all values exactly if the field is the whole unit. */
  lemma AssignedIsRight(n: nat, w: nat, off: nat)
    requires IsField(n, w, off)
    ensures AlwaysAssigned(n, w, off) <==> w == n
  {
    hide Store, Load;
    if w == n {
      forall cur: Word, rhs: Word, signed: bool | |cur| == n && |rhs| == n
        ensures AssignedIsField(cur, rhs, w, off, signed)
      {
        WholeUnit(Store(cur, rhs, w, off), signed);
      }
    } else {
      AssignedDiffers(n, w, off);
    }
  }

  /** For one value of a field of less than 32 bits: the unit has no other bits, and the
      field is at the bottom or empty. */
  lemma AssignedOnce(cur: Word, rhs: Word, w: nat, off: nat, signed: bool)
    requires |cur| == |rhs| && IsField(|cur|, w, off) && w < 32 && w < |cur|
    ensures var unit := Store(cur, rhs, w, off);
            AssignedIsField(cur, rhs, w, off, signed) <==>
              (forall k :: w <= k < |unit| ==> !unit[k]) && (off > 0 ==> forall k :: 0 <= k < |unit| ==> !unit[k])
  {
    hide Store, Load;
    var unit := Store(cur, rhs, w, off);
    var value := Load(unit, w, off, signed);
    forall k | 0 <= k < |unit|
      ensures value[k] == ((if k + off < |unit| then unit[k + off] else signed && unit[|unit| - 1]) && k < w)
    {
      LoadBit(unit, w, off, signed, k);
    }
    if value == unit {
      forall k | w <= k < |unit|
        ensures !unit[k]
      {
        assert !value[k];
      }
      if off > 0 {
        Shifted(unit, value, w, off, 0);
      }
    }
  }

  /** A unit that is its own shift, without bits from w up, is empty. */
  lemma {:induction false} Shifted(unit: Word, value: Word, w: nat, off: nat, k: nat)
    requires value == unit && 0 < off && off + w <= |unit| && k <= w
    requires forall j :: 0 <= j < w ==> value[j] == unit[j + off]
    requires forall j :: w <= j < |unit| ==> !unit[j]
    ensures forall j :: k <= j < |unit| ==> !unit[j]
    decreases w - k
  {
    if k < w {
      Shifted(unit, value, w, off, k + 1);
      assert value[k] == unit[k + off];
    }
  }

  // ---------------------------------------------------------------- the fields of a struct

  /** Stores and loads of a member are right whatever its unit holds. */
  ghost predicate AccessRight(m: Member)
    requires m.isBitfield && m.bitOffset + m.bitWidth <= m.unit
  {
    && AlwaysStored(m.unit, m.bitWidth, m.bitOffset)
    && AlwaysKept(m.unit, m.bitWidth, m.bitOffset)
    && AlwaysLoaded(m.unit, m.bitWidth, m.bitOffset)
  }

  lemma MemberFits(ms: seq<Member>, packed: bool, i: nat)
    requires GoodLayout(ms, packed) && i < |ms| && ms[i].isBitfield
    ensures ms[i].bitOffset + ms[i].bitWidth <= ms[i].unit && IsUnit(ms[i].unit)
  {
    assert WellPlaced(ms[i], packed);
  }

  /** For one field: exactly if it is narrower than 32 bits and its unit is not wider. */
  lemma MemberAccess(ms: seq<Member>, packed: bool, i: nat)
    requires GoodLayout(ms, packed) && i < |ms| && ms[i].isBitfield && ms[i].bitWidth > 0
    ensures ms[i].bitOffset + ms[i].bitWidth <= ms[i].unit
    ensures AccessRight(ms[i]) <==> ms[i].bitWidth < 32 && ms[i].unit <= 32
  {
    hide AlwaysStored, AlwaysKept, AlwaysLoaded, GoodLayout;
    MemberFits(ms, packed, i);
    var m := ms[i];
    StoreIsRight(m.unit, m.bitWidth, m.bitOffset);
    StoreKeepsOthers(m.unit, m.bitWidth, m.bitOffset);
    LoadIsRight(m.unit, m.bitWidth, m.bitOffset);
  }

  ghost predicate AllAccessRight(ms: seq<Member>, packed: bool)
    requires GoodLayout(ms, packed)
  {
    forall i {:trigger ms[i]} :: 0 <= i < |ms| && ms[i].isBitfield ==>
      ms[i].bitOffset + ms[i].bitWidth <= ms[i].unit && AccessRight(ms[i])
  }

  /** For a whole struct, as declared: all accesses to its fields are right exactly if all
      of them are narrower than 32 bits. */
  lemma StructAccess(ms: seq<Member>, packed: bool)
    requires AllDeclared(ms)
    ensures GoodLayout(Lay(ms, packed).done, packed)
    ensures AllAccessRight(Lay(ms, packed).done, packed) <==> forall i :: 0 <= i < |ms| && ms[i].isBitfield ==>
              ms[i].bitWidth < 32
  {
    hide GoodLayout, AccessRight, Lay, LoopInv;
    LayIsGood(ms, packed);
    var laid := Lay(ms, packed).done;
    assert forall i :: 0 <= i < |ms| ==> SameDeclaration(laid[i], ms[i]);
    if forall i :: 0 <= i < |ms| && ms[i].isBitfield ==> ms[i].bitWidth < 32 {
      forall i | 0 <= i < |ms| && laid[i].isBitfield
        ensures laid[i].bitOffset + laid[i].bitWidth <= laid[i].unit && AccessRight(laid[i])
      {
        assert Declared(ms[i]);
        MemberAccess(laid, packed, i);
        MemberFits(laid, packed, i);
        if laid[i].unit == 64 {
          WideSlots(laid, packed, i);
        }
      }
    } else {
      var i :| 0 <= i < |ms| && ms[i].isBitfield && ms[i].bitWidth >= 32;
      assert SameDeclaration(laid[i], ms[i]);
      MemberAccess(laid, packed, i);
    }
  }

  /** Fields of 40 and 20 bits share a unit of 64.  A store to the second clears the end of
      the first, and a store to the first keeps eight of its bits. */
  lemma WideUnitLoses(a: Member, b: Member, packed: bool)
    requires a.isBitfield && a.bitWidth == 40 && a.alignment > 0
    requires b.isBitfield && b.bitWidth == 20 && b.alignment > 0
    ensures var ms := Lay([a, b], packed).done;
            && |ms| == 2 && ms[0].unit == ms[1].unit == 64 && ms[0].offset == ms[1].offset
            && ms[0].bitOffset == 0 && ms[1].bitOffset == 40
    ensures var ones := Word0(64, true);
            && !Field(Store(ones, ones, 20, 40), 40, 0)[32]
            && !Field(Store(Word0(64, false), ones, 40, 0), 40, 0)[8]
  {
    var ones := Word0(64, true);
    assert [a, b][..1] == [a] && [a][..0] == [];
    assert Lay([a], packed) == Place(Lay([], packed), a, packed);
    assert Lay([a, b], packed) == Place(Lay([a], packed), b, packed);
    hide Store;
    StoreBit(ones, ones, 20, 40, 32);
    StoreBit(Word0(64, false), ones, 40, 0, 8);
  }
}
