/** Offsets of struct members, bitfields included, and the member list handed to the IR. */
module StructLayout {

  /** A member as declared, and what the layout assigns to it.  `unit` is the width in bits
      of the integer type through which a bitfield is accessed. */
  datatype Member = Member(
    isBitfield: bool, bitWidth: nat, size: nat, alignment: nat,
    offset: nat, bitOffset: nat, gepIndex: nat, unit: nat)

  predicate Declared(m: Member) {
    m.alignment > 0 && (m.isBitfield ==> 1 <= m.bitWidth <= 64)
  }

  predicate SameDeclaration(a: Member, b: Member) {
    a.isBitfield == b.isBitfield && a.bitWidth == b.bitWidth && a.size == b.size && a.alignment == b.alignment
  }

  function Start(m: Member): nat {
    8 * m.offset + m.bitOffset
  }

  /** The first bit behind a member. */
  function End(m: Member): nat {
    if m.isBitfield then Start(m) + m.bitWidth else 8 * (m.offset + m.size)
  }

  function AlignTo(n: nat, align: nat): (r: nat)
    requires align > 0
    ensures n <= r < n + align && r % align == 0
  {
    Multiple((n + align - 1) / align, align);
    (n + align - 1) / align * align
  }

  lemma Multiple(k: nat, n: nat)
    requires n > 0
    ensures k * n % n == 0
  {
    var r := k * n;
    var d := k - r / n;
    assert n * d == r % n;
    assert d >= 1 ==> n * d >= n * 1;
    assert d <= -1 ==> n * d <= n * -1;
  }

  /** The smallest power of two that is not less than x. */
  function NextPowerOf2(x: nat): nat
    requires 1 <= x <= 64
  {
    if x <= 1 then 1 else if x <= 2 then 2 else if x <= 4 then 4 else if x <= 8 then 8
    else if x <= 16 then 16 else if x <= 32 then 32 else 64
  }

  function Max(a: nat, b: nat): nat {
    if a < b then b else a
  }

  predicate IsUnit(n: nat) {
    n == 8 || n == 16 || n == 32 || n == 64
  }

  // ---------------------------------------------------------------- the IR's members

  datatype IrMember = IrMember(offset: nat, alignment: nat, bits: nat)

  /** The members that the IR's struct type gets: bitfields only where a slot begins. */
  function IrMembers(ms: seq<Member>): seq<IrMember> {
    if ms == [] then []
    else
      var last := ms[|ms| - 1];
      IrMembers(ms[..|ms| - 1]) +
      if last.bitOffset == 0 then [IrMember(last.offset, last.alignment, if last.isBitfield then last.unit
        else 8 * last.size)] else []
  }

  method BuildIrMembers(ms: seq<Member>) returns (members: seq<IrMember>)
    ensures members == IrMembers(ms)
  {
    members := [];
    for i := 0 to |ms|
      invariant members == IrMembers(ms[..i])
    {
      assert ms[..i + 1][..i] == ms[..i];
      if ms[i].bitOffset == 0 {
        members := members + [IrMember(ms[i].offset, ms[i].alignment, if ms[i].isBitfield then ms[i].unit
          else 8 * ms[i].size)];
      }
    }
    assert ms[..|ms|] == ms;
  }

  lemma IrMembersNext(ms: seq<Member>, m: Member)
    ensures IrMembers(ms + [m]) ==
            IrMembers(ms) + if m.bitOffset == 0
              then [IrMember(m.offset, m.alignment, if m.isBitfield then m.unit else 8 * m.size)] else []
  {
    assert (ms + [m])[..|ms|] == ms;
  }

  // ---------------------------------------------------------------- a good layout

  /** Members follow each other without overlap. */
  ghost predicate Ordered(ms: seq<Member>) {
    forall i, j :: 0 <= i < j < |ms| ==> End(ms[i]) <= Start(ms[j])
  }

  /** A bitfield lies within one aligned unit; other members are aligned unless the struct
      is packed. */
  predicate WellPlaced(m: Member, packed: bool) {
    if m.isBitfield then
      IsUnit(m.unit) && m.offset % (m.unit / 8) == 0 && m.bitOffset + m.bitWidth <= m.unit
    else
      m.bitOffset == 0 && (packed || (m.alignment > 0 && m.offset % m.alignment == 0))
  }

  /** The member's index selects an IR member at the same byte offset and as wide as the
      unit that is accessed. */
  ghost predicate Agrees(ms: seq<Member>, m: Member) {
    var ir := IrMembers(ms);
    m.gepIndex < |ir| && ir[m.gepIndex].offset == m.offset &&
    ir[m.gepIndex].bits == if m.isBitfield then m.unit else 8 * m.size
  }

  /** m shares its unit with the bitfield f, which began the slot and set its size. */
  predicate Began(f: Member, m: Member) {
    f.isBitfield && f.bitOffset == 0 && f.offset == m.offset && f.unit == m.unit &&
    1 <= f.bitWidth <= 64 && f.unit == Max(NextPowerOf2(f.bitWidth), 8) && (f == m || m.bitOffset >= f.bitWidth)
  }

  ghost predicate HasFirst(ms: seq<Member>, m: Member) {
    exists j :: 0 <= j < |ms| && Began(ms[j], m)
  }

  ghost predicate GoodLayout(ms: seq<Member>, packed: bool) {
    && Ordered(ms)
    && (forall i :: 0 <= i < |ms| ==> WellPlaced(ms[i], packed))
    && (forall i :: 0 <= i < |ms| ==> Agrees(ms, ms[i]))
    && (forall i :: 0 <= i < |ms| && ms[i].isBitfield ==> HasFirst(ms, ms[i]))
  }

  /** Some member began the current slot. */
  ghost predicate SlotBegun(ms: seq<Member>, byteOffset: nat, slotSize: nat, slotOffset: nat) {
    exists j {:trigger ms[j]} :: 0 <= j < |ms| && Began(ms[j], ms[j]) && ms[j].offset == byteOffset &&
      ms[j].unit == slotSize && ms[j].bitWidth <= slotOffset
  }

  /** The state of the loop: the current slot, if there is one, is the last IR member. */
  ghost predicate LoopInv(ms: seq<Member>, gepIndex: nat, byteOffset: nat, slotSize: nat, slotOffset: nat) {
    && (forall i :: 0 <= i < |ms| ==> End(ms[i]) <= 8 * byteOffset + slotOffset)
    && var ir := IrMembers(ms);
    if slotSize == 0 then slotOffset == 0 && |ir| == gepIndex
    else
      IsUnit(slotSize) && 1 <= slotOffset <= slotSize && byteOffset % (slotSize / 8) == 0 &&
      |ir| == gepIndex + 1 && ir[gepIndex].offset == byteOffset && ir[gepIndex].bits == slotSize &&
      SlotBegun(ms, byteOffset, slotSize, slotOffset)
  }

  lemma AgreesMore(ms: seq<Member>, m: Member, x: Member)
    requires Agrees(ms, m)
    ensures Agrees(ms + [x], m)
  {
    IrMembersNext(ms, x);
  }

  /** One more member behind the others. */
  lemma GoodNext(ms: seq<Member>, packed: bool, m: Member)
    requires GoodLayout(ms, packed) && WellPlaced(m, packed) && Agrees(ms + [m], m)
    requires m.isBitfield ==> HasFirst(ms + [m], m)
    requires forall i :: 0 <= i < |ms| ==> End(ms[i]) <= Start(m)
    ensures GoodLayout(ms + [m], packed)
  {
    hide WellPlaced, IrMembers, Began;
    var ms' := ms + [m];
    forall i | 0 <= i < |ms'|
      ensures Agrees(ms', ms'[i]) && (ms'[i].isBitfield ==> HasFirst(ms', ms'[i]))
    {
      if i < |ms| {
        AgreesMore(ms, ms[i], m);
        if ms[i].isBitfield {
          var j :| 0 <= j < |ms| && Began(ms[j], ms[i]);
          assert Began(ms'[j], ms'[i]);
        }
      }
    }
  }

  // ---------------------------------------------------------------- the layout, member by member

  /** The members placed so far and the state of the loop. */
  datatype Layout = Layout(done: seq<Member>, gepIndex: nat, byteOffset: nat, slotSize: nat, slotOffset: nat)

  function Place(l: Layout, m: Member, packed: bool): Layout
    requires Declared(m)
  {
    if m.isBitfield then
      if l.slotOffset + m.bitWidth <= l.slotSize then
        Layout(l.done + [m.(unit := l.slotSize, gepIndex := l.gepIndex, offset := l.byteOffset,
          bitOffset := l.slotOffset)],
               l.gepIndex, l.byteOffset, l.slotSize, l.slotOffset + m.bitWidth)
      else
        var size := Max(NextPowerOf2(m.bitWidth), 8);
        var gep := l.gepIndex + if l.slotSize != 0 then 1 else 0;
        var offset := AlignTo(l.byteOffset + l.slotSize / 8, size / 8);
        Layout(l.done + [m.(unit := size, gepIndex := gep, offset := offset, bitOffset := 0)], gep, offset, size,
          m.bitWidth)
    else
      var gep := l.gepIndex + if l.slotOffset != 0 then 1 else 0;
      var offset := l.byteOffset + l.slotSize / 8;
      var aligned := if packed then offset else AlignTo(offset, m.alignment);
      Layout(l.done + [m.(offset := aligned, bitOffset := 0, gepIndex := gep)], gep + 1, aligned + m.size, 0, 0)
  }

  predicate AllDeclared(ms: seq<Member>) {
    forall i :: 0 <= i < |ms| ==> Declared(ms[i])
  }

  function Lay(ms: seq<Member>, packed: bool): (l: Layout)
    requires AllDeclared(ms)
  {
    if ms == [] then Layout([], 0, 0, 0, 0) else Place(Lay(ms[..|ms| - 1], packed), ms[|ms| - 1], packed)
  }

  // ---------------------------------------------------------------- what every step keeps

  ghost predicate Laid(l: Layout, packed: bool) {
    GoodLayout(l.done, packed) && LoopInv(l.done, l.gepIndex, l.byteOffset, l.slotSize, l.slotOffset)
  }

  /** The current slot, or what is left of it, is given up and bytes are skipped. */
  lemma CloseSlot(l: Layout, packed: bool, offset: nat)
    requires Laid(l, packed) && l.byteOffset + l.slotSize / 8 <= offset
    ensures Laid(Layout(l.done, l.gepIndex + if l.slotSize != 0 then 1 else 0, offset, 0, 0), packed)
    ensures l.slotSize != 0 <==> l.slotOffset != 0
  {
    hide GoodLayout, IrMembers, SlotBegun;
  }

  /** A bitfield for which the current slot has room. */
  lemma PackStep(l: Layout, packed: bool, m: Member)
    requires Laid(l, packed) && Declared(m) && m.isBitfield && l.slotOffset + m.bitWidth <= l.slotSize
    ensures Laid(Place(l, m, packed), packed)
  {
    hide GoodLayout;
    var x := m.(unit := l.slotSize, gepIndex := l.gepIndex, offset := l.byteOffset, bitOffset := l.slotOffset);
    IrMembersNext(l.done, x);
    var j :| 0 <= j < |l.done| && Began(l.done[j], l.done[j]) && l.done[j].offset == l.byteOffset &&
      l.done[j].unit == l.slotSize && l.done[j].bitWidth <= l.slotOffset;
    assert Began((l.done + [x])[j], x);
    GoodNext(l.done, packed, x);
    assert (l.done + [x])[j] == l.done[j];
  }

  /** A bitfield that begins a slot. */
  lemma SlotStep(l: Layout, packed: bool, m: Member)
    requires Laid(l, packed) && Declared(m) && m.isBitfield && l.slotOffset + m.bitWidth > l.slotSize
    ensures Laid(Place(l, m, packed), packed)
  {
    hide Laid;
    SizeIsUnit(m.bitWidth);
    var size := Max(NextPowerOf2(m.bitWidth), 8);
    var offset := AlignTo(l.byteOffset + l.slotSize / 8, size / 8);
    CloseSlot(l, packed, offset);
    NewSlot(Layout(l.done, l.gepIndex + if l.slotSize != 0 then 1 else 0, offset, 0, 0), packed, m);
  }

  lemma SizeIsUnit(w: nat)
    requires 1 <= w <= 64
    ensures IsUnit(Max(NextPowerOf2(w), 8)) && w <= Max(NextPowerOf2(w), 8)
  {
  }

  lemma NewSlot(l: Layout, packed: bool, m: Member)
    requires Laid(l, packed) && l.slotSize == 0 && Declared(m) && m.isBitfield
    requires var size := Max(NextPowerOf2(m.bitWidth), 8); size >= 8 && l.byteOffset % (size / 8) == 0
    ensures var size := Max(NextPowerOf2(m.bitWidth), 8);
            Laid(Layout(l.done + [m.(unit := size, gepIndex := l.gepIndex, offset := l.byteOffset, bitOffset := 0)],
                        l.gepIndex, l.byteOffset, size, m.bitWidth), packed)
  {
    hide GoodLayout, Max, NextPowerOf2;
    SizeIsUnit(m.bitWidth);
    var size := Max(NextPowerOf2(m.bitWidth), 8);
    var x := m.(unit := size, gepIndex := l.gepIndex, offset := l.byteOffset, bitOffset := 0);
    IrMembersNext(l.done, x);
    assert (l.done + [x])[|l.done|] == x;
    assert Began((l.done + [x])[|l.done|], x);
    GoodNext(l.done, packed, x);
  }

  /** A member that is not a bitfield. */
  lemma PlainStep(l: Layout, packed: bool, m: Member)
    requires Laid(l, packed) && Declared(m) && !m.isBitfield
    ensures Laid(Place(l, m, packed), packed)
  {
    hide GoodLayout, LoopInv, AlignTo;
    var offset := l.byteOffset + l.slotSize / 8;
    var aligned := if packed then offset else AlignTo(offset, m.alignment);
    CloseSlot(l, packed, aligned);
    var gep := l.gepIndex + if l.slotOffset != 0 then 1 else 0;
    NewMember(Layout(l.done, gep, aligned, 0, 0), packed, m);
  }

  lemma NewMember(l: Layout, packed: bool, m: Member)
    requires Laid(l, packed) && l.slotSize == 0 && l.slotOffset == 0 && !m.isBitfield
    requires packed || (m.alignment > 0 && l.byteOffset % m.alignment == 0)
    ensures Laid(Layout(l.done + [m.(offset := l.byteOffset, bitOffset := 0, gepIndex := l.gepIndex)],
                        l.gepIndex + 1, l.byteOffset + m.size, 0, 0), packed)
  {
    hide GoodLayout, IrMembers, SlotBegun;
    var x := m.(offset := l.byteOffset, bitOffset := 0, gepIndex := l.gepIndex);
    IrMembersNext(l.done, x);
    GoodNext(l.done, packed, x);
  }

  lemma PlaceSame(l: Layout, m: Member, packed: bool)
    requires Declared(m)
    ensures |Place(l, m, packed).done| == |l.done| + 1 && Place(l, m, packed).done[..|l.done|] == l.done
    ensures SameDeclaration(Place(l, m, packed).done[|l.done|], m)
  {
    hide Max, NextPowerOf2, AlignTo;
  }

  /** Every layout is good and changes no declaration. */
  lemma {:induction false} LayIsGood(ms: seq<Member>, packed: bool)
    requires AllDeclared(ms)
    ensures Laid(Lay(ms, packed), packed) && |Lay(ms, packed).done| == |ms|
    ensures forall i :: 0 <= i < |ms| ==> SameDeclaration(Lay(ms, packed).done[i], ms[i])
  {
    hide Laid, Place, SameDeclaration, Declared;
    if ms == [] {
      NothingLaid(packed);
    } else {
      var last := |ms| - 1;
      LayIsGood(ms[..last], packed);
      var l, m := Lay(ms[..last], packed), ms[last];
      PlaceSame(l, m, packed);
      forall i | 0 <= i < last
        ensures Lay(ms, packed).done[i] == l.done[i]
      {
        assert Lay(ms, packed).done[..last][i] == l.done[i];
      }
      if !m.isBitfield {
        PlainStep(l, packed, m);
      } else if l.slotOffset + m.bitWidth <= l.slotSize {
        PackStep(l, packed, m);
      } else {
        SlotStep(l, packed, m);
      }
    }
  }

  lemma NothingLaid(packed: bool)
    ensures Laid(Layout([], 0, 0, 0, 0), packed)
  {
  }

  // ---------------------------------------------------------------- no gaps but for alignment

  /** The first byte behind a member and its unit. */
  function Behind(m: Member): nat {
    m.offset + if m.isBitfield then m.unit / 8 else m.size
  }

  /** m has room in the unit of the bitfield p. */
  predicate Shares(p: Member, m: Member) {
    p.isBitfield && m.isBitfield && p.bitOffset + p.bitWidth + m.bitWidth <= p.unit
  }

  /** How m is placed behind p, the member before it. */
  predicate Follows(p: Member, m: Member, packed: bool) {
    && m.gepIndex == p.gepIndex + (if Shares(p, m) then 0 else 1)
    && if Shares(p, m) then m.offset == p.offset && m.unit == p.unit && m.bitOffset == p.bitOffset + p.bitWidth
       else m.bitOffset == 0 && Behind(p) <= m.offset < Behind(p) + Step(m, packed) && (m.isBitfield ==> OwnUnit(m))
  }

  function Step(m: Member, packed: bool): nat {
    if m.isBitfield then m.unit / 8 else if packed then 1 else m.alignment
  }

  /** The smallest unit that the field fits into. */
  predicate OwnUnit(m: Member) {
    m.bitWidth <= m.unit && (m.unit == 8 || m.unit < 2 * m.bitWidth)
  }

  /** The state of the loop is that of the last member. */
  predicate AtLast(l: Layout) {
    if l.done == [] then l == Layout([], 0, 0, 0, 0)
    else
      var p := l.done[|l.done| - 1];
      l.byteOffset + l.slotSize / 8 == Behind(p) &&
      if p.isBitfield then
        l.gepIndex == p.gepIndex && l.byteOffset == p.offset && l.slotSize == p.unit > 0 &&
        l.slotOffset == p.bitOffset + p.bitWidth > 0
      else l.gepIndex == p.gepIndex + 1 && l.slotSize == l.slotOffset == 0
  }

  /** The first member begins at zero, in a unit of its own if it is a bitfield. */
  predicate First(m: Member) {
    m.offset == 0 && m.bitOffset == 0 && m.gepIndex == 0 && (m.isBitfield ==> OwnUnit(m))
  }

  predicate Tight(ms: seq<Member>, packed: bool) {
    (ms != [] ==> First(ms[0])) && forall i :: 0 < i < |ms| ==> Follows(ms[i - 1], ms[i], packed)
  }

  lemma UnitIsSmallest(w: nat)
    requires 1 <= w <= 64
    ensures var u := Max(NextPowerOf2(w), 8); w <= u && (u == 8 || u < 2 * w) && IsUnit(u)
  {
  }

  lemma AlignZero(align: nat)
    requires align > 0
    ensures AlignTo(0, align) == 0
  {
    hide AlignTo;
    var r := AlignTo(0, align);
    assert r % align == 0 && r < align;
  }

  lemma PlaceTight(l: Layout, m: Member, packed: bool)
    requires Declared(m) && AtLast(l) && Tight(l.done, packed)
    ensures AtLast(Place(l, m, packed)) && Tight(Place(l, m, packed).done, packed)
  {
    hide AlignTo, Place, AtLast, Declared, Follows, First;
    PlaceSame(l, m, packed);
    PlaceFollows(l, m, packed);
    var done := Place(l, m, packed).done;
    forall i | 0 < i < |done|
      ensures Follows(done[i - 1], done[i], packed)
    {
      if i < |l.done| {
        assert done[..|l.done|][i] == l.done[i];
      }
      assert done[..|l.done|][i - 1] == l.done[i - 1];
    }
    if l.done != [] {
      assert done[..|l.done|][0] == l.done[0];
    }
  }

  lemma PlaceFollows(l: Layout, m: Member, packed: bool)
    requires Declared(m) && AtLast(l)
    ensures |Place(l, m, packed).done| == |l.done| + 1 && AtLast(Place(l, m, packed))
    ensures var x := Place(l, m, packed).done[|l.done|];
            if l.done == [] then First(x) else Follows(l.done[|l.done| - 1], x, packed)
  {
    hide AlignTo, Max, NextPowerOf2, AtLast, Follows, First;
    if !m.isBitfield {
      PlainFollows(l, m, packed);
    } else if l.slotOffset + m.bitWidth <= l.slotSize {
      PackFollows(l, m, packed);
    } else {
      SlotFollows(l, m, packed);
    }
  }

  lemma PlainFollows(l: Layout, m: Member, packed: bool)
    requires Declared(m) && AtLast(l) && !m.isBitfield
    ensures var r := Place(l, m, packed);
            |r.done| == |l.done| + 1 && AtLast(r) &&
            if l.done == [] then First(r.done[|l.done|]) else Follows(l.done[|l.done| - 1], r.done[|l.done|], packed)
  {
    hide AlignTo, Max, NextPowerOf2;
    AlignZero(m.alignment);
  }

  lemma PackFollows(l: Layout, m: Member, packed: bool)
    requires Declared(m) && AtLast(l) && m.isBitfield && l.slotOffset + m.bitWidth <= l.slotSize
    ensures var r := Place(l, m, packed);
            |r.done| == |l.done| + 1 && AtLast(r) &&
            if l.done == [] then First(r.done[|l.done|]) else Follows(l.done[|l.done| - 1], r.done[|l.done|], packed)
  {
    hide AlignTo, Max, NextPowerOf2;
  }

  lemma SlotFollows(l: Layout, m: Member, packed: bool)
    requires Declared(m) && AtLast(l) && m.isBitfield && l.slotOffset + m.bitWidth > l.slotSize
    ensures var r := Place(l, m, packed);
            |r.done| == |l.done| + 1 && AtLast(r) &&
            if l.done == [] then First(r.done[|l.done|]) else Follows(l.done[|l.done| - 1], r.done[|l.done|], packed)
  {
    hide AlignTo, Max, NextPowerOf2;
    UnitIsSmallest(m.bitWidth);
    AlignZero(Max(NextPowerOf2(m.bitWidth), 8) / 8);
  }

  lemma {:induction false} LayIsTight(ms: seq<Member>, packed: bool)
    requires AllDeclared(ms)
    ensures AtLast(Lay(ms, packed)) && Tight(Lay(ms, packed).done, packed)
  {
    hide Place, Declared, AtLast, Tight;
    if ms == [] {
      NoneIsTight(packed);
    } else {
      LayIsTight(ms[..|ms| - 1], packed);
      PlaceTight(Lay(ms[..|ms| - 1], packed), ms[|ms| - 1], packed);
    }
  }

  /** The first member begins at zero.  Every other one shares the unit of a bitfield before
      it if there is room; otherwise it begins as early behind it as its alignment allows, a
      bitfield in the smallest unit that holds it. */
  lemma LayoutIs(ms: seq<Member>, packed: bool, i: nat)
    requires AllDeclared(ms) && i < |ms|
    ensures |Lay(ms, packed).done| == |ms|
    ensures i == 0 ==> var m := Lay(ms, packed).done[0]; m.offset == m.bitOffset == m.gepIndex == 0
    ensures i > 0 ==>
              var p, m := Lay(ms, packed).done[i - 1], Lay(ms, packed).done[i];
              var free := p.offset + if p.isBitfield then p.unit / 8 else p.size;
              if p.isBitfield && m.isBitfield && p.bitOffset + p.bitWidth + m.bitWidth <= p.unit then
                m.offset == p.offset && m.unit == p.unit && m.bitOffset == p.bitOffset + p.bitWidth &&
                m.gepIndex == p.gepIndex
              else if m.isBitfield then
                free <= m.offset < free + m.unit / 8 && m.bitOffset == 0 && m.gepIndex == p.gepIndex + 1 &&
                m.bitWidth <= m.unit && (m.unit == 8 || m.unit < 2 * m.bitWidth)
              else
                free <= m.offset < free + (if packed then 1 else m.alignment) && m.bitOffset == 0 &&
                m.gepIndex == p.gepIndex + 1
  {
    hide Lay;
    LayIsTight(ms, packed);
    LayIsGood(ms, packed);
    if i > 0 {
      assert Follows(Lay(ms, packed).done[i - 1], Lay(ms, packed).done[i], packed);
    }
  }

  lemma NoneIsTight(packed: bool)
    ensures AtLast(Layout([], 0, 0, 0, 0)) && Tight([], packed)
  {
  }

  /** Assigns offset, bit offset, unit and IR index to every member, in place. */
  method LayOut(mems: array<Member>, packed: bool)
    requires AllDeclared(mems[..])
    modifies mems
    ensures AllDeclared(old(mems[..])) && mems[..] == Lay(old(mems[..]), packed).done
    ensures GoodLayout(mems[..], packed)
    ensures forall i :: 0 <= i < mems.Length ==> SameDeclaration(mems[i], old(mems[i]))
  {
    hide GoodLayout, Declared, Lay, SameDeclaration, NextPowerOf2, AlignTo;
    ghost var ms := mems[..];
    LayNone(packed);
    var gepIndex: nat, byteOffset: nat, slotSize: nat, slotOffset: nat := 0, 0, 0, 0;
    for i := 0 to mems.Length
      invariant mems.Length == |ms|
      invariant Lay(ms[..i], packed) == Layout(mems[..i], gepIndex, byteOffset, slotSize, slotOffset)
      invariant mems[i..] == ms[i..]
    {
      ghost var done := mems[..i];
      var mem := mems[i];
      assert mem == mems[i..][0] && Declared(ms[i]);
      assert ms[..i + 1][..i] == ms[..i];
      assert mem.isBitfield ==> 1 <= mem.bitWidth <= 64 by { DeclaredWidth(mem); }
      assert mem.alignment > 0 by { DeclaredWidth(mem); }
      if mem.isBitfield {
        if slotOffset + mem.bitWidth > slotSize {
          // The field does not fit into what is left: start a slot of its own
          var bitWidth := Max(NextPowerOf2(mem.bitWidth), 8);
          gepIndex := gepIndex + if slotSize != 0 then 1 else 0;
          byteOffset := byteOffset + slotSize / 8;
          byteOffset := AlignTo(byteOffset, bitWidth / 8);
          slotOffset := 0;
          slotSize := bitWidth;
        }
        mem := mem.(unit := slotSize, gepIndex := gepIndex, offset := byteOffset, bitOffset := slotOffset);
        slotOffset := slotOffset + mem.bitWidth;
      } else {
        gepIndex := gepIndex + if slotOffset != 0 then 1 else 0;
        byteOffset := byteOffset + slotSize / 8;
        slotSize := 0;
        slotOffset := 0;
        if !packed {
          byteOffset := AlignTo(byteOffset, mem.alignment);
        }
        mem := mem.(offset := byteOffset, bitOffset := 0, gepIndex := gepIndex);
        byteOffset := byteOffset + mem.size;
        gepIndex := gepIndex + 1;
      }
      mems[i] := mem;
      assert mems[..i + 1] == done + [mem];
      LayNext(ms, i, packed);
    }
    assert mems[..mems.Length] == mems[..] && ms[..mems.Length] == ms;
    LayIsGood(ms, packed);
  }

  lemma LayNone(packed: bool)
    ensures Lay([], packed) == Layout([], 0, 0, 0, 0)
  {
  }

  lemma LayNext(ms: seq<Member>, i: nat, packed: bool)
    requires AllDeclared(ms) && i < |ms|
    ensures Lay(ms[..i + 1], packed) == Place(Lay(ms[..i], packed), ms[i], packed)
  {
    assert ms[..i + 1][..i] == ms[..i];
  }

  lemma DeclaredWidth(m: Member)
    requires Declared(m)
    ensures m.alignment > 0 && (m.isBitfield ==> 1 <= m.bitWidth <= 64)
  {
  }

  /** No two members share a bit. */
  lemma MembersDisjoint(ms: seq<Member>, packed: bool, i: nat, j: nat, bit: nat)
    requires GoodLayout(ms, packed) && i < |ms| && j < |ms| && i != j
    requires Start(ms[i]) <= bit < End(ms[i])
    ensures !(Start(ms[j]) <= bit < End(ms[j]))
  {
    if i < j {
      assert End(ms[i]) <= Start(ms[j]);
    } else {
      assert End(ms[j]) <= Start(ms[i]);
    }
  }

  /** In a unit of 64 bits the first bitfield has more than 32 of them, and every other
      begins behind it. */
  lemma WideSlots(ms: seq<Member>, packed: bool, i: nat)
    requires GoodLayout(ms, packed) && i < |ms| && ms[i].isBitfield && ms[i].unit == 64
    ensures exists j :: 0 <= j < |ms| && Began(ms[j], ms[i]) && ms[j].bitWidth > 32
    ensures ms[i].bitWidth > 32 || ms[i].bitOffset > 32
  {
    hide Ordered, Agrees, WellPlaced;
    assert HasFirst(ms, ms[i]);
    var j :| 0 <= j < |ms| && Began(ms[j], ms[i]);
    assert ms[j].bitWidth > 32;
  }
}
