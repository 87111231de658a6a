/** The buffer that grows by doubling, and every run of inserts and merges over any number of them. */
module GrowingBuffers {
  import opened Sequences

  /** What malloc returned; different allocations do not overlap. */
  type Region = nat

  datatype Slot = Slot(region: Region, index: nat)

  /** The elements in use, the memory, and how many elements were allocated there. */
  datatype Buffer = Buffer(numElements: nat, region: Region, capacity: nat)

  datatype Flex = Flex(totalLen: nat, currCapacity: nat, buffers: seq<Buffer>)

  // ---- What is in a list of buffers --------------------------------------------------------------

  function SlotsOf(b: Buffer): (s: seq<Slot>)
    ensures |s| == b.numElements && forall i :: 0 <= i < |s| ==> s[i] == Slot(b.region, i)
  {
    seq(b.numElements, (i: nat) => Slot(b.region, i))
  }

  function Slots(bs: seq<Buffer>): seq<Slot> {
    if bs == [] then [] else SlotsOf(bs[0]) + Slots(bs[1..])
  }

  function Count(bs: seq<Buffer>): nat {
    if bs == [] then 0 else bs[0].numElements + Count(bs[1..])
  }

  function Allocated(bs: seq<Buffer>): nat {
    if bs == [] then 0 else bs[0].capacity + Allocated(bs[1..])
  }

  lemma {:induction false} Joined(a: seq<Buffer>, b: seq<Buffer>)
    ensures Slots(a + b) == Slots(a) + Slots(b)
    ensures Count(a + b) == Count(a) + Count(b) && Allocated(a + b) == Allocated(a) + Allocated(b)
  {
    if a == [] {
      assert a + b == b;
    } else {
      Joined(a[1..], b);
      assert (a + b)[1..] == a[1..] + b;
      Associate(SlotsOf(a[0]), Slots(a[1..]), Slots(b));
    }
  }

  lemma One(b: Buffer)
    ensures Slots([b]) == SlotsOf(b) && Count([b]) == b.numElements && Allocated([b]) == b.capacity
  {
    assert [b][1..] == [];
  }

  lemma {:induction false} CountIsLength(bs: seq<Buffer>)
    ensures |Slots(bs)| == Count(bs)
  {
    if bs != [] { CountIsLength(bs[1..]); }
  }

  predicate InUse(b: Buffer, s: Slot) {
    s.region == b.region && s.index < b.numElements
  }

  lemma SlotsOfHas(b: Buffer, s: Slot)
    ensures s in SlotsOf(b) <==> InUse(b, s)
  {
    if InUse(b, s) { assert SlotsOf(b)[s.index] == s; }
  }

  predicate InSome(bs: seq<Buffer>, s: Slot) {
    exists i :: 0 <= i < |bs| && InUse(bs[i], s)
  }

  lemma InSomeFirst(bs: seq<Buffer>, s: Slot)
    requires bs != []
    ensures InSome(bs, s) <==> InUse(bs[0], s) || InSome(bs[1..], s)
  {
    if i :| 0 <= i < |bs| && InUse(bs[i], s) {
      if i > 0 { assert InUse(bs[1..][i - 1], s); }
    }
    if i :| 0 <= i < |bs[1..]| && InUse(bs[1..][i], s) { assert InUse(bs[i + 1], s); }
  }

  /** The slots are those in use in some buffer. */
  lemma {:induction false} SlotsAreUsed(bs: seq<Buffer>, s: Slot)
    ensures s in Slots(bs) <==> InSome(bs, s)
  {
    if bs != [] {
      SlotsAreUsed(bs[1..], s);
      SlotsOfHas(bs[0], s);
      InSomeFirst(bs, s);
    }
  }

  predicate Distinct<T(==)>(s: seq<T>) {
    forall i, j :: 0 <= i < j < |s| ==> s[i] != s[j]
  }

  predicate OwnRegions(bs: seq<Buffer>) {
    forall i, j :: 0 <= i < j < |bs| ==> bs[i].region != bs[j].region
  }

  lemma {:induction false} SlotsDistinct(bs: seq<Buffer>)
    requires OwnRegions(bs)
    ensures Distinct(Slots(bs))
  {
    if bs != [] {
      SlotsDistinct(bs[1..]);
      var a, b := SlotsOf(bs[0]), Slots(bs[1..]);
      forall i, j | 0 <= i < |a| && 0 <= j < |b| ensures a[i] != b[j] {
        SlotsAreUsed(bs[1..], b[j]);
      }
    }
  }

  // ---- The operations -----------------------------------------------------------------------------

  function Created(c: nat, r: Region): Flex {
    Flex(0, c, [Buffer(0, r, c)])
  }

  function Last(f: Flex): Buffer
    requires f.buffers != []
  {
    f.buffers[|f.buffers| - 1]
  }

  function IsFull(f: Flex): bool
    requires f.buffers != []
  {
    Last(f).numElements == f.currCapacity
  }

  function Grown(f: Flex, r: Region): Flex {
    Flex(f.totalLen, 2 * f.currCapacity, f.buffers + [Buffer(0, r, 2 * f.currCapacity)])
  }

  function Taken(f: Flex): Flex
    requires f.buffers != []
  {
    var b := Last(f);
    Flex(f.totalLen + 1, f.currCapacity, f.buffers[|f.buffers| - 1 := Buffer(b.numElements + 1, b.region, b.capacity)])
  }

  /** The buffer that insert takes from: the last one, or a new one in region r. */
  function Roomy(f: Flex, r: Region): (g: Flex)
    requires f.buffers != []
    ensures g.buffers != []
  {
    if IsFull(f) then Grown(f, r) else f
  }

  function Inserted(f: Flex, r: Region): Flex
    requires f.buffers != []
  {
    Taken(Roomy(f, r))
  }

  function NewSlot(f: Flex, r: Region): Slot
    requires f.buffers != []
  {
    var b := Last(Roomy(f, r));
    Slot(b.region, b.numElements)
  }

  function Merged(f: Flex, other: Flex): Flex {
    Flex(f.totalLen + other.totalLen, f.currCapacity, other.buffers + f.buffers)
  }

  const DRAINED := Flex(0, 0, [])

  class FlexibleBuffer {
    var totalLen: nat
    var currCapacity: nat
    var buffers: seq<Buffer>

    function Value(): Flex
      reads this
    {
      Flex(totalLen, currCapacity, buffers)
    }

    constructor (initialCapacity: nat, memory: Region)
      ensures Value() == Created(initialCapacity, memory)
    {
      totalLen, currCapacity := 0, initialCapacity;
      buffers := [Buffer(0, memory, initialCapacity)];
    }

    method NextBuffer(memory: Region)
      modifies this
      ensures Value() == Grown(old(Value()), memory)
    {
      var nextCapacity := currCapacity * 2;
      buffers := buffers + [Buffer(0, memory, nextCapacity)];
      currCapacity := nextCapacity;
    }

    /** Returns where the new element goes; memory is what malloc gives if a buffer is needed. */
    method Insert(memory: Region) returns (slot: Slot)
      requires buffers != []
      modifies this
      ensures Value() == Inserted(old(Value()), memory) && slot == NewSlot(old(Value()), memory)
    {
      if buffers[|buffers| - 1].numElements == currCapacity {
        NextBuffer(memory);
      }
      totalLen := totalLen + 1;
      var b := buffers[|buffers| - 1];
      slot := Slot(b.region, b.numElements);
      buffers := buffers[|buffers| - 1 := Buffer(b.numElements + 1, b.region, b.capacity)];
    }

    /** The slots in the order in which they are visited. */
    method Iterate() returns (visited: seq<Slot>)
      ensures visited == Slots(buffers)
    {
      visited := [];
      for k := 0 to |buffers|
        invariant visited == Slots(buffers[..k])
      {
        ghost var before := visited;
        for i := 0 to buffers[k].numElements
          invariant visited == before + SlotsOf(buffers[k])[..i]
        {
          visited := visited + [Slot(buffers[k].region, i)];
        }
        Joined(buffers[..k], [buffers[k]]);
        One(buffers[k]);
        assert buffers[..k + 1] == buffers[..k] + [buffers[k]];
      }
      assert buffers[..|buffers|] == buffers;
    }

    method Merge(other: FlexibleBuffer)
      requires other != this
      modifies this, other
      ensures Value() == Merged(old(Value()), old(other.Value())) && other.Value() == DRAINED
    {
      buffers := other.buffers + buffers;
      other.buffers := [];
      totalLen := totalLen + other.totalLen;
      other.totalLen := 0;
      other.currCapacity := 0;
    }
  }

  // ---- What the operations keep ----------------------------------------------------------------------

  predicate Fits(bs: seq<Buffer>) {
    forall i :: 0 <= i < |bs| ==> bs[i].numElements <= bs[i].capacity
  }

  /** Every element is in allocated memory; the length is the number of elements; the capacity is that of the last
      buffer; and what is allocated is at most twice the elements before the last buffer and the initial capacities. */
  predicate Valid(f: Flex, initial: nat) {
    && Fits(f.buffers) && OwnRegions(f.buffers)
    && f.totalLen == Count(f.buffers)
    && (f.buffers != [] ==>
          && f.currCapacity == Last(f).capacity > 0
          && Allocated(f.buffers) + 2 * Last(f).numElements <= 2 * f.totalLen + initial)
    && Allocated(f.buffers) <= 2 * f.totalLen + initial
  }

  predicate Unused(bs: seq<Buffer>, r: Region) {
    forall i :: 0 <= i < |bs| ==> bs[i].region != r
  }

  predicate Apart(a: seq<Buffer>, b: seq<Buffer>) {
    forall i, j :: 0 <= i < |a| && 0 <= j < |b| ==> a[i].region != b[j].region
  }

  lemma CreatedValid(c: nat, r: Region)
    requires c > 0
    ensures Valid(Created(c, r), c) && Slots(Created(c, r).buffers) == []
  {
    One(Buffer(0, r, c));
  }

  lemma GrownValid(f: Flex, initial: nat, r: Region)
    requires Valid(f, initial) && f.buffers != [] && IsFull(f) && Unused(f.buffers, r)
    ensures Valid(Grown(f, r), initial) && Slots(Grown(f, r).buffers) == Slots(f.buffers) && !IsFull(Grown(f, r))
  {
    var b := Buffer(0, r, 2 * f.currCapacity);
    Joined(f.buffers, [b]);
    One(b);
  }

  lemma TakenFacts(f: Flex)
    requires f.buffers != []
    ensures var b := Last(f);
            && Slots(Taken(f).buffers) == Slots(f.buffers) + [Slot(b.region, b.numElements)]
            && Count(Taken(f).buffers) == Count(f.buffers) + 1 && Allocated(Taken(f).buffers) == Allocated(f.buffers)
  {
    var n, b := |f.buffers| - 1, Last(f);
    var c := Buffer(b.numElements + 1, b.region, b.capacity);
    assert f.buffers == f.buffers[..n] + [b];
    assert Taken(f).buffers == f.buffers[..n] + [c];
    Joined(f.buffers[..n], [b]);
    Joined(f.buffers[..n], [c]);
    One(b);
    One(c);
    assert SlotsOf(c) == SlotsOf(b) + [Slot(b.region, b.numElements)];
  }

  lemma TakenValid(f: Flex, initial: nat)
    requires Valid(f, initial) && f.buffers != [] && !IsFull(f)
    ensures Valid(Taken(f), initial)
  {
    TakenFacts(f);
  }

  /** Insert appends one slot, which no earlier element has and which is in allocated memory. */
  lemma InsertedValid(f: Flex, initial: nat, r: Region)
    requires Valid(f, initial) && f.buffers != [] && Unused(f.buffers, r)
    ensures Valid(Inserted(f, r), initial)
    ensures Slots(Inserted(f, r).buffers) == Slots(f.buffers) + [NewSlot(f, r)] && NewSlot(f, r) !in Slots(f.buffers)
  {
    if IsFull(f) { GrownValid(f, initial, r); }
    var g := Roomy(f, r);
    TakenValid(g, initial);
    TakenFacts(g);
    SlotsAreUsed(g.buffers, NewSlot(f, r));
  }

  /** Merge puts the elements of the other buffer first, moves none, and adds up the bounds. */
  lemma MergedValid(f: Flex, initial: nat, other: Flex, otherInitial: nat)
    requires Valid(f, initial) && f.buffers != [] && Valid(other, otherInitial) && Apart(other.buffers, f.buffers)
    ensures Valid(Merged(f, other), initial + otherInitial)
    ensures Slots(Merged(f, other).buffers) == Slots(other.buffers) + Slots(f.buffers)
  {
    Joined(other.buffers, f.buffers);
  }

  // ---- Growth -------------------------------------------------------------------------------------------

  /** Any number of inserts; memory is what malloc gives in case a buffer is needed. */
  function InsertedAll(f: Flex, memory: seq<Region>): (g: Flex)
    requires f.buffers != []
    ensures g.buffers != []
  {
    if memory == [] then f
    else Inserted(InsertedAll(f, memory[..|memory| - 1]), memory[|memory| - 1])
  }

  function Pow2(n: nat): (p: nat)
    ensures p > 0
  {
    if n == 0 then 1 else 2 * Pow2(n - 1)
  }

  /** Buffer i has 2^i times the initial capacity c, and all but the last are full. */
  predicate Doubled(f: Flex, c: nat) {
    && (forall i :: 0 <= i < |f.buffers| ==> f.buffers[i].capacity == c * Pow2(i))
    && (forall i :: 0 <= i < |f.buffers| - 1 ==> f.buffers[i].numElements == f.buffers[i].capacity)
    && f.buffers != [] && f.currCapacity == Last(f).capacity && Last(f).numElements <= Last(f).capacity
  }

  lemma TimesTwo(c: nat, p: nat)
    ensures 2 * (c * p) == c * (2 * p)
  {
  }

  lemma NextCapacity(f: Flex, c: nat)
    requires c > 0 && Doubled(f, c)
    ensures 2 * f.currCapacity == c * Pow2(|f.buffers|) > 0
  {
    TimesTwo(c, Pow2(|f.buffers| - 1));
    Positive(c, Pow2(|f.buffers|));
  }

  lemma GrownDoubles(f: Flex, c: nat, r: Region)
    requires Doubled(f, c) && IsFull(f) && 2 * f.currCapacity == c * Pow2(|f.buffers|) > 0
    ensures Doubled(Grown(f, r), c) && !IsFull(Grown(f, r))
  {
  }

  lemma TakenDoubles(f: Flex, c: nat)
    requires Doubled(f, c) && !IsFull(f)
    ensures Doubled(Taken(f), c)
  {
  }

  lemma DoubledMore(f: Flex, c: nat, r: Region)
    requires c > 0 && Doubled(f, c)
    ensures Doubled(Inserted(f, r), c)
  {
    NextCapacity(f, c);
    if IsFull(f) { GrownDoubles(f, c, r); }
    TakenDoubles(Roomy(f, r), c);
  }

  lemma Positive(c: nat, p: nat)
    requires c > 0 && p > 0
    ensures c * p > 0
  {
  }

  /** However many elements are inserted, every buffer is twice as large as the one before, none but the last has room
      left, and no element is outside the memory allocated. */
  lemma {:induction false} InsertsDouble(c: nat, r: Region, memory: seq<Region>)
    requires c > 0
    ensures var f := InsertedAll(Created(c, r), memory);
            Doubled(f, c) && Fits(f.buffers) && f.totalLen == |memory|
  {
    if memory == [] {
    } else {
      var before := memory[..|memory| - 1];
      InsertsDouble(c, r, before);
      DoubledMore(InsertedAll(Created(c, r), before), c, memory[|memory| - 1]);
    }
  }

  /** Without an initial capacity the first insert is outside allocated memory. */
  lemma NoCapacityOverrun(r: Region, memory: Region)
    ensures !Fits(Inserted(Created(0, r), memory).buffers)
  {
    var bs := Inserted(Created(0, r), memory).buffers;
    assert bs[1].numElements == 1 && bs[1].capacity == 0;
  }

  // ---- A drained buffer that is used again --------------------------------------------------------------

  /** An insert, with what malloc gives if a buffer is needed, or a merge. */
  datatype Use = Put(memory: Region) | Take(other: Flex)

  function Used(f: Flex, u: Use): (g: Flex)
    requires f.buffers != []
    ensures g.buffers != []
  {
    match u
    case Put(r) => Inserted(f, r)
    case Take(other) => Merged(f, other)
  }

  function AllUsed(f: Flex, uses: seq<Use>): (g: Flex)
    requires f.buffers != []
    ensures g.buffers != []
    decreases uses
  {
    if uses == [] then f else AllUsed(Used(f, uses[0]), uses[1..])
  }

  function Puts(uses: seq<Use>): nat {
    if uses == [] then 0 else (if uses[0].Put? then 1 else 0) + Puts(uses[1..])
  }

  predicate TakesFit(uses: seq<Use>) {
    forall u :: u in uses && u.Take? ==> Fits(u.other.buffers)
  }

  /** The last buffer is not empty and has room for n more elements. */
  predicate HasRoom(f: Flex, n: nat)
    requires f.buffers != []
  {
    n == 0 || (0 < Last(f).numElements && Last(f).numElements + n <= Last(f).capacity)
  }

  lemma OverrunStays(f: Flex, u: Use)
    requires f.buffers != [] && !Fits(f.buffers)
    ensures !Fits(Used(f, u).buffers)
  {
    var i :| 0 <= i < |f.buffers| && f.buffers[i].numElements > f.buffers[i].capacity;
    match u
    case Put(r) => assert Used(f, u).buffers[i].numElements >= f.buffers[i].numElements;
    case Take(other) => assert Used(f, u).buffers[|other.buffers| + i] == f.buffers[i];
  }

  lemma {:induction false} OverrunRemains(f: Flex, uses: seq<Use>)
    requires f.buffers != [] && !Fits(f.buffers)
    ensures !Fits(AllUsed(f, uses).buffers)
    decreases uses
  {
    if uses != [] {
      OverrunStays(f, uses[0]);
      OverrunRemains(Used(f, uses[0]), uses[1..]);
    }
  }

  lemma TakeKeepsLast(f: Flex, other: Flex)
    requires f.buffers != [] && Fits(f.buffers) && Fits(other.buffers)
    ensures Fits(Merged(f, other).buffers) && Last(Merged(f, other)) == Last(f)
  {
  }

  /** With capacity zero no insert makes a buffer, unless the last one is empty, and then it makes an empty one. */
  lemma PutWithoutCapacity(f: Flex, r: Region)
    requires f.buffers != [] && Fits(f.buffers) && f.currCapacity == 0
    ensures Inserted(f, r).currCapacity == 0
    ensures Fits(Inserted(f, r).buffers) <==> HasRoom(f, 1)
    ensures HasRoom(f, 1) ==> Last(Inserted(f, r)) == Last(f).(numElements := Last(f).numElements + 1)
  {
    var n, after := |f.buffers| - 1, Inserted(f, r).buffers;
    if Last(f).numElements == 0 {
      assert after[n + 1] == Buffer(1, r, 0);
    } else {
      assert after[n].numElements == Last(f).numElements + 1 && after[n].capacity == Last(f).capacity;
    }
  }

  /** A drained buffer has capacity zero, also after merges into it.  From then on all inserts, merges between them
      or not, stay in allocated memory exactly if there are none, or the last buffer is neither empty nor too full
      for all of them. */
  lemma {:induction false} DrainedReuse(f: Flex, uses: seq<Use>)
    requires f.buffers != [] && Fits(f.buffers) && f.currCapacity == 0 && TakesFit(uses)
    ensures Fits(AllUsed(f, uses).buffers) <==> HasRoom(f, Puts(uses))
    decreases uses
  {
    if uses != [] {
      var u, g := uses[0], Used(f, uses[0]);
      assert u in uses && TakesFit(uses[1..]);
      if u.Take? {
        TakeKeepsLast(f, u.other);
        DrainedReuse(g, uses[1..]);
      } else {
        PutWithoutCapacity(f, u.memory);
        if HasRoom(f, 1) {
          DrainedReuse(g, uses[1..]);
        } else {
          OverrunRemains(g, uses[1..]);
        }
      }
    }
  }

  /** A full buffer merged into a drained one: the next insert is outside allocated memory. */
  lemma FullBufferOverrun(f: Flex, initial: nat, r: Region)
    requires Valid(f, initial) && f.buffers != [] && IsFull(f)
    ensures Merged(DRAINED, f).currCapacity == 0 && Merged(DRAINED, f).buffers == f.buffers
    ensures !Fits(Inserted(Merged(DRAINED, f), r).buffers)
  {
    DrainedReuse(Merged(DRAINED, f), [Put(r)]);
  }

  // ---- Every run --------------------------------------------------------------------------------------

  type Name = nat
  type Element = int

  /** A buffer, the initial capacities that went into it, and the elements that it should hold. */
  datatype Entry = Entry(flex: Flex, initial: nat, elements: seq<Element>)

  /** Regions below unused are allocated; memory holds what was written to the slots. */
  datatype World = World(unused: Region, memory: map<Slot, Element>, entries: map<Name, Entry>)

  datatype Op = New(name: Name, capacity: nat) | Insert(name: Name, e: Element) | Merge(into: Name, from: Name)

  /** Capacities are positive, and drained buffers are not used again. */
  predicate Enabled(w: World, op: Op) {
    match op
    case New(n, c) => n !in w.entries && c > 0
    case Insert(n, e) => n in w.entries && w.entries[n].flex.buffers != []
    case Merge(n, m) => n in w.entries && m in w.entries && n != m && w.entries[n].flex.buffers != []
  }

  function Next(w: World, op: Op): World
    requires Enabled(w, op)
  {
    match op
    case New(n, c) => World(w.unused + 1, w.memory, w.entries[n := Entry(Created(c, w.unused), c, [])])
    case Insert(n, e) =>
      var x := w.entries[n];
      World(w.unused + 1, w.memory[NewSlot(x.flex, w.unused) := e],
            w.entries[n := Entry(Inserted(x.flex, w.unused), x.initial, x.elements + [e])])
    case Merge(n, m) =>
      var x, y := w.entries[n], w.entries[m];
      World(w.unused, w.memory,
            w.entries[n := Entry(Merged(x.flex, y.flex), x.initial + y.initial, y.elements + x.elements)]
                     [m := Entry(DRAINED, 0, [])])
  }

  predicate Path(w: World, ops: seq<Op>, v: World)
    decreases ops
  {
    if ops == [] then w == v else Enabled(w, ops[0]) && Path(Next(w, ops[0]), ops[1..], v)
  }

  const EMPTY := World(0, map[], map[])

  /** Visiting the slots finds the elements. */
  predicate Holds(memory: map<Slot, Element>, slots: seq<Slot>, elements: seq<Element>) {
    |slots| == |elements| && forall i :: 0 <= i < |slots| ==> slots[i] in memory && memory[slots[i]] == elements[i]
  }

  predicate Below(bs: seq<Buffer>, r: Region) {
    forall i :: 0 <= i < |bs| ==> bs[i].region < r
  }

  predicate GoodEntry(w: World, x: Entry) {
    Valid(x.flex, x.initial) && Below(x.flex.buffers, w.unused) && Holds(w.memory, Slots(x.flex.buffers), x.elements)
  }

  predicate AllGood(w: World) {
    forall n :: n in w.entries ==> GoodEntry(w, w.entries[n])
  }

  predicate AllApart(w: World) {
    forall n, m :: n in w.entries && m in w.entries && n != m ==>
      Apart(w.entries[n].flex.buffers, w.entries[m].flex.buffers)
  }

  predicate Inv(w: World) {
    AllGood(w) && AllApart(w)
  }

  lemma HoldsElsewhere(memory: map<Slot, Element>, slots: seq<Slot>, elements: seq<Element>, s: Slot, e: Element)
    requires Holds(memory, slots, elements) && s !in slots
    ensures Holds(memory[s := e], slots, elements)
  {
  }

  lemma HoldsJoined(memory: map<Slot, Element>, s: seq<Slot>, a: seq<Element>, t: seq<Slot>, b: seq<Element>)
    requires Holds(memory, s, a) && Holds(memory, t, b)
    ensures Holds(memory, s + t, a + b)
  {
  }

  lemma KeepsNew(w: World, n: Name, c: nat)
    requires Inv(w) && Enabled(w, New(n, c))
    ensures Inv(Next(w, New(n, c)))
  {
    CreatedValid(c, w.unused);
    var v := Next(w, New(n, c));
    forall k | k in v.entries ensures GoodEntry(v, v.entries[k]) {
      if k != n { assert GoodEntry(w, w.entries[k]); }
    }
    forall k | k in w.entries && k != n ensures Below(w.entries[k].flex.buffers, w.unused) {
      assert GoodEntry(w, w.entries[k]);
    }
  }

  /** The region of a new slot is the last buffer's or new, so no other buffer uses it. */
  lemma NewSlotElsewhere(w: World, n: Name, k: Name, r: Region)
    requires Inv(w) && n in w.entries && k in w.entries && k != n && w.entries[n].flex.buffers != [] && r >= w.unused
    ensures NewSlot(w.entries[n].flex, r) !in Slots(w.entries[k].flex.buffers)
    ensures Apart(Inserted(w.entries[n].flex, r).buffers, w.entries[k].flex.buffers)
  {
    var f, g := w.entries[n].flex, w.entries[k].flex;
    assert GoodEntry(w, w.entries[k]) && Apart(f.buffers, g.buffers);
    SlotsAreUsed(g.buffers, NewSlot(f, r));
  }

  lemma InsertKeepsOther(w: World, n: Name, e: Element, k: Name)
    requires Inv(w) && Enabled(w, Insert(n, e)) && k in w.entries && k != n
    ensures var v := Next(w, Insert(n, e));
            && v.entries[k] == w.entries[k] && GoodEntry(v, w.entries[k])
            && Apart(v.entries[n].flex.buffers, w.entries[k].flex.buffers)
  {
    assert GoodEntry(w, w.entries[k]);
    NewSlotElsewhere(w, n, k, w.unused);
    HoldsElsewhere(w.memory, Slots(w.entries[k].flex.buffers), w.entries[k].elements, NewSlot(w.entries[n].flex, w.unused), e);
  }

  lemma InsertKeepsThis(w: World, n: Name, e: Element)
    requires Inv(w) && Enabled(w, Insert(n, e))
    ensures GoodEntry(Next(w, Insert(n, e)), Next(w, Insert(n, e)).entries[n])
  {
    var x := w.entries[n];
    assert GoodEntry(w, x);
    InsertedValid(x.flex, x.initial, w.unused);
    var s := NewSlot(x.flex, w.unused);
    HoldsElsewhere(w.memory, Slots(x.flex.buffers), x.elements, s, e);
    HoldsJoined(w.memory[s := e], Slots(x.flex.buffers), x.elements, [s], [e]);
  }

  lemma KeepsInsert(w: World, n: Name, e: Element)
    requires Inv(w) && Enabled(w, Insert(n, e))
    ensures Inv(Next(w, Insert(n, e)))
  {
    var v := Next(w, Insert(n, e));
    InsertKeepsThis(w, n, e);
    forall k | k in v.entries && k != n
      ensures GoodEntry(v, v.entries[k]) && Apart(v.entries[n].flex.buffers, v.entries[k].flex.buffers)
              && Apart(v.entries[k].flex.buffers, v.entries[n].flex.buffers)
    {
      InsertKeepsOther(w, n, e, k);
    }
  }

  lemma MergedGood(w: World, n: Name, m: Name)
    requires Inv(w) && Enabled(w, Merge(n, m))
    ensures GoodEntry(Next(w, Merge(n, m)), Next(w, Merge(n, m)).entries[n])
  {
    var x, y := w.entries[n], w.entries[m];
    assert GoodEntry(w, x) && GoodEntry(w, y);
    MergedValid(x.flex, x.initial, y.flex, y.initial);
    HoldsJoined(w.memory, Slots(y.flex.buffers), y.elements, Slots(x.flex.buffers), x.elements);
  }

  lemma MergeKeepsGood(w: World, n: Name, m: Name)
    requires Inv(w) && Enabled(w, Merge(n, m))
    ensures AllGood(Next(w, Merge(n, m)))
  {
    var v := Next(w, Merge(n, m));
    MergedGood(w, n, m);
    forall k | k in v.entries ensures GoodEntry(v, v.entries[k]) {
      if k != n && k != m { assert GoodEntry(w, w.entries[k]); }
    }
  }

  lemma JoinedApart(a: seq<Buffer>, b: seq<Buffer>, c: seq<Buffer>)
    requires Apart(a, c) && Apart(b, c)
    ensures Apart(a + b, c) && Apart(c, a + b)
  {
  }

  lemma MergeApart(w: World, n: Name, m: Name, k: Name)
    requires AllApart(w) && Enabled(w, Merge(n, m)) && k in w.entries && k != n && k != m
    ensures var v := Next(w, Merge(n, m)).entries;
            v[k] == w.entries[k] && Apart(v[n].flex.buffers, v[k].flex.buffers) && Apart(v[k].flex.buffers, v[n].flex.buffers)
  {
    JoinedApart(w.entries[m].flex.buffers, w.entries[n].flex.buffers, w.entries[k].flex.buffers);
  }

  lemma PairApart(w: World, n: Name, m: Name, k: Name, l: Name)
    requires AllApart(w) && Enabled(w, Merge(n, m)) && k in w.entries && l in w.entries && k != l
    ensures Apart(Next(w, Merge(n, m)).entries[k].flex.buffers, Next(w, Merge(n, m)).entries[l].flex.buffers)
  {
    var v := Next(w, Merge(n, m)).entries;
    if k == m || l == m {
      assert v[m].flex.buffers == [];
    } else if l == n {
      MergeApart(w, n, m, k);
    } else if k == n {
      MergeApart(w, n, m, l);
    } else {
      assert v[k] == w.entries[k] && v[l] == w.entries[l];
    }
  }

  lemma MergeKeepsApart(w: World, n: Name, m: Name)
    requires AllApart(w) && Enabled(w, Merge(n, m))
    ensures AllApart(Next(w, Merge(n, m)))
  {
    forall k, l | k in w.entries && l in w.entries && k != l
      ensures Apart(Next(w, Merge(n, m)).entries[k].flex.buffers, Next(w, Merge(n, m)).entries[l].flex.buffers)
    {
      PairApart(w, n, m, k, l);
    }
  }

  lemma KeepsMerge(w: World, n: Name, m: Name)
    requires Inv(w) && Enabled(w, Merge(n, m))
    ensures Inv(Next(w, Merge(n, m)))
  {
    MergeKeepsGood(w, n, m);
    MergeKeepsApart(w, n, m);
  }

  lemma StepKeeps(w: World, op: Op)
    requires Inv(w) && Enabled(w, op)
    ensures Inv(Next(w, op))
  {
    match op
    case New(n, c) => KeepsNew(w, n, c);
    case Insert(n, e) => KeepsInsert(w, n, e);
    case Merge(n, m) => KeepsMerge(w, n, m);
  }

  lemma {:induction false} PathKeeps(w: World, ops: seq<Op>, v: World)
    requires Inv(w) && Path(w, ops, v)
    ensures Inv(v)
    decreases ops
  {
    if ops != [] {
      StepKeeps(w, ops[0]);
      PathKeeps(Next(w, ops[0]), ops[1..], v);
    }
  }

  /** After every run, for every buffer: visiting it finds its elements in order, each in a slot of its own that no
      other buffer has; the length is their number; the capacity is the last buffer's; and what is allocated is at
      most twice the length and the initial capacities. */
  lemma EveryRun(ops: seq<Op>, w: World, n: Name)
    requires Path(EMPTY, ops, w) && n in w.entries
    ensures var x := w.entries[n];
            && Holds(w.memory, Slots(x.flex.buffers), x.elements) && Distinct(Slots(x.flex.buffers))
            && x.flex.totalLen == |x.elements| == Count(x.flex.buffers)
            && (x.flex.buffers != [] ==> x.flex.currCapacity == Last(x.flex).capacity)
            && Fits(x.flex.buffers) && Allocated(x.flex.buffers) <= 2 * |x.elements| + x.initial
    ensures forall m :: m in w.entries && m != n ==> Apart(w.entries[n].flex.buffers, w.entries[m].flex.buffers)
  {
    PathKeeps(EMPTY, ops, w);
    assert GoodEntry(w, w.entries[n]);
    CountIsLength(w.entries[n].flex.buffers);
    SlotsDistinct(w.entries[n].flex.buffers);
  }
}
