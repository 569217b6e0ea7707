/** Frames, free list and address spaces as values: what kernel/kmem.c and kernel/vm.c keep. */
module VmState {

  import opened Bytes
  import opened Common
  import opened Paging

  /** More frames than any machine has; page numbers of physical memory are shorter than 44 bits. */
  const NFRAME: nat := 0x1000_0000_0000

  /** Frames that a 64-bit address can name. */
  const TOPFRAME: nat := 0x10_0000_0000_0000

  /** The first page number above user memory: that of TRAPFRAME, with TRAMPOLINE behind it. */
  const USERTOP: nat := 0x3FF_FFFE

  // ---------------------------------------------------------------- the list of free pages

  /** The address of the k-th free page, or 0 behind the last one. */
  function Addr(free: seq<nat>, k: nat): nat {
    if k < |free| then free[k] * PGSIZE else 0
  }

  /** The k-th free page holds the address of the next one in its first word. */
  predicate LinkAt(mem: Mem, free: seq<nat>, k: nat)
    requires k < |free|
  {
    free[k] in mem && GetLe(mem[free[k]], 0, 8) == Addr(free, k + 1)
  }

  /** A frame is free exactly when it is on the list. */
  predicate FrameOk(own: Owners, free: seq<nat>, f: nat)
    requires f in own
  {
    0 < f < NFRAME && (own[f].Free? <==> f in free)
  }

  /** The list starting at head runs through exactly the free frames, each once. */
  ghost predicate List(mem: Mem, own: Owners, head: nat, free: seq<nat>) {
    && mem.Keys == own.Keys && head == Addr(free, 0) && Distinct(free)
    && (forall k {:trigger LinkAt(mem, free, k)} | 0 <= k < |free| :: LinkAt(mem, free, k))
    && (forall f {:trigger FrameOk(own, free, f)} | f in own :: FrameOk(own, free, f))
  }

  function Linked(mem: Mem, f: nat, next: nat): Mem
    requires f in mem
  {
    mem[f := PutLe(mem[f], 0, 8, next)]
  }

  lemma PushKeeps(mem: Mem, own: Owners, head: nat, free: seq<nat>, f: nat)
    requires List(mem, own, head, free) && f in own && !own[f].Free?
    ensures List(Linked(mem, f, head), own[f := Free], f * PGSIZE, [f] + free)
  {
    var mem', own', free' := Linked(mem, f, head), own[f := Free], [f] + free;
    assert FrameOk(own, free, f);
    assert head < WORD by {
      if free != [] {
        assert LinkAt(mem, free, 0);
        assert FrameOk(own, free, free[0]);
      }
    }
    Pow64();
    GetPut(mem[f], 0, 8, head);
    forall k | 0 <= k < |free'| ensures LinkAt(mem', free', k) {
      if k > 0 {
        assert LinkAt(mem, free, k - 1);
        assert free[k - 1] in free;
      }
    }
    forall g | g in own' ensures FrameOk(own', free', g) {
      assert FrameOk(own, free, g);
    }
  }

  lemma PopKeeps(mem: Mem, own: Owners, head: nat, free: seq<nat>)
    requires List(mem, own, head, free) && free != []
    ensures free[0] in mem && own[free[0]].Free? && head == free[0] * PGSIZE > 0
    ensures List(mem, own[free[0] := Held], GetLe(mem[free[0]], 0, 8), free[1..])
  {
    assert LinkAt(mem, free, 0);
    assert FrameOk(own, free, free[0]);
    var own', rest := own[free[0] := Held], free[1..];
    forall k | 0 <= k < |rest| ensures LinkAt(mem, rest, k) {
      assert LinkAt(mem, free, k + 1);
    }
    assert free == [free[0]] + rest;
    forall g | g in own' ensures FrameOk(own', rest, g) {
      assert FrameOk(own, free, g);
    }
  }

  /** The list depends on its own pages alone. */
  lemma ListFrame(mem: Mem, own: Owners, head: nat, free: seq<nat>, mem': Mem, own': Owners)
    requires List(mem, own, head, free) && mem'.Keys == own'.Keys == own.Keys
    requires forall f | f in own :: own'[f].Free? <==> own[f].Free?
    requires forall f | f in own && own[f].Free? :: mem'[f] == mem[f]
    ensures List(mem', own', head, free)
  {
    forall k | 0 <= k < |free| ensures LinkAt(mem', free, k) {
      assert LinkAt(mem, free, k);
      assert FrameOk(own, free, free[k]);
    }
    forall g | g in own' ensures FrameOk(own', free, g) {
      assert FrameOk(own, free, g);
    }
  }

  // ---------------------------------------------------------------- addresses

  function PgRoundDown(a: nat): nat {
    a / PGSIZE * PGSIZE
  }

  /** In 64-bit arithmetic. */
  function PgRoundUp(a: nat): nat {
    (a + PGSIZE - 1) % WORD / PGSIZE * PGSIZE
  }

  /** flags | PTE_V. */
  function WithValid(flags: nat): nat {
    WithBit(flags, 0, true)
  }

  /** mappages works on the pages from PageOf(va) up to this one. */
  function MapEnd(va: nat, sz: nat): nat {
    PgRoundUp((va + sz - 1) % WORD) / PGSIZE
  }

  /** One aligned page: the loop of mappages runs for it and for nothing else. */
  lemma SingleRound(va: nat, pa: nat, v: nat)
    requires va == v * PGSIZE && v < NPAGE
    ensures PgRoundDown(va) == va && PageOf(va) == v && PgRoundUp((va + PGSIZE - 1) % WORD) == va + PGSIZE
    ensures (PgRoundDown(pa) + va - PgRoundDown(va)) / PGSIZE == pa / PGSIZE
  {
    OnePage(v);
    MapEndBound(va, PGSIZE, pa);
  }

  /** The pages a range of addresses touches. */
  predicate Touches(va: nat, sz: nat, v: nat) {
    exists a | va <= a < va + sz :: a / PGSIZE == v
  }

  lemma TouchedPages(va: nat, sz: nat, v: nat)
    requires sz > 0
    ensures Touches(va, sz, v) <==> va / PGSIZE <= v <= (va + sz - 1) / PGSIZE
  {
    if va / PGSIZE <= v <= (va + sz - 1) / PGSIZE {
      var a := if v == va / PGSIZE then va else v * PGSIZE;
      assert va <= a < va + sz && a / PGSIZE == v;
    }
  }

  /** The next page lies below end, or not. */
  lemma PageBelow(v: nat, hi: nat)
    ensures v * PGSIZE + PGSIZE == (v + 1) * PGSIZE && ((v + 1) * PGSIZE <= hi * PGSIZE <==> v < hi)
  {
  }

  lemma PageAddress(v: nat)
    ensures v * PGSIZE / PGSIZE == v && (v < NPAGE ==> PageOf(v * PGSIZE) == v)
  {
  }

  lemma MapEndBound(va: nat, sz: nat, pa: nat)
    requires va + sz <= NPAGE * PGSIZE
    ensures MapEnd(va, sz) <= NPAGE && PgRoundUp((va + sz - 1) % WORD) == MapEnd(va, sz) * PGSIZE
    ensures PgRoundDown(pa) % PGSIZE == 0 && PgRoundDown(pa) / PGSIZE == pa / PGSIZE
  {
    if va + sz == 0 {
      assert (va + sz - 1) % WORD == WORD - 1;
      assert (WORD - 1 + PGSIZE - 1) % WORD == PGSIZE - 2;
    } else {
      assert (va + sz - 1) % WORD == va + sz - 1;
    }
  }

  lemma MapEndIs(va: nat, sz: nat)
    requires sz > 0 && va + sz <= NPAGE * PGSIZE
    ensures MapEnd(va, sz) == (va + sz - 1) / PGSIZE + if (va + sz - 1) % PGSIZE == 0 then 0 else 1
  {
    var x := va + sz - 1;
    assert x % WORD == x && (x + PGSIZE - 1) % WORD == x + PGSIZE - 1;
    assert PgRoundUp(x) / PGSIZE == (x + PGSIZE - 1) / PGSIZE;
  }

  /** mappages covers what it is asked for exactly when the last byte is not the first one of its page. */
  lemma MapCovers(va: nat, sz: nat)
    requires sz > 0 && va + sz <= NPAGE * PGSIZE
    ensures (forall v: nat | Touches(va, sz, v) :: va / PGSIZE <= v < MapEnd(va, sz)) <==> (va + sz - 1) % PGSIZE != 0
    ensures forall v: nat | va / PGSIZE <= v < MapEnd(va, sz) :: Touches(va, sz, v)
    ensures va % PGSIZE == 0 && sz % PGSIZE == 0 ==> MapEnd(va, sz) == (va + sz) / PGSIZE
  {
    MapEndIs(va, sz);
    var last := (va + sz - 1) / PGSIZE;
    forall v: nat ensures Touches(va, sz, v) <==> va / PGSIZE <= v <= last {
      TouchedPages(va, sz, v);
    }
    assert Touches(va, sz, last);
  }

  /** The failing case: one byte at the start of a page is not mapped at all. */
  lemma OneByteMissed()
    ensures MapEnd(PGSIZE, 1) == PGSIZE / PGSIZE && Touches(PGSIZE, 1, PGSIZE / PGSIZE)
  {
    MapEndIs(PGSIZE, 1);
    TouchedPages(PGSIZE, 1, 1);
  }

  // ---------------------------------------------------------------- the maps

  /** The entries of every address space, by root and page number. */
  type Maps = map<nat, seq<Pte>>

  function SetPage(maps: Maps, r: nat, v: nat, e: Pte): Maps
    requires r in maps && v < |maps[r]|
  {
    maps[r := maps[r][v := e]]
  }

  /** The trees in memory stand for these maps. */
  ghost predicate Shows(mem: Mem, own: Owners, maps: Maps) {
    && (forall r {:trigger r in maps} {:trigger IsRoot(own, r)} :: r in maps <==> IsRoot(own, r))
    && (forall r {:trigger maps[r]} | r in maps :: |maps[r]| == NPAGE)
    && (forall r, v {:trigger At(mem, r, v)} | r in maps && 0 <= v < NPAGE :: maps[r][v] == At(mem, r, v))
  }

  ghost predicate Sound(mem: Mem, head: nat, own: Owners, free: seq<nat>, maps: Maps) {
    List(mem, own, head, free) && Tree(mem, own) && Shows(mem, own, maps)
  }

  /** A change outside the tables keeps all the maps. */
  lemma FrameKeeps(mem: Mem, own: Owners, maps: Maps, mem': Mem, own': Owners)
    requires Tree(mem, own) && Shows(mem, own, maps) && mem'.Keys == own'.Keys == own.Keys
    requires forall f | f in own :: own'[f] == own[f] || !(own[f].Table? || own'[f].Table?)
    requires forall f | IsTable(own, f) :: mem'[f] == mem[f]
    ensures Tree(mem', own') && Shows(mem', own', maps)
  {
    TreeFrame(mem, own, mem', own');
    forall r | r in own && (IsRoot(own, r) || IsRoot(own', r)) ensures own'[r] == own[r] {
    }
    ShowsSame(mem, own, maps, mem', own');
  }

  lemma ShowsSame(mem: Mem, own: Owners, maps: Maps, mem': Mem, own': Owners)
    requires Shows(mem, own, maps) && (forall r :: IsRoot(own', r) <==> IsRoot(own, r))
    requires forall r, v {:trigger At(mem', r, v)} | IsRoot(own, r) && 0 <= v < NPAGE :: At(mem', r, v) == At(mem, r, v)
    ensures Shows(mem', own', maps)
  {
    forall r, v | r in maps && 0 <= v < NPAGE ensures maps[r][v] == At(mem', r, v) {
      assert IsRoot(own, r);
      assert maps[r][v] == At(mem, r, v);
    }
  }

  /** The same list and maps after a frame that is neither free nor a table got other contents. */
  lemma FillKeeps(mem: Mem, head: nat, own: Owners, free: seq<nat>, maps: Maps, f: nat, c: Page)
    requires Sound(mem, head, own, free, maps) && f in own && !own[f].Table? && !own[f].Free?
    ensures Sound(mem[f := c], head, own, free, maps)
  {
    FrameKeeps(mem, own, maps, mem[f := c], own);
    ListFrame(mem, own, head, free, mem[f := c], own);
  }

  /** The same list and maps after a held frame was given to an address space, or taken from it. */
  lemma OwnerKeeps(mem: Mem, head: nat, own: Owners, free: seq<nat>, maps: Maps, f: nat, o: Owner)
    requires Sound(mem, head, own, free, maps) && f in own && !own[f].Table? && !own[f].Free? && !o.Table? && !o.Free?
    ensures Sound(mem, head, own[f := o], free, maps)
  {
    FrameKeeps(mem, own, maps, mem, own[f := o]);
    ListFrame(mem, own, head, free, mem, own[f := o]);
  }

  lemma PopSound(mem: Mem, head: nat, own: Owners, free: seq<nat>, maps: Maps)
    requires Sound(mem, head, own, free, maps) && free != []
    ensures free[0] in mem && own[free[0]].Free? && head == free[0] * PGSIZE > 0
    ensures Sound(mem, GetLe(mem[free[0]], 0, 8), own[free[0] := Held], free[1..], maps)
  {
    PopKeeps(mem, own, head, free);
    FrameKeeps(mem, own, maps, mem, own[free[0] := Held]);
  }

  lemma PushSound(mem: Mem, head: nat, own: Owners, free: seq<nat>, maps: Maps, f: nat)
    requires Sound(mem, head, own, free, maps) && f in own && !own[f].Free? && !own[f].Table?
    ensures Sound(Linked(mem, f, head), f * PGSIZE, own[f := Free], [f] + free, maps)
  {
    PushKeeps(mem, own, head, free, f);
    FrameKeeps(mem, own, maps, Linked(mem, f, head), own[f := Free]);
  }

  // ---------------------------------------------------------------- the first list

  /** Before freerange: every frame of memory is held and there are no tables. */
  lemma NoTables(mem: Mem, own: Owners)
    requires mem.Keys == own.Keys && (forall f | f in own :: own[f].Held? && 0 < f < NFRAME)
    ensures Sound(mem, 0, own, [], map[])
  {
    forall f | f in own ensures FrameOk(own, [], f) {
    }
  }

  /** The whole pages of an address range are those from PgRoundUp(start) / PGSIZE up to end / PGSIZE. */
  lemma WholePages(end: nat, v: nat)
    ensures v * PGSIZE + PGSIZE <= end <==> v < end / PGSIZE
  {
  }

  // ---------------------------------------------------------------- tables added by a walk

  /**
    * What growing the tables of r may do: turn free pages into tables of r.  Pages in use by others keep
    * their owner and contents.
    */
  ghost predicate Kept(mem: Mem, own: Owners, mem': Mem, own': Owners, r: nat) {
    && mem.Keys == own.Keys == mem'.Keys == own'.Keys
    && (forall f {:trigger own'[f]} | f in own ::
          own'[f] == own[f] || (own[f].Free? && own'[f].Table? && own'[f].root == r && !own'[f].path.Top?))
    && (forall f {:trigger mem'[f]} | f in own && !own[f].Free? && !own[f].Table? :: mem'[f] == mem[f])
  }

  lemma KeptSelf(mem: Mem, own: Owners, r: nat)
    requires mem.Keys == own.Keys
    ensures Kept(mem, own, mem, own, r)
  {
  }

  lemma KeptTrans(m0: Mem, o0: Owners, m1: Mem, o1: Owners, m2: Mem, o2: Owners, r: nat)
    requires Kept(m0, o0, m1, o1, r) && Kept(m1, o1, m2, o2, r)
    ensures Kept(m0, o0, m2, o2, r)
  {
    forall f | f in o0 && !o0[f].Free? && !o0[f].Table? ensures m2[f] == m0[f] {
      assert o1[f] == o0[f] && m1[f] == m0[f];
    }
    forall f | f in o0
      ensures o2[f] == o0[f] || (o0[f].Free? && o2[f].Table? && o2[f].root == r && !o2[f].path.Top?)
    {
      assert o1[f] == o0[f] || o2[f] == o1[f];
    }
  }

  function Hang(mem: Mem, t: nat, i: nat, f: nat): Mem
    requires t in mem && f in mem && i < NPTE && Fits(Pte(f, 1))
  {
    SetEntry(mem[f := Zeros(PGSIZE)], t, i, Pte(f, 1))
  }

  /** A page, free before, turned into an empty table below entry i of t. */
  lemma HangSound(mem: Mem, head: nat, own: Owners, free: seq<nat>, maps: Maps, t: nat, i: nat, f: nat)
    requires Sound(mem, head, own, free, maps)
    requires IsTable(own, t) && !own[t].path.Bottom? && i < NPTE && E(mem, t, i) == Empty && f in own && own[f].Held?
    ensures Fits(Pte(f, 1)) && Hung(own, t, i, f)[t] == own[t]
    ensures Sound(Hang(mem, t, i, f), head, Hung(own, t, i, f), free, maps)
    ensures E(Hang(mem, t, i, f), t, i) == Pte(f, 1)
    ensures forall j | 0 <= j < NPTE :: E(Hang(mem, t, i, f), f, j) == Empty
  {
    var clear := mem[f := Zeros(PGSIZE)];
    assert FrameOk(own, free, f);
    FillKeeps(mem, head, own, free, maps, f, Zeros(PGSIZE));
    forall j | 0 <= j < NPTE ensures E(clear, f, j) == Empty {
      ZeroTable(j);
    }
    TableAdd(clear, own, t, i, f);
    ListFrame(mem, own, head, free, Hang(mem, t, i, f), Hung(own, t, i, f));
    ShowsSame(clear, own, maps, Hang(mem, t, i, f), Hung(own, t, i, f));
    assert Hang(mem, t, i, f)[f] == clear[f];
    forall j | 0 <= j < NPTE ensures E(Hang(mem, t, i, f), f, j) == Empty {
      assert E(clear, f, j) == Empty;
    }
  }

  lemma EmptyStep(mem: Mem, t: nat, i: nat)
    requires t in mem && i < NPTE && E(mem, t, i) == Empty
    ensures Step(mem, Some(t), i) == None
  {
  }

  /** How many tables are missing on the way to page v. */
  function Missing(mem: Mem, r: nat, v: nat): nat
    requires v < NPAGE
  {
    if Step(mem, Some(r), Hi(v)).None? then 2 else if Low(mem, r, v).None? then 1 else 0
  }

  /** Page v cannot be given an entry: a table is missing on the way and no page is free. */
  predicate Stuck(mem: Mem, free: seq<nat>, r: nat, v: nat) {
    v < NPAGE && free == [] && Low(mem, r, v).None?
  }

  /** Where walk leaves a page's entry: the table and the index in it. */
  datatype Slot = Slot(frame: nat, index: nat)

  /** The slot for page v of r. */
  predicate SlotOf(mem: Mem, own: Owners, r: nat, v: nat, s: Slot) {
    && v < NPAGE && IsTable(own, s.frame) && own[s.frame].root == r && own[s.frame].path == Bottom(Hi(v), Md(v))
    && s.index == Lo(v) && Low(mem, r, v) == Some(s.frame)
  }

  /** Two pages of one address space have the same slot exactly when they are the same page. */
  lemma SlotDecides(mem: Mem, own: Owners, r: nat, v: nat, w: nat, s: Slot, t: Slot)
    requires SlotOf(mem, own, r, v, s) && SlotOf(mem, own, r, w, t)
    ensures s == t <==> v == w
  {
    Indices(v, w);
  }

  /** A change that keeps the tables keeps the slots. */
  lemma SlotStays(mem: Mem, own: Owners, mem': Mem, own': Owners, r: nat, v: nat, s: Slot)
    requires Tree(mem', own') && IsRoot(own', r) && SlotOf(mem, own, r, v, s)
    requires s.frame in own' && own'[s.frame] == own[s.frame]
    ensures SlotOf(mem', own', r, v, s)
  {
    Reached(mem', own', s.frame, v);
  }

  lemma SlotHolds(mem: Mem, own: Owners, maps: Maps, r: nat, v: nat, s: Slot)
    requires Tree(mem, own) && Shows(mem, own, maps) && r in maps && SlotOf(mem, own, r, v, s)
    ensures s.frame in mem && s.index < NPTE && E(mem, s.frame, s.index) == maps[r][v]
  {
    assert At(mem, r, v) == E(mem, s.frame, s.index);
  }

  /** Writing the slot of page v of r changes the map there and nowhere else. */
  lemma SlotWrite(mem: Mem, head: nat, own: Owners, free: seq<nat>, maps: Maps, r: nat, v: nat, s: Slot, e: Pte)
    requires Sound(mem, head, own, free, maps) && r in maps && SlotOf(mem, own, r, v, s)
    requires Fits(e) && (e == Empty || IsLeaf(e))
    ensures Sound(SetEntry(mem, s.frame, s.index, e), head, own, free, SetPage(maps, r, v, e))
  {
    LeafWrite(mem, own, s.frame, v, e);
    var mem', maps' := SetEntry(mem, s.frame, s.index, e), SetPage(maps, r, v, e);
    ListFrame(mem, own, head, free, mem', own);
    forall q, w | q in maps' && 0 <= w < NPAGE ensures maps'[q][w] == At(mem', q, w) {
      assert IsRoot(own, q);
      assert maps[q][w] == At(mem, q, w);
    }
  }

  /** Writing into a table that a walk of r has left. */
  lemma TableWrite(m0: Mem, o0: Owners, mem: Mem, own: Owners, mem': Mem, r: nat, t: nat)
    requires Kept(m0, o0, mem, own, r) && IsTable(own, t)
    requires mem'.Keys == mem.Keys && forall g | g in mem && g != t :: mem'[g] == mem[g]
    ensures Kept(m0, o0, mem', own, r)
  {
    forall f | f in o0 && !o0[f].Free? && !o0[f].Table? ensures mem'[f] == m0[f] {
      assert own[f] == o0[f] && mem[f] == m0[f];
    }
  }

  lemma LeafFits(f: nat, flags: nat)
    requires flags < 1024 && Permits(flags) && f < TOPFRAME
    ensures Fits(Pte(f, WithValid(flags))) && IsLeaf(Pte(f, WithValid(flags)))
  {
    assert WithValid(flags) / 2 == flags / 2;
  }

  // ---------------------------------------------------------------- ranges of pages

  /** A map with n pages from lo on mapped to frames from f on. */
  function Run(m: seq<Pte>, lo: nat, n: nat, f: nat, flags: nat): (r: seq<Pte>)
    ensures |r| == |m|
    ensures forall v | 0 <= v < |m| :: r[v] == if lo <= v < lo + n then Pte(f + v - lo, flags) else m[v]
  {
    seq(|m|, v requires 0 <= v < |m| => if lo <= v < lo + n then Pte(f + v - lo, flags) else m[v])
  }

  function WithRun(maps: Maps, r: nat, lo: nat, n: nat, f: nat, flags: nat): Maps
    requires r in maps
  {
    maps[r := Run(maps[r], lo, n, f, flags)]
  }

  lemma RunNone(maps: Maps, r: nat, lo: nat, f: nat, flags: nat)
    requires r in maps
    ensures WithRun(maps, r, lo, 0, f, flags) == maps
  {
    assert Run(maps[r], lo, 0, f, flags) == maps[r];
  }

  lemma RunMore(maps: Maps, r: nat, lo: nat, n: nat, f: nat, flags: nat)
    requires r in maps && lo + n < |maps[r]|
    ensures SetPage(WithRun(maps, r, lo, n, f, flags), r, lo + n, Pte(f + n, flags)) ==
      WithRun(maps, r, lo, n + 1, f, flags)
  {
    assert Run(maps[r], lo, n, f, flags)[lo + n := Pte(f + n, flags)] == Run(maps[r], lo, n + 1, f, flags);
  }

  /** A map with the pages from lo to hi unmapped. */
  function Cut(m: seq<Pte>, lo: nat, hi: nat): (r: seq<Pte>)
    ensures |r| == |m|
    ensures forall v | 0 <= v < |m| :: r[v] == if lo <= v < hi then Empty else m[v]
  {
    seq(|m|, v requires 0 <= v < |m| => if lo <= v < hi then Empty else m[v])
  }

  function WithCut(maps: Maps, r: nat, lo: nat, hi: nat): Maps
    requires r in maps
  {
    maps[r := Cut(maps[r], lo, hi)]
  }

  lemma CutNone(maps: Maps, r: nat, lo: nat)
    requires r in maps
    ensures WithCut(maps, r, lo, lo) == maps
  {
    assert Cut(maps[r], lo, lo) == maps[r];
  }

  lemma CutMore(maps: Maps, r: nat, lo: nat, hi: nat)
    requires r in maps && lo <= hi < |maps[r]|
    ensures SetPage(WithCut(maps, r, lo, hi), r, hi, Empty) == WithCut(maps, r, lo, hi + 1)
  {
    assert Cut(maps[r], lo, hi)[hi := Empty] == Cut(maps[r], lo, hi + 1);
  }

  lemma OnePage(v: nat)
    requires v < NPAGE
    ensures v * PGSIZE + PGSIZE <= NPAGE * PGSIZE && MapEnd(v * PGSIZE, PGSIZE) == v + 1 && v * PGSIZE / PGSIZE == v
  {
    MapEndIs(v * PGSIZE, PGSIZE);
  }

  // ---------------------------------------------------------------- sizes

  /** The number of pages of an address space of sz bytes. */
  function Pages(sz: nat): nat {
    PgRoundUp(sz) / PGSIZE
  }

  lemma PagesOf(n: nat)
    requires n <= USERTOP
    ensures Pages(n * PGSIZE) == n && PgRoundUp(n * PGSIZE) == n * PGSIZE
  {
    assert n * PGSIZE + PGSIZE - 1 < WORD;
    assert (n * PGSIZE + PGSIZE - 1) / PGSIZE == n;
  }

  lemma PagesReach(sz: nat, v: nat)
    requires sz <= USERTOP * PGSIZE
    ensures v * PGSIZE < sz <==> v < Pages(sz)
  {
    assert sz + PGSIZE - 1 < WORD;
  }

  lemma PagesMonotone(a: nat, b: nat)
    requires a <= b <= USERTOP * PGSIZE
    ensures Pages(a) <= Pages(b) && PgRoundUp(a) == Pages(a) * PGSIZE && PgRoundUp(b) == Pages(b) * PGSIZE
    ensures (PgRoundUp(b) - PgRoundUp(a)) / PGSIZE == Pages(b) - Pages(a)
  {
    assert b + PGSIZE - 1 < WORD;
  }

  /** The frames between KERNBASE and PHYSTOP: 128 megabytes. */
  const NRAM: nat := 0x8000

  /** Conversion of a 64-bit unsigned to a 32-bit signed number, and back. */
  function ToInt32(x: nat): int {
    if x % 0x1_0000_0000 < 0x8000_0000 then x % 0x1_0000_0000 else x % 0x1_0000_0000 - 0x1_0000_0000
  }

  function FromInt32(i: int): nat {
    i % WORD
  }

  lemma SizeFits(sz: nat)
    requires sz <= USERTOP * PGSIZE && Pages(sz) <= NRAM
    ensures sz <= NRAM * PGSIZE && ToInt32(sz) == sz && FromInt32(ToInt32(sz)) == sz
  {
    PagesReach(sz, NRAM);
  }

  lemma ZeroSize(sz: nat, added: nat)
    requires sz <= USERTOP * PGSIZE && Pages(0) == Pages(sz) + added
    ensures sz == 0 && added == 0
  {
    PagesReach(sz, 0);
    PagesOf(0);
  }

  /** What growproc asks for lies below the pages above user memory. */
  lemma GrowthFits(sz: nat, n: nat)
    requires sz <= NRAM * PGSIZE && n < 0x8000_0000
    ensures (sz + n) % WORD == sz + n && Pages(sz + n) <= USERTOP && Pages(sz) <= Pages(sz + n)
  {
    PagesMonotone(sz, sz + n);
    PagesMonotone(sz + n, USERTOP * PGSIZE);
    PagesOf(USERTOP);
  }

  /** A size below 0 wraps to one above any size. */
  lemma ShrinkWraps(sz: nat, n: int)
    requires sz <= NRAM * PGSIZE && -0x8000_0000 <= n < 0
    ensures (sz + n) % WORD == if sz + n >= 0 then sz + n else sz + n + WORD
  {
  }

  /** PTE_R | PTE_U | xperm. */
  function UserPerm(xperm: nat): (p: nat) {
    WithBit(WithBit(xperm, 1, true), 4, true)
  }

  /** The bits of an entry that uvmalloc makes: PTE_V, PTE_R, PTE_U and those of xperm, and no others. */
  lemma UserPermBits(xperm: nat, k: nat)
    ensures Bit(WithValid(UserPerm(xperm)), k) <==> k in {0, 1, 4} || Bit(xperm, k)
    ensures k != 0 ==> (Bit(UserPerm(xperm), k) <==> Bit(WithValid(UserPerm(xperm)), k))
  {
    var y := WithBit(xperm, 1, true);
    BitOfWith(xperm, 1, true, k);
    BitOfWith(y, 4, true, k);
    BitOfWith(UserPerm(xperm), 0, true, k);
  }

  lemma UserPermLeaf(xperm: nat)
    requires xperm < 1024
    ensures UserPerm(xperm) < 1024 && Permits(UserPerm(xperm)) && Bit(UserPerm(xperm), 4)
  {
    assert Pow2(10) == 1024 by { assert Pow2(5) == 32; }
    WithBitBound(xperm, 1, true, 10);
    WithBitBound(WithBit(xperm, 1, true), 4, true, 10);
    UserPermBits(xperm, 1);
    UserPermBits(xperm, 4);
  }
}
