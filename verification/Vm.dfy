/** Physical pages (kernel/kmem.c) and address spaces (kernel/vm.c, kernel/proc.c) of one machine. */
module Vm {

  import opened Bytes
  import opened Common
  import opened Paging
  import opened VmState
  import opened Tables
  import opened Spaces
  import opened Pruning
  import opened Contents
  import opened UserMemory

  /** Memory and the head of the free list; whose page is whose, the list and the maps are ghosts. */
  class Machine {
    var mem: Mem
    var head: nat
    ghost var own: Owners
    ghost var free: seq<nat>
    ghost var maps: Maps

    ghost predicate Valid()
      reads this
    {
      Sound(mem, head, own, free, maps)
    }

    ghost function Now(): View
      reads this
    {
      View(mem, own, maps)
    }

    // -------------------------------------------------------------- kernel/kmem.c

    /** Memory before kinit: an empty list, every frame held. */
    constructor (ram: Mem)
      requires forall f | f in ram :: 0 < f < NFRAME
      ensures Valid() && mem == ram && free == [] && maps == map[] && own == map f | f in ram :: Held
    {
      mem, head, own, free, maps := ram, 0, map f | f in ram :: Held, [], map[];
      new;
      NoTables(mem, own);
    }

    /** freerange: the whole pages of the range, and no others, are put on the list. */
    method Freerange(start: nat, end: nat, ghost lo: nat, ghost hi: nat)
      requires Valid() && start + PGSIZE <= WORD && lo == PgRoundUp(start) / PGSIZE && hi == end / PGSIZE
      requires forall f | lo <= f < hi :: f in own && own[f].Held?
      modifies this
      ensures Valid() && maps == old(maps) && |free| == |old(free)| + if lo < hi then hi - lo else 0
      ensures own.Keys == old(own).Keys && forall f | f in own :: own[f] == if lo <= f < hi then Free else old(own)[f]
      ensures forall f | f in own && !(lo <= f < hi) :: mem[f] == old(mem)[f]
    {
      var i := PgRoundUp(start);
      ghost var v := lo;
      WholePages(end, v);
      while i + PGSIZE <= end
        invariant Valid() && maps == old(maps) && i == v * PGSIZE && lo <= v && (i + PGSIZE <= end <==> v < hi)
        invariant v == lo || v <= hi
        invariant own.Keys == old(own).Keys && |free| == |old(free)| + (v - lo)
        invariant forall f {:trigger own[f]} | f in own :: own[f] == if lo <= f < v then Free else old(own)[f]
        invariant forall f {:trigger mem[f]} | f in own && !(lo <= f < v) :: mem[f] == old(mem)[f]
        decreases hi - v
      {
        assert v in old(own) && own[v] == Held;
        Kfree(i, v);
        i := i + PGSIZE;
        v := v + 1;
        WholePages(end, v);
      }
    }

    /** kalloc: the first page of the list, or 0 when there is none. */
    method Kalloc() returns (pa: nat)
      requires Valid()
      modifies this
      ensures Valid() && mem == old(mem) && maps == old(maps)
      ensures if old(free) == [] then pa == 0 && own == old(own) && free == []
              else
                && pa == old(free)[0] * PGSIZE && pa > 0 && free == old(free)[1..]
                && old(free)[0] in old(own) && old(own)[old(free)[0]].Free? && own == old(own)[old(free)[0] := Held]
    {
      pa := head;
      if pa == 0 {
        assert free == [] by {
          if free != [] { PopSound(mem, head, own, free, maps); }
        }
        return;
      }
      PopSound(mem, head, own, free, maps);
      PageAddress(free[0]);
      head := GetLe(mem[pa / PGSIZE], 0, 8);
      own := own[free[0] := Held];
      free := free[1..];
    }

    /** kfree of a page that is neither free nor a table in use. */
    method Kfree(pa: nat, ghost f: nat)
      requires Valid() && pa == f * PGSIZE && f in own && !own[f].Free? && !own[f].Table?
      modifies this
      ensures Valid() && maps == old(maps)
      ensures mem == Linked(old(mem), f, old(head)) && own == old(own)[f := Free] && free == [f] + old(free)
    {
      PageAddress(f);
      PushSound(mem, head, own, free, maps, f);
      mem := Linked(mem, pa / PGSIZE, head);
      head := pa;
      own := own[f := Free];
      free := [f] + free;
    }

    // -------------------------------------------------------------- walk and mappages

    /** kalloc of a table, cleared and hung below entry i of t. */
    method NewTable(t: nat, i: nat) returns (n: Option<nat>)
      requires Valid() && IsTable(own, t) && !own[t].path.Bottom? && i < NPTE && E(mem, t, i) == Empty
      modifies this
      ensures Valid() && maps == old(maps) && Kept(old(mem), old(own), mem, own, old(own[t].root))
      ensures if old(free) == [] then n == None && mem == old(mem) && own == old(own) && free == old(free)
        else
          && n == Some(old(free)[0]) && free == old(free)[1..] && n.value in old(own) && old(own)[n.value].Free?
          && own == Hung(old(own), t, i, n.value) && own[t] == old(own[t]) && E(mem, t, i) == Pte(n.value, 1)
          && (forall j | 0 <= j < NPTE :: E(mem, n.value, j) == Empty)
    {
      var pa := Kalloc();
      if pa == 0 {
        return None;
      }
      var f := pa / PGSIZE;
      PageAddress(old(free)[0]);
      HangSound(mem, head, own, free, maps, t, i, f);
      mem := mem[f := Zeros(PGSIZE)];
      mem := SetEntry(mem, t, i, Pte(f, 1));
      own := Hung(own, t, i, f);
      n := Some(f);
    }

    /** One round of walk: the table entry i of t refers to, made on demand. */
    method NextTable(t: nat, i: nat, alloc: bool) returns (n: Option<nat>)
      requires Valid() && IsTable(own, t) && !own[t].path.Bottom? && i < NPTE
      modifies this
      ensures Valid() && maps == old(maps) && Kept(old(mem), old(own), mem, own, old(own[t].root))
      ensures own[t] == old(own[t])
      ensures var s := old(Step(mem, Some(t), i));
        if s.Some? || !alloc || old(free) == []
        then n == s && mem == old(mem) && own == old(own) && free == old(free) && head == old(head)
        else
          && n == Some(old(free)[0]) && free == old(free)[1..] && n.value in old(own) && old(own)[n.value].Free?
          && own == Hung(old(own), t, i, n.value) && E(mem, t, i) == Pte(n.value, 1)
          && (forall j | 0 <= j < NPTE :: E(mem, n.value, j) == Empty)
      ensures n.Some? ==> n.value in own && own[n.value] == Table(own[t].root, Down(own[t].path, i), t)
    {
      StepOk(mem, own, t, i);
      EntryIsWord(mem[t], i);
      var e := Decode(GetLe(mem[t], 8 * i, 8));
      if IsValid(e) {
        return Some(e.frame);
      }
      if !alloc {
        return None;
      }
      n := NewTable(t, i);
    }

    /** walk from the middle table on. */
    method WalkLow(r: nat, t: nat, va: nat, alloc: bool, ghost v: nat) returns (slot: Option<Slot>)
      requires Valid() && r in maps && v == PageOf(va) && t in own && own[t] == Table(r, Mid(Hi(v)), r)
      modifies this
      ensures Valid() && maps == old(maps) && Kept(old(mem), old(own), mem, own, r) && own[t] == old(own[t])
      ensures Along(old(own), own, r, v)
      ensures slot.Some? <==> old(Step(mem, Some(t), Md(v))).Some? || (alloc && old(free) != [])
      ensures if slot.Some? then SlotOf(mem, own, r, v, slot.value) else Low(mem, r, v).None?
      ensures if old(Step(mem, Some(t), Md(v))).Some? || slot.None?
        then mem == old(mem) && own == old(own) && free == old(free)
        else free == old(free)[1..]
    {
      IndexOf(va);
      assert Step(mem, Some(r), Hi(v)) == Some(t) by { StepBack(mem, own, t); }
      var n := NextTable(t, Px(1, va), alloc);
      if n.None? {
        return None;
      }
      assert own[n.value].path == Bottom(Hi(v), Md(v));
      Reached(mem, own, n.value, v);
      slot := Some(Slot(n.value, Px(0, va)));
    }

    /**
      * walk, its two rounds written out: the slot for the page of va, in the tables of r.  With alloc it
      * fails exactly when there are fewer free pages than missing tables, and then it has used them up.
      */
    method Walk(r: nat, va: nat, alloc: bool, ghost v: nat) returns (slot: Option<Slot>)
      requires Valid() && r in maps && v == PageOf(va)
      modifies this
      ensures Valid() && maps == old(maps) && Kept(old(mem), old(own), mem, own, r) && Along(old(own), own, r, v)
      ensures !alloc ==> mem == old(mem) && own == old(own) && free == old(free) && head == old(head)
      ensures if slot.Some? then SlotOf(mem, own, r, v, slot.value) else Low(mem, r, v).None?
      ensures slot.Some? <==> old(Missing(mem, r, v)) <= if alloc then |old(free)| else 0
      ensures alloc ==> free == old(free)[if slot.Some? then old(Missing(mem, r, v)) else |old(free)|..]
    {
      IndexOf(va);
      PathOk(mem, own, r, v);
      ghost var known := Step(mem, Some(r), Hi(v)).Some?;
      var n := NextTable(r, Px(2, va), alloc);
      if n.None? {
        return None;
      }
      ghost var m1, o1 := mem, own;
      if !known {
        EmptyStep(mem, n.value, Md(v));
      }
      slot := WalkLow(r, n.value, va, alloc, v);
      KeptTrans(old(mem), old(own), m1, o1, mem, own, r);
      AlongTrans(old(own), o1, own, r, v);
    }

    /**
      * One page of mappages.  It fails exactly when there are fewer free pages than missing tables, and then
      * the entry still has no table.
      */
    method MapExact(r: nat, va: nat, f: nat, flags: nat, ghost v: nat) returns (ok: bool)
      requires Valid() && r in maps && v == PageOf(va) && maps[r][v] == Empty
      requires flags < 1024 && Permits(flags) && f < TOPFRAME
      modifies this
      ensures Valid() && Kept(old(mem), old(own), mem, own, r)
      ensures ok <==> old(Missing(mem, r, v)) <= |old(free)|
      ensures free == old(free)[if ok then old(Missing(mem, r, v)) else |old(free)|..]
      ensures maps == if ok then SetPage(old(maps), r, v, Pte(f, WithValid(flags))) else old(maps)
      ensures if ok then Furnishes(old(own), own, r, v) else Low(mem, r, v).None?
    {
      var slot := Walk(r, va, true, v);
      if slot.None? {
        return false;
      }
      WalkFurnishes(mem, old(own), own, r, v, slot.value);
      var t, i := slot.value.frame, slot.value.index;
      SlotHolds(mem, own, maps, r, v, slot.value);
      assert !IsValid(E(mem, t, i));
      LeafFits(f, flags);
      SlotWrite(mem, head, own, free, maps, r, v, slot.value, Pte(f, WithValid(flags)));
      ghost var m1 := mem;
      mem := SetEntry(mem, t, i, Pte(f, WithValid(flags)));
      maps := SetPage(maps, r, v, Pte(f, WithValid(flags)));
      TableWrite(old(mem), old(own), m1, own, mem, r, t);
      ok := true;
    }

    /** The same, without the account of the free pages. */
    method MapPage(r: nat, va: nat, f: nat, flags: nat, ghost v: nat) returns (ok: bool)
      requires Valid() && r in maps && v == PageOf(va) && maps[r][v] == Empty
      requires flags < 1024 && Permits(flags) && f < TOPFRAME
      modifies this
      ensures Valid() && Kept(old(mem), old(own), mem, own, r) && (!ok ==> Stuck(mem, free, r, v))
      ensures maps == if ok then SetPage(old(maps), r, v, Pte(f, WithValid(flags))) else old(maps)
    {
      ok := MapExact(r, va, f, flags, v);
    }

    /** One round of mappages, n pages after it started in the state s with frame f. */
    method MapRound(r: nat, va: nat, pa: nat, perm: nat, ghost lo: nat, ghost n: nat, ghost f: nat, ghost s: View)
      returns (ok: bool)
      requires Valid() && r in s.maps && perm < 1024 && Permits(perm) && pa == (f + n) * PGSIZE && f + n < TOPFRAME
      requires va == (lo + n) * PGSIZE && lo + n < NPAGE && |s.maps[r]| == NPAGE && s.maps[r][lo + n] == Empty
      requires maps == WithRun(s.maps, r, lo, n, f, WithValid(perm)) && Kept(s.mem, s.own, mem, own, r)
      modifies this
      ensures Valid() && Kept(s.mem, s.own, mem, own, r) && (!ok ==> Stuck(mem, free, r, lo + n))
      ensures maps == WithRun(s.maps, r, lo, if ok then n + 1 else n, f, WithValid(perm))
    {
      PageAddress(lo + n);
      PageAddress(f + n);
      ok := MapPage(r, va, pa / PGSIZE, perm, lo + n);
      KeptTrans(s.mem, s.own, old(mem), old(own), mem, own, r);
      if ok {
        RunMore(s.maps, r, lo, n, f, WithValid(perm));
      }
    }

    /** The loop of mappages, from address start up to end, both aligned; lo and hi are their page numbers. */
    method MapRange(r: nat, start: nat, end: nat, pa: nat, perm: nat, ghost lo: nat, ghost hi: nat)
      returns (ok: bool, ghost done: nat)
      requires Valid() && r in maps && perm < 1024 && Permits(perm)
      requires start == lo * PGSIZE && end == hi * PGSIZE && hi <= NPAGE && pa % PGSIZE == 0
      requires pa / PGSIZE + hi <= TOPFRAME
      requires forall v | lo <= v < hi :: maps[r][v] == Empty
      modifies this
      ensures Valid() && Kept(old(mem), old(own), mem, own, r)
      ensures maps == WithRun(old(maps), r, lo, done, pa / PGSIZE, WithValid(perm))
      ensures if ok then done == if hi < lo then 0 else hi - lo
              else lo + done < hi && Stuck(mem, free, r, lo + done)
    {
      ghost var s, f := Now(), pa / PGSIZE;
      var v := start;
      done := 0;
      RunNone(maps, r, lo, f, WithValid(perm));
      KeptSelf(mem, own, r);
      PageBelow(lo, hi);
      while v + PGSIZE <= end
        invariant Valid() && v == (lo + done) * PGSIZE && (done == 0 || lo + done <= hi)
        invariant v + PGSIZE <= end <==> lo + done < hi
        invariant Kept(s.mem, s.own, mem, own, r)
        invariant maps == WithRun(s.maps, r, lo, done, f, WithValid(perm))
        decreases hi - lo - done
      {
        var mapped := MapRound(r, v, pa + v - start, perm, lo, done, f, s);
        if !mapped {
          return false, done;
        }
        PageBelow(lo + done, hi);
        v := v + PGSIZE;
        done := done + 1;
        PageBelow(lo + done, hi);
      }
      ok := true;
    }

    /**
      * mappages: page by page up to MapEnd.  Where a table is missing and no page is free it stops and leaves the
      * pages mapped so far.  The pages must be unmapped, or it panics.
      */
    method Mappages(r: nat, va: nat, sz: nat, pa: nat, perm: nat, ghost lo: nat, ghost hi: nat)
      returns (ok: bool, ghost done: nat)
      requires Valid() && r in maps && perm < 1024 && Permits(perm)
      requires va + sz <= NPAGE * PGSIZE && lo == va / PGSIZE && hi == MapEnd(va, sz) <= NPAGE
      requires pa / PGSIZE + hi <= TOPFRAME
      requires forall v | lo <= v < hi :: maps[r][v] == Empty
      modifies this
      ensures Valid() && Kept(old(mem), old(own), mem, own, r)
      ensures maps == WithRun(old(maps), r, lo, done, pa / PGSIZE, WithValid(perm))
      ensures if ok then done == if hi < lo then 0 else hi - lo
              else lo + done < hi && Stuck(mem, free, r, lo + done)
    {
      MapEndBound(va, sz, pa);
      ok, done := MapRange(r, PgRoundDown(va), PgRoundUp((va + sz - 1) % WORD), PgRoundDown(pa), perm, lo, hi);
    }

    /** mappages of a single page, where its loop runs once. */
    method MapSingle(r: nat, va: nat, pa: nat, perm: nat, ghost v: nat) returns (ok: bool)
      requires Valid() && r in maps && perm < 1024 && Permits(perm)
      requires va == v * PGSIZE && v < NPAGE && pa / PGSIZE < TOPFRAME && maps[r][v] == Empty
      modifies this
      ensures ok <==> Lacks(old(own), r, v) <= |old(free)|
      ensures ok ==> |free| + Lacks(old(own), r, v) == |old(free)| && Furnishes(old(own), own, r, v)
      ensures !ok ==> !TableAt(own, r, Bottom(Hi(v), Md(v)))
      ensures Valid() && Kept(old(mem), old(own), mem, own, r) && (!ok ==> free == [])
      ensures maps == if ok then SetPage(old(maps), r, v, Pte(pa / PGSIZE, WithValid(perm))) else old(maps)
    {
      SingleRound(va, pa, v);
      LacksIs(mem, own, r, v);
      ok := MapExact(r, PgRoundDown(va), pa / PGSIZE, perm, v);
      if !ok {
        NoLowTable(mem, own, r, v);
      }
    }

    // -------------------------------------------------------------- uvmunmap

    /** The slot of a mapped page and what it holds; no table is missing on the way. */
    method LeafSlot(r: nat, va: nat, ghost v: nat) returns (s: Slot, e: Pte)
      requires Valid() && r in maps && v == PageOf(va) && IsValid(maps[r][v])
      modifies this
      ensures Valid() && mem == old(mem) && own == old(own) && free == old(free) && head == old(head)
      ensures maps == old(maps)
      ensures SlotOf(mem, own, r, v, s) && e == maps[r][v] && e.flags < 1024
    {
      assert maps[r][v] == At(mem, r, v);
      var slot := Walk(r, va, false, v);
      s := slot.value;
      SlotHolds(mem, own, maps, r, v, s);
      EntryIsWord(mem[s.frame], s.index);
      e := Decode(GetLe(mem[s.frame], 8 * s.index, 8));
    }

    method ClearSlot(r: nat, s: Slot, ghost v: nat)
      requires Valid() && r in maps && SlotOf(mem, own, r, v, s)
      modifies this
      ensures Valid() && own == old(own) && free == old(free) && maps == SetPage(old(maps), r, v, Empty)
      ensures mem.Keys == old(mem).Keys && forall f | f in own && !own[f].Table? :: mem[f] == old(mem)[f]
    {
      SlotWrite(mem, head, own, free, maps, r, v, s, Empty);
      mem := SetEntry(mem, s.frame, s.index, Empty);
      maps := SetPage(maps, r, v, Empty);
    }

    /** kfree of page v of r, and its entry cleared. */
    method FreeSlot(r: nat, s: Slot, e: Pte, ghost v: nat)
      requires Valid() && r in maps && SlotOf(mem, own, r, v, s) && e == maps[r][v]
      requires PageOk(own, maps, r, v) && Backed(own, maps, r)
      modifies this
      ensures Valid() && |free| == |old(free)| + 1 && maps == SetPage(old(maps), r, v, Empty)
      ensures Freed(old(mem), old(own), mem, own, r, v, v + 1) && Backed(own, maps, r)
    {
      Kfree(e.frame * PGSIZE, e.frame);
      SlotStays(old(mem), old(own), mem, own, r, v, s);
      ClearSlot(r, s, v);
      GiveBack(old(mem), old(own), old(maps), r, v, mem, own);
      BackedWithout(old(own), old(maps), r, v, own, maps);
    }

    /** One page of uvmunmap. */
    method UnmapPage(r: nat, va: nat, dofree: bool, ghost v: nat)
      requires Valid() && r in maps && v == PageOf(va) && IsLeaf(maps[r][v])
      requires dofree ==> PageOk(own, maps, r, v) && Backed(own, maps, r)
      modifies this
      ensures Valid() && maps == SetPage(old(maps), r, v, Empty)
      ensures Freed(old(mem), old(own), mem, own, r, v, if dofree then v + 1 else v)
      ensures dofree ==> Backed(own, maps, r) && |free| == |old(free)| + 1
      ensures !dofree ==> own == old(own) && free == old(free)
    {
      var s, e := LeafSlot(r, va, v);
      if dofree {
        FreeSlot(r, s, e, v);
      } else {
        ClearSlot(r, s, v);
      }
    }

    /** One round of uvmunmap, after the pages from lo to v. */
    method UnmapRound(r: nat, va: nat, dofree: bool, ghost lo: nat, ghost v: nat, ghost s: View)
      requires Valid() && r in s.maps && |s.maps[r]| == NPAGE && maps == WithCut(s.maps, r, lo, v)
      requires va == v * PGSIZE && lo <= v < NPAGE && IsLeaf(Item(s.maps, r, v))
      requires Freed(s.mem, s.own, mem, own, r, lo, if dofree then v else lo)
      requires dofree ==> PageOk(s.own, s.maps, r, v) && Backed(own, maps, r)
      modifies this
      ensures Valid() && maps == WithCut(s.maps, r, lo, v + 1)
      ensures Freed(s.mem, s.own, mem, own, r, lo, if dofree then v + 1 else lo)
      ensures dofree ==> Backed(own, maps, r) && |free| == |old(free)| + 1
      ensures !dofree ==> own == old(own) && free == old(free)
    {
      PageAddress(v);
      StillMapped(s.mem, s.own, s.maps, mem, own, r, lo, if dofree then v else lo, v, dofree);
      UnmapPage(r, va, dofree, v);
      CutMore(s.maps, r, lo, v);
      FreedStep(s.mem, s.own, old(mem), old(own), mem, own, r, lo, v, dofree);
    }

    /** uvmunmap: every page of the range must be mapped by a leaf, or it panics. */
    method Uvmunmap(r: nat, va: nat, npages: nat, dofree: bool, ghost lo: nat)
      requires Valid() && va == lo * PGSIZE && Removable(own, maps, r, lo, lo + npages, dofree)
      modifies this
      ensures Valid() && maps == WithCut(old(maps), r, lo, lo + npages)
      ensures dofree ==> Freed(old(mem), old(own), mem, own, r, lo, lo + npages)
      ensures dofree ==> Backed(own, maps, r) && |free| == |old(free)| + npages
      ensures !dofree ==> Freed(old(mem), old(own), mem, own, r, lo, lo) && own == old(own) && free == old(free)
    {
      var a, n := va, npages;
      ghost var v, s := lo, Now();
      CutNone(maps, r, lo);
      while n > 0
        invariant Valid() && v == lo + npages - n && a == v * PGSIZE && v <= lo + npages
        invariant maps == WithCut(s.maps, r, lo, v)
        invariant Freed(s.mem, s.own, mem, own, r, lo, if dofree then v else lo)
        invariant dofree ==> Backed(own, maps, r) && |free| == |old(free)| + (v - lo)
        invariant !dofree ==> own == old(own) && free == old(free)
      {
        assert IsLeaf(Item(s.maps, r, v));
        UnmapRound(r, a, dofree, lo, v, s);
        n := n - 1;
        a := a + PGSIZE;
        v := v + 1;
      }
    }

    /** uvmunmap, with freeing, of the first n pages. */
    method FreeLow(r: nat, n: nat)
      requires Valid() && Removable(own, maps, r, 0, n, true)
      modifies this
      ensures Valid() && maps == WithCut(old(maps), r, 0, n) && Freed(old(mem), old(own), mem, own, r, 0, n)
    {
      Uvmunmap(r, 0, n, true, 0);
    }

    /** uvmdealloc: the pages above the new size are given back. */
    method Uvmdealloc(r: nat, oldsz: nat, newsz: nat) returns (sz: nat)
      requires Valid() && oldsz < WORD && newsz < WORD && Space(own, maps, r, Pages(oldsz)) && oldsz <= USERTOP * PGSIZE
      modifies this
      ensures Valid() && Space(own, maps, r, Pages(sz)) && sz == if oldsz <= newsz then oldsz else newsz
      ensures Freed(old(mem), old(own), mem, own, r, Pages(sz), Pages(oldsz))
      ensures maps == WithCut(old(maps), r, Pages(sz), Pages(oldsz)) && |free| == |old(free)| + Pages(oldsz) - Pages(sz)
    {
      ghost var n := Pages(oldsz);
      if oldsz <= newsz {
        CutNone(maps, r, n);
        return oldsz;
      }
      PagesMonotone(newsz, oldsz);
      SpaceRange(own, maps, r, n, Pages(newsz));
      Uvmunmap(r, PgRoundUp(newsz), (PgRoundUp(oldsz) - PgRoundUp(newsz)) / PGSIZE, true, Pages(newsz));
      SpaceShrinks(old(mem), old(own), old(maps), mem, own, r, n, Pages(newsz));
      sz := newsz;
    }

    // -------------------------------------------------------------- uvmalloc and uvmcopy

    /** A held frame that has just been mapped as page v of r belongs to r; s is the state before mapping. */
    ghost method Adopt(r: nat, v: nat, f: nat, flags: nat, s: View)
      requires Valid() && r in s.maps && |s.maps[r]| == NPAGE && v < USERTOP && f in s.own && s.own[f].Held?
      requires Kept(s.mem, s.own, mem, own, r) && maps == SetPage(s.maps, r, v, Pte(f, flags))
      modifies this`own
      ensures Valid() && f in own && own[f] == User(r, v) && SameTables(old(own), own)
      ensures Allotted(s.(own := s.own[f := Free]), Now(), r, v, [Image(flags, s.mem[f])])
    {
      PlacedPage(s, Now(), r, v, f, flags);
      OwnerKeeps(mem, head, own, free, maps, f, User(r, v));
      own := own[f := User(r, v)];
    }

    /** kfree of a held frame that could not be mapped; s is the state before the attempt. */
    method Reject(r: nat, pa: nat, ghost v: nat, ghost f: nat, ghost s: View)
      requires Valid() && r in s.maps && v < USERTOP && f in s.own && s.own[f].Held? && pa == f * PGSIZE && free == []
      requires Kept(s.mem, s.own, mem, own, r) && maps == s.maps && !TableAt(own, r, Bottom(Hi(v), Md(v)))
      modifies this
      ensures Valid() && Starved(own, free, r, v) && Allotted(s.(own := s.own[f := Free]), Now(), r, v, [])
    {
      ghost var t := Now();
      assert own[f] == s.own[f];
      TablesStay(own, own[f := Free], r);
      Kfree(pa, f);
      PlacedNone(s, t, Now(), r, v, f);
    }

    /** mappages of one fresh page, and kfree of it when that fails. */
    method Place(r: nat, va: nat, pa: nat, perm: nat, ghost v: nat, ghost f: nat) returns (ok: bool)
      requires Valid() && r in maps && perm < 1024 && Permits(perm)
      requires va == v * PGSIZE && v < USERTOP && Item(maps, r, v) == Empty
      requires pa == f * PGSIZE && f in own && own[f].Held?
      modifies this
      ensures Valid() && (ok <==> Lacks(old(own), r, v) <= |old(free)|)
      ensures ok ==> |free| + Lacks(old(own), r, v) == |old(free)| && Furnishes(old(own), own, r, v)
      ensures ok ==> f in own && own[f] == User(r, v)
      ensures ok ==>
        Allotted(old(Now()).(own := old(own)[f := Free]), Now(), r, v, [Image(WithValid(perm), old(mem)[f])])
      ensures !ok ==> Starved(own, free, r, v) && Allotted(old(Now()).(own := old(own)[f := Free]), Now(), r, v, [])
    {
      PageAddress(f);
      assert FrameOk(own, free, f);
      ok := MapSingle(r, va, pa, perm, v);
      if ok {
        ghost var own1 := own;
        Adopt(r, v, f, WithValid(perm), old(Now()));
        FurnishesBetween(old(own), old(own), own1, own, r, v);
      } else {
        Reject(r, pa, v, f, old(Now()));
      }
    }

    /** memset of page v of r, which has just been placed in frame f. */
    method ClearPage(r: nat, pa: nat, ghost v: nat, ghost f: nat, ghost flags: nat, ghost b: Page, ghost s: View)
      requires Valid() && pa == f * PGSIZE && f in own && own[f] == User(r, v) && f in s.own && s.own[f].Free?
      requires Allotted(s, Now(), r, v, [Image(flags, b)])
      modifies this
      ensures Valid() && Allotted(s, Now(), r, v, Zeroed(1, flags))
    {
      PageAddress(f);
      FillKeeps(mem, head, own, free, maps, f, Zeros(PGSIZE));
      FilledPage(s, Now(), r, v, flags, b, f, Zeros(PGSIZE));
      mem := mem[pa / PGSIZE := Zeros(PGSIZE)];
      assert Zeroed(1, flags) == [Image(flags, Zeros(PGSIZE))];
    }

    /** One page of uvmalloc: a fresh page, mapped and then cleared. */
    method AllocPage(r: nat, va: nat, perm: nat, ghost v: nat) returns (ok: bool)
      requires Valid() && r in maps && perm < 1024 && Permits(perm)
      requires va == v * PGSIZE && v < USERTOP && Item(maps, r, v) == Empty
      modifies this
      ensures Valid() && (!ok ==> Starved(own, free, r, v))
      ensures Allotted(old(Now()), Now(), r, v, Zeroed(if ok then 1 else 0, WithValid(perm)))
    {
      var pa := Kalloc();
      if pa == 0 {
        AllottedSelf(Now(), r, v);
        return false;
      }
      ghost var f := old(free)[0];
      assert own[f := Free] == old(own);
      PageAddress(f);
      ok := Place(r, va, pa, perm, v, f);
      if ok {
        ClearPage(r, pa, v, f, WithValid(perm), old(mem)[f], old(Now()));
      } else {
        assert Zeroed(0, WithValid(perm)) == [];
      }
    }

    /** One round of uvmalloc, n pages after it started in the state s. */
    method GrowRound(r: nat, va: nat, perm: nat, ghost lo: nat, ghost n: nat, ghost s: View) returns (ok: bool)
      requires Valid() && perm < 1024 && Permits(perm)
      requires va == (lo + n) * PGSIZE && lo + n < USERTOP && Item(s.maps, r, lo + n) == Empty
      requires Allotted(s, Now(), r, lo, Zeroed(n, WithValid(perm)))
      modifies this
      ensures Valid() && (!ok ==> Starved(own, free, r, lo + n))
      ensures Allotted(s, Now(), r, lo, Zeroed(if ok then n + 1 else n, WithValid(perm)))
    {
      ghost var t, v := Now(), lo + n;
      NotAllotted(s, t, r, lo, Zeroed(n, WithValid(perm)), v);
      ok := AllocPage(r, va, perm, v);
      GrowMore(s, t, Now(), r, lo, n, if ok then 1 else 0, WithValid(perm));
    }

    /** The loop of uvmalloc, from address start up to end; lo and hi are their page numbers. */
    method GrowRange(r: nat, start: nat, end: nat, perm: nat, ghost lo: nat, ghost hi: nat)
      returns (va: nat, ghost added: nat)
      requires Valid() && r in maps && perm < 1024 && Permits(perm)
      requires start == lo * PGSIZE && end == hi * PGSIZE && lo <= USERTOP && hi <= USERTOP
      requires forall v {:trigger Item(maps, r, v)} | lo <= v < hi :: Item(maps, r, v) == Empty
      modifies this
      ensures Valid() && va == (lo + added) * PGSIZE && lo + added <= USERTOP
      ensures Allotted(old(Now()), Now(), r, lo, Zeroed(added, WithValid(perm)))
      ensures (added == 0 || lo + added <= hi) && (lo + added < hi ==> Starved(own, free, r, lo + added))
    {
      ghost var s := Now();
      added := 0;
      AllottedSelf(s, r, lo);
      assert Zeroed(0, WithValid(perm)) == [];
      va := start;
      PageBelow(lo, hi);
      while va < end
        invariant Valid() && va == (lo + added) * PGSIZE && (added == 0 || lo + added <= hi)
        invariant va < end <==> lo + added < hi
        invariant Allotted(s, Now(), r, lo, Zeroed(added, WithValid(perm)))
        decreases hi - lo - added
      {
        assert Item(s.maps, r, lo + added) == Empty;
        var ok := GrowRound(r, va, perm, lo, added, s);
        if !ok {
          break;
        }
        PageBelow(lo + added, hi);
        va := va + PGSIZE;
        added := added + 1;
        PageBelow(lo + added, hi);
      }
    }

    method GrowSpace(r: nat, start: nat, end: nat, perm: nat, ghost lo: nat, ghost hi: nat)
      returns (va: nat, ghost added: nat)
      requires Valid() && Space(own, maps, r, lo) && perm < 1024 && Permits(perm)
      requires start == lo * PGSIZE && end == hi * PGSIZE && hi <= USERTOP
      modifies this
      ensures Valid() && va == (lo + added) * PGSIZE && Space(own, maps, r, lo + added)
      ensures Allotted(old(Now()), Now(), r, lo, Zeroed(added, WithValid(perm)))
      ensures (added == 0 || lo + added <= hi) && (lo + added < hi ==> Starved(own, free, r, lo + added))
    {
      va, added := GrowRange(r, start, end, perm, lo, hi);
      ZeroedLeaf(added, perm);
      SpaceGrows(old(Now()), Now(), r, lo, Zeroed(added, WithValid(perm)));
    }

    /**
      * uvmalloc: grows r page by page and returns the size reached, or the old size when no page is to be
      * added.  It falls short only when what memory is left cannot map the next page.
      */
    method Uvmalloc(r: nat, oldsz: nat, newsz: nat, xperm: nat) returns (sz: nat, ghost added: nat)
      requires Valid() && Space(own, maps, r, Pages(oldsz)) && Pages(newsz) <= USERTOP && xperm < 1024
      modifies this
      ensures Valid() && Space(own, maps, r, Pages(sz)) && Pages(sz) == Pages(oldsz) + added
      ensures Allotted(old(Now()), Now(), r, Pages(oldsz), Zeroed(added, WithValid(UserPerm(xperm))))
      ensures sz == if Pages(oldsz) == Pages(newsz) then oldsz else Pages(sz) * PGSIZE
      ensures added == 0 || Pages(sz) <= Pages(newsz)
      ensures Pages(sz) < Pages(newsz) ==> Starved(own, free, r, Pages(sz))
    {
      ghost var n := Pages(oldsz);
      if PgRoundUp(oldsz) == PgRoundUp(newsz) {
        AllottedSelf(Now(), r, n);
        assert Zeroed(0, WithValid(UserPerm(xperm))) == [];
        return oldsz, 0;
      }
      UserPermLeaf(xperm);
      sz, added := GrowSpace(r, PgRoundUp(oldsz), PgRoundUp(newsz), UserPerm(xperm), n, Pages(newsz));
      PagesOf(n + added);
    }

    /** kalloc and memmove: a fresh page with the bytes of page v of p, and the flags of that page. */
    method FreshCopy(p: nat, i: nat, ghost v: nat) returns (pa: nat, flags: nat)
      requires Valid() && p in maps && i == v * PGSIZE && v < USERTOP && PageOk(own, maps, p, v)
      modifies this
      ensures Valid() && maps == old(maps) && old(Item(maps, p, v).frame in mem)
      ensures flags < 1024 && flags == old(Item(maps, p, v).flags)
      ensures if old(free) == [] then pa == 0 && mem == old(mem) && own == old(own)
              else
                var f := old(free)[0];
                && pa == f * PGSIZE && pa > 0 && f in old(own) && old(own)[f].Free? && own == old(own)[f := Held]
                && free == old(free)[1..]
                && mem == old(mem)[f := old(mem[Item(maps, p, v).frame])]
    {
      PageAddress(v);
      var s, e := LeafSlot(p, i, v);
      flags := e.flags;
      pa := Kalloc();
      if pa != 0 {
        ghost var f := old(free)[0];
        PageAddress(f);
        FillKeeps(mem, head, own, free, maps, f, mem[e.frame]);
        mem := mem[pa / PGSIZE := mem[e.frame]];
      }
    }

    /** mappages of the fresh page f, or kfree of it; s is the state before f was taken. */
    method PlaceCopy(q: nat, i: nat, pa: nat, flags: nat, ghost v: nat, ghost f: nat, ghost s: View) returns (ok: bool)
      requires Valid() && q in maps && flags < 1024 && Permits(flags) && WithValid(flags) == flags
      requires i == v * PGSIZE && v < USERTOP && Item(maps, q, v) == Empty && pa == f * PGSIZE
      requires f in s.own && s.own[f].Free? && own == s.own[f := Held] && maps == s.maps
      requires s.mem.Keys == mem.Keys && forall g | g in s.own && g != f :: mem[g] == s.mem[g]
      modifies this
      ensures Valid() && (ok <==> Lacks(s.own, q, v) <= |old(free)|)
      ensures ok ==> |free| + Lacks(s.own, q, v) == |old(free)| && Furnishes(s.own, own, q, v)
      ensures Allotted(s, Now(), q, v, if ok then [Image(flags, old(mem)[f])] else [])
    {
      ghost var s' := View(mem, s.own, maps);
      assert own[f := Free] == s.own;
      TakenFirst(s.own, f, q, v);
      ok := Place(q, i, pa, flags, v, f);
      AllottedFrom(s, s', Now(), q, v, if ok then [Image(flags, s'.mem[f])] else [], f);
    }

    /** One page of uvmcopy: a fresh page with the bytes of page v of p, mapped into q with the same flags. */
    method CopyPage(p: nat, q: nat, i: nat, ghost v: nat) returns (ok: bool)
      requires Valid() && p in maps && q in maps && i == v * PGSIZE && v < USERTOP
      requires PageOk(own, maps, p, v) && Item(maps, q, v) == Empty
      modifies this
      ensures Valid() && old(Item(maps, p, v).frame in mem) && (ok <==> 1 + Lacks(old(own), q, v) <= |old(free)|)
      ensures ok ==> |free| + 1 + Lacks(old(own), q, v) == |old(free)| && Furnishes(old(own), own, q, v)
      ensures ok ==>
        Allotted(old(Now()), Now(), q, v, [old(Image(Item(maps, p, v).flags, mem[Item(maps, p, v).frame]))])
      ensures !ok ==> Allotted(old(Now()), Now(), q, v, [])
    {
      var pa, flags := FreshCopy(p, i, v);
      if pa == 0 {
        AllottedSelf(Now(), q, v);
        return false;
      }
      assert WithValid(flags) == flags;
      ok := PlaceCopy(q, i, pa, flags, v, old(free)[0], old(Now()));
    }

    /** One round of uvmcopy, v pages after it started in the state s with total pages free. */
    method CopyRound(p: nat, q: nat, i: nat, ghost n: nat, ghost v: nat, ghost s: View, ghost total: nat)
      returns (ok: bool)
      requires Valid() && i == v * PGSIZE && v < n && Copying(s, p, q, n)
      requires Allotted(s, Now(), q, 0, Copies(s, p, v)) && Paid(s.own, own, q, v, |free|, total)
      modifies this
      ensures Valid() && Allotted(s, Now(), q, 0, Copies(s, p, if ok then v + 1 else v))
      ensures if ok then Paid(s.own, own, q, v + 1, |free|, total) else total < Cost(s.own, q, n)
    {
      ghost var t, left := Now(), |free|;
      CopyReady(s, t, p, q, n, v);
      ok := CopyPage(p, q, i, v);
      if ok {
        PaidMore(s.own, t.own, own, q, v, left, |free|, total);
        CopyDone(s, t, Now(), p, q, n, v);
      } else {
        PaidOut(s.own, t.own, q, v, left, total, n);
        CopyStopped(s, t, Now(), p, q, n, v);
      }
    }

    /** The error exit of uvmcopy: the v pages copied so far are given back. */
    method CopyUndo(p: nat, q: nat, i: nat, ghost n: nat, ghost v: nat, ghost s: View)
      requires Valid() && i == v * PGSIZE && v < n && Copying(s, p, q, n)
      requires Allotted(s, Now(), q, 0, Copies(s, p, v))
      modifies this
      ensures Valid()
      ensures Space(own, maps, p, n) && Space(own, maps, q, 0) && Allotted(s, Now(), q, 0, [])
    {
      ghost var t := Now();
      UndoReady(s, t, p, q, n, v);
      var k := i / PGSIZE;
      assert k == v by { PageAddress(v); }
      FreeLow(q, k);
      UndoDone(s, t, Now(), p, q, n, v);
    }

    /** The loop of uvmcopy, up to the page that it cannot copy: page v, at address i. */
    method CopyPages(p: nat, q: nat, sz: nat, ghost n: nat, ghost s: View) returns (ok: bool, i: nat, ghost v: nat)
      requires Valid() && s == Now() && sz <= USERTOP * PGSIZE && n == Pages(sz) && Copying(s, p, q, n)
      modifies this
      ensures Valid() && i == v * PGSIZE && (if ok then v == n else v < n) && Allotted(s, Now(), q, 0, Copies(s, p, v))
      ensures ok <==> Cost(s.own, q, n) <= |old(free)|
      ensures ok ==> |free| + Cost(s.own, q, n) == |old(free)|
    {
      AllottedSelf(s, q, 0);
      assert Copies(s, p, 0) == [];
      PaidNothing(own, q, |free|);
      i, v := 0, 0;
      PagesReach(sz, 0);
      while i < sz
        invariant Valid() && i == v * PGSIZE && v <= n && (i < sz <==> v < n)
        invariant Allotted(s, Now(), q, 0, Copies(s, p, v)) && Paid(s.own, own, q, v, |free|, |old(free)|)
      {
        ok := CopyRound(p, q, i, n, v, s, |old(free)|);
        if !ok {
          return;
        }
        i := i + PGSIZE;
        v := v + 1;
        PagesReach(sz, v);
      }
      ok := true;
    }

    /**
      * uvmcopy from p into the empty address space q.  Success leaves q with the same pages, flags and bytes,
      * on frames of its own; failure leaves q empty.  It succeeds exactly when there is a free page for every
      * page of p and for every table that q lacks.
      */
    method Uvmcopy(p: nat, q: nat, sz: nat) returns (ok: bool)
      requires Valid() && sz <= USERTOP * PGSIZE && p != q
      requires Space(own, maps, p, Pages(sz)) && Space(own, maps, q, 0)
      modifies this
      ensures Valid() && Space(own, maps, p, Pages(sz)) && old(SpaceHas(Now(), p, Pages(sz)))
      ensures ok <==> Cost(old(own), q, Pages(sz)) <= |old(free)|
      ensures ok ==> |free| + Cost(old(own), q, Pages(sz)) == |old(free)|
      ensures ok ==>
        Space(own, maps, q, Pages(sz)) && Allotted(old(Now()), Now(), q, 0, Copies(old(Now()), p, Pages(sz)))
      ensures !ok ==> Space(own, maps, q, 0) && Allotted(old(Now()), Now(), q, 0, [])
    {
      ghost var s, n, v := Now(), Pages(sz), 0;
      SpaceFull(s, p, n);
      var i;
      ok, i, v := CopyPages(p, q, sz, n, s);
      if ok {
        CopiedSpace(s, Now(), p, q, n, n);
      } else {
        CopyUndo(p, q, i, n, v, s);
      }
    }

    // -------------------------------------------------------------- freewalk and the end of an address space

    /** kfree of a table: nothing is claimed about the trees. */
    method FreeTable(pa: nat, ghost f: nat)
      requires List(mem, own, head, free) && pa == f * PGSIZE && f in own && !own[f].Free?
      modifies this
      ensures List(mem, own, head, free) && maps == old(maps)
      ensures mem == Linked(old(mem), f, old(head)) && own == old(own)[f := Free] && free == [f] + old(free)
    {
      PageAddress(f);
      PushKeeps(mem, own, head, free, f);
      mem := Linked(mem, pa / PGSIZE, head);
      head := pa;
      own := own[f := Free];
      free := [f] + free;
    }

    /**
      * freewalk of table t, in an address space that maps nothing; s is the state in which the walk started.
      * The table and all tables below it become free, and its panic is out of reach.
      */
    method Freewalk(t: nat, ghost s: View)
      requires List(mem, own, head, free) && IsTable(s.own, t) && Bare(s.mem, s.own, s.maps, s.own[t].root)
      requires Pruned(s.mem, s.own, mem, own, s.own[t].root)
      requires forall f {:trigger own[f]} | f in own && Under(s.own, s.own[t].root, s.own[t].path, f) ::
        own[f] == s.own[f]
      modifies this
      ensures List(mem, own, head, free) && maps == old(maps) && Pruned(s.mem, s.own, mem, own, s.own[t].root)
      ensures FreedUnder(s.own, old(own), own, s.own[t].root, s.own[t].path)
      decreases 2 - Depth(s.own[t].path), 1
    {
      ghost var r := s.own[t].root;
      assert Under(s.own, r, s.own[t].path, t) && own[t] == s.own[t];
      for i := 0 to NPTE
        invariant List(mem, own, head, free) && maps == old(maps) && Pruned(s.mem, s.own, mem, own, r)
        invariant FreedBefore(s.own, old(own), own, t, i)
      {
        WalkEntry(t, i, s, old(own));
      }
      assert own[t] == s.own[t];
      TableWalked(s.mem, s.own, old(own), own, t);
      PrunedMore(s.mem, s.own, mem, own, r, t, head);
      FreeTable(t * PGSIZE, t);
    }

    /** One round of freewalk: entry i of t; own0 are the owners when the walk of t started. */
    method WalkEntry(t: nat, i: nat, ghost s: View, ghost own0: Owners)
      requires List(mem, own, head, free) && IsTable(s.own, t) && Bare(s.mem, s.own, s.maps, s.own[t].root) && i < NPTE
      requires Pruned(s.mem, s.own, mem, own, s.own[t].root) && FreedBefore(s.own, own0, own, t, i)
      requires forall f {:trigger own0[f]} | f in own0 && Under(s.own, s.own[t].root, s.own[t].path, f) ::
        own0[f] == s.own[f]
      modifies this
      ensures List(mem, own, head, free) && maps == old(maps) && Pruned(s.mem, s.own, mem, own, s.own[t].root)
      ensures FreedBefore(s.own, own0, own, t, i + 1)
      decreases 2 - Depth(s.own[t].path), 0
    {
      assert own0[t] == s.own[t] && own[t] == s.own[t] && mem[t] == s.mem[t] by {
        assert Under(s.own, s.own[t].root, s.own[t].path, t);
      }
      BareEntry(s.mem, s.own, s.maps, s.own[t].root, t, i);
      EntryIsWord(mem[t], i);
      var e := Decode(GetLe(mem[t], 8 * i, 8));
      if IsValid(e) && !Permits(e.flags) {
        ChildIntact(s.own, own0, own, t, i);
        Freewalk(e.frame, s);
        ChildWalked(s.own, own0, old(own), own, t, i);
      } else {
        assert e == Empty;
        SkipEntry(s.mem, s.own, own0, own, t, i);
      }
    }

    /** freewalk of a whole address space that maps nothing. */
    method FreeRoot(r: nat)
      requires Valid() && r in maps && forall v | 0 <= v < NPAGE :: maps[r][v] == Empty
      modifies this
      ensures Valid() && maps == Without(old(maps), r) && RootFreed(old(mem), old(own), mem, own, r)
    {
      ghost var s := Now();
      Freewalk(r, s);
      WalkedAway(s.mem, s.own, maps, mem, own, r);
      maps := Without(maps, r);
    }

    /** The first half of uvmfree: the pages of r. */
    method FreePages(r: nat, sz: nat, ghost n: nat)
      requires Valid() && sz <= USERTOP * PGSIZE && n == Pages(sz) && Space(own, maps, r, n) && HighPages(maps, r, 0)
      modifies this
      ensures Valid() && Freed(old(mem), old(own), mem, own, r, 0, n)
      ensures r in maps && Without(maps, r) == Without(old(maps), r) && forall v | 0 <= v < NPAGE :: maps[r][v] == Empty
    {
      NothingMapped(own, maps, r, n);
      PagesMonotone(0, sz);
      if sz > 0 {
        SpaceRange(own, maps, r, n, 0);
        FreeLow(r, PgRoundUp(sz) / PGSIZE);
      } else {
        assert n == 0;
        CutNone(maps, r, 0);
      }
      assert Without(maps, r) == Without(old(maps), r);
    }

    /** uvmfree: every page and every table of r is free, and nothing else changes hands. */
    method Uvmfree(r: nat, sz: nat)
      requires Valid() && sz <= USERTOP * PGSIZE && Space(own, maps, r, Pages(sz)) && HighPages(maps, r, 0)
      modifies this
      ensures Valid() && maps == Without(old(maps), r) && Released(old(mem), old(own), mem, own, r)
    {
      FreePages(r, sz, Pages(sz));
      ghost var m1, o1 := mem, own;
      FreeRoot(r);
      ReleasedAll(old(mem), old(own), old(maps), m1, o1, mem, own, r, Pages(sz));
    }

    /** uvmunmap, without freeing, of the last of the k + 1 pages mapped above user memory. */
    method UnmapHigh(r: nat, va: nat, ghost n: nat, ghost k: nat)
      requires Valid() && Space(own, maps, r, n) && HighPages(maps, r, k + 1) && USERTOP + k < NPAGE
      requires va == (USERTOP + k) * PGSIZE
      modifies this
      ensures Valid() && own == old(own) && free == old(free) && Space(own, maps, r, n) && HighPages(maps, r, k)
      ensures Without(maps, r) == Without(old(maps), r)
      ensures forall f | f in own && !own[f].Table? :: mem[f] == old(mem)[f]
    {
      HighCut(own, maps, r, n, k);
      Uvmunmap(r, va, 1, false, USERTOP + k);
      assert Without(maps, r) == Without(old(maps), r);
      FreedNone(old(mem), old(own), mem, own, r, USERTOP + k);
    }

    /**
      * proc_freepagetable: trampoline and trapframe are unmapped but not freed, then all that belongs to r
      * is, each frame once.
      */
    method ProcFreepagetable(r: nat, sz: nat)
      requires Valid() && sz <= USERTOP * PGSIZE && Space(own, maps, r, Pages(sz)) && HighPages(maps, r, 2)
      modifies this
      ensures Valid() && maps == Without(old(maps), r) && Released(old(mem), old(own), mem, own, r)
    {
      UnmapHigh(r, (USERTOP + 1) * PGSIZE, Pages(sz), 1);
      ghost var m1 := mem;
      UnmapHigh(r, USERTOP * PGSIZE, Pages(sz), 0);
      ghost var m2 := mem;
      Uvmfree(r, sz);
      ReleasedLater(old(mem), old(own), m1, m2, mem, own, r);
    }

    // -------------------------------------------------------------- proc_pagetable

    /**
      * A fresh page, cleared, as the root of a new address space.  The page is cleared without a look at
      * whether there was one: with none left, the kernel writes through address 0.
      */
    method NewRootPage() returns (crashed: bool, r: nat)
      requires Valid()
      modifies this
      ensures Valid() && (crashed <==> old(free) == [])
      ensures crashed ==> own == old(own) && maps == old(maps) && mem == old(mem) && free == []
      ensures !crashed ==> r == old(free)[0] && free == old(free)[1..] && r in old(own) && old(own)[r].Free?
      ensures !crashed ==>
        && own == old(own)[r := Table(r, Top, r)] && maps == old(maps)[r := NoEntries()]
        && mem == old(mem)[r := Zeros(PGSIZE)]
      ensures !crashed ==> r !in old(maps) && forall v | 0 <= v < NPAGE :: Missing(mem, r, v) == 2
    {
      var pa := Kalloc();
      crashed, r := pa == 0, 0;
      if crashed { return; }
      PageAddress(old(free)[0]);
      r := pa / PGSIZE;
      FillKeeps(mem, head, own, free, maps, r, Zeros(PGSIZE));
      mem := mem[r := Zeros(PGSIZE)];
      RootSound(mem, head, own, free, maps, r);
      own := own[r := Table(r, Top, r)];
      maps := maps[r := NoEntries()];
    }

    /** kfree of a root alone: whatever other tables it had are lost. */
    method GiveUpRoot(r: nat)
      requires Valid() && r in maps
      modifies this
      ensures Valid() && maps == Without(old(maps), r) && own == GivenUp(old(own), r) && free == [r] + old(free)
      ensures mem == Linked(old(mem), r, old(head))
    {
      GiveUpSound(mem, head, own, free, maps, r);
      mem := Linked(mem, r, head);
      head := r * PGSIZE;
      own := GivenUp(own, r);
      free := [r] + free;
      maps := Without(maps, r);
    }

    /** mappages of TRAMPOLINE into a fresh root: it needs two tables. */
    method MapTrampoline(r: nat, tramp: nat) returns (ok: bool)
      requires Valid() && r in maps && maps[r] == NoEntries() && tramp < TOPFRAME
      requires forall v | 0 <= v < NPAGE :: Missing(mem, r, v) == 2
      modifies this
      ensures Valid() && Kept(old(mem), old(own), mem, own, r) && (ok <==> |old(free)| >= 2)
      ensures maps == if ok then SetPage(old(maps), r, USERTOP + 1, Pte(tramp, WithValid(10))) else old(maps)
      ensures free == old(free)[if ok then 2 else |old(free)|..] && (ok ==> Furnishes(old(own), own, r, USERTOP + 1))
    {
      SingleRound((USERTOP + 1) * PGSIZE, tramp * PGSIZE, USERTOP + 1);
      assert Permits(10);
      assert Missing(mem, r, USERTOP + 1) == 2;
      ok := MapExact(r, (USERTOP + 1) * PGSIZE, tramp, 10, USERTOP + 1);
    }

    /** mappages of TRAPFRAME behind TRAMPOLINE: it needs no table, so it does not fail. */
    method MapTrapframe(r: nat, trap: nat) returns (ok: bool)
      requires Valid() && r in maps && maps[r][USERTOP] == Empty && maps[r][USERTOP + 1] != Empty && trap < TOPFRAME
      modifies this
      ensures Valid() && ok && Kept(old(mem), old(own), mem, own, r) && free == old(free)
      ensures Furnishes(old(own), own, r, USERTOP)
      ensures maps == SetPage(old(maps), r, USERTOP, Pte(trap, WithValid(14)))
    {
      SingleRound(USERTOP * PGSIZE, trap * PGSIZE, USERTOP);
      assert Permits(14);
      TrapsShareTable(mem, own, maps, r);
      assert Missing(mem, r, USERTOP) == 0;
      ok := MapExact(r, USERTOP * PGSIZE, trap, 14, USERTOP);
    }

    /**
      * proc_pagetable, with the frames of trampoline and trapframe.  It succeeds exactly when three pages are
      * free.  Its failure gives back the root only: of two free pages one is lost, of one none.  With no page
      * free the kernel crashes.
      */
    method ProcPagetable(tramp: nat, trap: nat) returns (crashed: bool, ok: bool, r: nat)
      requires Valid() && Rooted(own, maps) && tramp < TOPFRAME && trap < TOPFRAME
      modifies this
      ensures Valid() && (ok <==> |old(free)| >= 3) && (crashed <==> old(free) == [])
      ensures crashed ==> own == old(own) && maps == old(maps) && mem == old(mem) && free == []
      ensures ok ==>
        && r !in old(maps) && maps == old(maps)[r := FreshMap(tramp, trap)] && Space(own, maps, r, 0)
        && HighPages(maps, r, 2) && OnlyHigh(own, r)
      ensures ok ==>
        && |free| == |old(free)| - 3 && r in old(own) && old(own)[r].Free?
        && Kept(old(mem), old(own)[r := Table(r, Top, r)], mem, own, r)
      ensures !ok && !crashed ==> maps == old(maps) && |free| == 1 && Leaked(old(own), own)
      ensures !crashed ==> UserKept(old(mem), old(own), mem)
    {
      ok := false;
      crashed, r := NewRootPage();
      if crashed { return; }
      NoStrayTables(old(mem), old(own), r);
      ghost var s := Now();
      ok := MapTrampoline(r, tramp);
      if !ok {
        GivenUpLeaks(old(own), old(maps), s.mem, s.own, mem, own, r);
        GivenUpKept(old(mem), old(own), s.mem, s.own, mem, own, r, head);
        GiveUpRoot(r);
        ForgetRoot(old(maps), r);
        return;
      }
      ghost var t := Now();
      ok := MapTrapframe(r, trap);
      FreshDone(old(Now()), s, t, Now(), r, tramp, trap);
      FreshTables(old(own), s.own, t.own, own, r);
      BegunKept(old(mem), old(own), mem, own, r);
    }

    // -------------------------------------------------------------- growproc

    /** The uvmalloc of growproc: memory bounds the size, so that an int holds it. */
    method GrowAlloc(r: nat, sz: nat, n: int) returns (got: nat, ghost added: nat)
      requires Valid() && sz <= USERTOP * PGSIZE && Space(own, maps, r, Pages(sz)) && |own.Keys| <= NRAM
      requires 0 < n < 0x8000_0000
      modifies this
      ensures Valid() && Space(own, maps, r, Pages(got)) && got <= NRAM * PGSIZE
      ensures FromInt32(ToInt32(got)) == ToInt32(got) == got
      ensures Allotted(old(Now()), Now(), r, Pages(sz), Zeroed(added, WithValid(UserPerm(6))))
      ensures Pages(got) == Pages(sz) + added
      ensures got == if Pages(sz + n) == Pages(sz) then sz else Pages(got) * PGSIZE
      ensures Pages(got) <= Pages(sz + n) && (Pages(got) < Pages(sz + n) ==> Starved(own, free, r, Pages(got)))
    {
      PagesFit(own, maps, r, Pages(sz));
      SizeFits(sz);
      GrowthFits(sz, n);
      got, added := Uvmalloc(r, sz, (sz + n) % WORD, 6);
      PagesFit(own, maps, r, Pages(got));
      SizeFits(got);
    }

    /** growproc with n > 0: uvmalloc, its result kept in an int. */
    method Grow(r: nat, sz: nat, n: int) returns (ret: int, newsz: nat, ghost added: nat)
      requires Valid() && sz <= USERTOP * PGSIZE && Space(own, maps, r, Pages(sz)) && |own.Keys| <= NRAM
      requires 0 < n < 0x8000_0000
      modifies this
      ensures Valid() && newsz <= USERTOP * PGSIZE && Space(own, maps, r, Pages(newsz)) && own.Keys == old(own).Keys
      ensures Allotted(old(Now()), Now(), r, Pages(sz), Zeroed(added, WithValid(UserPerm(6))))
      ensures Pages(newsz) == Pages(sz) + added
      ensures newsz == if Pages(sz + n) == Pages(sz) then sz else Pages(newsz) * PGSIZE
      ensures Pages(newsz) <= Pages(sz + n) && (Pages(newsz) < Pages(sz + n) ==> Starved(own, free, r, Pages(newsz)))
      ensures ret == if newsz == 0 then -1 else 0
    {
      var got;
      got, added := GrowAlloc(r, sz, n);
      var v := ToInt32(got);
      if v == 0 {
        assert sz == got by { ZeroSize(sz, added); }
        return -1, sz, added;
      }
      ret, newsz := 0, FromInt32(v);
      assert newsz == got;
    }

    /** growproc with n < 0: uvmdealloc, unless the size would fall below 0. */
    method Shrink(r: nat, sz: nat, n: int) returns (newsz: nat)
      requires Valid() && sz <= USERTOP * PGSIZE && Space(own, maps, r, Pages(sz)) && |own.Keys| <= NRAM
      requires -0x8000_0000 <= n < 0
      modifies this
      ensures Valid() && Space(own, maps, r, Pages(newsz)) && own.Keys == old(own).Keys
      ensures newsz == if sz + n >= 0 then sz + n else sz
      ensures Freed(old(mem), old(own), mem, own, r, Pages(newsz), Pages(sz))
      ensures maps == WithCut(old(maps), r, Pages(newsz), Pages(sz))
    {
      PagesFit(own, maps, r, Pages(sz));
      SizeFits(sz);
      ShrinkWraps(sz, n);
      var got := Uvmdealloc(r, sz, (sz + n) % WORD);
      PagesFit(own, maps, r, Pages(got));
      SizeFits(got);
      newsz := FromInt32(ToInt32(got));
    }

    // -------------------------------------------------------------- copyin, copyout, copyinstr

    /** walkaddr: the physical address of a page open to the user, or 0. */
    method Walkaddr(r: nat, va: nat) returns (pa: nat)
      requires Valid() && r in maps && UserOnly(own, maps, r)
      modifies this
      ensures Valid() && mem == old(mem) && own == old(own) && free == old(free) && maps == old(maps)
      ensures if Open(maps, r, va) then pa == Where(maps, r, va).frame * PGSIZE && pa > 0 else pa == 0
    {
      ghost var v := PageOf(va);
      assert maps[r][v] == At(mem, r, v) == Item(maps, r, v);
      var slot := Walk(r, va, false, v);
      if slot.None? {
        return 0;
      }
      var s := slot.value;
      SlotHolds(mem, own, maps, r, v, s);
      EntryIsWord(mem[s.frame], s.index);
      var e := Decode(GetLe(mem[s.frame], 8 * s.index, 8));
      if !IsValid(e) || !Bit(e.flags, 4) {
        return 0;
      }
      assert FrameOk(own, free, e.frame);
      pa := e.frame * PGSIZE;
    }

    /** One memmove of copyout, to an open page. */
    method WriteChunk(r: nat, pa0: nat, a: nat, c: seq<byte>)
      requires Valid() && r in maps && UserOnly(own, maps, r) && a < WORD && Open(maps, r, a)
      requires a % PGSIZE + |c| <= PGSIZE
      requires pa0 == Where(maps, r, a).frame * PGSIZE
      modifies this
      ensures Valid() && own == old(own) && free == old(free) && maps == old(maps)
      ensures mem == PokeAll(old(mem), maps, r, a, c)
    {
      ghost var f := Where(maps, r, a).frame;
      PageAddress(f);
      assert own[f] == User(r, PageOf(a));
      PokeChunk(mem, maps, r, a, c);
      FillKeeps(mem, head, own, free, maps, f, Patch(mem[f], a % PGSIZE, c));
      mem := mem[pa0 / PGSIZE := Patch(mem[pa0 / PGSIZE], a % PGSIZE, c)];
    }

    /** One page of copyout, at address a, for the bytes that are left; n of them fit in the page. */
    method CopyoutPage(r: nat, a: nat, rest: seq<byte>) returns (ok: bool, n: nat, next: nat)
      requires Valid() && r in maps && UserOnly(own, maps, r) && a < WORD && rest != []
      modifies this
      ensures Valid() && own == old(own) && free == old(free) && maps == old(maps) && next < WORD
      ensures if ok then 0 < n <= |rest| else Reach(maps, r, a, |rest|) == 0 && mem == old(mem)
      ensures ok ==>
        Reach(maps, r, a, |rest|) == n + Reach(maps, r, Plus(a, n), |rest| - n) && (n < |rest| ==> next == Plus(a, n))
      ensures ok ==> mem == PokeAll(old(mem), maps, r, a, rest[..n])
    {
      var va0 := PgRoundDown(a);
      NextPage(a);
      var pa0 := Walkaddr(r, va0);
      if pa0 == 0 {
        return false, 0, a;
      }
      n := PGSIZE - (a - va0);
      if n > |rest| {
        n := |rest|;
      }
      WriteChunk(r, pa0, a, rest[..n]);
      ReachChunk(maps, r, a, |rest|, n);
      ok, next := true, (va0 + PGSIZE) % WORD;
    }

    /** One round of copyout, after d bytes; m0 is the memory before the first. */
    method CopyoutRound(r: nat, a: nat, src: seq<byte>, d: nat, ghost dstva: nat, ghost m0: Mem)
        returns (ok: bool, n: nat, next: nat)
      requires Valid() && r in maps && UserOnly(own, maps, r) && a < WORD && d < |src| && a == Plus(dstva, d)
      requires Halfway(m0, mem, maps, r, dstva, src, d)
      modifies this
      ensures Valid() && own == old(own) && free == old(free) && maps == old(maps) && next < WORD
      ensures if ok then 0 < n && d + n <= |src| else mem == old(mem) && Reach(maps, r, dstva, |src|) == d
      ensures ok ==> Halfway(m0, mem, maps, r, dstva, src, d + n) && (d + n < |src| ==> next == Plus(dstva, d + n))
    {
      ok, n, next := CopyoutPage(r, a, src[d..]);
      if ok {
        HalfwayMore(m0, old(mem), mem, maps, r, dstva, src, d, n, a);
      }
    }

    /**
      * copyout: it succeeds exactly when every byte is in reach, and what it writes, also before a failure,
      * are the bytes before the first one out of reach.
      */
    method Copyout(r: nat, dstva: nat, src: seq<byte>) returns (ok: bool)
      requires Valid() && r in maps && UserOnly(own, maps, r) && dstva < WORD
      modifies this
      ensures Valid() && own == old(own) && free == old(free) && maps == old(maps)
      ensures ok <==> Reach(maps, r, dstva, |src|) == |src|
      ensures mem == PokeAll(old(mem), maps, r, dstva, src[..Reach(maps, r, dstva, |src|)])
    {
      var a, d := dstva, 0;
      HalfwayStart(mem, maps, r, dstva, src);
      while d < |src|
        invariant Valid() && own == old(own) && free == old(free) && maps == old(maps)
        invariant d <= |src| && a < WORD && (d < |src| ==> a == Plus(dstva, d))
        invariant Halfway(old(mem), mem, maps, r, dstva, src, d)
        decreases |src| - d
      {
        var more, n, next := CopyoutRound(r, a, src, d, dstva, old(mem));
        if !more {
          return false;
        }
        a, d := next, d + n;
      }
      HalfwayEnd(old(mem), mem, maps, r, dstva, src);
      ok := true;
    }

    /** One page of copyin, at address a, for the len bytes that are left. */
    method CopyinPage(r: nat, a: nat, len: nat) returns (ok: bool, c: seq<byte>, next: nat)
      requires Valid() && r in maps && UserOnly(own, maps, r) && a < WORD && len > 0
      modifies this
      ensures Valid() && mem == old(mem) && own == old(own) && free == old(free) && maps == old(maps) && next < WORD
      ensures if ok then 0 < |c| <= len else Reach(maps, r, a, len) == 0
      ensures ok ==> c == PeekAll(mem, maps, r, a, |c|) && (|c| < len ==> next == Plus(a, |c|))
      ensures ok ==> Reach(maps, r, a, len) == |c| + Reach(maps, r, Plus(a, |c|), len - |c|)
    {
      var va0 := PgRoundDown(a);
      NextPage(a);
      var pa0 := Walkaddr(r, va0);
      if pa0 == 0 {
        return false, [], a;
      }
      var n := PGSIZE - (a - va0);
      if n > len {
        n := len;
      }
      PageAddress(Where(maps, r, a).frame);
      PeekChunk(mem, maps, r, a, n);
      ReachChunk(maps, r, a, len, n);
      c := mem[pa0 / PGSIZE][a % PGSIZE..a % PGSIZE + n];
      ok, next := true, (va0 + PGSIZE) % WORD;
    }

    /** copyin: it succeeds exactly when every byte is in reach, and then delivers those bytes. */
    method Copyin(r: nat, srcva: nat, len: nat) returns (ok: bool, dst: seq<byte>)
      requires Valid() && r in maps && UserOnly(own, maps, r) && srcva < WORD
      modifies this
      ensures Valid() && mem == old(mem) && own == old(own) && free == old(free) && maps == old(maps)
      ensures ok <==> Reach(maps, r, srcva, len) == len
      ensures ok ==> dst == PeekAll(mem, maps, r, srcva, len)
    {
      var a := srcva;
      dst := [];
      ReadStart(mem, maps, r, srcva, len);
      while |dst| < len
        invariant Valid() && mem == old(mem) && own == old(own) && free == old(free) && maps == old(maps)
        invariant a < WORD && (|dst| < len ==> a == Plus(srcva, |dst|))
        invariant ReadSoFar(mem, maps, r, srcva, len, dst)
        decreases len - |dst|
      {
        var more, c, next := CopyinPage(r, a, len - |dst|);
        if !more {
          return false, dst;
        }
        ReadMore(mem, maps, r, srcva, len, dst, c);
        dst, a := dst + c, next;
      }
      ok := true;
    }

    /** The bytes of one page that copyinstr looks at, at address a: up to a NUL or to the n-th. */
    method ScanPage(r: nat, p: Page, a: nat, n: nat, ghost max: nat) returns (found: bool, c: seq<byte>)
      requires Valid() && a < WORD && a % PGSIZE + n <= PGSIZE && n <= max && Open(maps, r, a)
      requires Where(maps, r, a).frame in mem && p == mem[Where(maps, r, a).frame]
      ensures found ==> CStr(mem, maps, r, a, max) == Some(c)
      ensures !found ==> |c| == n && StringSoFar(mem, maps, r, a, max, c)
    {
      c := [];
      StringStart(mem, maps, r, a, max);
      while |c| < n
        invariant |c| <= n && StringSoFar(mem, maps, r, a, max, c)
      {
        PeekInPage(mem, maps, r, a, |c|);
        var b := p[a % PGSIZE + |c|];
        StringStep(mem, maps, r, a, max, c, b);
        c := c + [b];
        if b == 0 {
          return true, c;
        }
      }
      found := false;
    }

    /** One page of copyinstr, at address a, with max bytes to go. */
    method CopyinstrPage(r: nat, a: nat, max: nat) returns (ok: bool, found: bool, c: seq<byte>, next: nat)
      requires Valid() && r in maps && UserOnly(own, maps, r) && a < WORD && max > 0
      modifies this
      ensures Valid() && mem == old(mem) && own == old(own) && free == old(free) && maps == old(maps) && next < WORD
      ensures !ok ==> CStr(mem, maps, r, a, max).None?
      ensures ok && found ==> CStr(mem, maps, r, a, max) == Some(c)
      ensures ok && !found ==>
        0 < |c| <= max && StringSoFar(mem, maps, r, a, max, c) && (|c| < max ==> next == Plus(a, |c|))
    {
      var va0 := PgRoundDown(a);
      NextPage(a);
      var pa0 := Walkaddr(r, va0);
      if pa0 == 0 {
        return false, false, [], a;
      }
      var n := PGSIZE - (a - va0);
      if n > max {
        n := max;
      }
      PageAddress(Where(maps, r, a).frame);
      found, c := ScanPage(r, mem[pa0 / PGSIZE], a, n, max);
      ok, next := true, (va0 + PGSIZE) % WORD;
    }

    /**
      * copyinstr: it succeeds exactly when a NUL lies within max bytes before any page out of reach, and
      * then delivers the bytes up to it.
      */
    method Copyinstr(r: nat, srcva: nat, max: nat) returns (ok: bool, dst: seq<byte>)
      requires Valid() && r in maps && UserOnly(own, maps, r) && srcva < WORD
      modifies this
      ensures Valid() && mem == old(mem) && own == old(own) && free == old(free) && maps == old(maps)
      ensures ok <==> CStr(mem, maps, r, srcva, max).Some?
      ensures ok ==> Some(dst) == CStr(mem, maps, r, srcva, max)
    {
      var a := srcva;
      dst := [];
      StringStart(mem, maps, r, srcva, max);
      while |dst| < max
        invariant Valid() && mem == old(mem) && own == old(own) && free == old(free) && maps == old(maps)
        invariant a < WORD && (|dst| < max ==> a == Plus(srcva, |dst|))
        invariant StringSoFar(mem, maps, r, srcva, max, dst)
        decreases max - |dst|
      {
        var more, found, c, next := CopyinstrPage(r, a, max - |dst|);
        if !more {
          return false, dst;
        }
        if found {
          return true, dst + c;
        }
        StringJoin(mem, maps, r, srcva, max, dst, c);
        dst, a := dst + c, next;
      }
      ok := false;
    }
  }
}
