/** User address spaces as values: which pages they map, and which frames are theirs. */
module Spaces {

  import opened Bytes
  import opened Paging
  import opened VmState

  /** The entry of page v of r. */
  function Item(maps: Maps, r: nat, v: nat): Pte {
    if r in maps && v < |maps[r]| then maps[r][v] else Empty
  }

  /** Page v of r is mapped to a frame of its own. */
  predicate PageOk(own: Owners, maps: Maps, r: nat, v: nat) {
    var e := Item(maps, r, v);
    IsLeaf(e) && e.frame in own && own[e.frame] == User(r, v)
  }

  /** A frame that belongs to a user address space is the one its map refers to. */
  predicate UserOk(own: Owners, maps: Maps, f: nat)
    requires f in own && own[f].User?
  {
    var e := Item(maps, own[f].root, own[f].page);
    own[f].page < USERTOP && IsLeaf(e) && e.frame == f
  }

  ghost predicate Backed(own: Owners, maps: Maps, r: nat) {
    forall f {:trigger UserOk(own, maps, f)} | f in own && own[f].User? && own[f].root == r :: UserOk(own, maps, f)
  }

  /**
    * A user address space of n pages: pages 0 to n are mapped, each to a frame of its own, the others up
    * to USERTOP are not, and no other frame belongs to it.
    */
  ghost predicate Space(own: Owners, maps: Maps, r: nat, n: nat) {
    && r in maps && |maps[r]| == NPAGE && n <= USERTOP && Backed(own, maps, r)
    && (forall v {:trigger Item(maps, r, v)} | 0 <= v < USERTOP ::
          if v < n then PageOk(own, maps, r, v) else Item(maps, r, v) == Empty)
  }

  /** Pages lo to hi of r can be unmapped, and be given back if that is asked for. */
  ghost predicate Removable(own: Owners, maps: Maps, r: nat, lo: nat, hi: nat, dofree: bool) {
    && r in maps && hi <= NPAGE && (dofree ==> Backed(own, maps, r))
    && (forall v {:trigger Item(maps, r, v)} | lo <= v < hi ::
         IsLeaf(Item(maps, r, v)) && (dofree ==> PageOk(own, maps, r, v)))
  }

  lemma SpaceRange(own: Owners, maps: Maps, r: nat, n: nat, lo: nat)
    requires Space(own, maps, r, n)
    ensures Removable(own, maps, r, lo, n, true)
  {
  }

  // ---------------------------------------------------------------- giving pages back

  predicate InRange(o: Owner, r: nat, lo: nat, hi: nat) {
    o.User? && o.root == r && lo <= o.page < hi
  }

  /** The pages of r from lo to hi are free; all others keep owner and, unless they are tables, contents. */
  ghost predicate Freed(mem: Mem, own: Owners, mem': Mem, own': Owners, r: nat, lo: nat, hi: nat) {
    && mem.Keys == own.Keys == mem'.Keys == own'.Keys
    && (forall f {:trigger own'[f]} | f in own :: own'[f] == if InRange(own[f], r, lo, hi) then Free else own[f])
    && (forall f {:trigger mem'[f]} | f in own && !own[f].Table? && !InRange(own[f], r, lo, hi) :: mem'[f] == mem[f])
  }

  lemma FreedMore(m0: Mem, o0: Owners, m1: Mem, o1: Owners, m2: Mem, o2: Owners, r: nat, lo: nat, hi: nat, top: nat)
    requires lo <= hi <= top && Freed(m0, o0, m1, o1, r, lo, hi) && Freed(m1, o1, m2, o2, r, hi, top)
    ensures Freed(m0, o0, m2, o2, r, lo, top)
  {
    forall f | f in o0 ensures o2[f] == if InRange(o0[f], r, lo, top) then Free else o0[f] {
      assert o1[f] == if InRange(o0[f], r, lo, hi) then Free else o0[f];
    }
    forall f | f in o0 && !o0[f].Table? && !InRange(o0[f], r, lo, top) ensures m2[f] == m0[f] {
      assert o1[f] == o0[f] && m1[f] == m0[f];
    }
  }

  lemma FreedNone(m0: Mem, o0: Owners, m1: Mem, o1: Owners, r: nat, v: nat)
    requires Freed(m0, o0, m1, o1, r, v, v)
    ensures o1 == o0 && forall f | f in o0 && !o0[f].Table? :: m1[f] == m0[f]
  {
    assert forall f | f in o0 :: o1[f] == o0[f];
  }

  lemma FreedStep(m0: Mem, o0: Owners, m1: Mem, o1: Owners, m2: Mem, o2: Owners, r: nat, lo: nat, v: nat, dofree: bool)
    requires lo <= v && Freed(m0, o0, m1, o1, r, lo, if dofree then v else lo)
    requires Freed(m1, o1, m2, o2, r, v, if dofree then v + 1 else v)
    ensures Freed(m0, o0, m2, o2, r, lo, if dofree then v + 1 else lo)
  {
    if dofree {
      FreedMore(m0, o0, m1, o1, m2, o2, r, lo, v, v + 1);
    } else {
      FreedNone(m0, o0, m1, o1, r, lo);
      FreedNone(m1, o1, m2, o2, r, v);
    }
  }

  /** Freeing the frame of page v of r frees that page and no other. */
  lemma GiveBack(mem: Mem, own: Owners, maps: Maps, r: nat, v: nat, mem': Mem, own': Owners)
    requires mem.Keys == own.Keys == mem'.Keys && Backed(own, maps, r) && PageOk(own, maps, r, v)
    requires own' == own[Item(maps, r, v).frame := Free]
    requires forall f | f in own && !own[f].Table? && f != Item(maps, r, v).frame :: mem'[f] == mem[f]
    ensures Freed(mem, own, mem', own', r, v, v + 1)
  {
    forall f | f in own ensures own'[f] == if InRange(own[f], r, v, v + 1) then Free else own[f] {
      if InRange(own[f], r, v, v + 1) {
        assert UserOk(own, maps, f);
      }
    }
  }

  lemma BackedWithout(own: Owners, maps: Maps, r: nat, v: nat, own': Owners, maps': Maps)
    requires r in maps && v < |maps[r]| && Backed(own, maps, r) && PageOk(own, maps, r, v)
    requires own' == own[Item(maps, r, v).frame := Free] && maps' == SetPage(maps, r, v, Empty)
    ensures Backed(own', maps', r)
  {
    forall f | f in own' && own'[f].User? && own'[f].root == r ensures UserOk(own', maps', f) {
      assert UserOk(own, maps, f);
    }
  }

  /** Pages not yet reached are still mapped. */
  lemma StillMapped(m0: Mem, o0: Owners, maps0: Maps, mem: Mem, own: Owners, r: nat, lo: nat, top: nat, v: nat,
                    dofree: bool)
    requires r in maps0 && lo <= v < |maps0[r]| && Freed(m0, o0, mem, own, r, lo, top) && top <= v
    requires IsLeaf(Item(maps0, r, v)) && (dofree ==> PageOk(o0, maps0, r, v))
    ensures Item(WithCut(maps0, r, lo, v), r, v) == Item(maps0, r, v)
    ensures dofree ==> PageOk(own, WithCut(maps0, r, lo, v), r, v)
  {
    var f := Item(maps0, r, v).frame;
    if dofree {
      assert own[f] == o0[f];
    }
  }

  /** A shrunk address space: the pages that are left have kept frame, flags and contents. */
  lemma SpaceShrinks(mem: Mem, own: Owners, maps: Maps, mem': Mem, own': Owners, r: nat, n: nat, lo: nat)
    requires Space(own, maps, r, n) && lo <= n && Freed(mem, own, mem', own', r, lo, n)
    requires Backed(own', WithCut(maps, r, lo, n), r)
    ensures Space(own', WithCut(maps, r, lo, n), r, lo)
    ensures forall v | 0 <= v < lo :: Item(WithCut(maps, r, lo, n), r, v) == Item(maps, r, v)
    ensures forall v | 0 <= v < lo :: mem'[Item(maps, r, v).frame] == mem[Item(maps, r, v).frame]
  {
    var maps' := WithCut(maps, r, lo, n);
    forall v | 0 <= v < USERTOP
      ensures v < lo ==>
        Item(maps', r, v) == Item(maps, r, v) && mem'[Item(maps, r, v).frame] == mem[Item(maps, r, v).frame]
      ensures if v < lo then PageOk(own', maps', r, v) else Item(maps', r, v) == Empty
    {
      var e := Item(maps, r, v);
      if v < lo {
        assert PageOk(own, maps, r, v);
        assert own'[e.frame] == own[e.frame];
      }
    }
  }

  /** Frames of an address space: its tables and its pages. */
  predicate Belongs(o: Owner, r: nat) {
    (o.Table? || o.User?) && o.root == r
  }

  /** All the frames of r are free; every other frame keeps its owner and, unless it is a table, its contents. */
  ghost predicate Released(mem: Mem, own: Owners, mem': Mem, own': Owners, r: nat) {
    && mem.Keys == own.Keys == mem'.Keys == own'.Keys
    && (forall f {:trigger own'[f]} | f in own :: own'[f] == if Belongs(own[f], r) then Free else own[f])
    && (forall f {:trigger mem'[f]} | f in own && !own[f].Table? && !Belongs(own[f], r) :: mem'[f] == mem[f])
  }

  /** Nothing is mapped above user memory but the first k pages there. */
  ghost predicate HighPages(maps: Maps, r: nat, k: nat) {
    forall v {:trigger Item(maps, r, v)} | USERTOP <= v < NPAGE ::
         if v < USERTOP + k then IsLeaf(Item(maps, r, v)) else Item(maps, r, v) == Empty
  }

  /** Unmapping the last page above user memory leaves the rest as it is. */
  lemma HighCut(own: Owners, maps: Maps, r: nat, n: nat, k: nat)
    requires Space(own, maps, r, n) && HighPages(maps, r, k + 1) && USERTOP + k < NPAGE
    ensures Space(own, WithCut(maps, r, USERTOP + k, USERTOP + k + 1), r, n)
    ensures HighPages(WithCut(maps, r, USERTOP + k, USERTOP + k + 1), r, k)
  {
    var maps' := WithCut(maps, r, USERTOP + k, USERTOP + k + 1);
    forall v | 0 <= v < USERTOP
      ensures if v < n then PageOk(own, maps', r, v) else Item(maps', r, v) == Empty
    {
      assert Item(maps', r, v) == Item(maps, r, v);
      assert v < n ==> PageOk(own, maps, r, v);
    }
    forall f | f in own && own[f].User? && own[f].root == r ensures UserOk(own, maps', f) {
      assert UserOk(own, maps, f);
    }
    forall v | USERTOP <= v < NPAGE
      ensures if v < USERTOP + k then IsLeaf(Item(maps', r, v)) else Item(maps', r, v) == Empty
    {
      assert Item(maps', r, v) == if v == USERTOP + k then Empty else Item(maps, r, v);
    }
  }

  /** Once its pages are unmapped an address space maps nothing. */
  lemma NothingMapped(own: Owners, maps: Maps, r: nat, n: nat)
    requires Space(own, maps, r, n) && HighPages(maps, r, 0)
    ensures forall v | 0 <= v < NPAGE :: WithCut(maps, r, 0, n)[r][v] == Empty
  {
    forall v | 0 <= v < NPAGE ensures WithCut(maps, r, 0, n)[r][v] == Empty {
      assert Item(maps, r, v) == maps[r][v];
    }
  }

  /** The tables of r are free; every other frame keeps owner and contents. */
  ghost predicate RootFreed(mem: Mem, own: Owners, mem': Mem, own': Owners, r: nat) {
    && mem.Keys == own.Keys == mem'.Keys == own'.Keys
    && (forall f {:trigger own'[f]} | f in own :: own'[f] == if own[f].Table? && own[f].root == r then Free else own[f])
    && (forall f {:trigger mem'[f]} | f in own && !(own[f].Table? && own[f].root == r) :: mem'[f] == mem[f])
  }

  /** Pages given back, then tables. */
  lemma ReleasedAll(m0: Mem, o0: Owners, maps: Maps, m1: Mem, o1: Owners, m2: Mem, o2: Owners, r: nat, n: nat)
    requires Space(o0, maps, r, n) && Freed(m0, o0, m1, o1, r, 0, n) && RootFreed(m1, o1, m2, o2, r)
    ensures Released(m0, o0, m2, o2, r)
  {
    forall f | f in o0 ensures o2[f] == if Belongs(o0[f], r) then Free else o0[f] {
      assert o1[f] == if InRange(o0[f], r, 0, n) then Free else o0[f];
      PageInRange(o0, maps, r, n, f);
    }
    forall f | f in o0 && !o0[f].Table? && !Belongs(o0[f], r) ensures m2[f] == m0[f] {
      assert o1[f] == o0[f] && m1[f] == m0[f];
    }
  }

  lemma ReleasedLater(m0: Mem, o0: Owners, m1: Mem, m2: Mem, m3: Mem, o3: Owners, r: nat)
    requires Released(m2, o0, m3, o3, r) && m0.Keys == m1.Keys == m2.Keys
    requires forall f | f in o0 && !o0[f].Table? :: m1[f] == m0[f]
    requires forall f | f in o0 && !o0[f].Table? :: m2[f] == m1[f]
    ensures Released(m0, o0, m3, o3, r)
  {
  }

  lemma PageInRange(own: Owners, maps: Maps, r: nat, n: nat, f: nat)
    requires Space(own, maps, r, n) && f in own
    ensures own[f].User? && own[f].root == r ==> InRange(own[f], r, 0, n)
  {
    BackedAt(own, maps, r, f);
  }

  // ---------------------------------------------------------------- new pages

  /** What a new page of a user address space is to hold. */
  datatype Image = Image(flags: nat, bytes: Page)

  predicate ShowsImage(mem: Mem, own: Owners, maps: Maps, r: nat, v: nat, im: Image)
    requires mem.Keys == own.Keys
  {
    var e := Item(maps, r, v);
    e.Pte? && e.flags == im.flags && e.frame in own && own[e.frame] == User(r, v) && mem[e.frame] == im.bytes
  }

  /** A table of r, or the page of r that the map refers to. */
  predicate BecomesPart(maps: Maps, o: Owner, f: nat, r: nat, lo: nat, hi: nat) {
    || (o.Table? && o.root == r && !o.path.Top?)
    || (InRange(o, r, lo, hi) && Item(maps, r, o.page).Pte? && Item(maps, r, o.page).frame == f)
  }

  /** The memory of an address space before and after a change: contents, owners and maps. */
  datatype View = View(mem: Mem, own: Owners, maps: Maps)

  predicate AllotAt(s: View, t: View, r: nat, lo: nat, ims: seq<Image>, v: nat)
    requires t.mem.Keys == t.own.Keys
  {
    if lo <= v < lo + |ims| then ShowsImage(t.mem, t.own, t.maps, r, v, ims[v - lo])
    else Item(t.maps, r, v) == Item(s.maps, r, v)
  }

  /**
    * Free pages have become tables of r, or pages of r from lo on that show the images in order.  Everything
    * else is as it was.
    */
  ghost predicate Allotted(s: View, t: View, r: nat, lo: nat, ims: seq<Image>) {
    && s.mem.Keys == s.own.Keys == t.mem.Keys == t.own.Keys && lo + |ims| <= USERTOP
    && r in s.maps && r in t.maps && |t.maps[r]| == |s.maps[r]| && t.maps == s.maps[r := t.maps[r]]
    && (forall f {:trigger t.own[f]} | f in s.own ::
          t.own[f] == s.own[f] || (s.own[f].Free? && BecomesPart(t.maps, t.own[f], f, r, lo, lo + |ims|)))
    && (forall f {:trigger t.mem[f]} | f in s.own && !s.own[f].Free? && !s.own[f].Table? :: t.mem[f] == s.mem[f])
    && (forall v: nat {:trigger Item(t.maps, r, v)} :: AllotAt(s, t, r, lo, ims, v))
  }

  lemma AllottedSelf(s: View, r: nat, lo: nat)
    requires s.mem.Keys == s.own.Keys && r in s.maps && lo <= USERTOP
    ensures Allotted(s, s, r, lo, [])
  {
    var none: seq<Image> := [];
    forall v: nat ensures AllotAt(s, s, r, lo, none, v) {
    }
    assert s.maps == s.maps[r := s.maps[r]];
  }

  lemma AllottedOwner(s: View, t: View, u: View, r: nat, lo: nat, a: seq<Image>, b: seq<Image>, f: nat)
    requires Allotted(s, t, r, lo, a) && Allotted(t, u, r, lo + |a|, b) && f in s.own
    ensures u.own[f] == s.own[f] || (s.own[f].Free? && BecomesPart(u.maps, u.own[f], f, r, lo, lo + |a| + |b|))
  {
    assert t.own[f] == s.own[f] || u.own[f] == t.own[f];
    if t.own[f] != s.own[f] && t.own[f].User? {
      assert AllotAt(t, u, r, lo + |a|, b, t.own[f].page) by {
        assert Item(u.maps, r, t.own[f].page) == Item(u.maps, r, t.own[f].page);
      }
    }
  }

  lemma AllottedItem(s: View, t: View, u: View, r: nat, lo: nat, a: seq<Image>, b: seq<Image>, v: nat)
    requires Allotted(s, t, r, lo, a) && Allotted(t, u, r, lo + |a|, b)
    ensures AllotAt(s, u, r, lo, a + b, v)
  {
    var e, e' := Item(t.maps, r, v), Item(u.maps, r, v);
    assert AllotAt(s, t, r, lo, a, v) && AllotAt(t, u, r, lo + |a|, b, v);
    if lo <= v < lo + |a| {
      assert u.own[e.frame] == t.own[e.frame] && u.mem[e.frame] == t.mem[e.frame];
    }
  }

  lemma AllottedTrans(s: View, t: View, u: View, r: nat, lo: nat, a: seq<Image>, b: seq<Image>)
    requires Allotted(s, t, r, lo, a) && Allotted(t, u, r, lo + |a|, b)
    ensures Allotted(s, u, r, lo, a + b)
  {
    forall f | f in s.own
      ensures u.own[f] == s.own[f] || (s.own[f].Free? && BecomesPart(u.maps, u.own[f], f, r, lo, lo + |a + b|))
    {
      AllottedOwner(s, t, u, r, lo, a, b, f);
    }
    forall f | f in s.own && !s.own[f].Free? && !s.own[f].Table? ensures u.mem[f] == s.mem[f] {
      assert t.own[f] == s.own[f] && t.mem[f] == s.mem[f];
    }
    forall v: nat ensures AllotAt(s, u, r, lo, a + b, v) {
      AllottedItem(s, t, u, r, lo, a, b, v);
    }
    assert u.maps == s.maps[r := u.maps[r]];
  }

  lemma PageGrows(s: View, t: View, r: nat, lo: nat, ims: seq<Image>, v: nat)
    requires Allotted(s, t, r, lo, ims) && Space(s.own, s.maps, r, lo) && v < USERTOP
    requires forall k | 0 <= k < |ims| :: IsLeaf(Pte(0, ims[k].flags))
    ensures if v < lo + |ims| then PageOk(t.own, t.maps, r, v) else Item(t.maps, r, v) == Empty
  {
    assert AllotAt(s, t, r, lo, ims, v) by { assert Item(t.maps, r, v) == Item(t.maps, r, v); }
    var e := Item(s.maps, r, v);
    if v < lo {
      assert PageOk(s.own, s.maps, r, v);
      assert t.own[e.frame] == s.own[e.frame];
    } else if v < lo + |ims| {
      assert IsLeaf(Pte(0, ims[v - lo].flags));
    }
  }

  lemma UserGrows(s: View, t: View, r: nat, lo: nat, ims: seq<Image>, f: nat)
    requires Allotted(s, t, r, lo, ims) && Space(s.own, s.maps, r, lo)
    requires forall k | 0 <= k < |ims| :: IsLeaf(Pte(0, ims[k].flags))
    requires f in t.own && t.own[f].User? && t.own[f].root == r
    ensures UserOk(t.own, t.maps, f)
  {
    var v := t.own[f].page;
    if t.own[f] == s.own[f] {
      assert UserOk(s.own, s.maps, f);
      assert Item(s.maps, r, v) != Empty;
      assert AllotAt(s, t, r, lo, ims, v) by { assert Item(t.maps, r, v) == Item(t.maps, r, v); }
    } else {
      PageGrows(s, t, r, lo, ims, v);
    }
  }

  /** New pages extend an address space. */
  lemma SpaceGrows(s: View, t: View, r: nat, lo: nat, ims: seq<Image>)
    requires Allotted(s, t, r, lo, ims) && Space(s.own, s.maps, r, lo)
    requires forall k | 0 <= k < |ims| :: IsLeaf(Pte(0, ims[k].flags))
    ensures Space(t.own, t.maps, r, lo + |ims|)
  {
    forall v | 0 <= v < USERTOP
      ensures if v < lo + |ims| then PageOk(t.own, t.maps, r, v) else Item(t.maps, r, v) == Empty
    {
      PageGrows(s, t, r, lo, ims, v);
    }
    forall f | f in t.own && t.own[f].User? && t.own[f].root == r ensures UserOk(t.own, t.maps, f) {
      UserGrows(s, t, r, lo, ims, f);
    }
  }

  /** The other address spaces keep theirs, contents included. */
  lemma SpaceStays(s: View, t: View, r: nat, lo: nat, ims: seq<Image>, q: nat, n: nat)
    requires Allotted(s, t, r, lo, ims) && Space(s.own, s.maps, q, n) && q != r
    ensures Space(t.own, t.maps, q, n) && t.maps[q] == s.maps[q]
    ensures forall v | 0 <= v < n :: t.mem[Item(s.maps, q, v).frame] == s.mem[Item(s.maps, q, v).frame]
  {
    forall v | 0 <= v < USERTOP
      ensures v < n ==> t.mem[Item(s.maps, q, v).frame] == s.mem[Item(s.maps, q, v).frame]
      ensures if v < n then PageOk(t.own, t.maps, q, v) else Item(t.maps, q, v) == Empty
    {
      var e := Item(s.maps, q, v);
      assert Item(t.maps, q, v) == e;
      if v < n {
        assert PageOk(s.own, s.maps, q, v);
        assert t.own[e.frame] == s.own[e.frame];
      }
    }
    forall f | f in t.own && t.own[f].User? && t.own[f].root == q ensures UserOk(t.own, t.maps, f) {
      assert t.own[f] == s.own[f];
      assert UserOk(s.own, s.maps, f);
    }
  }

  // ---------------------------------------------------------------- placing one page

  /** A held frame, free before, that has been mapped becomes page v of r. */
  lemma PlacedPage(s: View, t: View, r: nat, v: nat, f: nat, flags: nat)
    requires r in s.maps && |s.maps[r]| == NPAGE && v < USERTOP && f in s.own && s.own[f].Held?
    requires Kept(s.mem, s.own, t.mem, t.own, r) && t.maps == SetPage(s.maps, r, v, Pte(f, flags))
    ensures t.own[f] == Held
    ensures Allotted(s.(own := s.own[f := Free]), t.(own := t.own[f := User(r, v)]), r, v, [Image(flags, s.mem[f])])
  {
    var s', t', ims := s.(own := s.own[f := Free]), t.(own := t.own[f := User(r, v)]), [Image(flags, s.mem[f])];
    assert t.own[f] == s.own[f] && t.mem[f] == s.mem[f];
    assert t.maps == s.maps[r := t.maps[r]];
    assert Item(t.maps, r, v) == Pte(f, flags);
    forall w: nat ensures AllotAt(s', t', r, v, ims, w) {
      assert w != v ==> Item(t.maps, r, w) == Item(s.maps, r, w);
    }
    forall g | g in s.own
      ensures t'.own[g] == s'.own[g] || (s'.own[g].Free? && BecomesPart(t.maps, t'.own[g], g, r, v, v + 1))
    {
      assert t.own[g] == t.own[g];
    }
  }

  /** A held frame, free before, that could not be mapped and is free again. */
  lemma PlacedNone(s: View, t: View, u: View, r: nat, v: nat, f: nat)
    requires r in s.maps && v < USERTOP && f in s.own && s.own[f].Held?
    requires Kept(s.mem, s.own, t.mem, t.own, r) && t.maps == s.maps
    requires u.mem.Keys == u.own.Keys && u.own == t.own[f := Free] && u.maps == t.maps
    requires forall g | g in t.own && g != f :: u.mem[g] == t.mem[g]
    ensures Allotted(s.(own := s.own[f := Free]), u, r, v, [])
  {
    var s', none: seq<Image> := s.(own := s.own[f := Free]), [];
    assert u.maps == s.maps[r := u.maps[r]];
    forall w: nat ensures AllotAt(s', u, r, v, none, w) {
    }
    forall g | g in s.own
      ensures u.own[g] == s'.own[g] || (s'.own[g].Free? && BecomesPart(u.maps, u.own[g], g, r, v, v))
    {
      assert t.own[g] == t.own[g];
    }
    forall g | g in s'.own && !s'.own[g].Free? && !s'.own[g].Table? ensures u.mem[g] == s.mem[g] {
      assert t.mem[g] == s.mem[g];
    }
  }

  /** The contents of a page that was free do not matter. */
  lemma AllottedFrom(s: View, s': View, t: View, r: nat, lo: nat, ims: seq<Image>, f: nat)
    requires Allotted(s', t, r, lo, ims) && s'.own == s.own && s'.maps == s.maps && f in s.own && s.own[f].Free?
    requires s.mem.Keys == s'.mem.Keys && forall g | g in s.own && g != f :: s'.mem[g] == s.mem[g]
    ensures Allotted(s, t, r, lo, ims)
  {
    forall v: nat ensures AllotAt(s, t, r, lo, ims, v) {
      assert AllotAt(s', t, r, lo, ims, v) by { assert Item(t.maps, r, v) == Item(t.maps, r, v); }
    }
  }

  /** A page of r filled after it was mapped. */
  lemma FilledPage(s: View, t: View, r: nat, v: nat, flags: nat, b: Page, f: nat, c: Page)
    requires Allotted(s, t, r, v, [Image(flags, b)]) && f in t.own && t.own[f] == User(r, v) && s.own[f].Free?
    ensures Allotted(s, t.(mem := t.mem[f := c]), r, v, [Image(flags, c)])
  {
    var t', was, ims := t.(mem := t.mem[f := c]), [Image(flags, b)], [Image(flags, c)];
    assert t.own[f] != s.own[f] && BecomesPart(t.maps, t.own[f], f, r, v, v + 1);
    forall w: nat ensures AllotAt(s, t', r, v, ims, w) {
      assert AllotAt(s, t, r, v, was, w) by { assert Item(t.maps, r, w) == Item(t.maps, r, w); }
    }
  }

  lemma NoPages(own: Owners, maps: Maps, r: nat)
    requires Space(own, maps, r, 0)
    ensures forall f | f in own :: !(own[f].User? && own[f].root == r)
  {
    forall f | f in own ensures !(own[f].User? && own[f].root == r) {
      BackedAt(own, maps, r, f);
    }
  }

  lemma BackedAt(own: Owners, maps: Maps, r: nat, f: nat)
    requires Backed(own, maps, r) && f in own
    ensures own[f].User? && own[f].root == r ==> UserOk(own, maps, f)
  {
  }

  /** Pages that were allotted and then given back leave at most some tables behind. */
  lemma AllottedUndone(s: View, t: View, u: View, r: nat, ims: seq<Image>)
    requires Allotted(s, t, r, 0, ims) && Space(s.own, s.maps, r, 0)
    requires Freed(t.mem, t.own, u.mem, u.own, r, 0, |ims|) && u.maps == WithCut(t.maps, r, 0, |ims|)
    ensures Allotted(s, u, r, 0, [])
  {
    NoPages(s.own, s.maps, r);
    var none: seq<Image> := [];
    forall v: nat ensures AllotAt(s, u, r, 0, none, v) {
      assert AllotAt(s, t, r, 0, ims, v) by { assert Item(t.maps, r, v) == Item(t.maps, r, v); }
      if v < |ims| {
        assert Item(s.maps, r, v) == Empty;
      }
    }
    assert u.maps == s.maps[r := u.maps[r]];
    forall f | f in s.own
      ensures u.own[f] == s.own[f] || (s.own[f].Free? && BecomesPart(u.maps, u.own[f], f, r, 0, 0))
    {
      assert t.own[f] == t.own[f];
    }
    forall f | f in s.own && !s.own[f].Free? && !s.own[f].Table? ensures u.mem[f] == s.mem[f] {
      assert t.own[f] == s.own[f] && t.mem[f] == s.mem[f];
    }
  }

  // ---------------------------------------------------------------- the images of uvmalloc and uvmcopy

  function Zeroed(n: nat, flags: nat): (ims: seq<Image>)
    ensures |ims| == n && forall k | 0 <= k < n :: ims[k] == Image(flags, Zeros(PGSIZE))
  {
    seq(n, _ => Image(flags, Zeros(PGSIZE)))
  }

  lemma ZeroedMore(n: nat, k: nat, flags: nat)
    ensures Zeroed(n, flags) + Zeroed(k, flags) == Zeroed(n + k, flags)
  {
  }

  lemma GrowMore(s: View, t: View, u: View, r: nat, lo: nat, n: nat, k: nat, flags: nat)
    requires Allotted(s, t, r, lo, Zeroed(n, flags)) && Allotted(t, u, r, lo + n, Zeroed(k, flags))
    ensures Allotted(s, u, r, lo, Zeroed(n + k, flags))
  {
    AllottedTrans(s, t, u, r, lo, Zeroed(n, flags), Zeroed(k, flags));
    ZeroedMore(n, k, flags);
  }

  /** A page behind those allotted is as it was. */
  lemma NotAllotted(s: View, t: View, r: nat, lo: nat, ims: seq<Image>, v: nat)
    requires Allotted(s, t, r, lo, ims) && lo + |ims| <= v
    ensures Item(t.maps, r, v) == Item(s.maps, r, v)
  {
    assert AllotAt(s, t, r, lo, ims, v) by { assert Item(t.maps, r, v) == Item(t.maps, r, v); }
  }

  lemma ZeroedLeaf(n: nat, perm: nat)
    requires perm < 1024 && Permits(perm)
    ensures forall k | 0 <= k < n :: IsLeaf(Pte(0, Zeroed(n, WithValid(perm))[k].flags))
  {
    LeafFits(0, perm);
  }

  /** The first n pages of q: flags and bytes. */
  ghost function Copies(s: View, q: nat, n: nat): (ims: seq<Image>)
    requires forall v {:trigger Item(s.maps, q, v)} | 0 <= v < n ::
      Item(s.maps, q, v).Pte? && Item(s.maps, q, v).frame in s.mem
    ensures |ims| == n
    ensures forall v | 0 <= v < n :: ims[v] == Image(Item(s.maps, q, v).flags, s.mem[Item(s.maps, q, v).frame])
  {
    seq(n, v requires 0 <= v < n => Image(Item(s.maps, q, v).flags, s.mem[Item(s.maps, q, v).frame]))
  }

  lemma CopiesMore(s: View, t: View, u: View, q: nat, r: nat, n: nat, v: nat, ims: seq<Image>)
    requires Space(s.own, s.maps, q, n) && v < n && q != r && s.mem.Keys == s.own.Keys
    requires SpaceHas(s, q, n) && Allotted(s, t, r, 0, Copies(s, q, v)) && Allotted(t, u, r, v, ims)
    requires ims == [Image(Item(s.maps, q, v).flags, s.mem[Item(s.maps, q, v).frame])]
    ensures Allotted(s, u, r, 0, Copies(s, q, v + 1))
  {
    AllottedTrans(s, t, u, r, 0, Copies(s, q, v), ims);
    assert Copies(s, q, v) + ims == Copies(s, q, v + 1);
  }

  /** Every page of an address space has contents. */
  ghost predicate SpaceHas(s: View, q: nat, n: nat) {
    forall v {:trigger Item(s.maps, q, v)} | 0 <= v < n :: Item(s.maps, q, v).Pte? && Item(s.maps, q, v).frame in s.mem
  }

  lemma SpaceFull(s: View, q: nat, n: nat)
    requires Space(s.own, s.maps, q, n) && s.mem.Keys == s.own.Keys
    ensures SpaceHas(s, q, n)
  {
    SpaceRange(s.own, s.maps, q, n, 0);
  }

  /** In the middle of a copy the original is untouched. */
  lemma OriginalStays(s: View, t: View, q: nat, r: nat, n: nat, v: nat, ims: seq<Image>)
    requires Space(s.own, s.maps, q, n) && v < n && q != r && s.mem.Keys == s.own.Keys && Allotted(s, t, r, 0, ims)
    ensures PageOk(t.own, t.maps, q, v) && Item(t.maps, q, v) == Item(s.maps, q, v)
    ensures Item(s.maps, q, v).frame in s.mem && t.mem[Item(s.maps, q, v).frame] == s.mem[Item(s.maps, q, v).frame]
  {
    SpaceStays(s, t, r, 0, ims, q, n);
    SpaceRange(t.own, t.maps, q, n, 0);
    assert IsLeaf(Item(t.maps, q, v));
  }

  lemma CopiesLeaf(s: View, q: nat, n: nat, v: nat)
    requires Space(s.own, s.maps, q, n) && s.mem.Keys == s.own.Keys && SpaceHas(s, q, n) && v <= n
    ensures forall k | 0 <= k < v :: IsLeaf(Pte(0, Copies(s, q, v)[k].flags))
  {
    SpaceRange(s.own, s.maps, q, n, 0);
    forall k | 0 <= k < v ensures IsLeaf(Pte(0, Copies(s, q, v)[k].flags)) {
      assert IsLeaf(Item(s.maps, q, k));
    }
  }

  /** q holds the first v pages of p, and p is as it was. */
  lemma CopiedSpace(s: View, t: View, p: nat, q: nat, n: nat, v: nat)
    requires Space(s.own, s.maps, p, n) && Space(s.own, s.maps, q, 0) && p != q && v <= n && SpaceHas(s, p, n)
    requires Allotted(s, t, q, 0, Copies(s, p, v))
    ensures Space(t.own, t.maps, p, n) && Space(t.own, t.maps, q, v)
  {
    CopiesLeaf(s, p, n, v);
    SpaceGrows(s, t, q, 0, Copies(s, p, v));
    SpaceStays(s, t, q, 0, Copies(s, p, v), p, n);
  }

  ghost predicate Copying(s: View, p: nat, q: nat, n: nat) {
    s.mem.Keys == s.own.Keys && p != q && Space(s.own, s.maps, p, n) && Space(s.own, s.maps, q, 0) && SpaceHas(s, p, n)
  }

  ghost function PageImage(s: View, p: nat, v: nat): Image
    requires Item(s.maps, p, v).Pte? && Item(s.maps, p, v).frame in s.mem
  {
    Image(Item(s.maps, p, v).flags, s.mem[Item(s.maps, p, v).frame])
  }

  /** The next page of a copy: there to be read, with its original image, and free to be mapped. */
  lemma CopyReady(s: View, t: View, p: nat, q: nat, n: nat, v: nat)
    requires Copying(s, p, q, n) && v < n && Allotted(s, t, q, 0, Copies(s, p, v))
    ensures p in t.maps && PageOk(t.own, t.maps, p, v) && Item(t.maps, p, v).frame in t.mem
    ensures Item(t.maps, q, v) == Empty
    ensures Item(s.maps, p, v).Pte? && Item(s.maps, p, v).frame in s.mem && PageImage(t, p, v) == PageImage(s, p, v)
  {
    OriginalStays(s, t, p, q, n, v, Copies(s, p, v));
    NotAllotted(s, t, q, 0, Copies(s, p, v), v);
    assert Item(s.maps, q, v) == Empty;
  }

  lemma CopyDone(s: View, t: View, u: View, p: nat, q: nat, n: nat, v: nat)
    requires Copying(s, p, q, n) && v < n && Allotted(s, t, q, 0, Copies(s, p, v))
    requires Item(s.maps, p, v).Pte? && Item(s.maps, p, v).frame in s.mem && Allotted(t, u, q, v, [PageImage(s, p, v)])
    ensures Allotted(s, u, q, 0, Copies(s, p, v + 1))
  {
    CopiesMore(s, t, u, p, q, n, v, [PageImage(s, p, v)]);
  }

  lemma CopyStopped(s: View, t: View, u: View, p: nat, q: nat, n: nat, v: nat)
    requires Copying(s, p, q, n) && v < n && Allotted(s, t, q, 0, Copies(s, p, v)) && Allotted(t, u, q, v, [])
    ensures Allotted(s, u, q, 0, Copies(s, p, v))
  {
    AllottedTrans(s, t, u, q, 0, Copies(s, p, v), []);
    assert Copies(s, p, v) + [] == Copies(s, p, v);
  }

  /** The pages copied so far are there to be given back. */
  lemma UndoReady(s: View, t: View, p: nat, q: nat, n: nat, v: nat)
    requires Copying(s, p, q, n) && v <= n && Allotted(s, t, q, 0, Copies(s, p, v))
    ensures Removable(t.own, t.maps, q, 0, v, true)
  {
    CopiedSpace(s, t, p, q, n, v);
    SpaceRange(t.own, t.maps, q, v, 0);
  }

  lemma UndoDone(s: View, t: View, u: View, p: nat, q: nat, n: nat, v: nat)
    requires Copying(s, p, q, n) && v <= n && Allotted(s, t, q, 0, Copies(s, p, v))
    requires Freed(t.mem, t.own, u.mem, u.own, q, 0, v) && u.maps == WithCut(t.maps, q, 0, v)
    ensures Space(u.own, u.maps, p, n) && Space(u.own, u.maps, q, 0) && Allotted(s, u, q, 0, [])
  {
    AllottedUndone(s, t, u, q, Copies(s, p, v));
    assert Copies(s, p, 0) == [];
    CopiedSpace(s, u, p, q, n, 0);
  }

  // ---------------------------------------------------------------- counting frames

  ghost function FramesOf(maps: Maps, r: nat, n: nat): set<nat> {
    if n == 0 || !Item(maps, r, n - 1).Pte? then {} else FramesOf(maps, r, n - 1) + {Item(maps, r, n - 1).frame}
  }

  lemma {:induction false} FramesDistinct(own: Owners, maps: Maps, r: nat, n: nat, k: nat)
    requires Space(own, maps, r, n) && k <= n
    ensures |FramesOf(maps, r, k)| == k
    ensures forall f | f in FramesOf(maps, r, k) :: f in own && own[f].User? && own[f].page < k
  {
    if k > 0 {
      FramesDistinct(own, maps, r, n, k - 1);
      assert PageOk(own, maps, r, k - 1);
    }
  }

  /** Each page has a frame of its own, so there are no more pages than frames. */
  lemma PagesFit(own: Owners, maps: Maps, r: nat, n: nat)
    requires Space(own, maps, r, n)
    ensures n <= |own.Keys|
  {
    FramesDistinct(own, maps, r, n, n);
    SubsetSize(FramesOf(maps, r, n), own.Keys);
  }

  lemma {:induction false} SubsetSize(a: set<nat>, b: set<nat>)
    requires a <= b
    ensures |a| <= |b|
    decreases |a|
  {
    if a != {} {
      var x :| x in a;
      SubsetSize(a - {x}, b - {x});
    }
  }
}
