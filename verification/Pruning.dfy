/** What freewalk leaves behind: the tables of one address space given back, all else untouched. */
module Pruning {

  import opened Bytes
  import opened Common
  import opened Paging
  import opened VmState
  import opened Spaces

  /** Path q begins with path p. */
  predicate Starts(p: Path, q: Path) {
    p.Top? || p == q || (p.Mid? && q.Bottom? && q.hi == p.hi)
  }

  /** The index that follows p in q. */
  function NextIndex(p: Path, q: Path): nat
    requires Starts(p, q) && p != q
  {
    if p.Top? then q.hi else q.md
  }

  /** f is a table of r whose path starts with p. */
  predicate Under(own: Owners, r: nat, p: Path, f: nat) {
    IsTable(own, f) && own[f].root == r && Starts(p, own[f].path)
  }

  /** A table is determined by its root and its path. */
  lemma {:induction false} Unique(mem: Mem, own: Owners, f: nat, g: nat)
    requires Tree(mem, own) && IsTable(own, f) && IsTable(own, g)
    requires own[f].root == own[g].root && own[f].path == own[g].path
    ensures f == g
    decreases Depth(own[f].path)
  {
    if own[f].path.Top? {
      RootBack(mem, own, f);
      RootBack(mem, own, g);
    } else {
      StepBack(mem, own, f);
      StepBack(mem, own, g);
      Unique(mem, own, own[f].up, own[g].up);
    }
  }

  /** Below an empty entry there is no table. */
  lemma {:induction false} NoneBelow(mem: Mem, own: Owners, t: nat, i: nat, f: nat)
    requires Tree(mem, own) && IsTable(own, t) && !own[t].path.Bottom? && i < NPTE && E(mem, t, i) == Empty && f in own
    ensures !Under(own, own[t].root, Down(own[t].path, i), f)
    decreases if IsTable(own, f) then Depth(own[f].path) else 0
  {
    if Under(own, own[t].root, Down(own[t].path, i), f) {
      StepBack(mem, own, f);
      if own[f].path == Down(own[t].path, i) {
        Unique(mem, own, own[f].up, t);
      } else {
        NoneBelow(mem, own, t, i, own[f].up);
      }
    }
  }

  /** The indices of a path are indices of a table. */
  lemma PathBound(mem: Mem, own: Owners, f: nat)
    requires Tree(mem, own) && IsTable(own, f)
    ensures !own[f].path.Top? ==> own[f].path.hi < NPTE
    ensures own[f].path.Bottom? ==> own[f].path.md < NPTE
  {
    if !own[f].path.Top? {
      StepBack(mem, own, f);
      if own[f].path.Bottom? {
        StepBack(mem, own, own[f].up);
      }
    }
  }

  /** The page with these three indices. */
  function PageAt(a: nat, b: nat, c: nat): nat {
    a * 262144 + b * 512 + c
  }

  lemma PageAtParts(a: nat, b: nat, c: nat)
    requires a < NPTE && b < NPTE && c < NPTE
    ensures PageAt(a, b, c) < NPAGE && Hi(PageAt(a, b, c)) == a && Md(PageAt(a, b, c)) == b && Lo(PageAt(a, b, c)) == c
  {
  }

  /** In an address space that maps nothing, the lowest tables are empty. */
  lemma NoLeaf(mem: Mem, own: Owners, maps: Maps, r: nat, t: nat, i: nat)
    requires Tree(mem, own) && Shows(mem, own, maps) && r in maps && (forall v | 0 <= v < NPAGE :: maps[r][v] == Empty)
    requires IsTable(own, t) && own[t].root == r && own[t].path.Bottom? && i < NPTE
    ensures E(mem, t, i) == Empty
  {
    PathBound(mem, own, t);
    var a, b := own[t].path.hi, own[t].path.md;
    PageAtParts(a, b, i);
    var v := PageAt(a, b, i);
    assert own[t].path == Bottom(Hi(v), Md(v));
    Reached(mem, own, t, v);
    assert At(mem, r, v) == E(mem, t, i);
  }

  // ---------------------------------------------------------------- while tables are being freed

  predicate IsSpare(o: Owner) {
    o.Free? || o.Held?
  }

  /** Only tables of r have been taken away; every other frame keeps owner and contents. */
  ghost predicate Pruned(mem: Mem, own: Owners, mem': Mem, own': Owners, r: nat) {
    && mem.Keys == own.Keys == mem'.Keys == own'.Keys
    && (forall f {:trigger own'[f]} | f in own ::
          (own'[f] == own[f] && mem'[f] == mem[f]) || (IsSpare(own'[f]) && own[f].Table? && own[f].root == r))
  }

  /** The tables below t at indices under i. */
  predicate Before(own: Owners, t: nat, i: nat, f: nat)
    requires IsTable(own, t)
  {
    Under(own, own[t].root, own[t].path, f) && own[t].path != own[f].path && NextIndex(own[t].path, own[f].path) < i
  }

  lemma BeforeNext(own: Owners, t: nat, i: nat, f: nat)
    requires IsTable(own, t) && !own[t].path.Bottom?
    ensures Before(own, t, i + 1, f) <==> Before(own, t, i, f) || Under(own, own[t].root, Down(own[t].path, i), f)
  {
  }

  lemma BeforeAll(mem: Mem, own: Owners, t: nat, f: nat)
    requires Tree(mem, own) && IsTable(own, t)
    ensures Under(own, own[t].root, own[t].path, f) <==> f == t || Before(own, t, NPTE, f)
  {
    if Under(own, own[t].root, own[t].path, f) {
      if own[f].path == own[t].path {
        Unique(mem, own, f, t);
      } else {
        PathBound(mem, own, f);
      }
    }
  }

  function Without(maps: Maps, r: nat): Maps {
    map q | q in maps && q != r :: maps[q]
  }

  /** With all the tables of r taken away, the other trees stand as they did. */
  lemma PrunedTree(mem: Mem, own: Owners, maps: Maps, mem': Mem, own': Owners, r: nat)
    requires Tree(mem, own) && Shows(mem, own, maps) && Pruned(mem, own, mem', own', r) && r in maps
    requires forall f {:trigger own'[f]} | IsTable(own, f) && own[f].root == r :: IsSpare(own'[f])
    ensures Tree(mem', own') && Shows(mem', own', Without(maps, r))
  {
    forall f | IsTable(own', f) ensures own'[f] == own[f] && mem'[f] == mem[f] && UpOk(mem', own', f) {
      assert UpOk(mem, own, f);
      var u := own[f].up;
      assert u in own ==> own'[u] == own'[u];
    }
    forall f, i | IsTable(own', f) && 0 <= i < NPTE ensures EntryOk(mem', own', f, i) {
      assert own'[f] == own[f] && mem'[f] == mem[f];
      assert EntryOk(mem, own, f, i);
      var e := E(mem, f, i);
      assert e.Pte? && e.frame in own ==> own'[e.frame] == own'[e.frame];
    }
    PrunedShows(mem, own, maps, mem', own', r);
  }

  lemma PrunedShows(mem: Mem, own: Owners, maps: Maps, mem': Mem, own': Owners, r: nat)
    requires Tree(mem, own) && Shows(mem, own, maps) && Pruned(mem, own, mem', own', r) && r in maps
    requires forall f {:trigger own'[f]} | IsTable(own, f) && own[f].root == r :: IsSpare(own'[f])
    ensures Shows(mem', own', Without(maps, r))
  {
    var maps' := Without(maps, r);
    forall q ensures q in maps' <==> IsRoot(own', q) {
      assert q in maps <==> IsRoot(own, q);
      assert q in own ==> own'[q] == own'[q];
    }
    forall q, v | q in maps' && 0 <= v < NPAGE ensures maps'[q][v] == At(mem', q, v) {
      assert maps[q][v] == At(mem, q, v);
      PrunedAt(mem, own, mem', own', r, q, v);
    }
  }

  lemma PrunedAt(mem: Mem, own: Owners, mem': Mem, own': Owners, r: nat, q: nat, v: nat)
    requires Tree(mem, own) && Pruned(mem, own, mem', own', r) && q != r && IsRoot(own, q) && v < NPAGE
    ensures At(mem', q, v) == At(mem, q, v)
  {
    PathOk(mem, own, q, v);
    assert own'[q] == own[q];
    var m := Step(mem, Some(q), Hi(v));
    if m.Some? {
      assert own'[m.value] == own[m.value];
      var l := Low(mem, q, v);
      if l.Some? {
        assert own'[l.value] == own[l.value];
      }
    }
  }

  // ---------------------------------------------------------------- one walk

  /** The state freewalk starts from: r maps nothing. */
  ghost predicate Bare(mem: Mem, own: Owners, maps: Maps, r: nat) {
    Tree(mem, own) && Shows(mem, own, maps) && r in maps && forall v | 0 <= v < NPAGE :: maps[r][v] == Empty
  }

  /** own' is own with the tables below t at indices under i freed. */
  ghost predicate FreedBefore(base: Owners, own: Owners, own': Owners, t: nat, i: nat)
    requires IsTable(base, t)
  {
    && own.Keys == own'.Keys
    && forall f {:trigger own'[f]} | f in own :: own'[f] == if Before(base, t, i, f) then Free else own[f]
  }

  /** own' is own with t and the tables below it freed. */
  ghost predicate FreedUnder(base: Owners, own: Owners, own': Owners, r: nat, p: Path) {
    && own.Keys == own'.Keys
    && forall f {:trigger own'[f]} | f in own :: own'[f] == if Under(base, r, p, f) then Free else own[f]
  }

  /** Entry i of t is empty: nothing was to be freed there. */
  lemma SkipEntry(mem: Mem, base: Owners, own: Owners, own': Owners, t: nat, i: nat)
    requires Tree(mem, base) && IsTable(base, t) && i < NPTE && E(mem, t, i) == Empty && base.Keys == own.Keys
    requires FreedBefore(base, own, own', t, i)
    ensures FreedBefore(base, own, own', t, i + 1)
  {
    forall f | f in own ensures own'[f] == if Before(base, t, i + 1, f) then Free else own[f] {
      if !base[t].path.Bottom? {
        BeforeNext(base, t, i, f);
        NoneBelow(mem, base, t, i, f);
      }
    }
  }

  /** Entry i of t referred to a child, and the child has been walked. */
  lemma ChildWalked(base: Owners, own: Owners, own1: Owners, own2: Owners, t: nat, i: nat)
    requires IsTable(base, t) && !base[t].path.Bottom? && FreedBefore(base, own, own1, t, i)
    requires FreedUnder(base, own1, own2, base[t].root, Down(base[t].path, i))
    ensures FreedBefore(base, own, own2, t, i + 1)
  {
    forall f | f in own ensures own2[f] == if Before(base, t, i + 1, f) then Free else own[f] {
      BeforeNext(base, t, i, f);
      assert own1[f] == if Before(base, t, i, f) then Free else own[f];
    }
  }

  /** Tables at index i of t are still there when the walk reaches it. */
  lemma ChildIntact(base: Owners, own: Owners, own1: Owners, t: nat, i: nat)
    requires IsTable(base, t) && !base[t].path.Bottom? && FreedBefore(base, own, own1, t, i)
    requires forall f {:trigger own[f]} | f in own && Under(base, base[t].root, base[t].path, f) :: own[f] == base[f]
    ensures forall f {:trigger own1[f]} | f in own1 && Under(base, base[t].root, Down(base[t].path, i), f) ::
      own1[f] == base[f]
  {
    forall f | f in own1 && Under(base, base[t].root, Down(base[t].path, i), f) ensures own1[f] == base[f] {
      assert own[f] == base[f];
    }
  }

  /** All entries done, t itself goes. */
  lemma TableWalked(mem: Mem, base: Owners, own: Owners, own1: Owners, t: nat)
    requires Tree(mem, base) && IsTable(base, t) && t in own && base.Keys == own.Keys
    requires FreedBefore(base, own, own1, t, NPTE)
    ensures FreedUnder(base, own, own1[t := Free], base[t].root, base[t].path)
  {
    forall f | f in own
      ensures own1[t := Free][f] == if Under(base, base[t].root, base[t].path, f) then Free else own[f]
    {
      BeforeAll(mem, base, t, f);
      assert own1[f] == if Before(base, t, NPTE, f) then Free else own[f];
    }
  }

  lemma PrunedMore(mem: Mem, own: Owners, mem1: Mem, own1: Owners, r: nat, t: nat, head: nat)
    requires Pruned(mem, own, mem1, own1, r) && IsTable(own, t) && own[t].root == r
    ensures Pruned(mem, own, Linked(mem1, t, head), own1[t := Free], r)
  {
    forall f | f in own
      ensures (own1[t := Free][f] == own[f] && Linked(mem1, t, head)[f] == mem[f]) ||
              (IsSpare(own1[t := Free][f]) && own[f].Table? && own[f].root == r)
    {
      assert own1[f] == own1[f];
    }
  }

  /** No valid entry of a bare address space is a leaf: freewalk does not panic. */
  lemma BareEntry(mem: Mem, own: Owners, maps: Maps, r: nat, t: nat, i: nat)
    requires Bare(mem, own, maps, r) && IsTable(own, t) && own[t].root == r && i < NPTE
    ensures var e := E(mem, t, i);
      e == Empty || (e.Pte? && e.flags == 1 && !own[t].path.Bottom?
                     && e.frame in own && own[e.frame] == Table(r, Down(own[t].path, i), t))
  {
    assert EntryOk(mem, own, t, i);
    if own[t].path.Bottom? {
      NoLeaf(mem, own, maps, r, t, i);
    }
  }

  /** The whole tree of r walked: all its tables are free. */
  lemma WalkedAway(mem: Mem, own: Owners, maps: Maps, mem': Mem, own': Owners, r: nat)
    requires Tree(mem, own) && Shows(mem, own, maps) && r in maps
    requires FreedUnder(own, own, own', r, Top) && Pruned(mem, own, mem', own', r)
    ensures RootFreed(mem, own, mem', own', r) && Tree(mem', own') && Shows(mem', own', Without(maps, r))
  {
    forall f | f in own && !(own[f].Table? && own[f].root == r) ensures mem'[f] == mem[f] {
      assert own'[f] == own'[f];
    }
    PrunedTree(mem, own, maps, mem', own', r);
  }

  // ---------------------------------------------------------------- a new root

  function NoEntries(): (none: seq<Pte>)
    ensures |none| == NPAGE && forall v | 0 <= v < NPAGE :: none[v] == Empty
  {
    seq(NPAGE, _ => Empty)
  }

  lemma NewRootEntry(mem: Mem, own: Owners, r: nat, f: nat, i: nat)
    requires Tree(mem, own) && r in own && !own[r].Table? && (forall j | 0 <= j < NPTE :: E(mem, r, j) == Empty)
    requires IsTable(own[r := Table(r, Top, r)], f) && i < NPTE
    ensures EntryOk(mem, own[r := Table(r, Top, r)], f, i)
  {
    if f != r {
      assert EntryOk(mem, own, f, i);
    }
  }

  /** An empty page made the root of a new address space. */
  lemma NewRoot(mem: Mem, own: Owners, maps: Maps, r: nat)
    requires Tree(mem, own) && Shows(mem, own, maps) && r in own && !own[r].Table?
    requires forall j | 0 <= j < NPTE :: E(mem, r, j) == Empty
    ensures Tree(mem, own[r := Table(r, Top, r)]) && Shows(mem, own[r := Table(r, Top, r)], maps[r := NoEntries()])
  {
    var own', maps' := own[r := Table(r, Top, r)], maps[r := NoEntries()];
    forall f | IsTable(own', f) ensures UpOk(mem, own', f) {
      if f != r {
        assert UpOk(mem, own, f);
      }
    }
    forall f, i | IsTable(own', f) && 0 <= i < NPTE ensures EntryOk(mem, own', f, i) {
      NewRootEntry(mem, own, r, f, i);
    }
    forall q ensures q in maps' <==> IsRoot(own', q) {
      assert q in maps <==> IsRoot(own, q);
    }
    forall q, v | q in maps' && 0 <= v < NPAGE ensures maps'[q][v] == At(mem, q, v) {
      if q == r {
        EmptyStep(mem, r, Hi(v));
      } else {
        assert maps[q][v] == At(mem, q, v);
      }
    }
  }

  // ---------------------------------------------------------------- a root given up

  /** The owners when the root r has been freed and its other tables are lost. */
  function GivenUp(own: Owners, r: nat): Owners {
    map f | f in own :: if f == r then Free else if own[f].Table? && own[f].root == r then Held else own[f]
  }

  lemma GiveUpSound(mem: Mem, head: nat, own: Owners, free: seq<nat>, maps: Maps, r: nat)
    requires Sound(mem, head, own, free, maps) && r in maps
    ensures Sound(Linked(mem, r, head), r * PGSIZE, GivenUp(own, r), [r] + free, Without(maps, r))
  {
    var mem', own' := Linked(mem, r, head), GivenUp(own, r);
    assert IsRoot(own, r);
    PushKeeps(mem, own, head, free, r);
    ListFrame(mem', own[r := Free], r * PGSIZE, [r] + free, mem', own');
    PrunedTree(mem, own, maps, mem', own', r);
  }

  /** A cleared page becomes a root: nothing is mapped, and the way to any page lacks two tables. */
  lemma RootSound(mem: Mem, head: nat, own: Owners, free: seq<nat>, maps: Maps, r: nat)
    requires Sound(mem, head, own, free, maps) && r in own && own[r].Held? && mem[r] == Zeros(PGSIZE)
    ensures Sound(mem, head, own[r := Table(r, Top, r)], free, maps[r := NoEntries()])
    ensures forall v | 0 <= v < NPAGE :: Missing(mem, r, v) == 2
  {
    forall j | 0 <= j < NPTE ensures E(mem, r, j) == Empty {
      ZeroTable(j);
    }
    NewRoot(mem, own, maps, r);
    ListFrame(mem, own, head, free, mem, own[r := Table(r, Top, r)]);
    forall v | 0 <= v < NPAGE ensures Missing(mem, r, v) == 2 {
      EmptyStep(mem, r, Hi(v));
    }
  }

  /** Trampoline and trapframe are entries of one table, so the second never lacks one. */
  lemma TrapsShareTable(mem: Mem, own: Owners, maps: Maps, r: nat)
    requires Shows(mem, own, maps) && r in maps && maps[r][USERTOP + 1] != Empty
    ensures Low(mem, r, USERTOP).Some?
  {
    assert At(mem, r, USERTOP + 1) == maps[r][USERTOP + 1];
    assert Hi(USERTOP) == Hi(USERTOP + 1) && Md(USERTOP) == Md(USERTOP + 1);
  }

  /** Every page of a user belongs to an address space that exists. */
  ghost predicate Rooted(own: Owners, maps: Maps) {
    forall f {:trigger own[f]} | f in own && own[f].User? :: own[f].root in maps
  }

  lemma FreshOwners(own: Owners, maps: Maps, m1: Mem, o1: Owners, m2: Mem, o2: Owners, r: nat)
    requires Rooted(own, maps) && r in own && r !in maps && o1 == own[r := Table(r, Top, r)] && Kept(m1, o1, m2, o2, r)
    ensures forall f | f in o2 :: !(o2[f].User? && o2[f].root == r)
  {
  }

  lemma FreshKept(m0: Mem, own: Owners, m1: Mem, o1: Owners, m2: Mem, o2: Owners, r: nat)
    requires m0.Keys == own.Keys && r in own && o1 == own[r := Table(r, Top, r)] && Kept(m1, o1, m2, o2, r)
    requires m1.Keys == m0.Keys && forall f | f in m0 && f != r :: m1[f] == m0[f]
    ensures Kept(m0, own[r := Table(r, Top, r)], m2, o2, r)
  {
  }

  /** What proc_pagetable returns: no pages, and the two above user memory. */
  function FreshMap(tramp: nat, trap: nat): seq<Pte> {
    NoEntries()[USERTOP + 1 := Pte(tramp, WithValid(10))][USERTOP := Pte(trap, WithValid(14))]
  }

  lemma FreshSpace(own: Owners, maps: Maps, r: nat, tramp: nat, trap: nat)
    requires r in maps && maps[r] == FreshMap(tramp, trap) && tramp < TOPFRAME && trap < TOPFRAME
    requires forall f | f in own :: !(own[f].User? && own[f].root == r)
    ensures Space(own, maps, r, 0) && HighPages(maps, r, 2)
  {
    assert Permits(10) && Permits(14);
    LeafFits(tramp, 10);
    LeafFits(trap, 14);
  }

  /** Of the frames that were free, some may now be held by nobody; no other frame changed hands. */
  ghost predicate Leaked(own: Owners, own': Owners) {
    && own.Keys == own'.Keys
    && forall f {:trigger own'[f]} | f in own :: own'[f] == own[f] || (own[f].Free? && own'[f].Held?)
  }

  lemma GivenUpLeaks(own: Owners, maps: Maps, m1: Mem, o1: Owners, m2: Mem, o2: Owners, r: nat)
    requires r in own && own[r].Free? && o1 == own[r := Table(r, Top, r)] && Kept(m1, o1, m2, o2, r)
    requires forall f | f in own :: !(own[f].Table? && own[f].root == r)
    ensures Leaked(own, GivenUp(o2, r))
  {
    forall f | f in own ensures GivenUp(o2, r)[f] == own[f] || (own[f].Free? && GivenUp(o2, r)[f].Held?) {
      assert o2[f] == o2[f];
    }
  }

  /** A frame that is no root has no tables. */
  lemma NoStrayTables(mem: Mem, own: Owners, r: nat)
    requires Tree(mem, own) && r in own && !own[r].Table?
    ensures forall f | f in own :: !(own[f].Table? && own[f].root == r)
  {
    forall f | f in own ensures !(own[f].Table? && own[f].root == r) {
      if own[f].Table? {
        RootOfTable(mem, own, f);
      }
    }
  }

  lemma {:induction false} RootOfTable(mem: Mem, own: Owners, f: nat)
    requires Tree(mem, own) && IsTable(own, f)
    ensures IsRoot(own, own[f].root)
    decreases Depth(own[f].path)
  {
    if own[f].path.Top? {
      RootBack(mem, own, f);
    } else {
      StepBack(mem, own, f);
      RootOfTable(mem, own, own[f].up);
    }
  }

  lemma ForgetRoot(maps: Maps, r: nat)
    requires r !in maps
    ensures Without(maps[r := NoEntries()], r) == maps
  {
  }

  lemma FreshMaps(maps: Maps, r: nat, tramp: nat, trap: nat)
    ensures SetPage(SetPage(maps[r := NoEntries()], r, USERTOP + 1, Pte(tramp, WithValid(10))), r, USERTOP,
                    Pte(trap, WithValid(14)))
         == maps[r := FreshMap(tramp, trap)]
  {
  }

  /** The steps of a successful proc_pagetable taken together: a root, its tables, two entries. */
  lemma FreshDone(a: View, s: View, t: View, u: View, r: nat, tramp: nat, trap: nat)
    requires Rooted(a.own, a.maps) && a.mem.Keys == a.own.Keys && r in a.own && r !in a.maps && tramp < TOPFRAME
    requires trap < TOPFRAME
    requires s == View(a.mem[r := Zeros(PGSIZE)], a.own[r := Table(r, Top, r)], a.maps[r := NoEntries()])
    requires Kept(s.mem, s.own, t.mem, t.own, r) && t.maps == SetPage(s.maps, r, USERTOP + 1, Pte(tramp, WithValid(10)))
    requires Kept(t.mem, t.own, u.mem, u.own, r) && u.maps == SetPage(t.maps, r, USERTOP, Pte(trap, WithValid(14)))
    ensures u.maps == a.maps[r := FreshMap(tramp, trap)] && Space(u.own, u.maps, r, 0) && HighPages(u.maps, r, 2)
    ensures Kept(a.mem, a.own[r := Table(r, Top, r)], u.mem, u.own, r)
  {
    KeptTrans(s.mem, s.own, t.mem, t.own, u.mem, u.own, r);
    FreshKept(a.mem, a.own, s.mem, s.own, u.mem, u.own, r);
    FreshMaps(a.maps, r, tramp, trap);
    FreshOwners(a.own, a.maps, s.mem, s.own, u.mem, u.own, r);
    FreshSpace(u.own, u.maps, r, tramp, trap);
  }
}
