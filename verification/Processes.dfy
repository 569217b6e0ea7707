/**
  * Processes over the machine's memory: growproc, fork and exit as kernel/proc.c drives kernel/vm.c, in any
  * order.
  */
module Processes {

  import opened Bytes
  import opened Ledger
  import opened Paging
  import opened VmState
  import opened Tables
  import opened Spaces
  import opened Pruning
  import opened UserMemory
  import opened Contents
  import Umalloc
  import Vm

  /** The size of a process and the frame of its trapframe; a process is named by its root table. */
  datatype Proc = Proc(sz: nat, trap: nat)

  type Procs = map<nat, Proc>

  /** No page above user memory is open to the user. */
  ghost predicate Closed(maps: Maps, r: nat) {
    forall v {:trigger Item(maps, r, v)} | USERTOP <= v < NPAGE :: !IsUser(Item(maps, r, v))
  }

  /**
    * What every process has: its user pages are exactly those of its size, each on a frame of its own;
    * trampoline and trapframe above them and nothing else; a trapframe that is nobody else's.
    */
  ghost predicate ProcOk(own: Owners, maps: Maps, procs: Procs, r: nat)
    requires r in procs
  {
    && procs[r].sz <= USERTOP * PGSIZE && Space(own, maps, r, Pages(procs[r].sz))
    && HighPages(maps, r, 2) && Closed(maps, r)
    && procs[r].trap in own && own[procs[r].trap].Held?
  }

  predicate TrapsApart(procs: Procs) {
    forall q, r | q in procs && r in procs && q != r :: procs[q].trap != procs[r].trap
  }

  ghost predicate World(own: Owners, maps: Maps, procs: Procs) {
    && maps.Keys == procs.Keys && Rooted(own, maps) && |own.Keys| <= NRAM && TrapsApart(procs)
    && (forall r {:trigger ProcOk(own, maps, procs, r)} | r in procs :: ProcOk(own, maps, procs, r))
  }

  ghost function Traps(procs: Procs): set<nat> {
    set r | r in procs :: procs[r].trap
  }

  /** The frames held by no address space are the trapframes of the processes and the lost ones. */
  ghost predicate Accounted(own: Owners, procs: Procs, lost: set<nat>) {
    HeldFrames(own) == lost + Traps(procs) && lost !! Traps(procs)
  }

  /** Where every frame is: on the free list, lost, or the trapframe, a table or a page of a process. */
  lemma Somewhere(mem: Mem, own: Owners, maps: Maps, procs: Procs, lost: set<nat>, f: nat)
    requires Tree(mem, own) && Shows(mem, own, maps) && World(own, maps, procs) && Accounted(own, procs, lost)
    requires f in own
    ensures own[f].Free? || f in lost || f in Traps(procs) || ((own[f].Table? || own[f].User?) && own[f].root in procs)
  {
    if own[f].Held? {
      assert f in HeldFrames(own);
    } else if own[f].Table? {
      RootOfTable(mem, own, f);
    }
  }

  /** When every process has ended, all memory is free but what was lost. */
  lemma AllBack(mem: Mem, head: nat, own: Owners, free: seq<nat>, maps: Maps, lost: set<nat>)
    requires Sound(mem, head, own, free, maps) && World(own, maps, map[]) && Accounted(own, map[], lost)
    ensures |free| + |lost| == |own.Keys|
  {
    var none: Procs := map[];
    assert Traps(none) == {};
    forall f | f in own
      ensures f in FreeFrames(own) + lost
    {
      Somewhere(mem, own, maps, none, lost, f);
    }
    assert own.Keys == FreeFrames(own) + lost && FreeFrames(own) !! lost;
    FreeCount(mem, own, head, free);
  }

  lemma OnlyOwnPages(own: Owners, maps: Maps, r: nat, n: nat)
    requires Space(own, maps, r, n) && Closed(maps, r)
    ensures UserOnly(own, maps, r)
  {
    forall v | 0 <= v < NPAGE && IsUser(Item(maps, r, v))
      ensures Item(maps, r, v).frame in own && own[Item(maps, r, v).frame] == User(r, v)
    {
      assert v < USERTOP;
      assert PageOk(own, maps, r, v);
    }
  }

  // ---------------------------------------------------------------- the others keep what they have

  /** A change that concerns neither the map nor the pages of q. */
  ghost predicate Untouched(own: Owners, maps: Maps, own': Owners, maps': Maps, q: nat) {
    && q in maps && q in maps' && maps'[q] == maps[q] && own.Keys == own'.Keys
    && (forall f {:trigger own'[f]} | f in own ::
          || own'[f] == own[f]
          || !((own[f].User? && own[f].root == q) || (own'[f].User? && own'[f].root == q) || own[f].Held?))
  }

  lemma UntouchedSpace(own: Owners, maps: Maps, own': Owners, maps': Maps, q: nat, n: nat)
    requires Space(own, maps, q, n) && Untouched(own, maps, own', maps', q)
    ensures Space(own', maps', q, n)
  {
    forall v | 0 <= v < USERTOP ensures if v < n then PageOk(own', maps', q, v) else Item(maps', q, v) == Empty {
      var e := Item(maps, q, v);
      assert Item(maps', q, v) == e;
      if v < n {
        assert PageOk(own, maps, q, v);
        assert own'[e.frame] == own[e.frame];
      }
    }
    forall f | f in own' && own'[f].User? && own'[f].root == q ensures UserOk(own', maps', f) {
      assert own'[f] == own[f];
      assert UserOk(own, maps, f);
    }
  }

  lemma UntouchedHigh(maps: Maps, maps': Maps, q: nat, k: nat)
    requires q in maps && q in maps' && maps'[q] == maps[q] && HighPages(maps, q, k) && Closed(maps, q)
    ensures HighPages(maps', q, k) && Closed(maps', q)
  {
    forall v | USERTOP <= v < NPAGE
      ensures (if v < USERTOP + k then IsLeaf(Item(maps', q, v)) else Item(maps', q, v) == Empty)
      ensures !IsUser(Item(maps', q, v))
    {
      assert Item(maps', q, v) == Item(maps, q, v);
    }
  }

  lemma UntouchedProc(own: Owners, maps: Maps, procs: Procs, own': Owners, maps': Maps, procs': Procs, q: nat)
    requires q in procs && ProcOk(own, maps, procs, q) && Untouched(own, maps, own', maps', q)
    requires q in procs' && procs'[q] == procs[q]
    ensures ProcOk(own', maps', procs', q)
  {
    UntouchedSpace(own, maps, own', maps', q, Pages(procs[q].sz));
    UntouchedHigh(maps, maps', q, 2);
    assert own'[procs[q].trap] == own[procs[q].trap];
  }

  function Resized(procs: Procs, r: nat, newsz: nat): Procs
    requires r in procs
  {
    procs[r := procs[r].(sz := newsz)]
  }

  lemma ResizedTraps(procs: Procs, r: nat, newsz: nat)
    requires r in procs && TrapsApart(procs)
    ensures TrapsApart(Resized(procs, r, newsz)) && Resized(procs, r, newsz).Keys == procs.Keys
  {
  }

  /** One process changes its size; nothing of the others is touched. */
  lemma ResizedWorld(own: Owners, maps: Maps, procs: Procs, own': Owners, maps': Maps, r: nat, newsz: nat)
    requires World(own, maps, procs) && r in procs && maps'.Keys == maps.Keys && own'.Keys == own.Keys
    requires Rooted(own', maps')
    requires forall q {:trigger Untouched(own, maps, own', maps', q)} | q in procs && q != r ::
      Untouched(own, maps, own', maps', q)
    requires ProcOk(own', maps', Resized(procs, r, newsz), r)
    ensures World(own', maps', Resized(procs, r, newsz))
  {
    forall q | q in procs && q != r ensures ProcOk(own', maps', Resized(procs, r, newsz), q) {
      assert ProcOk(own, maps, procs, q);
      assert Untouched(own, maps, own', maps', q);
      UntouchedProc(own, maps, procs, own', maps', Resized(procs, r, newsz), q);
    }
    ResizedTraps(procs, r, newsz);
  }

  // ---------------------------------------------------------------- what the processes have in memory

  /** What process q has in memory: the pages of its size. */
  ghost function Holds(s: View, procs: Procs, q: nat): seq<Image> {
    if q in procs then Show(s, q, Pages(procs[q].sz)) else []
  }

  ghost predicate Same(s: View, procs: Procs, t: View, procs': Procs, q: nat) {
    q in procs' && Holds(t, procs', q) == Holds(s, procs, q)
  }

  /** Every process but r goes on with what it had. */
  ghost predicate OthersSame(s: View, procs: Procs, t: View, procs': Procs, r: nat) {
    forall q {:trigger Same(s, procs, t, procs', q)} | q in procs && q != r :: Same(s, procs, t, procs', q)
  }

  /** Every process there was does. */
  ghost predicate AllKept(s: View, procs: Procs, t: View, procs': Procs) {
    forall q {:trigger Same(s, procs, t, procs', q)} | q in procs :: Same(s, procs, t, procs', q)
  }

  /** Process r has n pages then, what is new being zeros. */
  function Cut(ims: seq<Image>, n: nat): seq<Image> {
    if n >= |ims| then ims + Zeroed(n - |ims|, WithValid(UserPerm(6))) else ims[..n]
  }

  ghost predicate Regrown(s: View, procs: Procs, t: View, procs': Procs, r: nat) {
    && OthersSame(s, procs, t, procs', r) && r in procs'
    && Holds(t, procs', r) == Cut(Holds(s, procs, r), Pages(procs'[r].sz))
  }

  /** A process whose pages and map are left alone. */
  lemma OneSame(s: View, procs: Procs, t: View, procs': Procs, q: nat)
    requires q in procs && ProcOk(s.own, s.maps, procs, q) && q in t.maps && t.maps[q] == s.maps[q]
    requires PagesKept(s.mem, s.own, t.mem, q, USERTOP) && q in procs' && procs'[q].sz == procs[q].sz
    ensures Same(s, procs, t, procs', q)
  {
    ShowKept(s, t, q, Pages(procs[q].sz));
  }

  /** No address space that there was has another map. */
  ghost predicate MapsKept(maps: Maps, maps': Maps) {
    forall q {:trigger maps'[q]} {:trigger q in maps} | q in maps :: q in maps' && maps'[q] == maps[q]
  }

  ghost predicate SizesKept(procs: Procs, procs': Procs) {
    forall q {:trigger q in procs'} | q in procs :: q in procs' && procs'[q].sz == procs[q].sz
  }

  /** Nobody's pages and maps were touched. */
  lemma NoneTouched(s: View, procs: Procs, t: View, procs': Procs, r: nat)
    requires World(s.own, s.maps, procs) && UserKept(s.mem, s.own, t.mem) && MapsKept(s.maps, t.maps)
    requires SizesKept(procs, procs')
    ensures AllKept(s, procs, t, procs') && OthersSame(s, procs, t, procs', r)
  {
    forall q | q in procs
      ensures Same(s, procs, t, procs', q)
    {
      assert ProcOk(s.own, s.maps, procs, q);
      OneSame(s, procs, t, procs', q);
    }
  }

  lemma AllottedOthers(s: View, t: View, procs: Procs, r: nat, lo: nat, ims: seq<Image>, newsz: nat)
    requires World(s.own, s.maps, procs) && r in procs && Allotted(s, t, r, lo, ims)
    ensures OthersSame(s, procs, t, Resized(procs, r, newsz), r)
  {
    forall q | q in procs && q != r
      ensures Same(s, procs, t, Resized(procs, r, newsz), q)
    {
      assert ProcOk(s.own, s.maps, procs, q);
      OneSame(s, procs, t, Resized(procs, r, newsz), q);
    }
  }

  lemma GrownMemory(s: View, t: View, procs: Procs, r: nat, added: nat, newsz: nat)
    requires World(s.own, s.maps, procs) && r in procs && Pages(newsz) == Pages(procs[r].sz) + added
    requires Allotted(s, t, r, Pages(procs[r].sz), Zeroed(added, WithValid(UserPerm(6))))
    ensures Regrown(s, procs, t, Resized(procs, r, newsz), r)
  {
    assert ProcOk(s.own, s.maps, procs, r);
    ShowAllotted(s, t, r, Pages(procs[r].sz), Zeroed(added, WithValid(UserPerm(6))));
    AllottedOthers(s, t, procs, r, Pages(procs[r].sz), Zeroed(added, WithValid(UserPerm(6))), newsz);
  }

  lemma ShrunkMemory(s: View, t: View, procs: Procs, r: nat, newsz: nat)
    requires World(s.own, s.maps, procs) && r in procs && Pages(newsz) <= Pages(procs[r].sz)
    requires Freed(s.mem, s.own, t.mem, t.own, r, Pages(newsz), Pages(procs[r].sz))
    requires t.maps == WithCut(s.maps, r, Pages(newsz), Pages(procs[r].sz))
    ensures Regrown(s, procs, t, Resized(procs, r, newsz), r)
  {
    assert ProcOk(s.own, s.maps, procs, r);
    ShowCut(s, t, r, Pages(newsz), Pages(procs[r].sz));
    assert Holds(s, procs, r)[..Pages(newsz)] == Cut(Holds(s, procs, r), Pages(newsz));
    forall q | q in procs && q != r
      ensures Same(s, procs, t, Resized(procs, r, newsz), q)
    {
      assert ProcOk(s.own, s.maps, procs, q);
      OneSame(s, procs, t, Resized(procs, r, newsz), q);
    }
  }

  lemma EndedMemory(s: View, t: View, procs: Procs, r: nat, head: nat)
    requires World(s.own, s.maps, procs) && r in procs && procs[r].trap in s.mem && t.maps == Without(s.maps, r)
    requires s.mem.Keys == s.own.Keys
    requires Released(Linked(s.mem, procs[r].trap, head), s.own[procs[r].trap := Free], t.mem, t.own, r)
    ensures OthersSame(s, procs, t, Others(procs, r), r)
  {
    assert ProcOk(s.own, s.maps, procs, r);
    forall q | q in procs && q != r
      ensures Same(s, procs, t, Others(procs, r), q)
    {
      assert ProcOk(s.own, s.maps, procs, q);
      OneSame(s, procs, t, Others(procs, r), q);
    }
  }

  // ---------------------------------------------------------------- growing

  lemma AllottedUntouched(s: View, t: View, r: nat, lo: nat, ims: seq<Image>, q: nat)
    requires Allotted(s, t, r, lo, ims) && q in s.maps && q != r
    ensures Untouched(s.own, s.maps, t.own, t.maps, q)
  {
  }

  lemma AllottedHigh(s: View, t: View, r: nat, lo: nat, ims: seq<Image>, k: nat)
    requires Allotted(s, t, r, lo, ims) && HighPages(s.maps, r, k) && Closed(s.maps, r)
    ensures HighPages(t.maps, r, k) && Closed(t.maps, r)
  {
    forall v | USERTOP <= v < NPAGE
      ensures (if v < USERTOP + k then IsLeaf(Item(t.maps, r, v)) else Item(t.maps, r, v) == Empty)
      ensures !IsUser(Item(t.maps, r, v))
    {
      NotAllotted(s, t, r, lo, ims, v);
      assert Item(t.maps, r, v) == Item(s.maps, r, v);
    }
  }

  lemma AllottedRooted(s: View, t: View, r: nat, lo: nat, ims: seq<Image>)
    requires Allotted(s, t, r, lo, ims) && Rooted(s.own, s.maps)
    ensures Rooted(t.own, t.maps)
  {
    forall f | f in t.own && t.own[f].User? ensures t.own[f].root in t.maps {
      assert f in s.own;
      assert t.own[f] == s.own[f] || BecomesPart(t.maps, t.own[f], f, r, lo, lo + |ims|);
    }
  }

  lemma GrownProc(s: View, t: View, procs: Procs, r: nat, lo: nat, ims: seq<Image>, newsz: nat)
    requires r in procs && ProcOk(s.own, s.maps, procs, r) && Allotted(s, t, r, lo, ims)
    requires newsz <= USERTOP * PGSIZE && Space(t.own, t.maps, r, Pages(newsz))
    ensures ProcOk(t.own, t.maps, Resized(procs, r, newsz), r)
  {
    AllottedHigh(s, t, r, lo, ims, 2);
    assert t.own[procs[r].trap] == s.own[procs[r].trap];
  }

  /** Pages added to r: all processes are as they should be. */
  lemma GrownWorld(s: View, t: View, procs: Procs, r: nat, lo: nat, ims: seq<Image>, newsz: nat)
    requires World(s.own, s.maps, procs) && r in procs && Allotted(s, t, r, lo, ims)
    requires newsz <= USERTOP * PGSIZE && Space(t.own, t.maps, r, Pages(newsz))
    ensures World(t.own, t.maps, Resized(procs, r, newsz))
  {
    AllottedRooted(s, t, r, lo, ims);
    assert ProcOk(s.own, s.maps, procs, r);
    GrownProc(s, t, procs, r, lo, ims, newsz);
    forall q | q in procs && q != r ensures Untouched(s.own, s.maps, t.own, t.maps, q) {
      AllottedUntouched(s, t, r, lo, ims, q);
    }
    ResizedWorld(s.own, s.maps, procs, t.own, t.maps, r, newsz);
  }

  // ---------------------------------------------------------------- shrinking

  lemma CutHigh(maps: Maps, r: nat, lo: nat, hi: nat, k: nat)
    requires r in maps && hi <= USERTOP && HighPages(maps, r, k) && Closed(maps, r)
    ensures HighPages(WithCut(maps, r, lo, hi), r, k) && Closed(WithCut(maps, r, lo, hi), r)
  {
    var maps' := WithCut(maps, r, lo, hi);
    forall v | USERTOP <= v < NPAGE
      ensures (if v < USERTOP + k then IsLeaf(Item(maps', r, v)) else Item(maps', r, v) == Empty)
      ensures !IsUser(Item(maps', r, v))
    {
      assert Item(maps', r, v) == Item(maps, r, v);
    }
  }

  lemma FreedUntouched(mem: Mem, own: Owners, maps: Maps, mem': Mem, own': Owners, r: nat, lo: nat, hi: nat, q: nat)
    requires Freed(mem, own, mem', own', r, lo, hi) && r in maps && q in maps && q != r
    ensures Untouched(own, maps, own', WithCut(maps, r, lo, hi), q)
  {
  }

  lemma FreedRooted(mem: Mem, own: Owners, maps: Maps, mem': Mem, own': Owners, r: nat, lo: nat, hi: nat)
    requires Freed(mem, own, mem', own', r, lo, hi) && r in maps && Rooted(own, maps)
    ensures Rooted(own', WithCut(maps, r, lo, hi))
  {
    forall f | f in own' && own'[f].User? ensures own'[f].root in WithCut(maps, r, lo, hi) {
      assert own'[f] == own[f];
    }
  }

  /** Pages of r given back: all processes are as they should be. */
  lemma ShrunkWorld(mem: Mem, own: Owners, maps: Maps, mem': Mem, own': Owners, procs: Procs, r: nat, newsz: nat,
                    lo: nat, hi: nat)
    requires World(own, maps, procs) && r in procs && Freed(mem, own, mem', own', r, lo, hi) && hi <= USERTOP
    requires newsz <= USERTOP * PGSIZE && lo == Pages(newsz) && Space(own', WithCut(maps, r, lo, hi), r, lo)
    ensures World(own', WithCut(maps, r, lo, hi), Resized(procs, r, newsz))
  {
    var maps', procs' := WithCut(maps, r, lo, hi), Resized(procs, r, newsz);
    assert ProcOk(own, maps, procs, r);
    CutHigh(maps, r, lo, hi, 2);
    FreedRooted(mem, own, maps, mem', own', r, lo, hi);
    assert own'[procs[r].trap] == own[procs[r].trap];
    forall q | q in procs && q != r ensures Untouched(own, maps, own', maps', q) {
      FreedUntouched(mem, own, maps, mem', own', r, lo, hi, q);
    }
    ResizedWorld(own, maps, procs, own', maps', r, newsz);
  }

  // ---------------------------------------------------------------- ending

  /** A trapframe is no page of anybody's. */
  lemma TrapFreed(own: Owners, maps: Maps, q: nat, n: nat, t: nat)
    requires Space(own, maps, q, n) && t in own && own[t].Held?
    ensures Space(own[t := Free], maps, q, n)
  {
    var own' := own[t := Free];
    forall v | 0 <= v < USERTOP ensures if v < n then PageOk(own', maps, q, v) else Item(maps, q, v) == Empty {
      assert Item(maps, q, v) == Item(maps, q, v);
      assert v < n ==> PageOk(own, maps, q, v);
    }
    forall f | f in own' && own'[f].User? && own'[f].root == q ensures UserOk(own', maps, f) {
      assert UserOk(own, maps, f);
    }
  }

  function Others(procs: Procs, r: nat): Procs {
    map q | q in procs && q != r :: procs[q]
  }

  lemma EndedProc(mem: Mem, own: Owners, maps: Maps, mem': Mem, own': Owners, procs: Procs, r: nat, q: nat)
    requires r in procs && q in procs && q != r && ProcOk(own, maps, procs, r) && ProcOk(own, maps, procs, q)
    requires TrapsApart(procs)
    requires Released(mem, own[procs[r].trap := Free], mem', own', r)
    ensures ProcOk(own', Without(maps, r), Others(procs, r), q)
  {
    var t, maps' := procs[r].trap, Without(maps, r);
    TrapFreed(own, maps, q, Pages(procs[q].sz), t);
    UntouchedSpace(own[t := Free], maps, own', maps', q, Pages(procs[q].sz));
    UntouchedHigh(maps, maps', q, 2);
    assert own'[procs[q].trap] == own[procs[q].trap];
  }

  /** The trapframe and all that belongs to r given back. */
  lemma EndedWorld(mem: Mem, own: Owners, maps: Maps, mem': Mem, own': Owners, procs: Procs, r: nat)
    requires World(own, maps, procs) && r in procs && procs[r].trap in own
    requires Released(mem, own[procs[r].trap := Free], mem', own', r)
    ensures World(own', Without(maps, r), Others(procs, r))
  {
    var maps', procs' := Without(maps, r), Others(procs, r);
    assert ProcOk(own, maps, procs, r);
    forall q | q in procs' ensures ProcOk(own', maps', procs', q) {
      assert ProcOk(own, maps, procs, q);
      EndedProc(mem, own, maps, mem', own', procs, r, q);
    }
    forall f | f in own' && own'[f].User? ensures own'[f].root in maps' {
      assert own'[f] == own[f];
    }
    assert own'.Keys == own.Keys;
  }

  /** freeproc: the trapframe, then the pages and the tables of r. */
  method Freeproc(m: Vm.Machine, procs: Procs, r: nat) returns (procs': Procs)
    requires m.Valid() && World(m.own, m.maps, procs) && r in procs
    modifies m
    ensures m.Valid() && procs' == Others(procs, r) && World(m.own, m.maps, procs') && procs[r].trap in old(m.mem)
    ensures Released(Linked(old(m.mem), procs[r].trap, old(m.head)), old(m.own)[procs[r].trap := Free], m.mem, m.own, r)
    ensures OthersSame(old(m.Now()), procs, m.Now(), procs', r)
  {
    ghost var t, n := procs[r].trap, Pages(procs[r].sz);
    assert ProcOk(m.own, m.maps, procs, r);
    TrapFreed(m.own, m.maps, r, n, t);
    m.Kfree(procs[r].trap * PGSIZE, t);
    m.ProcFreepagetable(r, procs[r].sz);
    EndedWorld(Linked(old(m.mem), t, old(m.head)), old(m.own), old(m.maps), m.mem, m.own, procs, r);
    EndedMemory(old(m.Now()), m.Now(), procs, r, old(m.head));
    procs' := Others(procs, r);
  }

  // ---------------------------------------------------------------- growproc

  /** What the size of a process is after growproc with n > 0, or short of that when memory ran out. */
  function GrownSize(sz: nat, n: nat): nat {
    if Pages(sz + n) == Pages(sz) then sz else Pages(sz + n) * PGSIZE
  }

  /** A size stays, or rises to a page boundary. */
  predicate Rises(sz: nat, newsz: nat) {
    newsz == sz || (sz < newsz && newsz % PGSIZE == 0)
  }

  lemma RisesTo(sz: nat, newsz: nat)
    requires sz <= USERTOP * PGSIZE && Pages(sz) <= Pages(newsz) && (newsz == sz || newsz == Pages(newsz) * PGSIZE)
    ensures Rises(sz, newsz)
  {
    PagesReach(sz, Pages(newsz));
  }

  /** What growproc does to a size that is a multiple of a header is what the allocator expects of sbrk. */
  lemma SbrkAnswers(sz: nat, n: int, newsz: nat)
    requires sz % Umalloc.UNIT == 0 && n % Umalloc.UNIT == 0 && -0x8000_0000 <= n < 0x8000_0000 && newsz < 0x8000_0000
    requires n < 0 ==> newsz == if sz + n >= 0 then sz + n else sz
    requires n == 0 ==> newsz == sz
    requires n > 0 ==> Rises(sz, newsz) && newsz <= GrownSize(sz, n) && sz + n < WORD - PGSIZE
    ensures Umalloc.KernelMay(sz / Umalloc.UNIT, n, Umalloc.Break(newsz / Umalloc.UNIT))
  {
  }

  method GrowBy(m: Vm.Machine, procs: Procs, r: nat, n: int) returns (ret: int, procs': Procs)
    requires m.Valid() && World(m.own, m.maps, procs) && r in procs && 0 < n < 0x8000_0000
    modifies m
    ensures m.Valid() && r in procs' && procs' == Resized(procs, r, procs'[r].sz) && World(m.own, m.maps, procs')
    ensures ret == if procs'[r].sz == 0 then -1 else 0
    ensures procs'[r].sz == GrownSize(procs[r].sz, n) ||
            (procs'[r].sz < GrownSize(procs[r].sz, n) && Starved(m.own, m.free, r, Pages(procs'[r].sz)))
    ensures HeldFrames(m.own) == HeldFrames(old(m.own)) && Rises(procs[r].sz, procs'[r].sz)
    ensures Regrown(old(m.Now()), procs, m.Now(), procs', r)
  {
    assert ProcOk(m.own, m.maps, procs, r);
    var sz := procs[r].sz;
    var newsz;
    ghost var added;
    ret, newsz, added := m.Grow(r, sz, n);
    GrownWorld(old(m.Now()), m.Now(), procs, r, Pages(sz), Zeroed(added, WithValid(UserPerm(6))), newsz);
    AllottedHeld(old(m.Now()), m.Now(), r, Pages(sz), Zeroed(added, WithValid(UserPerm(6))));
    GrownMemory(old(m.Now()), m.Now(), procs, r, added, newsz);
    RisesTo(sz, newsz);
    procs' := Resized(procs, r, newsz);
  }

  lemma Shrunk(s: View, t: View, procs: Procs, r: nat, newsz: nat)
    requires World(s.own, s.maps, procs) && r in procs && newsz <= procs[r].sz
    requires Trimmed(s, t, r, Pages(newsz), Pages(procs[r].sz))
    ensures World(t.own, t.maps, Resized(procs, r, newsz)) && Regrown(s, procs, t, Resized(procs, r, newsz), r)
    ensures HeldFrames(t.own) == HeldFrames(s.own)
  {
    assert ProcOk(s.own, s.maps, procs, r);
    PagesMonotone(newsz, procs[r].sz);
    ShrunkWorld(s.mem, s.own, s.maps, t.mem, t.own, procs, r, newsz, Pages(newsz), Pages(procs[r].sz));
    FreedHeld(s.mem, s.own, t.mem, t.own, r, Pages(newsz), Pages(procs[r].sz));
    ShrunkMemory(s, t, procs, r, newsz);
  }

  method ShrinkBy(m: Vm.Machine, procs: Procs, r: nat, n: int) returns (procs': Procs)
    requires m.Valid() && World(m.own, m.maps, procs) && r in procs && -0x8000_0000 <= n < 0
    modifies m
    ensures m.Valid() && World(m.own, m.maps, procs') && HeldFrames(m.own) == HeldFrames(old(m.own))
    ensures procs' == Resized(procs, r, if procs[r].sz + n >= 0 then procs[r].sz + n else procs[r].sz)
    ensures Regrown(old(m.Now()), procs, m.Now(), procs', r)
  {
    var newsz := Trim(m, procs, r, n);
    procs' := Resized(procs, r, newsz);
    Shrunk(old(m.Now()), m.Now(), procs, r, newsz);
  }

  method Trim(m: Vm.Machine, procs: Procs, r: nat, n: int) returns (newsz: nat)
    requires m.Valid() && World(m.own, m.maps, procs) && r in procs && -0x8000_0000 <= n < 0
    modifies m
    ensures m.Valid() && newsz == if procs[r].sz + n >= 0 then procs[r].sz + n else procs[r].sz
    ensures Trimmed(old(m.Now()), m.Now(), r, Pages(newsz), Pages(procs[r].sz))
  {
    assert ProcOk(m.own, m.maps, procs, r);
    newsz := m.Shrink(r, procs[r].sz, n);
  }

  /** The pages of r from lo on are gone. */
  ghost predicate Trimmed(s: View, t: View, r: nat, lo: nat, hi: nat) {
    && Freed(s.mem, s.own, t.mem, t.own, r, lo, hi) && r in s.maps && t.maps == WithCut(s.maps, r, lo, hi)
    && Space(t.own, t.maps, r, lo)
  }

  lemma SameSize(s: View, procs: Procs, r: nat)
    requires r in procs
    ensures Resized(procs, r, procs[r].sz) == procs && Regrown(s, procs, s, procs, r)
  {
    assert Cut(Holds(s, procs, r), Pages(procs[r].sz)) == Holds(s, procs, r);
  }

  /**
    * growproc: whatever n and however little memory there is, the size kept is the size of the address
    * space.  Within a page the size does not grow at all.
    */
  method Growproc(m: Vm.Machine, procs: Procs, r: nat, n: int) returns (ret: int, procs': Procs)
    requires m.Valid() && World(m.own, m.maps, procs) && r in procs && -0x8000_0000 <= n < 0x8000_0000
    modifies m
    ensures m.Valid() && r in procs' && procs' == Resized(procs, r, procs'[r].sz) && World(m.own, m.maps, procs')
    ensures HeldFrames(m.own) == HeldFrames(old(m.own))
    ensures n == 0 ==> ret == 0 && procs' == procs && m.mem == old(m.mem)
    ensures n < 0 ==> ret == 0 && procs'[r].sz == if procs[r].sz + n >= 0 then procs[r].sz + n else procs[r].sz
    ensures n > 0 ==> ret == if procs'[r].sz == 0 then -1 else 0
    ensures n > 0 ==>
      || procs'[r].sz == GrownSize(procs[r].sz, n)
      || (procs'[r].sz < GrownSize(procs[r].sz, n) && Starved(m.own, m.free, r, Pages(procs'[r].sz)))
    ensures n > 0 ==> Rises(procs[r].sz, procs'[r].sz)
    ensures Regrown(old(m.Now()), procs, m.Now(), procs', r)
  {
    if n == 0 {
      ret, procs' := 0, procs;
      SameSize(m.Now(), procs, r);
    } else if n > 0 {
      ret, procs' := GrowBy(m, procs, r, n);
    } else {
      procs' := ShrinkBy(m, procs, r, n);
      ret := 0;
    }
  }

  // ---------------------------------------------------------------- fork

  /** A free frame held, or frames lost: no process notices. */
  lemma LeakedWorld(own: Owners, maps: Maps, procs: Procs, own': Owners)
    requires World(own, maps, procs) && Leaked(own, own')
    ensures World(own', maps, procs)
  {
    forall q | q in procs ensures ProcOk(own', maps, procs, q) {
      assert ProcOk(own, maps, procs, q);
      UntouchedProc(own, maps, procs, own', maps, procs, q);
    }
    forall f | f in own' && own'[f].User? ensures own'[f].root in maps {
      assert own'[f] == own[f];
    }
  }

  lemma FreshClosed(maps: Maps, r: nat, tramp: nat, trap: nat)
    requires r in maps && maps[r] == FreshMap(tramp, trap)
    ensures Closed(maps, r)
  {
    assert !Bit(WithValid(10), 4) && !Bit(WithValid(14), 4);
  }

  lemma BornOther(mem: Mem, own: Owners, maps: Maps, procs: Procs, mem': Mem, own': Owners, q: nat, entries: seq<Pte>,
                  trap: nat, r: nat)
    requires r in procs && ProcOk(own, maps, procs, r) && q in own && own[q].Free? && q !in maps && r != q
    requires Kept(mem, own[q := Table(q, Top, q)], mem', own', q)
    ensures ProcOk(own', maps[q := entries], procs[q := Proc(0, trap)], r)
  {
    UntouchedProc(own, maps, procs, own', maps[q := entries], procs[q := Proc(0, trap)], r);
  }

  lemma BornRooted(mem: Mem, own: Owners, maps: Maps, mem': Mem, own': Owners, q: nat, entries: seq<Pte>)
    requires Rooted(own, maps) && q in own && Kept(mem, own[q := Table(q, Top, q)], mem', own', q)
    ensures Rooted(own', maps[q := entries]) && own'.Keys == own.Keys
  {
    forall f | f in own' && own'[f].User? ensures own'[f].root in maps[q := entries] {
      assert own'[f] == own[f];
    }
  }

  /** A new process of no pages joins the others. */
  lemma BornWorld(mem: Mem, own: Owners, maps: Maps, procs: Procs, mem': Mem, own': Owners, q: nat, tramp: nat,
                  trap: nat)
    requires World(own, maps, procs) && q in own && own[q].Free? && q !in maps && trap in own && own[trap].Held?
    requires Kept(mem, own[q := Table(q, Top, q)], mem', own', q) && Space(own', maps[q := FreshMap(tramp, trap)], q, 0)
    requires HighPages(maps[q := FreshMap(tramp, trap)], q, 2) && forall r | r in procs :: procs[r].trap != trap
    ensures World(own', maps[q := FreshMap(tramp, trap)], procs[q := Proc(0, trap)])
  {
    var maps', procs' := maps[q := FreshMap(tramp, trap)], procs[q := Proc(0, trap)];
    FreshClosed(maps', q, tramp, trap);
    assert own'[trap] == own[trap];
    PagesOf(0);
    assert ProcOk(own', maps', procs', q);
    BornRooted(mem, own, maps, mem', own', q, FreshMap(tramp, trap));
    forall r | r in procs' && r != q ensures ProcOk(own', maps', procs', r) {
      assert ProcOk(own, maps, procs, r);
      BornOther(mem, own, maps, procs, mem', own', q, FreshMap(tramp, trap), trap, r);
    }
    assert maps'.Keys == procs'.Keys;
  }

  lemma TrapFresh(own: Owners, maps: Maps, procs: Procs, t: nat)
    requires World(own, maps, procs) && t in own && own[t].Free?
    ensures World(own[t := Held], maps, procs) && forall r | r in procs :: procs[r].trap != t
  {
    LeakedWorld(own, maps, procs, own[t := Held]);
    forall r | r in procs ensures procs[r].trap != t {
      assert ProcOk(own, maps, procs, r);
    }
  }

  lemma LeakedTrap(own: Owners, mid: Owners, t: nat)
    requires Leaked(own, mid) && t in own && own[t].Held?
    ensures Leaked(own[t := Free], mid[t := Free])
  {
    assert mid[t] == mid[t];
    var own1, mid1 := own[t := Free], mid[t := Free];
    forall f | f in own1 ensures mid1[f] == own1[f] || (own1[f].Free? && mid1[f].Held?) {
      if f != t { assert mid[f] == mid[f]; }
    }
  }

  lemma DropTrap(own: Owners, maps: Maps, procs: Procs, t: nat)
    requires World(own, maps, procs) && t in own && own[t].Held? && forall r | r in procs :: procs[r].trap != t
    ensures World(own[t := Free], maps, procs)
  {
    var own' := own[t := Free];
    forall q | q in procs ensures ProcOk(own', maps, procs, q) {
      assert ProcOk(own, maps, procs, q);
      TrapFreed(own, maps, q, Pages(procs[q].sz), t);
    }
    forall f | f in own' && own'[f].User? ensures own'[f].root in maps {
      assert own'[f] == own[f];
    }
    assert own'.Keys == own.Keys;
  }

  /** The trapframe's page, cleared. */
  method NewTrap(m: Vm.Machine, ghost procs: Procs) returns (none: bool, trap: nat)
    requires m.Valid() && World(m.own, m.maps, procs)
    modifies m
    ensures m.Valid() && m.maps == old(m.maps) && World(m.own, m.maps, procs)
    ensures none <==> old(m.free) == []
    ensures none ==> m.own == old(m.own) && m.free == []
    ensures !none ==>
      m.free == old(m.free)[1..] && trap in old(m.own) && old(m.own)[trap].Free? && m.own == old(m.own)[trap := Held]
    ensures !none ==> forall r | r in procs :: procs[r].trap != trap
    ensures UserKept(old(m.mem), old(m.own), m.mem)
  {
    var pa := m.Kalloc();
    none, trap := pa == 0, 0;
    if !none {
      ghost var f := old(m.free)[0];
      TrapFresh(old(m.own), m.maps, procs, f);
      trap := Clear(m, pa, f);
    }
  }

  /** memset of a page that is held. */
  method Clear(m: Vm.Machine, pa: nat, ghost f: nat) returns (page: nat)
    requires m.Valid() && f in m.own && m.own[f].Held? && pa == f * PGSIZE
    modifies m`mem
    ensures m.Valid() && page == f && m.mem == old(m.mem)[f := Zeros(PGSIZE)]
  {
    PageAddress(f);
    page := pa / PGSIZE;
    FillKeeps(m.mem, m.head, m.own, m.free, m.maps, f, Zeros(PGSIZE));
    m.mem := m.mem[page := Zeros(PGSIZE)];
  }

  /** proc_pagetable failed after a page for the trapframe was taken, and that page is given back. */
  lemma NotBorn(own0: Owners, own: Owners, maps: Maps, procs: Procs, t: nat)
    requires t in own0 && own0[t].Free? && World(own0[t := Held], maps, procs) && Leaked(own0[t := Held], own)
    requires forall r | r in procs :: procs[r].trap != t
    ensures t in own && own[t].Held? && World(own[t := Free], maps, procs) && Leaked(own0, own[t := Free])
  {
    LeakedWorld(own0[t := Held], maps, procs, own);
    assert own[t] == own[t];
    LeakedTrap(own0[t := Held], own, t);
    TrapBack(own0, t);
    DropTrap(own, maps, procs, t);
  }

  lemma KeptOn(mem0: Mem, own0: Owners, mem1: Mem, own1: Owners, mem2: Mem, t: nat, next: nat)
    requires t in own0 && own0[t].Free? && own1 == own0[t := Held] && UserKept(mem0, own0, mem1)
    requires UserKept(mem1, own1, mem2)
    ensures UserKept(mem0, own0, mem2) && (t in mem2 ==> UserKept(mem0, own0, Linked(mem2, t, next)))
  {
    forall f | f in own0 && own0[f].User?
      ensures f in mem0 && f in mem2 && mem2[f] == mem0[f]
    {
      assert own1[f] == own0[f];
    }
  }

  lemma MapAdded(maps: Maps, q: nat, entries: seq<Pte>)
    requires q !in maps
    ensures MapsKept(maps, maps[q := entries])
  {
  }

  lemma Born(mem0: Mem, own0: Owners, s: View, t: View, procs: Procs, q: nat, tramp: nat, trap: nat)
    requires World(s.own, s.maps, procs) && Tree(mem0, own0) && Rooted(own0, s.maps) && UserKept(mem0, own0, s.mem)
    requires trap in own0 && own0[trap].Free? && s.own == own0[trap := Held]
    requires (forall r | r in procs :: procs[r].trap != trap)
    requires q !in s.maps && t.maps == s.maps[q := FreshMap(tramp, trap)] && Space(t.own, t.maps, q, 0)
    requires HighPages(t.maps, q, 2)
    requires q in s.own && s.own[q].Free? && Kept(s.mem, s.own[q := Table(q, Top, q)], t.mem, t.own, q)
    requires UserKept(s.mem, s.own, t.mem)
    ensures World(t.own, t.maps, procs[q := Proc(0, trap)]) && Begun(own0, t.own, q, trap)
    ensures UserKept(mem0, own0, t.mem) && MapsKept(s.maps, t.maps)
  {
    BornWorld(s.mem, s.own, s.maps, procs, t.mem, t.own, q, tramp, trap);
    BegunHere(mem0, own0, s.maps, s.mem, t.mem, t.own, q, trap);
    KeptOn(mem0, own0, s.mem, s.own, t.mem, trap, 0);
    MapAdded(s.maps, q, FreshMap(tramp, trap));
  }

  /** freeproc of a process that got no page table. */
  method NoProcess(m: Vm.Machine, ghost procs: Procs, trap: nat, ghost mem0: Mem, ghost own0: Owners, ghost mem1: Mem)
    requires m.Valid() && trap in own0 && own0[trap].Free? && World(own0[trap := Held], m.maps, procs)
    requires Leaked(own0[trap := Held], m.own) && forall r | r in procs :: procs[r].trap != trap
    requires UserKept(mem0, own0, mem1) && UserKept(mem1, own0[trap := Held], m.mem)
    modifies m
    ensures m.Valid() && m.maps == old(m.maps) && World(m.own, m.maps, procs) && Leaked(own0, m.own)
    ensures |m.free| == |old(m.free)| + 1 && UserKept(mem0, own0, m.mem) && MapsKept(old(m.maps), m.maps)
  {
    NotBorn(own0, m.own, m.maps, procs, trap);
    KeptOn(mem0, own0, mem1, own0[trap := Held], m.mem, trap, m.head);
    m.Kfree(trap * PGSIZE, trap);
  }

  /** proc_pagetable for a process with this trapframe. */
  method NewTables(m: Vm.Machine, ghost procs: Procs, tramp: nat, trap: nat, ghost mem0: Mem, ghost own0: Owners)
    returns (crashed: bool, ok: bool, q: nat)
    requires m.Valid() && World(m.own, m.maps, procs) && tramp < TOPFRAME && Tree(mem0, own0) && Rooted(own0, m.maps)
    requires trap in own0 && own0[trap].Free? && m.own == own0[trap := Held] && UserKept(mem0, own0, m.mem)
    requires forall r | r in procs :: procs[r].trap != trap
    modifies m
    ensures m.Valid() && (ok <==> |old(m.free)| >= 3) && (crashed <==> old(m.free) == [])
    ensures ok ==> q !in procs && World(m.own, m.maps, procs[q := Proc(0, trap)]) && Begun(own0, m.own, q, trap)
    ensures ok ==> UserKept(mem0, own0, m.mem) && MapsKept(old(m.maps), m.maps)
    ensures ok ==> OnlyHigh(m.own, q) && |m.free| == |old(m.free)| - 3
    ensures crashed ==> m.own == old(m.own)
    ensures !ok ==> m.maps == old(m.maps)
    ensures !ok && !crashed ==> |m.free| == 1 && Leaked(old(m.own), m.own) && UserKept(old(m.mem), old(m.own), m.mem)
  {
    assert FrameOk(m.own, m.free, trap);
    crashed, ok, q := m.ProcPagetable(tramp, trap);
    if ok { Born(mem0, own0, old(m.Now()), m.Now(), procs, q, tramp, trap); }
  }

  /**
    * proc_pagetable for a process with this trapframe; when that fails, freeproc of the trapframe.  Before
    * the trapframe was allocated, memory was mem0 and owned as own0.
    */
  method NewProcess(m: Vm.Machine, procs: Procs, tramp: nat, trap: nat, ghost mem0: Mem, ghost own0: Owners)
    returns (crashed: bool, ok: bool, q: nat, procs': Procs)
    requires m.Valid() && World(m.own, m.maps, procs) && tramp < TOPFRAME && Tree(mem0, own0) && Rooted(own0, m.maps)
    requires trap in own0 && own0[trap].Free? && m.own == own0[trap := Held] && UserKept(mem0, own0, m.mem)
    requires forall r | r in procs :: procs[r].trap != trap
    modifies m
    ensures m.Valid() && World(m.own, m.maps, procs')
    ensures (ok <==> |old(m.free)| >= 3) && (crashed <==> old(m.free) == [])
    ensures ok ==> q !in procs && procs' == procs[q := Proc(0, trap)] && Begun(own0, m.own, q, trap)
    ensures ok ==> OnlyHigh(m.own, q) && |m.free| == |old(m.free)| - 3
    ensures !ok ==> procs' == procs
    ensures !ok && !crashed ==> |m.free| == 2 && Leaked(own0, m.own)
    ensures !crashed ==> UserKept(mem0, own0, m.mem) && MapsKept(old(m.maps), m.maps)
  {
    crashed, ok, q := NewTables(m, procs, tramp, trap, mem0, own0);
    procs' := procs;
    if ok {
      procs' := procs[q := Proc(0, trap)];
    } else if !crashed {
      NoProcess(m, procs, trap, mem0, own0, old(m.mem));
    }
  }

  /**
    * The memory part of allocproc: a trapframe and an empty address space.  It takes four free pages.  With
    * three it fails and a page is lost; with two it fails and all is as before; with one the kernel crashes.
    */
  method Allocproc(m: Vm.Machine, procs: Procs, tramp: nat) returns (crashed: bool, ok: bool, q: nat, procs': Procs)
    requires m.Valid() && World(m.own, m.maps, procs) && tramp < TOPFRAME
    modifies m
    ensures m.Valid() && World(m.own, m.maps, procs') && (ok ==> q in procs')
    ensures (ok <==> |old(m.free)| >= 4) && (crashed <==> |old(m.free)| == 1)
    ensures ok ==> q !in procs && procs' == procs[q := procs'[q]] && procs'[q].sz == 0
    ensures ok ==> Begun(old(m.own), m.own, q, procs'[q].trap) && OnlyHigh(m.own, q) && |m.free| == |old(m.free)| - 4
    ensures !ok ==> procs' == procs
    ensures !ok && !crashed ==> Leaked(old(m.own), m.own) && |m.free| == if old(m.free) == [] then 0 else 2
    ensures !crashed ==> UserKept(old(m.mem), old(m.own), m.mem) && MapsKept(old(m.maps), m.maps)
  {
    crashed, ok, q, procs' := false, false, 0, procs;
    var none, trap := NewTrap(m, procs);
    if none { return; }
    crashed, ok, q, procs' := NewProcess(m, procs, tramp, trap, old(m.mem), old(m.own));
  }

  /** The first n pages of p and of q: same flags and bytes, different frames. */
  ghost predicate SameMemory(mem: Mem, maps: Maps, p: nat, q: nat, n: nat) {
    forall v {:trigger Item(maps, q, v)} | 0 <= v < n ::
      var d, e := Item(maps, p, v), Item(maps, q, v);
      && d.Pte? && e.Pte? && d.flags == e.flags && d.frame != e.frame && d.frame in mem && e.frame in mem
      && mem[d.frame] == mem[e.frame]
  }

  lemma CopiedMemory(s: View, t: View, p: nat, q: nat, n: nat)
    requires Space(s.own, s.maps, p, n) && p != q && s.mem.Keys == s.own.Keys && SpaceHas(s, p, n)
    requires Allotted(s, t, q, 0, Copies(s, p, n))
    ensures SameMemory(t.mem, t.maps, p, q, n)
  {
    forall v | 0 <= v < n
      ensures var d, e := Item(t.maps, p, v), Item(t.maps, q, v);
        && d.Pte? && e.Pte? && d.flags == e.flags && d.frame != e.frame && d.frame in t.mem && e.frame in t.mem
        && t.mem[d.frame] == t.mem[e.frame]
    {
      OriginalStays(s, t, p, q, n, v, Copies(s, p, n));
      assert AllotAt(s, t, q, 0, Copies(s, p, n), v) by { assert Item(t.maps, q, v) == Item(t.maps, q, v); }
    }
  }

  lemma CopiedWorld(s: View, t: View, procs: Procs, p: nat, q: nat, n: nat)
    requires World(s.own, s.maps, procs) && p in procs && q in procs && p != q && s.mem.Keys == s.own.Keys
    requires n == Pages(procs[p].sz) && procs[p].sz <= USERTOP * PGSIZE && Space(s.own, s.maps, p, n)
    requires SpaceHas(s, p, n)
    requires Allotted(s, t, q, 0, Copies(s, p, n)) && Space(t.own, t.maps, q, n)
    ensures World(t.own, t.maps, Resized(procs, q, procs[p].sz)) && SameMemory(t.mem, t.maps, p, q, n)
  {
    GrownWorld(s, t, procs, q, 0, Copies(s, p, n), procs[p].sz);
    CopiedMemory(s, t, p, q, n);
  }

  lemma UncopiedWorld(s: View, t: View, procs: Procs, q: nat)
    requires World(s.own, s.maps, procs) && q in procs && procs[q].sz == 0
    requires Allotted(s, t, q, 0, []) && Space(t.own, t.maps, q, 0)
    ensures World(t.own, t.maps, procs)
  {
    PagesOf(0);
    GrownWorld(s, t, procs, q, 0, [], 0);
    assert Resized(procs, q, 0) == procs;
  }

  lemma CopiedShow(s: View, t: View, procs: Procs, p: nat, q: nat)
    requires World(s.own, s.maps, procs) && p in procs && q in procs && p != q && procs[q].sz == 0
    requires SpaceHas(s, p, Pages(procs[p].sz)) && Allotted(s, t, q, 0, Copies(s, p, Pages(procs[p].sz)))
    ensures OthersSame(s, procs, t, Resized(procs, q, procs[p].sz), q)
    ensures Holds(t, Resized(procs, q, procs[p].sz), q) == Holds(s, procs, p)
  {
    var n := Pages(procs[p].sz);
    assert ProcOk(s.own, s.maps, procs, q);
    PagesOf(0);
    ShowCopies(s, p, n);
    ShowAllotted(s, t, q, 0, Copies(s, p, n));
    assert Show(s, q, 0) + Copies(s, p, n) == Copies(s, p, n);
    AllottedOthers(s, t, procs, q, 0, Copies(s, p, n), procs[p].sz);
  }

  lemma SameTrans(s: View, p0: Procs, t: View, p1: Procs, u: View, p2: Procs, r: nat)
    requires OthersSame(s, p0, t, p1, r) && OthersSame(t, p1, u, p2, r)
    ensures OthersSame(s, p0, u, p2, r)
  {
    forall q | q in p0 && q != r
      ensures Same(s, p0, u, p2, q)
    {
      assert Same(s, p0, t, p1, q) && Same(t, p1, u, p2, q);
    }
  }

  lemma UncopiedShow(s: View, t: View, u: View, procs: Procs, q: nat)
    requires World(s.own, s.maps, procs) && q in procs && procs[q].sz == 0 && Allotted(s, t, q, 0, [])
    requires OthersSame(t, procs, u, Others(procs, q), q)
    ensures OthersSame(s, procs, u, Others(procs, q), q)
  {
    AllottedOthers(s, t, procs, q, 0, [], 0);
    assert Resized(procs, q, 0) == procs;
    SameTrans(s, procs, t, procs, u, Others(procs, q), q);
  }

  /** uvmcopy into the empty process q that was begun when frames were owned as own0, and freeproc of q when
      that fails. */
  method CopyProcess(m: Vm.Machine, procs: Procs, p: nat, q: nat, ghost own0: Owners) returns (ok: bool, procs': Procs)
    requires m.Valid() && World(m.own, m.maps, procs) && p in procs && q in procs && p != q && procs[q].sz == 0
    requires Begun(own0, m.own, q, procs[q].trap) && OnlyHigh(m.own, q)
    modifies m
    ensures m.Valid() && World(m.own, m.maps, procs')
    ensures ok <==> Need(Pages(procs[p].sz)) <= |old(m.free)|
    ensures ok ==> |m.free| + Need(Pages(procs[p].sz)) == |old(m.free)|
    ensures ok ==> procs' == Resized(procs, q, procs[p].sz) && SameMemory(m.mem, m.maps, p, q, Pages(procs[p].sz))
    ensures ok ==> HeldFrames(m.own) == HeldFrames(old(m.own))
    ensures !ok ==> procs' == Others(procs, q) && m.own == own0
    ensures OthersSame(old(m.Now()), procs, m.Now(), procs', q)
    ensures ok ==> Holds(m.Now(), procs', q) == Holds(old(m.Now()), procs, p)
  {
    assert ProcOk(m.own, m.maps, procs, p) && ProcOk(m.own, m.maps, procs, q);
    PagesOf(0);
    ghost var s := m.Now();
    CostIs(m.own, q, Pages(procs[p].sz));
    ok := m.Uvmcopy(p, q, procs[p].sz);
    ghost var t, head := m.Now(), m.head;
    if ok {
      CopiedWorld(s, t, procs, p, q, Pages(procs[p].sz));
      AllottedHeld(s, t, q, 0, Copies(s, p, Pages(procs[p].sz)));
      CopiedShow(s, t, procs, p, q);
      procs' := Resized(procs, q, procs[p].sz);
    } else {
      UncopiedWorld(s, t, procs, q);
      procs' := Freeproc(m, procs, q);
      UncopiedShow(s, t, m.Now(), procs, q);
      Undone(own0, s, t, q, procs[q].trap, Linked(t.mem, procs[q].trap, head), m.mem, m.own);
    }
  }

  lemma Joined(procs: Procs, q: nat, x: Proc, sz: nat)
    requires q !in procs
    ensures Others(procs[q := x], q) == procs && Resized(procs[q := x], q, sz) == procs[q := x.(sz := sz)]
  {
  }

  lemma ForkedShow(s: View, p0: Procs, t: View, p1: Procs, u: View, p2: Procs, p: nat, q: nat)
    requires q !in p0 && p in p0 && OthersSame(s, p0, t, p1, q) && OthersSame(t, p1, u, p2, q)
    ensures AllKept(s, p0, u, p2) && Holds(t, p1, p) == Holds(s, p0, p)
  {
    SameTrans(s, p0, t, p1, u, p2, q);
    forall r | r in p0
      ensures Same(s, p0, u, p2, r)
    {
    }
    assert Same(s, p0, t, p1, p);
  }

  /**
    * The memory part of fork.  Success gives the child the same size, pages, flags and bytes on frames of its
    * own.  It takes a trapframe and three tables, and what uvmcopy needs; fork succeeds exactly when so many
    * pages are free.  Failure leaves the processes as they were, and every frame where it was if four pages were free;
    * with three one page is lost, and with one the kernel crashes.
    */
  method Fork(m: Vm.Machine, procs: Procs, p: nat, tramp: nat) returns (crashed: bool, ok: bool, q: nat, procs': Procs)
    requires m.Valid() && World(m.own, m.maps, procs) && p in procs && tramp < TOPFRAME
    modifies m
    ensures m.Valid() && World(m.own, m.maps, procs') && (ok ==> q in procs') && (crashed <==> |old(m.free)| == 1)
    ensures ok ==> q !in procs && procs' == procs[q := procs'[q]] && procs'[q].sz == procs[p].sz
    ensures ok <==> |old(m.free)| >= 4 + Need(Pages(procs[p].sz))
    ensures ok ==> |m.free| == |old(m.free)| - 4 - Need(Pages(procs[p].sz))
    ensures ok ==> SameMemory(m.mem, m.maps, p, q, Pages(procs[p].sz))
    ensures ok ==>
      HeldFrames(m.own) == HeldFrames(old(m.own)) + {procs'[q].trap} && procs'[q].trap !in HeldFrames(old(m.own))
    ensures !ok ==> procs' == procs
    ensures !ok && |old(m.free)| >= 4 ==> m.own == old(m.own)
    ensures !ok && !crashed && |old(m.free)| < 4 ==>
      Leaked(old(m.own), m.own) && |m.free| == if old(m.free) == [] then 0 else 2
    ensures !crashed ==> AllKept(old(m.Now()), procs, m.Now(), procs')
    ensures ok ==> Holds(m.Now(), procs', q) == Holds(old(m.Now()), procs, p)
  {
    crashed, ok, q, procs' := Allocproc(m, procs, tramp);
    if ok {
      BegunHeld(old(m.own), m.own, q, procs'[q].trap);
      Joined(procs, q, procs'[q], procs[p].sz);
      ghost var t, procs1 := m.Now(), procs';
      NoneTouched(old(m.Now()), procs, t, procs1, q);
      ok, procs' := CopyProcess(m, procs', p, q, old(m.own));
      ForkedShow(old(m.Now()), procs, t, procs1, m.Now(), procs', p, q);
    } else if !crashed {
      NoneTouched(old(m.Now()), procs, m.Now(), procs, q);
    }
  }

  // ---------------------------------------------------------------- any run

  /** kinit: the whole pages between the end of the kernel and the top of memory are free, and there is no process. */
  method Boot(ram: Mem, end: nat, top: nat) returns (m: Vm.Machine)
    requires (forall f :: f in ram <==> PgRoundUp(end) / PGSIZE <= f < top / PGSIZE) && |ram.Keys| <= NRAM
    requires 0 < end && end + PGSIZE <= WORD && top / PGSIZE <= NFRAME
    ensures fresh(m) && m.Valid() && World(m.own, m.maps, map[]) && Accounted(m.own, map[], {})
    ensures m.own.Keys == ram.Keys && (forall f | f in ram :: m.own[f].Free?) && |m.free| == |ram.Keys|
  {
    assert PgRoundUp(end) / PGSIZE > 0;
    m := new Vm.Machine(ram);
    m.Freerange(end, top, PgRoundUp(end) / PGSIZE, top / PGSIZE);
    assert FreeFrames(m.own) == ram.Keys && HeldFrames(m.own) == {};
    FreeCount(m.mem, m.own, m.head, m.free);
    ghost var none: Procs := map[];
    assert Traps(none) == {};
  }

  datatype Op = Birth | Sbrk(r: nat, n: int) | Spawn(r: nat) | Exit(r: nat) | Store(r: nat, va: nat, data: seq<byte>)

  /** What came of it; an operation on a process that does not exist, or with a number no int holds, is skipped. */
  datatype Outcome = Skipped | Done | Failed | Crashed

  /** The operations that begin a process. */
  predicate Begins(op: Op, procs: Procs) {
    op.Birth? || (op.Spawn? && op.r in procs)
  }

  /** One more process, of this size. */
  ghost predicate Joins(procs: Procs, procs': Procs, sz: nat) {
    exists q :: q !in procs && q in procs' && procs' == procs[q := procs'[q]] && procs'[q].sz == sz
  }

  /** What an operation does to the sizes of the processes. */
  ghost predicate Moves(procs: Procs, op: Op, out: Outcome, procs': Procs) {
    if out == Skipped || out == Crashed then procs' == procs else
      match op
      case Birth => if out == Done then Joins(procs, procs', 0) else procs' == procs
      case Spawn(r) => r in procs && if out == Done then Joins(procs, procs', procs[r].sz) else procs' == procs
      case Exit(r) => r in procs && out == Done && procs' == Others(procs, r)
      case Store(r, _, _) => r in procs && procs' == procs
      case Sbrk(r, n) =>
        && r in procs && r in procs' && procs' == Resized(procs, r, procs'[r].sz)
        && (n == 0 ==> procs' == procs) && (out == Failed <==> n > 0 && procs'[r].sz == 0)
        && (n < 0 ==> procs'[r].sz == if procs[r].sz + n >= 0 then procs[r].sz + n else procs[r].sz)
        && (n > 0 ==> procs'[r].sz <= GrownSize(procs[r].sz, n))
  }

  /** When an operation succeeds, and the free pages it takes: allocproc takes four, fork those and what the
      copy needs.  Growth falls short only with at most one page left, and what fails gives back what it took. */
  ghost predicate Affords(procs: Procs, free: nat, op: Op, out: Outcome, procs': Procs, free': nat) {
    match op
    case Birth => (out == Done <==> free >= 4) && (out == Done ==> free' == free - 4)
    case Spawn(r) =>
      r in procs ==>
        && (out == Done <==> free >= 4 + Need(Pages(procs[r].sz)))
        && (out == Done ==> free' == free - 4 - Need(Pages(procs[r].sz)))
        && (out == Failed && free >= 4 ==> free' == free)
    case Sbrk(r, n) =>
      r in procs && r in procs' && n > 0 && out != Skipped ==>
        procs'[r].sz == GrownSize(procs[r].sz, n) || free' <= 1
    case _ => true
  }

  /** What an operation does to the memory of the processes. */
  ghost predicate Alters(s: View, procs: Procs, op: Op, out: Outcome, t: View, procs': Procs) {
    if out == Skipped || op.Birth? then AllKept(s, procs, t, procs') else
      match op
      case Spawn(r) =>
        && AllKept(s, procs, t, procs')
        && forall q {:trigger Holds(t, procs', q)} | q in procs' && q !in procs ::
             Holds(t, procs', q) == Holds(s, procs, r)
      case Exit(r) => OthersSame(s, procs, t, procs', r)
      case Sbrk(r, _) => Regrown(s, procs, t, procs', r)
      case Store(r, va, data) => procs' == procs && Restored(s, procs, t, r, va, data, out == Done)
  }

  lemma TrapsOf(procs: Procs, r: nat)
    requires r in procs && TrapsApart(procs)
    ensures Traps(Others(procs, r)) == Traps(procs) - {procs[r].trap} && procs[r].trap in Traps(procs)
    ensures forall sz: nat :: Traps(Resized(procs, r, sz)) == Traps(procs)
  {
    forall t
      ensures t in Traps(Others(procs, r)) <==> t in Traps(procs) && t != procs[r].trap
    {
      if t in Traps(procs) && t != procs[r].trap {
        var q :| q in procs && procs[q].trap == t;
        assert q in Others(procs, r) && Others(procs, r)[q].trap == t;
      }
    }
    forall sz: nat
      ensures Traps(Resized(procs, r, sz)) == Traps(procs)
    {
      forall t
        ensures t in Traps(Resized(procs, r, sz)) <==> t in Traps(procs)
      {
        if t in Traps(procs) {
          var q :| q in procs && procs[q].trap == t;
          assert Resized(procs, r, sz)[q].trap == t;
        }
      }
    }
  }

  lemma TrapsJoin(procs: Procs, q: nat, x: Proc)
    requires q !in procs
    ensures Traps(procs[q := x]) == Traps(procs) + {x.trap}
  {
    forall t
      ensures t in Traps(procs[q := x]) <==> t in Traps(procs) || t == x.trap
    {
      if t in Traps(procs) {
        var r :| r in procs && procs[r].trap == t;
        assert procs[q := x][r].trap == t;
      }
      if t == x.trap { assert procs[q := x][q].trap == t; }
    }
  }

  lemma JoinAccounted(own: Owners, procs: Procs, lost: set<nat>, own': Owners, q: nat, x: Proc)
    requires Accounted(own, procs, lost) && q !in procs
    requires HeldFrames(own') == HeldFrames(own) + {x.trap} && x.trap !in HeldFrames(own)
    ensures Accounted(own', procs[q := x], lost)
  {
    TrapsJoin(procs, q, x);
  }

  lemma LeakAccounted(own: Owners, procs: Procs, lost: set<nat>, own': Owners)
    requires Accounted(own, procs, lost) && Leaked(own, own')
    ensures Accounted(own', procs, lost + Gone(own, own')) && |lost + Gone(own, own')| == |lost| + |Gone(own, own')|
  {
    LeakedHeld(own, own');
  }

  /** A step adds one frame to the lost ones if it begins a process with three pages free, and else none. */
  ghost predicate Tallied(lost: set<nat>, lost': set<nat>, begins: bool, free: nat) {
    lost <= lost' && |lost'| == |lost| + if begins && free == 3 then 1 else 0
  }

  /** A process fails to begin. */
  lemma FailTallied(m0: Mem, o0: Owners, h0: nat, f0: seq<nat>, m1: Mem, o1: Owners, h1: nat, f1: seq<nat>,
                    procs: Procs, lost: set<nat>)
    requires List(m0, o0, h0, f0) && List(m1, o1, h1, f1) && Leaked(o0, o1) && Accounted(o0, procs, lost)
    requires |f0| != 1 && if |f0| >= 4 then o1 == o0 else |f1| == if f0 == [] then 0 else 2
    ensures Accounted(o1, procs, lost + Gone(o0, o1)) && Tallied(lost, lost + Gone(o0, o1), true, |f0|)
  {
    LeakAccounted(o0, procs, lost, o1);
    GoneCount(m0, o0, h0, f0, m1, o1, h1, f1);
    if |f0| >= 4 { NothingGone(o0); }
  }

  lemma BirthTallied(m0: Mem, o0: Owners, h0: nat, f0: seq<nat>, m1: Mem, o1: Owners, h1: nat, f1: seq<nat>,
                     procs: Procs, procs': Procs, ok: bool, q: nat, lost: set<nat>) returns (lost': set<nat>)
    requires List(m0, o0, h0, f0) && List(m1, o1, h1, f1) && Accounted(o0, procs, lost) && |f0| != 1
    requires if ok
             then |f0| >= 4 && q in procs' && q !in procs && procs' == procs[q := procs'[q]]
                  && Begun(o0, o1, q, procs'[q].trap)
             else |f0| < 4 && procs' == procs && Leaked(o0, o1) && |f1| == if f0 == [] then 0 else 2
    ensures Accounted(o1, procs', lost') && Tallied(lost, lost', true, |f0|)
  {
    if ok {
      BegunHeld(o0, o1, q, procs'[q].trap);
      JoinAccounted(o0, procs, lost, o1, q, procs'[q]);
      lost' := lost;
    } else {
      FailTallied(m0, o0, h0, f0, m1, o1, h1, f1, procs, lost);
      lost' := lost + Gone(o0, o1);
    }
  }

  lemma SizesJoin(procs: Procs, q: nat, x: Proc)
    requires q !in procs
    ensures SizesKept(procs, procs[q := x])
  {
  }

  method StepBirth(m: Vm.Machine, procs: Procs, tramp: nat, ghost lost: set<nat>)
    returns (out: Outcome, procs': Procs, ghost lost': set<nat>)
    requires m.Valid() && World(m.own, m.maps, procs) && Accounted(m.own, procs, lost) && tramp < TOPFRAME
    modifies m
    ensures m.Valid() && (out == Crashed <==> |old(m.free)| == 1) && out != Skipped
    ensures if out == Done then Joins(procs, procs', 0) else procs' == procs
    ensures (out == Done <==> |old(m.free)| >= 4) && (out == Done ==> |m.free| == |old(m.free)| - 4)
    ensures out != Crashed ==> m.own.Keys == old(m.own).Keys
    ensures out != Crashed ==>
      World(m.own, m.maps, procs') && Accounted(m.own, procs', lost') && Tallied(lost, lost', true, |old(m.free)|)
    ensures out != Crashed ==> AllKept(old(m.Now()), procs, m.Now(), procs')
  {
    lost' := lost;
    var crashed, ok, q;
    crashed, ok, q, procs' := Allocproc(m, procs, tramp);
    if crashed { return Crashed, procs, lost; }
    if ok {
      SizesJoin(procs, q, procs'[q]);
      NoneTouched(old(m.Now()), procs, m.Now(), procs', q);
    } else {
      NoneTouched(old(m.Now()), procs, m.Now(), procs, q);
    }
    out := if ok then Done else Failed;
    lost' := BirthTallied(old(m.mem), old(m.own), old(m.head), old(m.free), m.mem, m.own, m.head, m.free, procs, procs',
                          ok, q, lost);
  }

  method StepSpawn(m: Vm.Machine, procs: Procs, tramp: nat, r: nat, ghost lost: set<nat>)
    returns (out: Outcome, procs': Procs, ghost lost': set<nat>)
    requires m.Valid() && World(m.own, m.maps, procs) && Accounted(m.own, procs, lost) && tramp < TOPFRAME && r in procs
    modifies m
    ensures m.Valid() && (out == Crashed <==> |old(m.free)| == 1) && out != Skipped
    ensures Moves(procs, Spawn(r), out, procs') && Affords(procs, |old(m.free)|, Spawn(r), out, procs', |m.free|)
    ensures out != Crashed ==> Alters(old(m.Now()), procs, Spawn(r), out, m.Now(), procs')
    ensures out != Crashed ==>
      World(m.own, m.maps, procs') && Accounted(m.own, procs', lost') && Tallied(lost, lost', true, |old(m.free)|)
  {
    lost' := lost;
    var crashed, ok, q;
    crashed, ok, q, procs' := Fork(m, procs, r, tramp);
    out := if crashed then Crashed else if ok then Done else Failed;
    if ok {
      JoinAccounted(old(m.own), procs, lost, m.own, q, procs'[q]);
    } else if !crashed {
      NothingGone(m.own);
      FreeCount(old(m.mem), old(m.own), old(m.head), old(m.free));
      FreeCount(m.mem, m.own, m.head, m.free);
      FailTallied(old(m.mem), old(m.own), old(m.head), old(m.free), m.mem, m.own, m.head, m.free, procs, lost);
      lost' := lost + Gone(old(m.own), m.own);
    }
  }

  method StepSbrk(m: Vm.Machine, procs: Procs, r: nat, n: int, ghost lost: set<nat>)
    returns (out: Outcome, procs': Procs)
    requires m.Valid() && World(m.own, m.maps, procs) && Accounted(m.own, procs, lost) && r in procs
    requires -0x8000_0000 <= n < 0x8000_0000
    modifies m
    ensures m.Valid() && World(m.own, m.maps, procs') && Accounted(m.own, procs', lost)
    ensures (out == Done || out == Failed) && Moves(procs, Sbrk(r, n), out, procs')
    ensures Affords(procs, |old(m.free)|, Sbrk(r, n), out, procs', |m.free|)
    ensures Regrown(old(m.Now()), procs, m.Now(), procs', r)
  {
    TrapsOf(procs, r);
    var ret;
    ret, procs' := Growproc(m, procs, r, n);
    out := if ret == -1 then Failed else Done;
  }

  method StepExit(m: Vm.Machine, procs: Procs, r: nat, ghost lost: set<nat>) returns (procs': Procs)
    requires m.Valid() && World(m.own, m.maps, procs) && Accounted(m.own, procs, lost) && r in procs
    modifies m
    ensures m.Valid() && World(m.own, m.maps, procs') && Accounted(m.own, procs', lost) && procs' == Others(procs, r)
    ensures OthersSame(old(m.Now()), procs, m.Now(), procs', r)
  {
    ghost var t := procs[r].trap;
    TrapsOf(procs, r);
    assert ProcOk(m.own, m.maps, procs, r);
    procs' := Freeproc(m, procs, r);
    ReleasedHeld(Linked(old(m.mem), t, old(m.head)), old(m.own), m.mem, m.own, r, t);
  }

  /** The bytes of data are in r's memory as far as the user can reach, and nobody else's memory is changed. */
  ghost predicate Restored(s: View, procs: Procs, t: View, r: nat, va: nat, data: seq<byte>, ok: bool) {
    var ims := Holds(s, procs, r);
    && OthersSame(s, procs, t, procs, r) && Holds(t, procs, r) == PutAll(ims, va, data[..Span(ims, va, |data|)])
    && (ok <==> Span(ims, va, |data|) == |data|)
  }

  lemma StoredMemory(s: View, t: View, procs: Procs, r: nat, va: nat, data: seq<byte>)
    requires World(s.own, s.maps, procs) && r in procs && va < WORD && s.mem.Keys == s.own.Keys
    requires t == s.(mem := PokeAll(s.mem, s.maps, r, va, data[..Reach(s.maps, r, va, |data|)]))
    ensures Restored(s, procs, t, r, va, data, Reach(s.maps, r, va, |data|) == |data|)
  {
    var n, ims := Pages(procs[r].sz), Holds(s, procs, r);
    assert ProcOk(s.own, s.maps, procs, r);
    SpanIs(s, r, n, va, |data|);
    var src := data[..Span(ims, va, |data|)];
    forall j: nat | j < |src|
      ensures PageOf(Plus(va, j)) < n
    {
      SpanStep(ims, va, |data|, j);
    }
    PokeAllShow(s, r, n, va, src, r, n);
    forall q | q in procs && q != r
      ensures Same(s, procs, t, procs, q)
    {
      assert ProcOk(s.own, s.maps, procs, q);
      PokeAllShow(s, r, n, va, src, q, Pages(procs[q].sz));
    }
  }

  /** A store by the kernel into r leaves every process as it should be. */
  method StoreInto(m: Vm.Machine, ghost procs: Procs, r: nat, va: nat, data: seq<byte>) returns (ok: bool)
    requires m.Valid() && World(m.own, m.maps, procs) && r in procs && va < WORD
    modifies m
    ensures m.Valid() && World(m.own, m.maps, procs) && m.own == old(m.own) && m.maps == old(m.maps)
    ensures ok <==> Reach(m.maps, r, va, |data|) == |data|
    ensures m.mem == PokeAll(old(m.mem), m.maps, r, va, data[..Reach(m.maps, r, va, |data|)])
    ensures Restored(old(m.Now()), procs, m.Now(), r, va, data, ok)
  {
    assert ProcOk(m.own, m.maps, procs, r);
    OnlyOwnPages(m.own, m.maps, r, Pages(procs[r].sz));
    ok := m.Copyout(r, va, data);
    StoredMemory(old(m.Now()), m.Now(), procs, r, va, data);
  }

  method Step(m: Vm.Machine, procs: Procs, tramp: nat, op: Op, ghost lost: set<nat>)
    returns (out: Outcome, procs': Procs, ghost lost': set<nat>)
    requires m.Valid() && World(m.own, m.maps, procs) && Accounted(m.own, procs, lost) && tramp < TOPFRAME
    modifies m
    ensures m.Valid() && (out == Crashed <==> Begins(op, procs) && |old(m.free)| == 1) && Moves(procs, op, out, procs')
    ensures Affords(procs, |old(m.free)|, op, out, procs', |m.free|)
    ensures out == Skipped <==>
      && !op.Birth?
      && (op.r !in procs || (op.Sbrk? && !(-0x8000_0000 <= op.n < 0x8000_0000)) || (op.Store? && op.va >= WORD))
    ensures out != Crashed ==> World(m.own, m.maps, procs') && Accounted(m.own, procs', lost')
    ensures out != Crashed ==> Tallied(lost, lost', Begins(op, procs), |old(m.free)|)
    ensures out != Crashed ==> Alters(old(m.Now()), procs, op, out, m.Now(), procs')
  {
    out, procs', lost' := Skipped, procs, lost;
    match op
    case Birth => out, procs', lost' := StepBirth(m, procs, tramp, lost);
    case Sbrk(r, n) =>
      if r in procs && -0x8000_0000 <= n < 0x8000_0000 { out, procs' := StepSbrk(m, procs, r, n, lost); }
    case Spawn(r) =>
      if r in procs { out, procs', lost' := StepSpawn(m, procs, tramp, r, lost); }
    case Exit(r) =>
      if r in procs {
        procs' := StepExit(m, procs, r, lost);
        out := Done;
      }
    case Store(r, va, data) =>
      if r in procs && va < WORD {
        var ok := StoreInto(m, procs, r, va, data);
        out := if ok then Done else Failed;
      }
  }

  type Memory = map<nat, seq<Image>>

  /** The processes and their memory, the number of free pages and the lost frames between two steps. */
  datatype Mark = Mark(procs: Procs, memory: Memory, free: nat, lost: set<nat>)

  ghost function MemoryOf(s: View, procs: Procs): Memory {
    map q | q in procs :: Holds(s, procs, q)
  }

  ghost predicate Stays(from: Memory, to: Memory, q: nat) {
    q in from && q in to && to[q] == from[q]
  }

  /** The memory of each process before and after: all is kept but what the operation is about.  A new process is
      empty or a copy of its parent, growth adds zeros, a store changes the bytes it reaches. */
  ghost predicate Changes(from: Mark, op: Op, out: Outcome, to: Mark) {
    var mem, mem' := from.memory, to.memory;
    && (forall q {:trigger Stays(mem, mem', q)}
          | q in from.procs && (out == Skipped || op.Birth? || op.Spawn? || q != op.r) ::
          Stays(mem, mem', q))
    && (forall q {:trigger mem'[q]} | q in to.procs && q !in from.procs ::
          q in mem' && (op.Birth? ==> mem'[q] == []) && (op.Spawn? ==> op.r in mem && mem'[q] == mem[op.r]))
    && (op.Sbrk? && out != Skipped ==>
          op.r in mem && op.r in mem' && op.r in to.procs && mem'[op.r] == Cut(mem[op.r], Pages(to.procs[op.r].sz)))
    && (op.Store? && out != Skipped ==>
          && op.r in mem && op.r in mem'
          && var span := Span(mem[op.r], op.va, |op.data|);
          mem'[op.r] == PutAll(mem[op.r], op.va, op.data[..span]) && (out == Done <==> span == |op.data|))
  }

  lemma Altered(s: View, procs: Procs, op: Op, out: Outcome, t: View, procs': Procs, from: Mark, to: Mark)
    requires Alters(s, procs, op, out, t, procs') && Moves(procs, op, out, procs') && out != Crashed
    requires from.procs == procs && from.memory == MemoryOf(s, procs) && to.procs == procs'
    requires to.memory == MemoryOf(t, procs')
    ensures Changes(from, op, out, to)
  {
    forall q | q in procs && (out == Skipped || op.Birth? || op.Spawn? || q != op.r)
      ensures Stays(from.memory, to.memory, q)
    {
      assert Same(s, procs, t, procs', q);
    }
    PagesOf(0);
  }

  /** A step of a run: what it does to the processes, when it succeeds, when it crashes and when it loses a page. */
  ghost predicate StepOk(from: Mark, op: Op, out: Outcome, to: Mark) {
    && Affords(from.procs, from.free, op, out, to.procs, to.free)
    && Moves(from.procs, op, out, to.procs) && (out == Crashed <==> Begins(op, from.procs) && from.free == 1)
    && (out != Crashed ==> Tallied(from.lost, to.lost, Begins(op, from.procs), from.free) && Changes(from, op, out, to))
  }

  ghost predicate Trail(marks: seq<Mark>, ops: seq<Op>, outs: seq<Outcome>) {
    |marks| == |outs| + 1 <= |ops| + 1 && forall i | 0 <= i < |outs| :: StepOk(marks[i], ops[i], outs[i], marks[i + 1])
  }

  lemma TrailNext(marks: seq<Mark>, ops: seq<Op>, outs: seq<Outcome>, out: Outcome, to: Mark)
    requires Trail(marks, ops, outs) && |outs| < |ops| && StepOk(marks[|outs|], ops[|outs|], out, to)
    ensures Trail(marks + [to], ops, outs + [out])
  {
  }

  ghost function MarkOf(m: Vm.Machine, procs: Procs, lost: set<nat>): Mark
    reads m
  {
    Mark(procs, MemoryOf(m.Now(), procs), |m.free|, lost)
  }

  method MarkedStep(m: Vm.Machine, procs: Procs, tramp: nat, op: Op, ghost lost: set<nat>)
    returns (out: Outcome, procs': Procs, ghost lost': set<nat>)
    requires m.Valid() && World(m.own, m.maps, procs) && Accounted(m.own, procs, lost) && tramp < TOPFRAME
    modifies m
    ensures m.Valid() && StepOk(old(MarkOf(m, procs, lost)), op, out, MarkOf(m, procs', lost'))
    ensures out != Crashed ==> World(m.own, m.maps, procs') && Accounted(m.own, procs', lost')
  {
    out, procs', lost' := Step(m, procs, tramp, op, lost);
    if out != Crashed {
      Altered(old(m.Now()), procs, op, out, m.Now(), procs', old(MarkOf(m, procs, lost)), MarkOf(m, procs', lost'));
    }
  }

  /**
    * Any sequence of allocproc, growproc, fork, freeproc and copyout over any processes, in any state of
    * memory, until a step crashes: after every step each process has exactly the pages of its size, each on a
    * frame of its own, and a frame that is neither free nor part of a process was lost by a step that began a
    * process with three pages free.
    */
  method Run(m: Vm.Machine, start: Procs, tramp: nat, ops: seq<Op>, ghost lost0: set<nat>)
    returns (outs: seq<Outcome>, procs: Procs, ghost lost: set<nat>, ghost marks: seq<Mark>)
    requires m.Valid() && World(m.own, m.maps, start) && Accounted(m.own, start, lost0) && tramp < TOPFRAME
    modifies m
    ensures m.Valid() && Trail(marks, ops, outs)
    ensures marks[0] == Mark(start, old(MemoryOf(m.Now(), start)), |old(m.free)|, lost0)
    ensures |outs| == |ops| || (outs != [] && outs[|outs| - 1] == Crashed)
    ensures Crashed !in outs ==>
      marks[|outs|] == MarkOf(m, procs, lost) && World(m.own, m.maps, procs) && Accounted(m.own, procs, lost)
  {
    outs, procs, lost, marks := [], start, lost0, [MarkOf(m, start, lost0)];
    for i := 0 to |ops|
      invariant m.Valid() && World(m.own, m.maps, procs) && Accounted(m.own, procs, lost)
      invariant |outs| == i && Crashed !in outs && Trail(marks, ops, outs)
      invariant marks[0] == old(MarkOf(m, start, lost0)) && marks[i] == MarkOf(m, procs, lost)
    {
      var out;
      out, procs, lost := MarkedStep(m, procs, tramp, ops[i], lost);
      TrailNext(marks, ops, outs, out, MarkOf(m, procs, lost));
      outs, marks := outs + [out], marks + [MarkOf(m, procs, lost)];
      if out == Crashed { return; }
    }
  }

  // ---------------------------------------------------------------- the two failures, at their inputs

  /** n pages of zeros. */
  function Ram(n: nat): (ram: Mem)
    ensures forall f :: f in ram <==> 1 <= f <= n
    ensures |ram.Keys| == n
  {
    if n == 0 then map[] else
      var rest := Ram(n - 1);
      assert rest[n := Zeros(PGSIZE)].Keys == rest.Keys + {n};
      rest[n := Zeros(PGSIZE)]
  }

  /** A machine of n pages that has just booted. */
  method Booted(n: nat) returns (m: Vm.Machine)
    requires 0 < n < NRAM
    ensures fresh(m) && m.Valid() && World(m.own, m.maps, map[]) && Accounted(m.own, map[], {})
    ensures |m.free| == n && |m.own.Keys| == n
  {
    assert PgRoundUp(1) / PGSIZE == 1 && (n + 1) * PGSIZE / PGSIZE == n + 1;
    m := Boot(Ram(n), 1, (n + 1) * PGSIZE);
  }

  /** With one page free, allocproc writes through address 0. */
  method OnePage() returns (out: Outcome)
    ensures out == Crashed
  {
    var m := Booted(1);
    var procs;
    ghost var lost;
    out, procs, lost := StepBirth(m, map[], 0, {});
  }

  /** With three it fails, and of the machine's three pages two are free afterwards with no process left. */
  method ThreePages() returns (m: Vm.Machine, out: Outcome, procs: Procs)
    ensures out == Failed && procs == map[] && m.Valid() && |m.free| == 2 && |m.own.Keys| == 3
  {
    m := Booted(3);
    ghost var lost;
    out, procs, lost := StepBirth(m, map[], 0, {});
    AllBack(m.mem, m.head, m.own, m.free, m.maps, lost);
  }
}
