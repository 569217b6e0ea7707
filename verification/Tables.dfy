/**
  * How many pages of memory the tables of an address space take (kernel/vm.c: walk, mappages, uvmcopy).
  * A table is named by its path; a page needs the two tables on its way, and the first page that needs a
  * table pays for it.
  */
module Tables {
  import opened Common
  import opened Paging
  import opened VmState

  /** Address space r has a table at this path. */
  ghost predicate TableAt(own: Owners, r: nat, p: Path) {
    exists f :: IsTable(own, f) && own[f].root == r && own[f].path == p
  }

  /** The walk to page v passes the table at p, below the root. */
  predicate Serves(v: nat, p: Path) {
    p == Mid(Hi(v)) || p == Bottom(Hi(v), Md(v))
  }

  /** Some page below n needs the table at p. */
  ghost predicate Used(n: nat, p: Path) {
    exists w: nat :: w < n && Serves(w, p)
  }

  /** The tables r has still to get before page v can be mapped. */
  ghost function Lacks(own: Owners, r: nat, v: nat): nat {
    (if TableAt(own, r, Mid(Hi(v))) then 0 else 1) + (if TableAt(own, r, Bottom(Hi(v), Md(v))) then 0 else 1)
  }

  lemma LacksIs(mem: Mem, own: Owners, r: nat, v: nat)
    requires Tree(mem, own) && IsRoot(own, r) && v < NPAGE
    ensures Missing(mem, r, v) == Lacks(own, r, v)
  {
    PathOk(mem, own, r, v);
    if f :| IsTable(own, f) && own[f].root == r && own[f].path == Mid(Hi(v)) {
      StepBack(mem, own, f);
      RootBack(mem, own, own[f].up);
    }
    if f :| IsTable(own, f) && own[f].root == r && own[f].path == Bottom(Hi(v), Md(v)) {
      Reached(mem, own, f, v);
    }
  }

  /** The tables of r afterwards: those of before and those on the way to page v. */
  ghost predicate Furnishes(own: Owners, own': Owners, r: nat, v: nat) {
    forall p: Path {:trigger TableAt(own', r, p)} | !p.Top? ::
      TableAt(own', r, p) <==> TableAt(own, r, p) || Serves(v, p)
  }

  /** What a walk to page v may have changed: pages have become tables on its way. */
  ghost predicate Along(own: Owners, own': Owners, r: nat, v: nat) {
    && own'.Keys == own.Keys
    && forall f {:trigger own'[f]} | f in own ::
         own'[f] == own[f] || (!own[f].Table? && own'[f].Table? && own'[f].root == r && Serves(v, own'[f].path))
  }

  lemma AlongTrans(o0: Owners, o1: Owners, o2: Owners, r: nat, v: nat)
    requires Along(o0, o1, r, v) && Along(o1, o2, r, v)
    ensures Along(o0, o2, r, v)
  {
    forall f | f in o0
      ensures o2[f] == o0[f] || (!o0[f].Table? && o2[f].Table? && o2[f].root == r && Serves(v, o2[f].path))
    {
      assert o1[f] == o0[f] || o2[f] == o1[f];
    }
  }

  lemma WalkFurnishes(mem: Mem, own: Owners, own': Owners, r: nat, v: nat, s: Slot)
    requires Tree(mem, own') && Along(own, own', r, v) && SlotOf(mem, own', r, v, s)
    ensures Furnishes(own, own', r, v)
  {
    StepBack(mem, own', s.frame);
    forall p: Path | !p.Top?
      ensures TableAt(own', r, p) <==> TableAt(own, r, p) || Serves(v, p)
    {
      if f :| IsTable(own, f) && own[f].root == r && own[f].path == p { assert own'[f] == own[f]; }
    }
  }

  /** The tables are the same, whatever has become of other frames. */
  ghost predicate SameTables(own: Owners, own': Owners) {
    forall f :: IsTable(own, f) || IsTable(own', f) ==> f in own && f in own' && own'[f] == own[f]
  }

  lemma TablesStay(own: Owners, own': Owners, r: nat)
    requires SameTables(own, own')
    ensures forall p: Path {:trigger TableAt(own', r, p)} :: TableAt(own', r, p) <==> TableAt(own, r, p)
    ensures forall v: nat :: Lacks(own', r, v) == Lacks(own, r, v)
  {
    forall p
      ensures TableAt(own', r, p) <==> TableAt(own, r, p)
    {
      if f :| IsTable(own, f) && own[f].root == r && own[f].path == p { assert IsTable(own', f); }
      if f :| IsTable(own', f) && own'[f].root == r && own'[f].path == p { assert IsTable(own, f); }
    }
  }

  lemma FurnishesBetween(o0: Owners, o1: Owners, o2: Owners, o3: Owners, r: nat, v: nat)
    requires SameTables(o0, o1) && Furnishes(o1, o2, r, v) && SameTables(o2, o3)
    ensures Furnishes(o0, o3, r, v)
  {
    TablesStay(o0, o1, r);
    TablesStay(o2, o3, r);
    forall p: Path | !p.Top?
      ensures TableAt(o3, r, p) <==> TableAt(o0, r, p) || Serves(v, p)
    {
      assert TableAt(o2, r, p) <==> TableAt(o1, r, p) || Serves(v, p);
    }
  }

  /** A free frame that is taken first, for something else than a table. */
  lemma TakenFirst(own: Owners, f: nat, r: nat, v: nat)
    requires f in own && own[f].Free?
    ensures Lacks(own[f := Held], r, v) == Lacks(own, r, v)
    ensures forall own' | Furnishes(own[f := Held], own', r, v) :: Furnishes(own, own', r, v)
  {
    TablesStay(own, own[f := Held], r);
    forall own' | Furnishes(own[f := Held], own', r, v)
      ensures Furnishes(own, own', r, v)
    {
      FurnishesBetween(own, own[f := Held], own', own', r, v);
    }
  }

  /** Page v cannot be mapped: there is no free page, or one and the table for v is missing too. */
  ghost predicate Starved(own: Owners, free: seq<nat>, r: nat, v: nat) {
    free == [] || (|free| == 1 && forall p: Path | p.Bottom? && Serves(v, p) :: !TableAt(own, r, p))
  }

  lemma NoLowTable(mem: Mem, own: Owners, r: nat, v: nat)
    requires Tree(mem, own) && IsRoot(own, r) && v < NPAGE && Low(mem, r, v).None?
    ensures !TableAt(own, r, Bottom(Hi(v), Md(v)))
  {
    forall f | IsTable(own, f)
      ensures !(own[f].root == r && own[f].path == Bottom(Hi(v), Md(v)))
    {
      if own[f].path == Bottom(Hi(v), Md(v)) { Reached(mem, own, f, v); }
    }
  }

  // ---------------------------------------------------------------- the cost of the first n pages

  /** The tables that page v is the first to need. */
  ghost function Opens(own: Owners, r: nat, v: nat): nat {
    var mid, low := Mid(Hi(v)), Bottom(Hi(v), Md(v));
    (if TableAt(own, r, mid) || Used(v, mid) then 0 else 1) + (if TableAt(own, r, low) || Used(v, low) then 0 else 1)
  }

  /** The pages of memory it takes to map n fresh pages into r, from page 0 on. */
  ghost function Cost(own: Owners, r: nat, n: nat): (c: nat)
    ensures n <= c
  {
    if n == 0 then 0 else Cost(own, r, n - 1) + 1 + Opens(own, r, n - 1)
  }

  lemma {:induction false} CostGrows(own: Owners, r: nat, m: nat, n: nat)
    requires m <= n
    ensures Cost(own, r, m) <= Cost(own, r, n)
    decreases n
  {
    if m < n { CostGrows(own, r, m, n - 1); }
  }

  /** The tables of r after its first n pages were mapped. */
  ghost predicate Stocked(own0: Owners, own: Owners, r: nat, n: nat) {
    forall p: Path {:trigger TableAt(own, r, p)} | !p.Top? :: TableAt(own, r, p) <==> TableAt(own0, r, p) || Used(n, p)
  }

  lemma StockedLacks(own0: Owners, own: Owners, r: nat, n: nat)
    requires Stocked(own0, own, r, n)
    ensures Lacks(own, r, n) == Opens(own0, r, n)
  {
  }

  lemma UsedMore(n: nat, p: Path)
    ensures Used(n + 1, p) <==> Used(n, p) || Serves(n, p)
  {
    if Used(n, p) {
      var w: nat :| w < n && Serves(w, p);
      assert w < n + 1 && Serves(w, p);
    }
  }

  lemma StockedMore(own0: Owners, own: Owners, own': Owners, r: nat, n: nat)
    requires Stocked(own0, own, r, n) && Furnishes(own, own', r, n)
    ensures Stocked(own0, own', r, n + 1)
  {
    forall p: Path | !p.Top?
      ensures TableAt(own', r, p) <==> TableAt(own0, r, p) || Used(n + 1, p)
    {
      assert TableAt(own', r, p) <==> TableAt(own, r, p) || Serves(n, p);
      assert TableAt(own, r, p) <==> TableAt(own0, r, p) || Used(n, p);
      UsedMore(n, p);
    }
  }

  /** The first v pages of r are mapped and paid for, out of total free pages of which some are left. */
  ghost predicate Paid(own0: Owners, own: Owners, r: nat, v: nat, left: nat, total: nat) {
    Stocked(own0, own, r, v) && left + Cost(own0, r, v) == total
  }

  lemma PaidNothing(own: Owners, r: nat, total: nat)
    ensures Paid(own, own, r, 0, total, total)
  {
  }

  lemma PaidMore(own0: Owners, own: Owners, own': Owners, r: nat, v: nat, left: nat, left': nat, total: nat)
    requires Paid(own0, own, r, v, left, total) && Furnishes(own, own', r, v) && left' + 1 + Lacks(own, r, v) == left
    ensures Paid(own0, own', r, v + 1, left', total)
  {
    StockedLacks(own0, own, r, v);
    StockedMore(own0, own, own', r, v);
  }

  /** What is left does not pay for page v, so the total does not pay for n pages. */
  lemma PaidOut(own0: Owners, own: Owners, r: nat, v: nat, left: nat, total: nat, n: nat)
    requires Paid(own0, own, r, v, left, total) && left < 1 + Lacks(own, r, v) && v < n
    ensures total < Cost(own0, r, n)
  {
    StockedLacks(own0, own, r, v);
    CostGrows(own0, r, v + 1, n);
  }

  // ---------------------------------------------------------------- a fresh address space

  /** r has the tables on the way to the two pages above the user's, and no others. */
  ghost predicate OnlyHigh(own: Owners, r: nat) {
    forall p: Path {:trigger TableAt(own, r, p)} | !p.Top? :: TableAt(own, r, p) <==> Serves(USERTOP, p)
  }

  /** A root that had no tables, with the pages for the trampoline and the trapframe mapped. */
  lemma FreshTables(own: Owners, o1: Owners, o2: Owners, o3: Owners, r: nat)
    requires (forall f | f in own :: !(own[f].Table? && own[f].root == r)) && o1 == own[r := Table(r, Top, r)]
    requires Furnishes(o1, o2, r, USERTOP + 1) && Furnishes(o2, o3, r, USERTOP)
    ensures OnlyHigh(o3, r)
  {
    forall p: Path | !p.Top?
      ensures TableAt(o3, r, p) <==> Serves(USERTOP, p)
    {
      assert !TableAt(o1, r, p);
      assert TableAt(o2, r, p) <==> Serves(USERTOP + 1, p);
    }
  }

  const TABLES: nat := 0x2_0000        // lowest tables of all pages, up to those above the user's
  const MIDDLES: nat := 0x100          // middle tables of them

  function Least(a: nat, b: nat): nat {
    if a < b then a else b
  }

  /** The pages of memory that n pages of a fresh address space take: one each, a table for every 512 begun, a
      table for every 262144 begun, except the two that the pages above the user's have already. */
  function Need(n: nat): nat {
    n + Least((n + 511) / 512, TABLES - 1) + Least((n + 262143) / 262144, MIDDLES - 1)
  }

  lemma FirstOfTable(v: nat)
    ensures Used(v, Mid(Hi(v))) <==> v % 262144 != 0
    ensures Used(v, Bottom(Hi(v), Md(v))) <==> v % 512 != 0
  {
    Compose(v);
    if v % 512 != 0 {
      assert (v - 1) / 512 == v / 512;
      assert v - 1 < v && Serves(v - 1, Bottom(Hi(v), Md(v)));
    }
    if v % 262144 != 0 {
      assert (v - 1) / 262144 == v / 262144;
      assert v - 1 < v && Serves(v - 1, Mid(Hi(v)));
    }
    forall w: nat | w < v
      ensures Serves(w, Mid(Hi(v))) ==> v % 262144 != 0
      ensures Serves(w, Bottom(Hi(v), Md(v))) ==> v % 512 != 0
    {
      Compose(w);
    }
  }

  lemma HighTables(v: nat)
    requires v < USERTOP
    ensures Hi(v) == Hi(USERTOP) <==> v / 262144 == MIDDLES - 1
    ensures Hi(v) == Hi(USERTOP) && Md(v) == Md(USERTOP) <==> v / 512 == TABLES - 1
    ensures v / 262144 < MIDDLES && v / 512 < TABLES
  {
  }

  lemma Rows(v: nat)
    ensures (v + 512) / 512 == v / 512 + 1 && (v + 511) / 512 == v / 512 + if v % 512 == 0 then 0 else 1
  {
  }

  lemma Blocks(v: nat)
    ensures (v + 262144) / 262144 == v / 262144 + 1
    ensures (v + 262143) / 262144 == v / 262144 + if v % 262144 == 0 then 0 else 1
  {
  }

  lemma NextNeed(v: nat)
    requires v < USERTOP
    ensures Need(v + 1) == Need(v) + 1
      + (if v % 512 == 0 && v / 512 != TABLES - 1 then 1 else 0)
      + (if v % 262144 == 0 && v / 262144 != MIDDLES - 1 then 1 else 0)
  {
    Rows(v);
    Blocks(v);
  }

  /** What a fresh address space needs depends on the number of its pages only. */
  lemma {:induction false} CostIs(own: Owners, r: nat, n: nat)
    requires OnlyHigh(own, r) && n <= USERTOP
    ensures Cost(own, r, n) == Need(n)
  {
    if n > 0 {
      var v := n - 1;
      CostIs(own, r, v);
      FirstOfTable(v);
      HighTables(v);
      NextNeed(v);
    }
  }
}
