/**
  * Sv39 page tables in byte-addressed memory (kernel/vm.c, kernel/riscv.h; section 4.4 of the RISC-V
  * Privileged Architecture, version 20211203): the tree of table pages and the map it stands for.
  *
  * A frame is a page of physical memory, named by its address divided by PGSIZE; v is a 27-bit page number.
  */
module Paging {

  import opened Bytes
  import opened Common

  const PGSIZE: nat := 4096
  const NPTE: nat := 512
  const NPAGE: nat := 0x800_0000
  const WORD: nat := 0x1_0000_0000_0000_0000

  type Page = p: seq<byte> | |p| == PGSIZE witness Zeros(PGSIZE)
  type Mem = map<nat, Page>

  // ---------------------------------------------------------------- entries

  function Pa2Pte(pa: nat): nat {
    pa / 4096 * 1024
  }

  function Pte2Pa(pte: nat): nat {
    pte / 1024 * 4096 % WORD
  }

  /** A page-table entry: the zero word, or a frame and ten flag bits. */
  datatype Pte = Empty | Pte(frame: nat, flags: nat)

  /** Entries that fit in a word. */
  predicate Fits(e: Pte) {
    e.Pte? ==> e.flags < 1024 && e.frame < 0x40_0000_0000_0000 && (e.frame > 0 || e.flags > 0)
  }

  function Encode(e: Pte): nat {
    if e.Empty? then 0 else e.frame * 1024 + e.flags
  }

  function Decode(x: nat): (e: Pte) {
    if x == 0 then Empty else Pte(x / 1024, x % 1024)
  }

  lemma DecodeEncode(e: Pte)
    requires Fits(e)
    ensures Decode(Encode(e)) == e && Encode(e) < WORD
  {
  }

  predicate IsValid(e: Pte) {
    e.Pte? && Bit(e.flags, 0)
  }

  /** R, W or X set: what tells a leaf from a pointer to a table. */
  predicate Permits(flags: nat) {
    Bit(flags, 1) || Bit(flags, 2) || Bit(flags, 3)
  }

  predicate IsLeaf(e: Pte) {
    e.Pte? && Bit(e.flags, 0) && Permits(e.flags)
  }

  /** An address and flags are recovered from the word made of them exactly when the address is aligned. */
  lemma WordRoundTrip(pa: nat, flags: nat)
    requires pa < WORD && flags < 1024
    ensures Pa2Pte(pa) + flags < WORD
    ensures pa >= PGSIZE || flags > 0 ==> Decode(Pa2Pte(pa) + flags) == Pte(pa / PGSIZE, flags)
    ensures Pte2Pa(Pa2Pte(pa) + flags) == pa <==> pa % PGSIZE == 0
  {
    var f := pa / 4096;
    assert (f * 1024 + flags) / 1024 == f;
    assert f * 4096 <= pa < WORD;
  }

  /** The index of level l in a virtual address. */
  function Px(l: nat, va: nat): nat
    requires l < 3
  {
    if l == 0 then va / 4096 % 512 else if l == 1 then va / 0x20_0000 % 512 else va / 0x4000_0000 % 512
  }

  /** The page number walk looks at: address bits above 39 are ignored. */
  function PageOf(va: nat): nat {
    va / 4096 % NPAGE
  }

  lemma Div512(a: nat)
    ensures a / 0x20_0000 == a / 4096 / 512
  {
  }

  lemma Div262144(a: nat)
    ensures a / 0x4000_0000 == a / 4096 / 262144
  {
  }

  lemma Rest512(a: nat, b: nat)
    ensures (a * 512 + b) % 512 == b % 512 && (a * 512 + b) / 512 == a + b / 512
  {
  }

  lemma SplitPage(n: nat, k: nat, v: nat)
    requires v < NPAGE && n == k * NPAGE + v
    ensures n / 512 % 512 == v / 512 % 512 && n / 262144 % 512 == v / 262144 && n % 512 == v % 512
  {
    assert n == (k * 262144) * 512 + v;
    Rest512(k * 262144, v);
    assert n / 512 == (k * 512) * 512 + v / 512;
    Rest512(k * 512, v / 512);
    assert n / 262144 == k * 512 + v / 262144;
    Rest512(k, v / 262144);
  }

  lemma IndexOf(va: nat)
    ensures Px(2, va) == PageOf(va) / 262144 && Px(1, va) == PageOf(va) / 512 % 512 && Px(0, va) == PageOf(va) % 512
  {
    var n := va / 4096;
    Div512(va);
    Div262144(va);
    SplitPage(n, n / NPAGE, n % NPAGE);
  }

  /** Two addresses share all three indices exactly when they share the page number. */
  lemma IndicesDecide(a: nat, b: nat)
    ensures PageOf(a) == PageOf(b) <==> Px(0, a) == Px(0, b) && Px(1, a) == Px(1, b) && Px(2, a) == Px(2, b)
  {
    IndexOf(a);
    IndexOf(b);
    Indices(PageOf(a), PageOf(b));
  }

  // ---------------------------------------------------------------- table pages

  /** A page read as a table of entries. */
  function Entries(p: seq<byte>): (t: seq<Pte>)
    ensures |t| == |p| / 8
  {
    if |p| < 8 then [] else [Decode(GetLe(p, 0, 8))] + Entries(p[8..])
  }

  lemma Pow64()
    ensures Pow256(8) == WORD
  {
    assert Pow256(2) == 65536;
    assert Pow256(4) == 65536 * 65536;
    assert Pow256(6) == 65536 * 65536 * 65536;
  }

  lemma {:induction false} GetTail(p: seq<byte>, k: nat, off: nat, w: nat)
    requires k + off + w <= |p|
    ensures GetLe(p[k..], off, w) == GetLe(p, k + off, w)
    decreases w
  {
    if w > 0 {
      GetTail(p, k, off + 1, w - 1);
    }
  }

  /** Reading an entry is reading its word. */
  lemma {:induction false} EntryIsWord(p: seq<byte>, i: nat)
    requires 8 * i + 8 <= |p|
    ensures Entries(p)[i] == Decode(GetLe(p, 8 * i, 8))
  {
    if i > 0 {
      EntryIsWord(p[8..], i - 1);
      GetTail(p, 8, 8 * (i - 1), 8);
    }
  }

  /** Writing a word writes one entry. */
  lemma WordWrite(p: seq<byte>, i: nat, e: Pte)
    requires 8 * i + 8 <= |p| && Fits(e)
    ensures Entries(PutLe(p, 8 * i, 8, Encode(e))) == Entries(p)[i := e]
  {
    var q := PutLe(p, 8 * i, 8, Encode(e));
    Pow64();
    GetPut(p, 8 * i, 8, Encode(e));
    DecodeEncode(e);
    forall j | 0 <= j < |Entries(p)| ensures Entries(q)[j] == Entries(p)[i := e][j] {
      EntryIsWord(q, j);
      EntryIsWord(p, j);
      if j != i {
        GetSame(q, p, 8 * j, 8);
      }
    }
  }

  /** Entry i of the table in frame f. */
  function E(mem: Mem, f: nat, i: nat): Pte
    requires f in mem && i < NPTE
  {
    Entries(mem[f])[i]
  }

  function SetEntry(mem: Mem, f: nat, i: nat, e: Pte): (r: Mem)
    requires f in mem && i < NPTE && Fits(e)
    ensures r.Keys == mem.Keys && forall g | g in mem && g != f :: r[g] == mem[g]
    ensures forall j | 0 <= j < NPTE :: E(r, f, j) == if j == i then e else E(mem, f, j)
  {
    WordWrite(mem[f], i, e);
    mem[f := PutLe(mem[f], 8 * i, 8, Encode(e))]
  }

  /** A zeroed page is an empty table. */
  lemma ZeroTable(i: nat)
    requires i < NPTE
    ensures Entries(Zeros(PGSIZE))[i] == Empty
  {
    EntryIsWord(Zeros(PGSIZE), i);
    GetZero(Zeros(PGSIZE), 8 * i, 8);
  }

  // ---------------------------------------------------------------- ownership and the tree of tables

  /** The indices that lead from a root to a table. */
  datatype Path = Top | Mid(hi: nat) | Bottom(hi: nat, md: nat)

  function Depth(p: Path): nat {
    if p.Top? then 0 else if p.Mid? then 1 else 2
  }

  function Down(p: Path, i: nat): Path
    requires !p.Bottom?
  {
    if p.Top? then Mid(i) else Bottom(p.hi, i)
  }

  /** The last index of a path, and the path without it. */
  function Last(p: Path): nat
    requires !p.Top?
  {
    if p.Mid? then p.hi else p.md
  }

  function Above(p: Path): Path
    requires !p.Top?
  {
    if p.Mid? then Top else Mid(p.hi)
  }

  /**
    * What a frame is used for.  A table is found by following the indices of its path from its root; up is
    * the table whose entry refers to it.  Held frames are allocated for something else.
    */
  datatype Owner =
    | Free
    | Held
    | Table(root: nat, path: Path, up: nat)
    | User(root: nat, page: nat)

  type Owners = map<nat, Owner>

  predicate IsTable(own: Owners, f: nat) {
    f in own && own[f].Table?
  }

  predicate IsRoot(own: Owners, r: nat) {
    r in own && own[r].Table? && own[r].root == r && own[r].path.Top? && own[r].up == r
  }

  /** A table below the root is referred to by its parent, at the index its path ends in. */
  predicate UpOk(mem: Mem, own: Owners, f: nat)
    requires mem.Keys == own.Keys && IsTable(own, f)
  {
    var o := own[f];
    if o.path.Top? then o.root == f && o.up == f
    else
      && Last(o.path) < NPTE && IsTable(own, o.up) && own[o.up].root == o.root && own[o.up].path == Above(o.path)
      && E(mem, o.up, Last(o.path)) == Pte(f, 1)
  }

  /** An entry is empty, refers to a child of its table, or is a leaf of a table at the lowest level. */
  predicate EntryOk(mem: Mem, own: Owners, f: nat, i: nat)
    requires mem.Keys == own.Keys && IsTable(own, f) && i < NPTE
  {
    var o, e := own[f], E(mem, f, i);
    e == Empty ||
    if o.path.Bottom? then IsLeaf(e)
    else e.Pte? && e.flags == 1 && e.frame in own && own[e.frame] == Table(o.root, Down(o.path, i), f)
  }

  /** Tables form trees and share nothing. */
  ghost predicate Tree(mem: Mem, own: Owners) {
    && mem.Keys == own.Keys
    && (forall f {:trigger UpOk(mem, own, f)} | IsTable(own, f) :: UpOk(mem, own, f))
    && (forall f, i {:trigger EntryOk(mem, own, f, i)} | IsTable(own, f) && 0 <= i < NPTE :: EntryOk(mem, own, f, i))
  }

  /** The three indices of a page number. */
  function Hi(v: nat): (i: nat)
    ensures v < NPAGE ==> i < NPTE
  {
    v / 262144
  }

  function Md(v: nat): (i: nat)
    ensures i < NPTE
  {
    v / 512 % 512
  }

  function Lo(v: nat): (i: nat)
    ensures i < NPTE
  {
    v % 512
  }

  lemma Indices(v: nat, w: nat)
    ensures v == w <==> Hi(v) == Hi(w) && Md(v) == Md(w) && Lo(v) == Lo(w)
  {
    Compose(v);
    Compose(w);
  }

  lemma Compose(v: nat)
    ensures v == Hi(v) * 262144 + Md(v) * 512 + Lo(v)
  {
    assert v / 262144 == v / 512 / 512;
  }

  /** The table that entry i of a table refers to. */
  function Step(mem: Mem, t: Option<nat>, i: nat): Option<nat>
    requires i < NPTE
  {
    if t.None? || t.value !in mem then None
    else
      var e := E(mem, t.value, i);
      if IsValid(e) then Some(e.frame) else None
  }

  /** The table whose entry Lo(v) is the one for page v. */
  function Low(mem: Mem, r: nat, v: nat): Option<nat>
    requires v < NPAGE
  {
    Step(mem, Step(mem, Some(r), Hi(v)), Md(v))
  }

  /** The map a tree stands for: the entry of each page number, Empty where there is none. */
  function At(mem: Mem, r: nat, v: nat): Pte
    requires v < NPAGE
  {
    var t := Low(mem, r, v);
    if t.None? || t.value !in mem then Empty else E(mem, t.value, Lo(v))
  }

  lemma StepOk(mem: Mem, own: Owners, f: nat, i: nat)
    requires Tree(mem, own) && IsTable(own, f) && !own[f].path.Bottom? && i < NPTE
    ensures var t := Step(mem, Some(f), i);
      if t.None? then E(mem, f, i) == Empty
      else
        && t.value in own && own[t.value] == Table(own[f].root, Down(own[f].path, i), f)
        && E(mem, f, i) == Pte(t.value, 1)
  {
    assert EntryOk(mem, own, f, i);
    PointerValid(E(mem, f, i));
  }

  lemma PointerValid(e: Pte)
    requires e == Empty || (e.Pte? && e.flags == 1)
    ensures IsValid(e) <==> e != Empty
  {
  }

  /** The tables on the way to a page are the ones whose path leads there. */
  lemma PathOk(mem: Mem, own: Owners, r: nat, v: nat)
    requires Tree(mem, own) && IsRoot(own, r) && v < NPAGE
    ensures var m := Step(mem, Some(r), Hi(v));
      m.Some? ==> m.value in own && own[m.value] == Table(r, Mid(Hi(v)), r)
    ensures var t := Low(mem, r, v);
      t.Some? ==>
        && t.value in own && own[t.value].Table?
        && own[t.value].root == r && own[t.value].path == Bottom(Hi(v), Md(v))
  {
    StepOk(mem, own, r, Hi(v));
    var m := Step(mem, Some(r), Hi(v));
    if m.Some? {
      StepOk(mem, own, m.value, Md(v));
    }
  }

  lemma StepBack(mem: Mem, own: Owners, f: nat)
    requires Tree(mem, own) && IsTable(own, f) && !own[f].path.Top?
    ensures var o := own[f];
      && Last(o.path) < NPTE && IsTable(own, o.up) && own[o.up].root == o.root && own[o.up].path == Above(o.path)
      && Step(mem, Some(o.up), Last(o.path)) == Some(f)
  {
    assert UpOk(mem, own, f);
  }

  lemma RootBack(mem: Mem, own: Owners, f: nat)
    requires Tree(mem, own) && IsTable(own, f) && own[f].path.Top?
    ensures own[f] == Table(f, Top, f)
  {
    assert UpOk(mem, own, f);
  }

  /** Every table at the lowest level is the one reached for the pages it covers. */
  lemma Reached(mem: Mem, own: Owners, f: nat, v: nat)
    requires Tree(mem, own) && IsTable(own, f) && v < NPAGE && own[f].path == Bottom(Hi(v), Md(v))
    ensures IsRoot(own, own[f].root) && Low(mem, own[f].root, v) == Some(f)
  {
    StepBack(mem, own, f);
    var m := own[f].up;
    assert own[m].path == Mid(Hi(v));
    StepBack(mem, own, m);
    RootBack(mem, own, own[m].up);
  }

  lemma LeafTree(mem: Mem, own: Owners, f: nat, i: nat, e: Pte)
    requires Tree(mem, own) && IsTable(own, f) && own[f].path.Bottom? && i < NPTE
    requires Fits(e) && (e == Empty || IsLeaf(e))
    ensures Tree(SetEntry(mem, f, i, e), own)
  {
    var mem' := SetEntry(mem, f, i, e);
    forall g | IsTable(own, g) ensures UpOk(mem', own, g) {
      assert UpOk(mem, own, g);
    }
    forall g, j | IsTable(own, g) && 0 <= j < NPTE ensures EntryOk(mem', own, g, j) {
      assert EntryOk(mem, own, g, j);
    }
  }

  lemma LeafLow(mem: Mem, own: Owners, f: nat, i: nat, e: Pte, r: nat, v: nat)
    requires Tree(mem, own) && IsTable(own, f) && own[f].path.Bottom? && i < NPTE && Fits(e)
    requires IsRoot(own, r) && v < NPAGE
    ensures Low(SetEntry(mem, f, i, e), r, v) == Low(mem, r, v)
  {
    PathOk(mem, own, r, v);
  }

  /** Writing a leaf, or clearing one, changes the map at that page and nowhere else. */
  lemma LeafWrite(mem: Mem, own: Owners, f: nat, w: nat, e: Pte)
    requires Tree(mem, own) && IsTable(own, f) && w < NPAGE && own[f].path == Bottom(Hi(w), Md(w))
    requires Fits(e) && (e == Empty || IsLeaf(e))
    ensures Tree(SetEntry(mem, f, Lo(w), e), own)
    ensures forall r, v {:trigger At(SetEntry(mem, f, Lo(w), e), r, v)} | IsRoot(own, r) && 0 <= v < NPAGE ::
      At(SetEntry(mem, f, Lo(w), e), r, v) == if r == own[f].root && v == w then e else At(mem, r, v)
  {
    var mem' := SetEntry(mem, f, Lo(w), e);
    LeafTree(mem, own, f, Lo(w), e);
    Reached(mem, own, f, w);
    forall r, v | IsRoot(own, r) && 0 <= v < NPAGE
      ensures At(mem', r, v) == if r == own[f].root && v == w then e else At(mem, r, v)
    {
      LeafLow(mem, own, f, Lo(w), e, r, v);
      PathOk(mem, own, r, v);
      Indices(v, w);
    }
  }

  /** The owners once the frame t is a table that entry i of f refers to. */
  function Hung(own: Owners, f: nat, i: nat, t: nat): Owners
    requires IsTable(own, f) && !own[f].path.Bottom?
  {
    own[t := Table(own[f].root, Down(own[f].path, i), f)]
  }

  lemma HungUp(mem: Mem, own: Owners, f: nat, i: nat, t: nat, g: nat)
    requires Tree(mem, own) && IsTable(own, f) && !own[f].path.Bottom? && i < NPTE && E(mem, f, i) == Empty
    requires t in own && !own[t].Table? && Fits(Pte(t, 1)) && IsTable(Hung(own, f, i, t), g)
    ensures UpOk(SetEntry(mem, f, i, Pte(t, 1)), Hung(own, f, i, t), g)
  {
    if g != t {
      assert UpOk(mem, own, g);
    }
  }

  lemma HungEntry(mem: Mem, own: Owners, f: nat, i: nat, t: nat, g: nat, j: nat)
    requires Tree(mem, own) && IsTable(own, f) && !own[f].path.Bottom? && i < NPTE && E(mem, f, i) == Empty
    requires t in own && !own[t].Table? && Fits(Pte(t, 1)) && IsTable(Hung(own, f, i, t), g) && j < NPTE
    requires E(mem, t, j) == Empty
    ensures EntryOk(SetEntry(mem, f, i, Pte(t, 1)), Hung(own, f, i, t), g, j)
  {
    if g != t {
      assert EntryOk(mem, own, g, j);
    }
  }

  lemma HungStep(mem: Mem, own: Owners, f: nat, i: nat, t: nat, g: nat, j: nat)
    requires mem.Keys == own.Keys && f in own && t in own && g in own && i < NPTE && j < NPTE
    requires Fits(Pte(t, 1))
    ensures Step(SetEntry(mem, f, i, Pte(t, 1)), Some(g), j) ==
      if g == f && j == i then Some(t) else Step(mem, Some(g), j)
  {
  }

  lemma HungPte(mem: Mem, own: Owners, f: nat, i: nat, t: nat, r: nat, v: nat)
    requires Tree(mem, own) && IsTable(own, f) && !own[f].path.Bottom? && i < NPTE && E(mem, f, i) == Empty
    requires t in own && !own[t].Table? && Fits(Pte(t, 1)) && IsRoot(own, r) && v < NPAGE
    requires forall j | 0 <= j < NPTE :: E(mem, t, j) == Empty
    ensures At(SetEntry(mem, f, i, Pte(t, 1)), r, v) == At(mem, r, v)
  {
    PathOk(mem, own, r, v);
    HungStep(mem, own, f, i, t, r, Hi(v));
    HungStep(mem, own, f, i, t, t, Md(v));
    assert E(mem, t, Md(v)) == Empty && E(mem, t, Lo(v)) == Empty;
    var m := Step(mem, Some(r), Hi(v));
    if m.Some? {
      HungStep(mem, own, f, i, t, m.value, Md(v));
    }
  }

  /** A fresh empty table hung into an empty entry leaves the map as it was. */
  lemma TableAdd(mem: Mem, own: Owners, f: nat, i: nat, t: nat)
    requires Tree(mem, own) && IsTable(own, f) && !own[f].path.Bottom? && i < NPTE && E(mem, f, i) == Empty
    requires t in own && !own[t].Table? && Fits(Pte(t, 1))
    requires forall j | 0 <= j < NPTE :: E(mem, t, j) == Empty
    ensures Tree(SetEntry(mem, f, i, Pte(t, 1)), Hung(own, f, i, t))
    ensures forall r, v {:trigger At(SetEntry(mem, f, i, Pte(t, 1)), r, v)} | IsRoot(own, r) && 0 <= v < NPAGE ::
      At(SetEntry(mem, f, i, Pte(t, 1)), r, v) == At(mem, r, v)
  {
    forall g | IsTable(Hung(own, f, i, t), g)
      ensures UpOk(SetEntry(mem, f, i, Pte(t, 1)), Hung(own, f, i, t), g)
    {
      HungUp(mem, own, f, i, t, g);
    }
    forall g, j | IsTable(Hung(own, f, i, t), g) && 0 <= j < NPTE
      ensures EntryOk(SetEntry(mem, f, i, Pte(t, 1)), Hung(own, f, i, t), g, j)
    {
      HungEntry(mem, own, f, i, t, g, j);
    }
    forall r, v | IsRoot(own, r) && 0 <= v < NPAGE
      ensures At(SetEntry(mem, f, i, Pte(t, 1)), r, v) == At(mem, r, v)
    {
      HungPte(mem, own, f, i, t, r, v);
    }
  }

  /** Trees and their maps depend on the table frames alone. */
  lemma TreeFrame(mem: Mem, own: Owners, mem': Mem, own': Owners)
    requires Tree(mem, own) && mem'.Keys == own'.Keys == own.Keys
    requires forall f | f in own :: own'[f] == own[f] || !(own[f].Table? || own'[f].Table?)
    requires forall f | IsTable(own, f) :: mem'[f] == mem[f]
    ensures Tree(mem', own')
    ensures forall r, v {:trigger At(mem', r, v)} | IsRoot(own, r) && 0 <= v < NPAGE :: At(mem', r, v) == At(mem, r, v)
  {
    forall g | IsTable(own', g) ensures UpOk(mem', own', g) {
      assert UpOk(mem, own, g);
    }
    forall g, j | IsTable(own', g) && 0 <= j < NPTE ensures EntryOk(mem', own', g, j) {
      assert EntryOk(mem, own, g, j);
    }
    forall r, v | IsRoot(own, r) && 0 <= v < NPAGE ensures At(mem', r, v) == At(mem, r, v) {
      PathOk(mem, own, r, v);
    }
  }
}
