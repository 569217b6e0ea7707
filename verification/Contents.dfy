/** What a user address space holds, page by page, as far as the changes of kernel/vm.c and kernel/proc.c go. */
module Contents {

  import opened Bytes
  import opened Common
  import opened Paging
  import opened VmState
  import opened Spaces
  import opened UserMemory

  function ImageAt(s: View, r: nat, v: nat): Image {
    var e := Item(s.maps, r, v);
    if e.Pte? && e.frame in s.mem then Image(e.flags, s.mem[e.frame]) else Image(0, Zeros(PGSIZE))
  }

  /** The first n pages of r: flags and bytes. */
  function Show(s: View, r: nat, n: nat): (ims: seq<Image>)
    ensures |ims| == n && forall v | 0 <= v < n :: ims[v] == ImageAt(s, r, v)
  {
    seq(n, v requires 0 <= v < n => ImageAt(s, r, v))
  }

  /** The pages of address space q below page top keep their bytes. */
  ghost predicate PagesKept(mem: Mem, own: Owners, mem': Mem, q: nat, top: nat) {
    forall f {:trigger own[f]} | f in own && own[f].User? && own[f].root == q && own[f].page < top ::
      f in mem && f in mem' && mem'[f] == mem[f]
  }

  /** The pages of every user address space do. */
  ghost predicate UserKept(mem: Mem, own: Owners, mem': Mem) {
    forall f {:trigger own[f]} | f in own && own[f].User? :: f in mem && f in mem' && mem'[f] == mem[f]
  }

  lemma ShowKept(s: View, t: View, q: nat, n: nat)
    requires Space(s.own, s.maps, q, n) && PagesKept(s.mem, s.own, t.mem, q, n)
    requires forall v {:trigger Item(t.maps, q, v)} | 0 <= v < n :: Item(t.maps, q, v) == Item(s.maps, q, v)
    ensures Show(t, q, n) == Show(s, q, n)
  {
    forall v | 0 <= v < n
      ensures ImageAt(t, q, v) == ImageAt(s, q, v)
    {
      assert Item(t.maps, q, v) == Item(s.maps, q, v);
      assert PageOk(s.own, s.maps, q, v);
    }
  }

  /** Pages added to r show what they are to hold. */
  lemma ShowAllotted(s: View, t: View, r: nat, n: nat, ims: seq<Image>)
    requires Space(s.own, s.maps, r, n) && Allotted(s, t, r, n, ims)
    ensures Show(t, r, n + |ims|) == Show(s, r, n) + ims
  {
    forall v | 0 <= v < n + |ims|
      ensures ImageAt(t, r, v) == (Show(s, r, n) + ims)[v]
    {
      assert AllotAt(s, t, r, n, ims, v) by { assert Item(t.maps, r, v) == Item(t.maps, r, v); }
      if v < n { assert PageOk(s.own, s.maps, r, v); }
    }
  }

  lemma ShowCopies(s: View, p: nat, n: nat)
    requires SpaceHas(s, p, n)
    ensures Show(s, p, n) == Copies(s, p, n)
  {
    forall v | 0 <= v < n
      ensures ImageAt(s, p, v) == Copies(s, p, n)[v]
    {
      assert Item(s.maps, p, v) == Item(s.maps, p, v);
    }
  }

  lemma ShowCut(s: View, t: View, r: nat, lo: nat, hi: nat)
    requires Space(s.own, s.maps, r, hi) && lo <= hi && Freed(s.mem, s.own, t.mem, t.own, r, lo, hi)
    requires t.maps == WithCut(s.maps, r, lo, hi)
    ensures Show(t, r, lo) == Show(s, r, hi)[..lo]
  {
    forall v | 0 <= v < lo
      ensures ImageAt(t, r, v) == ImageAt(s, r, v)
    {
      assert PageOk(s.own, s.maps, r, v);
      assert Item(t.maps, r, v) == Item(s.maps, r, v);
    }
  }

  /** A new root and its tables, and the root given up: user pages are as they were. */
  lemma BegunKept(mem: Mem, own: Owners, mem': Mem, own': Owners, r: nat)
    requires r in own && own[r].Free? && Kept(mem, own[r := Table(r, Top, r)], mem', own', r)
    ensures UserKept(mem, own, mem')
  {
    forall f | f in own && own[f].User?
      ensures f in mem && f in mem' && mem'[f] == mem[f]
    {
      assert f != r && f in own[r := Table(r, Top, r)];
    }
  }

  lemma GivenUpKept(mem: Mem, own: Owners, m1: Mem, o1: Owners, m2: Mem, o2: Owners, r: nat, next: nat)
    requires mem.Keys == own.Keys && r in own && own[r].Free? && m1 == mem[r := Zeros(PGSIZE)]
    requires o1 == own[r := Table(r, Top, r)]
    requires Kept(m1, o1, m2, o2, r)
    ensures r in m2 && UserKept(mem, own, Linked(m2, r, next))
  {
    forall f | f in own && own[f].User?
      ensures f in m2 && m2[f] == mem[f]
    {
      assert f != r && f in o1;
    }
  }

  // ---------------------------------------------------------------- stores

  /** The page an address lies in is one the user can reach. */
  predicate Reachable(ims: seq<Image>, a: nat) {
    PageOf(a) < |ims| && Bit(ims[PageOf(a)].flags, 4)
  }

  /** How many of n bytes from a on the user can reach, before the first that it cannot. */
  function Span(ims: seq<Image>, a: nat, n: nat): (k: nat)
    ensures k <= n
    decreases n
  {
    if n == 0 || !Reachable(ims, a) then 0 else 1 + Span(ims, Plus(a, 1), n - 1)
  }

  /** One byte changed. */
  function Put(ims: seq<Image>, a: nat, b: byte): (r: seq<Image>)
    ensures |r| == |ims|
  {
    var v := PageOf(a);
    if v < |ims| then ims[v := ims[v].(bytes := ims[v].bytes[a % PGSIZE := b])] else ims
  }

  /** The bytes of src put from a on. */
  function PutAll(ims: seq<Image>, a: nat, src: seq<byte>): (r: seq<Image>)
    ensures |r| == |ims|
    decreases |src|
  {
    if src == [] then ims
    else
      var k := |src| - 1;
      Put(PutAll(ims, a, src[..k]), Plus(a, k), src[k])
  }

  function ByteAt(ims: seq<Image>, a: nat): byte {
    if PageOf(a) < |ims| then ims[PageOf(a)].bytes[a % PGSIZE] else 0
  }

  lemma SameByte(a: nat, x: nat)
    requires a < NPAGE * PGSIZE && x < NPAGE * PGSIZE
    ensures PageOf(a) == PageOf(x) && a % PGSIZE == x % PGSIZE <==> a == x
  {
  }

  lemma PutByte(ims: seq<Image>, a: nat, b: byte, x: nat)
    requires |ims| <= NPAGE && a < |ims| * PGSIZE && x < |ims| * PGSIZE
    ensures ByteAt(Put(ims, a, b), x) == if x == a then b else ByteAt(ims, x)
    ensures forall v | 0 <= v < |ims| :: Put(ims, a, b)[v].flags == ims[v].flags
  {
    SameByte(a, x);
    assert PageOf(a) < |ims|;
  }

  lemma NoWrap(a: nat, k: nat, n: nat)
    requires n <= NPAGE && a + k < n * PGSIZE
    ensures Plus(a, k) == a + k
  {
  }

  /** A store changes the bytes it names and no others; flags stay. */
  lemma {:induction false} PutBytes(ims: seq<Image>, a: nat, src: seq<byte>, x: nat)
    requires |ims| <= NPAGE && a + |src| <= |ims| * PGSIZE && x < |ims| * PGSIZE
    ensures ByteAt(PutAll(ims, a, src), x) == if a <= x < a + |src| then src[x - a] else ByteAt(ims, x)
    ensures forall v | 0 <= v < |ims| :: PutAll(ims, a, src)[v].flags == ims[v].flags
    decreases |src|
  {
    if src != [] {
      var k := |src| - 1;
      PutBytes(ims, a, src[..k], x);
      NoWrap(a, k, |ims|);
      PutByte(PutAll(ims, a, src[..k]), a + k, src[k], x);
    }
  }

  lemma SpanIs(s: View, r: nat, n: nat, a: nat, k: nat)
    requires Space(s.own, s.maps, r, n) && s.mem.Keys == s.own.Keys
    requires forall v {:trigger Item(s.maps, r, v)} | USERTOP <= v < NPAGE :: !IsUser(Item(s.maps, r, v))
    ensures Reach(s.maps, r, a, k) == Span(Show(s, r, n), a, k)
    decreases k
  {
    if k > 0 {
      var v := PageOf(a);
      assert Item(s.maps, r, v) == Item(s.maps, r, v);
      if v < n { assert PageOk(s.own, s.maps, r, v); }
      assert Open(s.maps, r, a) == Reachable(Show(s, r, n), a);
      SpanIs(s, r, n, Plus(a, 1), k - 1);
    }
  }

  /** One byte poked in r: its page shows it, and no page of another address space does. */
  lemma PokeShow(s: View, r: nat, n: nat, a: nat, b: byte, q: nat, k: nat)
    requires Space(s.own, s.maps, r, n) && Space(s.own, s.maps, q, k) && s.mem.Keys == s.own.Keys && PageOf(a) < n
    ensures
      var t := s.(mem := Poke(s.mem, s.maps, r, a, b));
      && t.mem.Keys == s.mem.Keys && Show(t, r, n) == Put(Show(s, r, n), a, b)
      && (q != r ==> Show(t, q, k) == Show(s, q, k))
  {
    var t, w := s.(mem := Poke(s.mem, s.maps, r, a, b)), PageOf(a);
    assert Item(s.maps, r, w) == Item(s.maps, r, w);
    assert PageOk(s.own, s.maps, r, w);
    forall v | 0 <= v < n
      ensures ImageAt(t, r, v) == Put(Show(s, r, n), a, b)[v]
    {
      assert Item(s.maps, r, v) == Item(s.maps, r, v);
      assert PageOk(s.own, s.maps, r, v);
    }
    if q != r {
      forall v | 0 <= v < k
        ensures ImageAt(t, q, v) == ImageAt(s, q, v)
      {
        assert Item(s.maps, q, v) == Item(s.maps, q, v);
        assert PageOk(s.own, s.maps, q, v);
      }
    }
  }

  lemma {:induction false} SpanStep(ims: seq<Image>, a: nat, n: nat, k: nat)
    requires k < Span(ims, a, n) && a < WORD
    ensures Reachable(ims, Plus(a, k))
    decreases n
  {
    if k > 0 {
      SpanStep(ims, Plus(a, 1), n - 1, k - 1);
      PlusPlus(a, 1, k - 1);
    }
  }

  /** Bytes poked where the user can reach. */
  lemma {:induction false} PokeAllShow(s: View, r: nat, n: nat, a: nat, src: seq<byte>, q: nat, k: nat)
    requires Space(s.own, s.maps, r, n) && Space(s.own, s.maps, q, k) && s.mem.Keys == s.own.Keys && a < WORD
    requires forall j: nat | j < |src| :: PageOf(Plus(a, j)) < n
    ensures
      var t := s.(mem := PokeAll(s.mem, s.maps, r, a, src));
      && t.mem.Keys == s.mem.Keys && Show(t, r, n) == PutAll(Show(s, r, n), a, src)
      && (q != r ==> Show(t, q, k) == Show(s, q, k))
    decreases |src|
  {
    if src == [] {
      assert s.(mem := PokeAll(s.mem, s.maps, r, a, src)) == s;
    } else {
      var j := |src| - 1;
      PokeAllShow(s, r, n, a, src[..j], q, k);
      var t := s.(mem := PokeAll(s.mem, s.maps, r, a, src[..j]));
      PokeShow(t, r, n, Plus(a, j), src[j], q, k);
    }
  }
}
