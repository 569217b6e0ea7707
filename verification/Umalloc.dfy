/** The K&R storage allocator of user/umalloc.c.  Addresses count header-sized units. */
module Umalloc {

  const UNIT := 16               // sizeof(Header)
  const CORE := 4096             // the least request morecore makes, in units
  const PAGE := 256              // units in a page
  const BREAKS := 0x800_0000     // the break is an int, so it lies below 2^31 / UNIT
  const TOP := 0x2000_0000       // no block a request asks for at any break ends higher

  /** A block: its header's address and its length in units, header included. */
  datatype Blk = Blk(addr: int, size: int)

  function End(b: Blk): int {
    b.addr + b.size
  }

  predicate Apart(a: Blk, b: Blk) {
    End(a) <= b.addr || End(b) <= a.addr
  }

  predicate Inside(b: Blk, u: int) {
    b.addr <= u < End(b)
  }

  function Range(b: Blk): set<int> {
    set u | b.addr <= u < End(b) && Inside(b, u)
  }

  predicate Owned(s: seq<Blk>, u: int) {
    exists i :: 0 <= i < |s| && Inside(s[i], u)
  }

  function Units(s: seq<Blk>): set<int> {
    if s == [] then {} else Range(s[0]) + Units(s[1..])
  }

  function Total(s: seq<Blk>): int {
    if s == [] then 0 else s[0].size + Total(s[1..])
  }

  lemma UnitsMember(s: seq<Blk>, u: int)
    ensures u in Units(s) <==> Owned(s, u)
  {
    if s != [] {
      UnitsMember(s[1..], u);
      if i :| 0 <= i < |s| && Inside(s[i], u) {
        if i > 0 { assert s[i] == s[1..][i - 1]; }
      }
      if i :| 0 <= i < |s[1..]| && Inside(s[1..][i], u) {
        assert s[i + 1] == s[1..][i];
      }
    }
  }

  lemma TotalConcat(a: seq<Blk>, b: seq<Blk>)
    ensures Total(a + b) == Total(a) + Total(b)
  {
    if a == [] {
      assert a + b == b;
    } else {
      assert (a + b)[1..] == a[1..] + b;
      TotalConcat(a[1..], b);
    }
  }

  lemma RangeCount(b: Blk)
    requires 0 <= b.size
    ensures |Range(b)| == b.size
    decreases b.size
  {
    if b.size > 0 {
      var c := Blk(b.addr, b.size - 1);
      RangeCount(c);
      forall u
        ensures u in Range(b) <==> u in Range(c) || u == End(c)
      {
        assert Inside(b, u) <==> Inside(c, u) || u == End(c);
      }
      assert Range(b) == Range(c) + {End(c)};
    } else {
      assert forall u :: !Inside(b, u);
      assert Range(b) == {};
    }
  }

  /** Blocks that lie apart add up: conservation as a number. */
  lemma {:induction false} UnitsCount(s: seq<Blk>)
    requires forall i | 0 <= i < |s| :: 0 <= s[i].size
    requires forall i, j | 0 <= i < j < |s| :: Apart(s[i], s[j])
    ensures |Units(s)| == Total(s)
  {
    if s != [] {
      UnitsCount(s[1..]);
      RangeCount(s[0]);
      forall u | u in Range(s[0])
        ensures u !in Units(s[1..])
      {
        UnitsMember(s[1..], u);
      }
    }
  }

  /** An address-ordered free list: one wrap point, no two blocks touching. */
  predicate Ordered(f: seq<Blk>) {
    && (forall i | 0 <= i < |f| :: 0 <= f[i].size)
    && (forall i | 0 < i < |f| :: 0 < f[i].size)
    && (forall i, j | 0 <= i < j < |f| :: End(f[i]) < f[j].addr)
  }

  ghost predicate Climbs(f: seq<Blk>, i: nat) {
    i + 1 < |f| ==> End(f[i]) < f[i + 1].addr
  }

  lemma ClimbsFar(f: seq<Blk>, i: nat, j: nat)
    requires forall k | 0 <= k < |f| :: 0 <= f[k].size
    requires forall k: nat | k + 1 < |f| :: Climbs(f, k)
    requires i < j < |f|
    ensures End(f[i]) < f[j].addr
  {
    assert Climbs(f, j - 1);
    if i < j - 1 { ClimbsFar(f, i, j - 1); }
  }

  predicate LiesApart(f: seq<Blk>, live: seq<Blk>) {
    && (forall k | 0 <= k < |live| :: 0 < live[k].size)
    && (forall i, j | 0 <= i < j < |live| :: Apart(live[i], live[j]))
    && (forall i, k | 0 <= i < |f| && 0 <= k < |live| :: Apart(f[i], live[k]))
  }

  /** Free and live blocks together are exactly the units obtained from sbrk. */
  ghost predicate Covers(f: seq<Blk>, live: seq<Blk>, core: set<int>) {
    forall u :: u in core <==> Owned(f, u) || Owned(live, u)
  }

  ghost predicate Partition(f: seq<Blk>, live: seq<Blk>, core: set<int>) {
    Ordered(f) && LiesApart(f, live) && Covers(f, live, core)
  }

  lemma OwnedConcat(a: seq<Blk>, b: seq<Blk>, u: int)
    ensures Owned(a + b, u) <==> Owned(a, u) || Owned(b, u)
  {
    if i :| 0 <= i < |a| && Inside(a[i], u) { assert (a + b)[i] == a[i]; }
    if i :| 0 <= i < |b| && Inside(b[i], u) { assert (a + b)[|a| + i] == b[i]; }
  }

  lemma OwnedOne(b: Blk, u: int)
    ensures Owned([b], u) <==> Inside(b, u)
  {
    assert [b][0] == b;
  }

  lemma Conservation(f: seq<Blk>, live: seq<Blk>, core: set<int>)
    requires Partition(f, live, core)
    ensures Total(f) + Total(live) == |core|
  {
    forall u
      ensures u in core <==> u in Units(f + live)
    {
      UnitsMember(f + live, u);
      OwnedConcat(f, live, u);
    }
    assert core == Units(f + live);
    UnitsCount(f + live);
    TotalConcat(f, live);
  }

  predicate Between(f: seq<Blk>, i: nat, a: int) {
    i < |f| && f[i].addr < a && (i + 1 < |f| ==> a < f[i + 1].addr)
  }

  /** Where a new block belongs. */
  lemma {:induction false} FindPlace(f: seq<Blk>, a: int) returns (i: nat)
    requires Ordered(f) && f != [] && f[0].addr < a
    requires forall i | 0 <= i < |f| :: f[i].addr != a
    ensures Between(f, i, a)
  {
    i := 0;
    while i + 1 < |f| && f[i + 1].addr < a
      invariant i < |f| && f[i].addr < a
    {
      i := i + 1;
    }
  }

  /** Does b, put behind f[i], touch the block above, the block below? */
  predicate Up(f: seq<Blk>, i: nat, b: Blk)
    requires i < |f|
  {
    i + 1 < |f| && End(b) == f[i + 1].addr
  }

  predicate Down(f: seq<Blk>, i: nat, b: Blk)
    requires i < |f|
  {
    End(f[i]) == b.addr
  }

  function Hi(f: seq<Blk>, i: nat, b: Blk): Blk
    requires i < |f|
  {
    if Up(f, i, b) then Blk(b.addr, b.size + f[i + 1].size) else b
  }

  function Growth(f: seq<Blk>, i: nat, b: Blk): int
    requires i < |f|
  {
    (if Down(f, i, b) then 0 else 1) - (if Up(f, i, b) then 1 else 0)
  }

  function InsertItem(f: seq<Blk>, i: nat, b: Blk, k: nat): Blk
    requires i < |f| && k < |f| + Growth(f, i, b)
  {
    if k < i then f[k]
    else if k == i then (if Down(f, i, b) then Blk(f[i].addr, f[i].size + Hi(f, i, b).size) else f[i])
    else if k == i + 1 && !Down(f, i, b) then Hi(f, i, b)
    else f[k - Growth(f, i, b)]
  }

  /** Block b put back behind f[i], merged with whichever neighbours it touches. */
  function Insert(f: seq<Blk>, i: nat, b: Blk): (g: seq<Blk>)
    requires i < |f|
    ensures |g| == |f| + Growth(f, i, b)
    ensures forall k | 0 <= k < |g| :: g[k] == InsertItem(f, i, b, k)
  {
    seq(|f| + Growth(f, i, b), k requires 0 <= k < |f| + Growth(f, i, b) => InsertItem(f, i, b, k))
  }

  lemma InsertClimbs(f: seq<Blk>, i: nat, b: Blk, k: nat)
    requires Ordered(f) && Between(f, i, b.addr) && 0 < b.size && k < |f| + Growth(f, i, b)
    requires Apart(f[i], b) && (i + 1 < |f| ==> Apart(f[i + 1], b))
    ensures 0 <= InsertItem(f, i, b, k).size && (0 < k ==> 0 < InsertItem(f, i, b, k).size)
    ensures k + 1 < |f| + Growth(f, i, b) ==> End(InsertItem(f, i, b, k)) < InsertItem(f, i, b, k + 1).addr
  {
  }

  lemma InsertOrdered(f: seq<Blk>, i: nat, b: Blk)
    requires Ordered(f) && Between(f, i, b.addr) && 0 < b.size && f[0].size == 0
    requires forall k | 0 <= k < |f| :: Apart(f[k], b)
    ensures Ordered(Insert(f, i, b))
    ensures i < |Insert(f, i, b)| && Insert(f, i, b)[i].addr == f[i].addr
    ensures Insert(f, i, b)[0] == f[0]
  {
    assert Apart(f[i], b) && (i + 1 < |f| ==> Apart(f[i + 1], b));
    var g := Insert(f, i, b);
    assert g[0] == InsertItem(f, i, b, 0) && g[i] == InsertItem(f, i, b, i);
    forall k: nat | k < |g|
      ensures Climbs(g, k) && 0 <= g[k].size && (0 < k ==> 0 < g[k].size)
    {
      InsertClimbs(f, i, b, k);
    }
    forall k, j | 0 <= k < j < |g|
      ensures End(g[k]) < g[j].addr
    {
      ClimbsFar(g, k, j);
    }
  }

  lemma InsertUnits(f: seq<Blk>, i: nat, b: Blk, u: int)
    requires Ordered(f) && Between(f, i, b.addr) && 0 < b.size
    ensures Owned(Insert(f, i, b), u) <==> Owned(f, u) || Inside(b, u)
  {
    var g := Insert(f, i, b);
    if k :| 0 <= k < |g| && Inside(g[k], u) {
      InsertFrom(f, i, b, k, u);
    }
    if k :| 0 <= k < |f| && Inside(f[k], u) {
      assert Inside(g[InsertPlace(f, i, b, k)], u);
    }
    if Inside(b, u) {
      assert Inside(g[if Down(f, i, b) then i else i + 1], u);
    }
  }

  /** Where the units of f[k] went. */
  function InsertPlace(f: seq<Blk>, i: nat, b: Blk, k: nat): (j: nat)
    requires Ordered(f) && Between(f, i, b.addr) && 0 < b.size && k < |f|
    ensures j < |Insert(f, i, b)|
    ensures forall u | Inside(f[k], u) :: Inside(Insert(f, i, b)[j], u)
  {
    if k <= i then k
    else if k == i + 1 && Up(f, i, b) then (if Down(f, i, b) then i else i + 1)
    else k + Growth(f, i, b)
  }

  lemma InsertFrom(f: seq<Blk>, i: nat, b: Blk, k: nat, u: int)
    requires Ordered(f) && Between(f, i, b.addr) && 0 < b.size
    requires k < |Insert(f, i, b)| && Inside(Insert(f, i, b)[k], u)
    ensures Inside(b, u) || Owned(f, u)
  {
    if k < i { assert Inside(f[k], u); }
    else if k > i && (k > i + 1 || Down(f, i, b)) { assert Inside(f[k - Growth(f, i, b)], u); }
    else if !Inside(b, u) && !Inside(f[i], u) { assert Inside(f[i + 1], u); }
  }

  lemma InsertApart(f: seq<Blk>, i: nat, b: Blk, c: Blk)
    requires Ordered(f) && Between(f, i, b.addr) && 0 < b.size && 0 < c.size
    requires forall k | 0 <= k < |f| :: Apart(f[k], c)
    requires Apart(b, c)
    ensures forall k | 0 <= k < |Insert(f, i, b)| :: Apart(Insert(f, i, b)[k], c)
  {
    assert Apart(f[i], c);
    if i + 1 < |f| { assert Apart(f[i + 1], c); }
  }

  /** The q-th free block cut down, or dropped when it fits exactly, to yield n units. */
  function Carve(f: seq<Blk>, q: nat, n: int): (g: seq<Blk>)
    requires q < |f|
    ensures |g| == if f[q].size == n then |f| - 1 else |f|
  {
    if f[q].size == n then seq(|f| - 1, k requires 0 <= k < |f| - 1 => if k < q then f[k] else f[k + 1])
    else f[q := Blk(f[q].addr, f[q].size - n)]
  }

  function Carved(f: seq<Blk>, q: nat, n: int): Blk
    requires q < |f|
  {
    Blk(End(f[q]) - n, n)
  }

  lemma CarveUnits(f: seq<Blk>, q: nat, n: int, u: int)
    requires q < |f| && 0 < n <= f[q].size
    ensures Owned(f, u) <==> Owned(Carve(f, q, n), u) || Inside(Carved(f, q, n), u)
  {
    var g := Carve(f, q, n);
    if k :| 0 <= k < |g| && Inside(g[k], u) {
      assert Inside(f[if f[q].size == n && k >= q then k + 1 else k], u);
    }
    if Inside(Carved(f, q, n), u) { assert Inside(f[q], u); }
    if k :| 0 <= k < |f| && Inside(f[k], u) {
      if !Inside(Carved(f, q, n), u) {
        assert Inside(g[if f[q].size == n && k > q then k - 1 else k], u);
      }
    }
  }

  lemma CarveAt(f: seq<Blk>, q: nat, n: int, i: nat)
    requires q < |f| && i < |Carve(f, q, n)|
    ensures Carve(f, q, n)[i] ==
            if i < q then f[i]
            else if f[q].size == n then f[i + 1]
            else if i == q then Blk(f[q].addr, f[q].size - n) else f[i]
  {
  }

  lemma CarveOrdered(f: seq<Blk>, q: nat, n: int)
    requires Ordered(f) && 0 < q < |f| && 0 < n <= f[q].size
    ensures Ordered(Carve(f, q, n)) && Carve(f, q, n)[0] == f[0]
    ensures forall i | 0 <= i < |Carve(f, q, n)| :: Apart(Carve(f, q, n)[i], Carved(f, q, n))
  {
    var g := Carve(f, q, n);
    forall i | 0 <= i < |g|
      ensures 0 <= g[i].size && (0 < i ==> 0 < g[i].size) && Apart(g[i], Carved(f, q, n))
      ensures forall j | i < j < |g| :: End(g[i]) < g[j].addr
    {
      CarveAt(f, q, n, i);
      forall j | i < j < |g|
        ensures End(g[i]) < g[j].addr
      {
        CarveAt(f, q, n, j);
      }
    }
  }

  lemma CarveApart(f: seq<Blk>, q: nat, n: int, c: Blk)
    requires q < |f| && 0 < n <= f[q].size && 0 < c.size
    requires forall i | 0 <= i < |f| :: Apart(f[i], c)
    ensures forall i | 0 <= i < |Carve(f, q, n)| :: Apart(Carve(f, q, n)[i], c)
    ensures Apart(c, Carved(f, q, n))
  {
    assert Apart(f[q], c);
    forall i | 0 <= i < |Carve(f, q, n)|
      ensures Apart(Carve(f, q, n)[i], c)
    {
      CarveAt(f, q, n, i);
    }
  }

  lemma CarvePartition(f: seq<Blk>, live: seq<Blk>, core: set<int>, q: nat, n: int)
    requires Partition(f, live, core) && 0 < q < |f| && 0 < n <= f[q].size
    ensures Partition(Carve(f, q, n), live + [Carved(f, q, n)], core)
  {
    var b := Carved(f, q, n);
    CarveOrdered(f, q, n);
    forall u
      ensures u in core <==> Owned(Carve(f, q, n), u) || Owned(live + [b], u)
    {
      CarveUnits(f, q, n, u);
      OwnedConcat(live, [b], u);
      OwnedOne(b, u);
    }
    forall k | 0 <= k < |live|
      ensures Apart(live[k], b)
      ensures forall i | 0 <= i < |Carve(f, q, n)| :: Apart(Carve(f, q, n)[i], live[k])
    {
      CarveApart(f, q, n, live[k]);
    }
  }

  function Without(live: seq<Blk>, k: nat): seq<Blk>
    requires k < |live|
  {
    live[..k] + live[k + 1..]
  }

  lemma WithoutUnits(live: seq<Blk>, k: nat, u: int)
    requires k < |live|
    ensures Owned(live, u) <==> Owned(Without(live, k), u) || Inside(live[k], u)
  {
    var rest := Without(live, k);
    if i :| 0 <= i < |rest| && Inside(rest[i], u) {
      assert rest[i] == live[if i < k then i else i + 1];
    }
    if i :| 0 <= i < |live| && Inside(live[i], u) && i != k {
      assert live[i] == rest[if i < k then i else i - 1];
    }
  }

  lemma WithoutApart(f: seq<Blk>, live: seq<Blk>, k: nat)
    requires LiesApart(f, live) && k < |live|
    ensures LiesApart(f, Without(live, k))
    ensures forall j | 0 <= j < |Without(live, k)| :: Apart(live[k], Without(live, k)[j])
  {
    var rest := Without(live, k);
    assert forall j | 0 <= j < |rest| :: rest[j] == live[if j < k then j else j + 1];
  }

  lemma FreePartition(f: seq<Blk>, live: seq<Blk>, core: set<int>, i: nat, k: nat)
    requires Partition(f, live, core) && k < |live| && Between(f, i, live[k].addr) && f[0].size == 0
    ensures Partition(Insert(f, i, live[k]), Without(live, k), core)
    ensures i < |Insert(f, i, live[k])| && Insert(f, i, live[k])[i].addr == f[i].addr
    ensures Insert(f, i, live[k])[0] == f[0]
  {
    var b, rest := live[k], Without(live, k);
    InsertOrdered(f, i, b);
    forall u
      ensures u in core <==> Owned(Insert(f, i, b), u) || Owned(rest, u)
    {
      WithoutUnits(live, k, u);
      InsertUnits(f, i, b, u);
    }
    WithoutApart(f, live, k);
    forall j | 0 <= j < |rest|
      ensures forall m | 0 <= m < |Insert(f, i, b)| :: Apart(Insert(f, i, b)[m], rest[j])
    {
      InsertApart(f, i, b, rest[j]);
    }
  }

  ghost predicate Within(s: seq<Blk>, lo: int, hi: int) {
    forall i | 0 <= i < |s| :: lo <= s[i].addr && End(s[i]) < hi
  }

  lemma InsertWithin(f: seq<Blk>, i: nat, b: Blk, lo: int, hi: int)
    requires Ordered(f) && Between(f, i, b.addr) && 0 < b.size
    requires Within(f, lo, hi) && Within([b], lo, hi)
    ensures Within(Insert(f, i, b), lo, hi)
  {
    assert [b][0] == b;
  }

  /** Steps round a circle of n from position i to position j. */
  function Dist(n: nat, i: nat, j: nat): nat
    requires i < n && j < n
  {
    if i <= j then j - i else j - i + n
  }

  function Next(n: nat, i: nat): nat
    requires i < n
  {
    if i + 1 == n then 0 else i + 1
  }

  /** nunits of malloc: the header and enough whole units for nbytes. */
  function Nunits(nbytes: nat): (n: int)
    ensures (n - 2) * UNIT < nbytes <= (n - 1) * UNIT
  {
    (nbytes + UNIT - 1) / UNIT + 1
  }

  ghost predicate Link(ptr: map<int, int>, size: map<int, int>, b: Blk, next: Blk) {
    && b.addr in ptr && ptr[b.addr] == next.addr
    && b.addr in size && size[b.addr] == b.size
  }

  ghost predicate LinkAt(ptr: map<int, int>, size: map<int, int>, f: seq<Blk>, i: nat) {
    i < |f| && Link(ptr, size, f[i], f[Next(|f|, i)])
  }

  /** The circular list in memory is the sequence f. */
  ghost predicate Linked(ptr: map<int, int>, size: map<int, int>, f: seq<Blk>) {
    forall i: nat | i < |f| :: LinkAt(ptr, size, f, i)
  }

  /** Memory m agrees with m0 but at the two given addresses. */
  ghost predicate Agree(m: map<int, int>, m0: map<int, int>, x: int, y: int) {
    forall a | a in m0 && a != x && a != y :: a in m && m[a] == m0[a]
  }

  /** Whose successor the k-th block inherits; its own header or b's points there. */
  function Source(f: seq<Blk>, i: nat, b: Blk, k: nat): (o: nat)
    requires i < |f| && k < |f| + Growth(f, i, b)
    ensures o < |f|
  {
    if k < i || (k == i && !Down(f, i, b)) then k
    else if k == i || (k == i + 1 && !Down(f, i, b)) then (if Up(f, i, b) then i + 1 else i)
    else k - Growth(f, i, b)
  }

  lemma Successor(f: seq<Blk>, i: nat, b: Blk, k: nat)
    requires Ordered(f) && Between(f, i, b.addr) && k < |f| + Growth(f, i, b)
    ensures
      var n := InsertItem(f, i, b, Next(|f| + Growth(f, i, b), k)).addr;
      if k == i && !Down(f, i, b) then n == b.addr else n == f[Next(|f|, Source(f, i, b, k))].addr
  {
  }

  lemma LinkedItem(ptr0: map<int, int>, size0: map<int, int>, ptr: map<int, int>, size: map<int, int>,
                     f: seq<Blk>, i: nat, b: Blk, k: nat)
    requires Ordered(f) && Linked(ptr0, size0, f) && Between(f, i, b.addr) && 0 < b.size
    requires Agree(ptr, ptr0, f[i].addr, b.addr) && Agree(size, size0, f[i].addr, b.addr)
    requires f[i].addr in ptr && f[i].addr in size && b.addr in ptr && b.addr in size
    requires
      var next := if Up(f, i, b) then f[Next(|f|, i + 1)].addr else f[Next(|f|, i)].addr;
      && ptr[b.addr] == next && size[b.addr] == Hi(f, i, b).size
      && ptr[f[i].addr] == (if Down(f, i, b) then next else b.addr)
      && size[f[i].addr] == (if Down(f, i, b) then f[i].size + Hi(f, i, b).size else f[i].size)
    requires k < |f| + Growth(f, i, b)
    ensures
      var x := InsertItem(f, i, b, k);
      var n := InsertItem(f, i, b, Next(|f| + Growth(f, i, b), k));
      Link(ptr, size, x, n)
  {
    Successor(f, i, b, k);
    var o := Source(f, i, b, k);
    if k < i || (k > i && (k > i + 1 || Down(f, i, b))) {
      assert LinkAt(ptr0, size0, f, o);
      assert f[o].addr != f[i].addr && f[o].addr != b.addr;
    }
  }

  lemma InsertLinked(ptr0: map<int, int>, size0: map<int, int>, ptr: map<int, int>, size: map<int, int>,
                     f: seq<Blk>, i: nat, b: Blk)
    requires Ordered(f) && Linked(ptr0, size0, f) && Between(f, i, b.addr) && 0 < b.size
    requires Agree(ptr, ptr0, f[i].addr, b.addr) && Agree(size, size0, f[i].addr, b.addr)
    requires f[i].addr in ptr && f[i].addr in size && b.addr in ptr && b.addr in size
    requires
      var next := if Up(f, i, b) then f[Next(|f|, i + 1)].addr else f[Next(|f|, i)].addr;
      && ptr[b.addr] == next && size[b.addr] == Hi(f, i, b).size
      && ptr[f[i].addr] == (if Down(f, i, b) then next else b.addr)
      && size[f[i].addr] == (if Down(f, i, b) then f[i].size + Hi(f, i, b).size else f[i].size)
    ensures Linked(ptr, size, Insert(f, i, b))
  {
    var g := Insert(f, i, b);
    forall k: nat | k < |g|
      ensures LinkAt(ptr, size, g, k)
    {
      LinkedItem(ptr0, size0, ptr, size, f, i, b, k);
    }
  }

  /** A region sharing no unit with core lies apart from every block of core. */
  lemma FreshApart(s: seq<Blk>, core: set<int>, r: Blk)
    requires 0 < r.size && forall u | Owned(s, u) :: u in core
    requires forall u | u in core :: !Inside(r, u)
    ensures forall k | 0 <= k < |s| && 0 < s[k].size :: Apart(s[k], r)
  {
    forall k | 0 <= k < |s| && 0 < s[k].size
      ensures Apart(s[k], r)
    {
      var u := if s[k].addr < r.addr then r.addr else s[k].addr;
      assert Inside(s[k], u) ==> Owned(s, u) && !Inside(r, u);
    }
  }

  predicate Holds(f: seq<Blk>, n: int, m: nat) {
    m < |f| && n <= f[m].size
  }

  ghost predicate FitsSomewhere(f: seq<Blk>, n: int) {
    exists m: nat :: Holds(f, n, m)
  }

  /** Some block between position i and the lap's end is big enough. */
  ghost predicate Ahead(f: seq<Blk>, n: int, i: nat, last: nat) {
    && i < |f| && last < |f|
    && exists m: nat :: Holds(f, n, m) && Dist(|f|, i, m) <= Dist(|f|, i, last)
  }

  /** Every block big enough still lies between position i and the lap's end. */
  ghost predicate NoneBehind(f: seq<Blk>, n: int, i: nat, last: nat) {
    && i < |f| && last < |f|
    && forall m: nat | Holds(f, n, m) :: Dist(|f|, i, m) <= Dist(|f|, i, last)
  }

  ghost predicate Lap(f: seq<Blk>, n: int, i: nat, last: nat, grown: bool) {
    if grown then Ahead(f, n, i, last) else NoneBehind(f, n, i, last)
  }

  lemma AheadStep(f: seq<Blk>, n: int, i: nat, last: nat)
    requires i < |f| && last < |f| && i != last
    ensures Dist(|f|, Next(|f|, i), last) < Dist(|f|, i, last)
    ensures Ahead(f, n, i, last) && f[i].size < n ==> Ahead(f, n, Next(|f|, i), last)
    ensures NoneBehind(f, n, i, last) && f[i].size < n ==> NoneBehind(f, n, Next(|f|, i), last)
  {
    if Ahead(f, n, i, last) && f[i].size < n {
      var m: nat :| Holds(f, n, m) && Dist(|f|, i, m) <= Dist(|f|, i, last);
      assert Dist(|f|, Next(|f|, i), m) <= Dist(|f|, Next(|f|, i), last);
    }
  }

  lemma AheadEnd(f: seq<Blk>, n: int, i: nat)
    requires i < |f| && f[i].size < n
    ensures !Ahead(f, n, i, i)
    ensures NoneBehind(f, n, i, i) ==> !FitsSomewhere(f, n)
  {
  }

  ghost predicate CutAt(f: seq<Blk>, last: nat, n: int, f': seq<Blk>, last': nat, q: nat) {
    && 0 < q < |f| && n <= f[q].size && NoneBehind(f, n, q, last)
    && f' == Carve(f, q, n) && last' == q - 1
  }

  /** n units came off the tail of the first block that is big enough, counting on from after last; the
      next search starts from there. */
  ghost predicate FirstFit(f: seq<Blk>, last: nat, n: int, f': seq<Blk>, last': nat) {
    exists q: nat :: CutAt(f, last, n, f', last', q)
  }

  lemma FirstFits(f: seq<Blk>, last: nat, n: int, f': seq<Blk>, last': nat)
    requires FirstFit(f, last, n, f', last')
    ensures FitsSomewhere(f, n)
  {
    var q: nat :| CutAt(f, last, n, f', last', q);
    assert Holds(f, n, q);
  }

  lemma CarveLinked(ptr0: map<int, int>, size0: map<int, int>, ptr: map<int, int>, size: map<int, int>,
                    f: seq<Blk>, q: nat, n: int)
    requires Ordered(f) && Linked(ptr0, size0, f) && 0 < q < |f| && 0 < n <= f[q].size
    requires if f[q].size == n
             then size == size0 && ptr == ptr0[f[q - 1].addr := f[Next(|f|, q)].addr]
             else ptr == ptr0 && size == size0[f[q].addr := f[q].size - n][Carved(f, q, n).addr := n]
    ensures Linked(ptr, size, Carve(f, q, n))
  {
    var g := Carve(f, q, n);
    forall k: nat | k < |g|
      ensures LinkAt(ptr, size, g, k)
    {
      CarveAt(f, q, n, k);
      CarveAt(f, q, n, Next(|g|, k));
      var o := if f[q].size == n && q <= k then k + 1 else k;
      assert LinkAt(ptr0, size0, f, o);
      assert o < q ==> End(f[o]) < f[q].addr;
      assert q < o ==> End(f[q]) < f[o].addr;
    }
  }

  /** Every live block's header still says how long it is. */
  ghost predicate Headed(size: map<int, int>, live: seq<Blk>) {
    forall k | 0 <= k < |live| :: live[k].addr in size && size[live[k].addr] == live[k].size
  }

  /** The whole invariant of the allocator, over its memory and its ghost view. */
  ghost predicate Good(ptr: map<int, int>, size: map<int, int>, freep: int, base: int,
                       f: seq<Blk>, at: nat, live: seq<Blk>, core: set<int>)
  {
    && 0 < base < TOP
    && Partition(f, live, core)
    && (freep == 0 ==> f == [] && live == [])
    && (freep != 0 ==> at < |f| && freep == f[at].addr && f[0] == Blk(base, 0) && Linked(ptr, size, f))
    && Headed(size, live)
    && Within(f, base, TOP) && Within(live, base + 1, TOP)
  }

  lemma FreePlace(f: seq<Blk>, live: seq<Blk>, k: nat) returns (t: nat)
    requires Ordered(f) && LiesApart(f, live) && k < |live| && f != [] && f[0].addr < live[k].addr
    ensures Between(f, t, live[k].addr)
  {
    assert forall i | 0 <= i < |f| :: Apart(f[i], live[k]);
    t := FindPlace(f, live[k].addr);
  }

  lemma HeadedAfter(size0: map<int, int>, size: map<int, int>, f: seq<Blk>, t: nat, live: seq<Blk>, k: nat, base: int)
    requires LiesApart(f, live) && t < |f| && k < |live| && Headed(size0, live)
    requires Within(live, base + 1, TOP) && (f[t].size == 0 ==> f[t].addr == base) && 0 <= f[t].size
    requires Agree(size, size0, f[t].addr, live[k].addr)
    ensures Headed(size, Without(live, k)) && Within(Without(live, k), base + 1, TOP)
  {
    var rest := Without(live, k);
    forall j | 0 <= j < |rest|
      ensures rest[j].addr in size && size[rest[j].addr] == rest[j].size
    {
      var o := if j < k then j else j + 1;
      assert rest[j] == live[o] && Apart(f[t], live[o]);
      if o < k { assert Apart(live[o], live[k]); } else { assert Apart(live[k], live[o]); }
    }
  }

  lemma FreeGood(ptr0: map<int, int>, size0: map<int, int>, ptr: map<int, int>, size: map<int, int>, freep: int,
                 base: int, f: seq<Blk>, at: nat, live: seq<Blk>, core: set<int>, t: nat, k: nat)
    requires Good(ptr0, size0, freep, base, f, at, live, core) && freep != 0
    requires k < |live| && Between(f, t, live[k].addr)
    requires Linked(ptr, size, Insert(f, t, live[k])) && Agree(size, size0, f[t].addr, live[k].addr)
    ensures Good(ptr, size, f[t].addr, base, Insert(f, t, live[k]), t, Without(live, k), core)
  {
    FreePartition(f, live, core, t, k);
    InsertWithin(f, t, live[k], base, TOP);
    HeadedAfter(size0, size, f, t, live, k, base);
  }

  /** A region fresh from sbrk, headed like a live block, can be handed to free. */
  lemma GrantGood(ptr: map<int, int>, size: map<int, int>, freep: int, base: int,
                  f: seq<Blk>, at: nat, live: seq<Blk>, core: set<int>, r: Blk)
    requires Good(ptr, size, freep, base, f, at, live, core) && freep != 0
    requires base < r.addr && 0 < r.size && End(r) < TOP
    requires forall u | u in core :: !Inside(r, u)
    ensures Good(ptr, size[r.addr := r.size], freep, base, f, at, live + [r], core + Range(r))
  {
    FreshApart(f, core, r);
    FreshApart(live, core, r);
    forall u
      ensures u in core + Range(r) <==> Owned(f, u) || Owned(live + [r], u)
    {
      OwnedConcat(live, [r], u);
      OwnedOne(r, u);
    }
    GrantLinked(ptr, size, f, r, base);
    forall k | 0 <= k < |live|
      ensures live[k].addr != r.addr
    {
      assert Apart(live[k], r);
    }
  }

  lemma GrantLinked(ptr: map<int, int>, size: map<int, int>, f: seq<Blk>, r: Blk, base: int)
    requires Linked(ptr, size, f) && Ordered(f) && f != [] && f[0] == Blk(base, 0) && base < r.addr && 0 < r.size
    requires forall k | 0 <= k < |f| && 0 < f[k].size :: Apart(f[k], r)
    ensures Linked(ptr, size[r.addr := r.size], f)
    ensures forall k | 0 <= k < |f| :: Apart(f[k], r)
  {
    var size1 := size[r.addr := r.size];
    forall k: nat | k < |f|
      ensures LinkAt(ptr, size1, f, k)
    {
      assert LinkAt(ptr, size, f, k);
    }
  }

  /** The region just freed, or a block that absorbed it, satisfies the request. */
  lemma InsertHolds(f: seq<Blk>, i: nat, b: Blk, n: int)
    requires Ordered(f) && Between(f, i, b.addr) && n <= b.size && i < |Insert(f, i, b)|
    ensures Ahead(Insert(f, i, b), n, Next(|Insert(f, i, b)|, i), i)
  {
    var g := Insert(f, i, b);
    var m := if Down(f, i, b) then i else i + 1;
    assert g[m] == InsertItem(f, i, b, m);
    assert Holds(g, n, m);
    assert Dist(|g|, Next(|g|, i), m) <= Dist(|g|, Next(|g|, i), i);
  }

  lemma AllocGood(ptr0: map<int, int>, size0: map<int, int>, ptr: map<int, int>, size: map<int, int>, freep: int,
                  base: int, f: seq<Blk>, at: nat, live: seq<Blk>, core: set<int>, q: nat, n: int)
    requires Good(ptr0, size0, freep, base, f, at, live, core) && freep != 0
    requires 0 < q < |f| && 0 < n <= f[q].size
    requires if f[q].size == n
             then size == size0 && ptr == ptr0[f[q - 1].addr := f[Next(|f|, q)].addr]
             else ptr == ptr0 && size == size0[f[q].addr := f[q].size - n][Carved(f, q, n).addr := n]
    ensures Good(ptr, size, f[q - 1].addr, base, Carve(f, q, n), q - 1, live + [Carved(f, q, n)], core)
  {
    assert LinkAt(ptr0, size0, f, q);
    CarvePartition(f, live, core, q, n);
    CarveOrdered(f, q, n);
    CarveLinked(ptr0, size0, ptr, size, f, q, n);
    AllocHeaded(size0, size, f, live, q, n, base);
    CarveAt(f, q, n, q - 1);
  }

  lemma AllocHeaded(size0: map<int, int>, size: map<int, int>, f: seq<Blk>, live: seq<Blk>, q: nat, n: int, base: int)
    requires Ordered(f) && LiesApart(f, live) && Headed(size0, live)
    requires Within(f, base, TOP) && Within(live, base + 1, TOP)
    requires 0 < q < |f| && 0 < n <= f[q].size && f[q].addr in size0 && size0[f[q].addr] == f[q].size
    requires size == if f[q].size == n then size0 else size0[f[q].addr := f[q].size - n][Carved(f, q, n).addr := n]
    ensures Headed(size, live + [Carved(f, q, n)])
    ensures Within(live + [Carved(f, q, n)], base + 1, TOP) && Within(Carve(f, q, n), base, TOP)
  {
    assert f[0].addr < f[q].addr;
    forall k | 0 <= k < |live|
      ensures live[k].addr != f[q].addr && live[k].addr != Carved(f, q, n).addr
    {
      assert Apart(f[q], live[k]);
    }
    forall i | 0 <= i < |Carve(f, q, n)|
      ensures base <= Carve(f, q, n)[i].addr && End(Carve(f, q, n)[i]) < TOP
    {
      CarveAt(f, q, n, i);
    }
  }

  ghost predicate Beneath(core: set<int>, base: int, brk: int) {
    base < brk && forall u | u in core :: u < brk
  }

  /** The argument morecore passes to sbrk, once C has converted it to int. */
  function SbrkArg(nu: int): int {
    var x := nu * UNIT % 0x1_0000_0000;
    if x < 0x8000_0000 then x else x - 0x1_0000_0000
  }

  /** Beyond 2^31 bytes the argument is negative, or so small that nothing like the request is granted. */
  lemma SbrkArgWraps()
    ensures Nunits(0x8000_0000) == BREAKS + 1 && SbrkArg(Nunits(0x8000_0000)) == -0x7FFF_FFF0
    ensures SbrkArg(Nunits(0xFFFF_FFE0)) == -UNIT && SbrkArg(Nunits(0xFFFF_FFFF)) == UNIT
  {
  }

  /** What morecore asks for: at least CORE units. */
  function Ask(nu: int): int {
    if nu < CORE then CORE else nu
  }

  /** The kernel's answer to sbrk: refused, or the break it leaves. */
  datatype Grant = Refuse | Break(after: int)

  /**
    * What sbrk may do.  With a positive argument the break rises, and to a page boundary, but may stop short
    * of the argument when memory runs out; with a negative one it falls, unless that would pass 0.  The
    * kernel refuses no process whose size is not 0, but the library is written as if it might.
    */
  predicate KernelMay(brk: int, arg: int, g: Grant) {
    match g
    case Refuse => true
    case Break(after) =>
      0 <= after < BREAKS &&
      if arg > 0 then brk <= after <= brk + (arg + UNIT - 1) / UNIT + PAGE
      else after == if brk * UNIT + arg >= 0 then brk + arg / UNIT else brk
  }

  /** malloc asks for the memory it needs exactly when the request stays below 2^31 bytes. */
  lemma SbrkArgExact(nbytes: nat)
    requires nbytes < 0x1_0000_0000
    ensures SbrkArg(Nunits(nbytes)) == Nunits(nbytes) * UNIT <==> Nunits(nbytes) < BREAKS
  {
  }

  const MOST := 0x1000_0001      // the units of the largest request a uint can state

  /** sbrk granted n units at the break, fully or not. */
  ghost predicate Granted(brk: int, core: set<int>, n: int, g: Grant, brk': int, core': set<int>, full: bool) {
    var region := Blk(brk, n);
    && g == Break(brk') && core' == core + Range(region) && core !! Range(region) && (full <==> End(region) <= brk')
    && (!full && SbrkArg(n) > 0 ==> Inside(region, brk'))
  }

  /** All the allocator relies on of the answer to a request for n units. */
  predicate Answers(brk: int, n: int, g: Grant) {
    g.Break? ==> g.after < BREAKS && (SbrkArg(n) > 0 ==> brk <= g.after)
  }

  lemma MayAnswer(brk: int, n: int, g: Grant)
    requires KernelMay(brk, SbrkArg(n), g)
    ensures Answers(brk, n, g)
  {
  }

  lemma ForgetPartition(f: seq<Blk>, live: seq<Blk>, core: set<int>, k: nat)
    requires Partition(f, live, core) && k < |live|
    ensures Partition(f, Without(live, k), core - Range(live[k]))
  {
    WithoutApart(f, live, k);
    var rest := Without(live, k);
    forall u
      ensures u in core - Range(live[k]) <==> Owned(f, u) || Owned(rest, u)
    {
      WithoutUnits(live, k, u);
    }
  }

  /** A full grant leaves everything beneath the break. */
  lemma GrantedBeneath(brk: int, core: set<int>, base: int, n: int, g: Grant, brk': int, core': set<int>)
    requires Beneath(core, base, brk) && 0 < n && Granted(brk, core, n, g, brk', core', true)
    ensures Beneath(core', base, brk')
  {
    forall u | u in core'
      ensures u < brk'
    {
      if u in Range(Blk(brk, n)) { assert Inside(Blk(brk, n), u); }
    }
  }

  /** Nothing was asked of sbrk, or it was asked once. */
  ghost predicate Obtained(brk: int, core: set<int>, n: int, g: Grant, brk': int, core': set<int>, full: bool,
                           calls: int) {
    if calls == 0 then brk' == brk && core' == core && full
    else calls == 1 && Granted(brk, core, n, g, brk', core', full)
  }

  lemma ObtainedOnce(b0: int, c0: set<int>, n: int, g: Grant, b1: int, c1: set<int>, full1: bool, k1: int,
                     b2: int, c2: set<int>, full2: bool, k2: int)
    requires Obtained(b0, c0, n, g, b1, c1, full1, k1) && Obtained(b1, c1, n, g, b2, c2, full2, k2) && k1 + k2 <= 1
    ensures Obtained(b0, c0, n, g, b2, c2, full1 && full2, k1 + k2)
  {
  }

  /** The heap as a call of malloc found it. */
  datatype Found = Found(brk: int, core: set<int>, grants: nat, live: seq<Blk>, free: seq<Blk>, at: nat)

  /** How malloc's search ends: with nothing when sbrk refused and nothing fits; with a block cut from the
      first that is big enough, or where none is, from what one grant of sbrk brought. */
  ghost predicate Ended(first: Found, last: Found, nunits: int, g: Grant, ap: int, full: bool) {
    && Obtained(first.brk, first.core, Ask(nunits), g, last.brk, last.core, full, last.grants - first.grants)
    && if ap == 0
       then g.Refuse? && last.grants == first.grants && last.live == first.live && last.free == first.free
            && !FitsSomewhere(first.free, nunits)
       else last.live == first.live + [Blk(ap - 1, nunits)] && if last.grants == first.grants
       then FirstFit(first.free, first.at, nunits, last.free, last.at)
       else !FitsSomewhere(first.free, nunits)
  }

  class Heap {
    var ptr: map<int, int>     // s.ptr of every header written
    var size: map<int, int>    // s.size of every header written
    var freep: int             // 0 before the first call
    var brk: int               // the program break
    const base: int            // address of the static header that starts the list
    ghost var free: seq<Blk>   // the free list in address order, base first
    ghost var at: nat          // where freep stands in it
    ghost var live: seq<Blk>   // blocks handed out and not yet freed
    ghost var core: set<int>   // units obtained from sbrk
    ghost var grants: nat      // successful calls of sbrk

    ghost predicate Valid()
      reads this
    {
      Good(ptr, size, freep, base, free, at, live, core)
    }

    /** All that the allocator manages is the process's: it lies beneath the break. */
    ghost predicate Backed()
      reads this
    {
      Beneath(core, base, brk) && brk < BREAKS
    }

    ghost function Sight(): Found
      reads this
    {
      Found(brk, core, grants, live, free, at)
    }

    ghost function Now(): Mark
      reads this
    {
      Mark(brk, free, at, core)
    }

    constructor (base: int, brk: int)
      requires 0 < base < brk < BREAKS
      ensures Valid() && Backed() && freep == 0 && live == [] && core == {} && grants == 0
      ensures this.base == base && this.brk == brk
    {
      this.base, this.brk := base, brk;
      ptr, size, freep := map[], map[], 0;
      free, at, live, core, grants := [], 0, [], {}, 0;
    }

    /** The list surgery of free: join bp to the block above, then p to bp. */
    method Join(bp: int, p: int)
      requires p in ptr && p in size && bp in size && p != bp
      requires ptr[p] in ptr && ptr[p] in size && (ptr[p] == bp ==> size[bp] != 0)
      modifies this`ptr, this`size, this`freep
      ensures freep == p && Agree(ptr, old(ptr), p, bp) && Agree(size, old(size), p, bp)
      ensures p in ptr && p in size && bp in ptr && bp in size
      ensures
        var next := old(ptr)[p];
        var up := bp + old(size)[bp] == next;
        var down := p + old(size)[p] == bp;
        var hi := old(size)[bp] + (if up then old(size)[next] else 0);
        var beyond := if up then old(ptr)[next] else next;
        && ptr[bp] == beyond && size[bp] == hi
        && ptr[p] == (if down then beyond else bp)
        && size[p] == old(size)[p] + (if down then hi else 0)
    {
      if bp + size[bp] == ptr[p] {
        size := size[bp := size[bp] + size[ptr[p]]];
        ptr := ptr[bp := ptr[ptr[p]]];
      } else {
        ptr := ptr[bp := ptr[p]];
      }
      if p + size[p] == bp {
        size := size[p := size[p] + size[bp]];
        ptr := ptr[p := ptr[bp]];
      } else {
        ptr := ptr[p := bp];
      }
      freep := p;
    }

    /** Join, seen as a step of the list: b goes in behind p = free[i]. */
    method Splice(bp: int, p: int, ghost i: nat, ghost b: Blk)
      requires Ordered(free) && Linked(ptr, size, free) && free != [] && free[0] == Blk(base, 0)
      requires Between(free, i, bp) && p == free[i].addr && b.addr == bp && 0 < b.size
      requires forall k | 0 <= k < |free| :: Apart(free[k], b)
      requires bp in size && size[bp] == b.size && base < bp
      modifies this`ptr, this`size, this`freep, this`free, this`at
      ensures free == Insert(old(free), i, b) && at == i && freep == p
      ensures Linked(ptr, size, free) && Agree(size, old(size), p, bp)
    {
      ghost var n := Next(|free|, i);
      assert LinkAt(ptr, size, free, i) && LinkAt(ptr, size, free, n);
      assert n == 0 ==> free[n].addr < bp;
      Join(bp, p);
      InsertLinked(old(ptr), old(size), ptr, size, free, i, b);
      free, at := Insert(free, i, b), i;
    }

    /** free's search: the block below bp, or the last one, found within one lap. */
    method Search(bp: int, ghost t: nat) returns (p: int, ghost steps: nat)
      requires Ordered(free) && Linked(ptr, size, free) && freep != 0 && at < |free| && freep == free[at].addr
      requires Between(free, t, bp) && free[0].addr < bp
      ensures p == free[t].addr && steps < |free|
    {
      ghost var j: nat := at;
      p, steps := freep, 0;
      assert LinkAt(ptr, size, free, j);
      while !(bp > p && bp < ptr[p])
        invariant j < |free| && p == free[j].addr && LinkAt(ptr, size, free, j)
        invariant steps + Dist(|free|, j, t) < |free|
        decreases Dist(|free|, j, t)
      {
        if p >= ptr[p] && (bp > p || bp < ptr[p]) { break; }
        assert LinkAt(ptr, size, free, Next(|free|, j));
        p := ptr[p];
        j, steps := Next(|free|, j), steps + 1;
      }
    }

    /** free: give the k-th live block back. */
    method Free(ap: int, ghost k: nat)
      requires Valid() && k < |live| && live[k].addr == ap - 1
      modifies this`ptr, this`size, this`freep, this`free, this`at, this`live
      ensures Valid() && freep != 0
      ensures live == Without(old(live), k)
      ensures Between(old(free), at, ap - 1) && free == Insert(old(free), at, old(live)[k])
    {
      ghost var t := FreePlace(free, live, k);
      ghost var steps;
      var p;
      p, steps := Search(ap - 1, t);
      Splice(ap - 1, p, t, live[k]);
      FreeGood(old(ptr), old(size), ptr, size, old(freep), base, old(free), old(at), live, core, t, k);
      live := Without(live, k);
    }

    /** sbrk: the old break, whatever the kernel makes the new one. */
    method Sbrk(g: Grant) returns (p: int)
      requires 0 < brk
      modifies this`brk
      ensures p == if g.Refuse? then -1 else old(brk)
      ensures brk == if g.Refuse? then old(brk) else g.after
    {
      if g.Refuse? { return -1; }
      p, brk := brk, g.after;
    }

    /** morecore: a region of at least nu units at the break, freed into the list.  It is full
        when the break has risen past it; if it is not, the next region starts inside it. */
    method Morecore(nu: int, g: Grant) returns (r: int, full: bool)
      requires Valid() && Backed() && freep != 0 && 0 < nu <= MOST && Answers(brk, Ask(nu), g)
      modifies this
      ensures Valid() && freep != 0 && live == old(live) && (r == 0 <==> g.Refuse?)
      ensures r == 0 ==>
        && free == old(free) && core == old(core) && grants == old(grants) && freep == old(freep) && brk == old(brk)
        && full
      ensures r != 0 ==> r == freep && grants == old(grants) + 1 && Ahead(free, nu, Next(|free|, at), at)
      ensures r != 0 ==> Granted(old(brk), old(core), Ask(nu), g, brk, core, full)
    {
      var n := if nu < CORE then CORE else nu;
      var hp := Sbrk(g);
      if hp == -1 { return 0, true; }
      full := hp + n <= brk;
      ghost var region := Blk(hp, n);
      GrantGood(ptr, size, freep, base, free, at, live, core, region);
      ghost var f0 := free;
      size := size[hp := n];
      live, core, grants := live + [region], core + Range(region), grants + 1;
      Free(hp + 1, |live| - 1);
      assert live == old(live);
      InsertHolds(f0, at, region, nu);
      r := freep;
    }

    /** The end of malloc: cut nunits off the tail of block p, or take all of it. */
    method Cut(prevp: int, p: int, nunits: int) returns (ap: int)
      requires p in ptr && p in size && 0 < nunits <= size[p]
      modifies this`ptr, this`size, this`freep
      ensures freep == prevp && ap - 1 == p + old(size)[p] - nunits
      ensures if old(size)[p] == nunits
              then size == old(size) && ptr == old(ptr)[prevp := old(ptr)[p]]
              else ptr == old(ptr) && size == old(size)[p := old(size)[p] - nunits][ap - 1 := nunits]
    {
      var bp := p;
      if size[p] == nunits {
        ptr := ptr[prevp := ptr[p]];
      } else {
        size := size[p := size[p] - nunits];
        bp := p + size[p];
        size := size[bp := nunits];
      }
      freep := prevp;
      ap := bp + 1;
    }

    /** Cut, seen as a step of the allocator: p = free[q] yields a new live block. */
    method Take(prevp: int, p: int, nunits: int, ghost q: nat) returns (ap: int)
      requires Valid() && freep != 0 && 0 < q < |free| && 0 < nunits <= free[q].size
      requires prevp == free[q - 1].addr && p == free[q].addr
      modifies this`ptr, this`size, this`freep, this`free, this`at, this`live
      ensures Valid() && freep != 0 && ap > base
      ensures free == Carve(old(free), q, nunits) && at == q - 1
      ensures live == old(live) + [Blk(ap - 1, nunits)]
    {
      assert LinkAt(ptr, size, free, q);
      ap := Cut(prevp, p, nunits);
      assert Blk(ap - 1, nunits) == Carved(free, q, nunits);
      free, at, live := Carve(free, q, nunits), q - 1, live + [Blk(ap - 1, nunits)];
      AllocGood(old(ptr), old(size), ptr, size, old(freep), base, old(free), old(at), old(live), core, q, nunits);
      assert Good(ptr, size, freep, base, free, at, live, core);
    }

    /** malloc's first lines: an empty circular list. */
    method Start()
      requires Valid()
      modifies this`ptr, this`size, this`freep, this`free, this`at
      ensures Valid() && freep != 0
      ensures old(freep) != 0 ==> unchanged(this)
      ensures old(freep) == 0 ==> free == [Blk(base, 0)]
    {
      if freep == 0 {
        ptr, size, freep := ptr[base := base], size[base := 0], base;
        free, at := [Blk(base, 0)], 0;
        assert forall u :: !Owned(free, u) && !Owned(live, u);
        assert LinkAt(ptr, size, free, 0);
      }
    }

    /** One block of the list: taken if it is big enough; at the end of the lap, morecore; else the next. */
    method Visit(prevp: int, p: int, nunits: int, g: Grant, ghost i: nat, ghost grown: bool)
      returns (done: bool, ap: int, full: bool, p': int, ghost i': nat)
      requires Valid() && freep != 0 && 0 < nunits <= MOST && i < |free|
      requires prevp == free[i].addr && p == free[Next(|free|, i)].addr && Lap(free, nunits, Next(|free|, i), at, grown)
      requires !grown ==> Backed() && Answers(brk, Ask(nunits), g)
      modifies this
      ensures Valid() && freep != 0
      ensures Obtained(old(brk), old(core), Ask(nunits), g, brk, core, full, grants - old(grants))
      ensures done ==> grants == old(grants) && if ap == 0
        then !grown && g.Refuse? && live == old(live) && free == old(free) && !FitsSomewhere(free, nunits)
        else live == old(live) + [Blk(ap - 1, nunits)]
      ensures done && ap != 0 && !grown ==> FirstFit(old(free), old(at), nunits, free, at)
      ensures grants != old(grants) ==> !FitsSomewhere(old(free), nunits)
      ensures !done ==> live == old(live) && i' < |free| && p' == free[i'].addr
      ensures !done && grants == old(grants) ==>
        && free == old(free) && at == old(at) && Lap(free, nunits, Next(|free|, i'), at, grown)
        && Dist(|free|, Next(|free|, i'), at) < Dist(|free|, Next(|free|, i), at)
      ensures !done && grants != old(grants) ==> !grown && Ahead(free, nunits, Next(|free|, i'), at)
    {
      ghost var j := Next(|free|, i);
      assert LinkAt(ptr, size, free, j);
      done, ap, full, p', i' := false, 0, true, p, j;
      if size[p] >= nunits {
        assert free[0] == Blk(base, 0) && j != 0;
        ap := Take(prevp, p, nunits, j);
        assert !grown ==> CutAt(old(free), old(at), nunits, free, at, j);
        return true, ap, true, p, 0;
      }
      if p == freep {
        AheadEnd(free, nunits, j);
        p', full := Morecore(nunits, g);
        done, i' := p' == 0, at;
      } else {
        AheadStep(free, nunits, j, at);
      }
    }

    /** p->s.ptr, of a block of the list. */
    method Follow(p: int, ghost i: nat) returns (q: int)
      requires Valid() && freep != 0 && i < |free| && p == free[i].addr
      ensures q == free[Next(|free|, i)].addr
    {
      assert LinkAt(ptr, size, free, i);
      q := ptr[p];
    }

    /** malloc is at block p of its lap, the one after prevp; first is the heap it began with. */
    ghost predicate Searching(prevp: int, p: int, nunits: int, g: Grant, full: bool, i: nat, grown: bool, first: Found)
      reads this
    {
      && Valid() && freep != 0 && 0 < nunits <= MOST && live == first.live
      && i < |free| && prevp == free[i].addr && p == free[Next(|free|, i)].addr
      && grants == first.grants + (if grown then 1 else 0) && (!grown ==> free == first.free && at == first.at)
      && (grown ==> !FitsSomewhere(first.free, nunits))
      && (!grown ==> Backed() && Answers(brk, Ask(nunits), g))
      && Obtained(first.brk, first.core, Ask(nunits), g, brk, core, full, grants - first.grants)
      && Lap(free, nunits, Next(|free|, i), at, grown)
    }

    /** One turn of malloc's loop. */
    method Advance(prevp: int, p: int, nunits: int, g: Grant, full: bool, ghost i: nat, ghost grown: bool,
                   ghost first: Found)
      returns (done: bool, ap: int, full': bool, prevp': int, p': int, ghost i': nat, ghost grown': bool)
      requires Searching(prevp, p, nunits, g, full, i, grown, first)
      modifies this
      ensures done ==> Valid() && freep != 0
      ensures done ==> Ended(first, Sight(), nunits, g, ap, full')
      ensures !done ==> Searching(prevp', p', nunits, g, full', i', grown', first) && (grown ==> grown')
      ensures !done && grown' == grown ==>
        Dist(|free|, Next(|free|, i'), at) < old(Dist(|free|, Next(|free|, i), at))
    {
      ghost var brk1, core1, before := brk, core, grants;
      var full1;
      done, ap, full1, prevp', i' := Visit(prevp, p, nunits, g, i, grown);
      full', p', grown' := full, p, grown;
      ObtainedOnce(first.brk, first.core, Ask(nunits), g, brk1, core1, full, before - first.grants, brk, core, full1,
                   grants - before);
      if !done {
        full', grown' := full && full1, grants != first.grants;
        p' := Follow(prevp', i');
      }
    }

    /** malloc's loop.  sbrk is asked only when no free block is big enough; otherwise the first that is
        gives the units.  sbrk succeeds at most once, whether the new region stands alone or merges into
        freep's own block. */
    method Allocate(nunits: int, g: Grant) returns (ap: int, full: bool)
      requires Valid() && Backed() && freep != 0 && 0 < nunits <= MOST && Answers(brk, Ask(nunits), g)
      modifies this
      ensures Valid() && freep != 0
      ensures Ended(old(Sight()), Sight(), nunits, g, ap, full)
    {
      var prevp := freep;
      ghost var i: nat := at;          // prevp == free[i]
      ghost var grown := false;
      ghost var first := Sight();
      var p := Follow(prevp, i);
      full := true;
      while true
        invariant Searching(prevp, p, nunits, g, full, i, grown, first)
        decreases !grown, Dist(|free|, Next(|free|, i), at)
      {
        var done;
        done, ap, full, prevp, p, i, grown := Advance(prevp, p, nunits, g, full, i, grown, first);
        if done { return; }
      }
    }

    /** The view of a heap that leaves one live block out of account. */
    ghost method Forget(k: nat)
      requires Valid() && k < |live|
      modifies this`live, this`core
      ensures Valid() && live == Without(old(live), k) && core == old(core) - Range(old(live)[k])
    {
      ForgetPartition(free, live, core, k);
      live, core := Without(live, k), core - Range(live[k]);
    }

    /** malloc: a block of Nunits(nbytes) units, or 0 when sbrk refuses and nothing fits.  Where a free block
        is big enough the kernel gives nothing: the first such block after the last one used does. */
    method Malloc(nbytes: nat, g: Grant) returns (ap: int, full: bool)
      requires Valid() && Backed() && nbytes < 0x1_0000_0000 && KernelMay(brk, SbrkArg(Ask(Nunits(nbytes))), g)
      modifies this
      ensures Valid() && freep != 0 && (full ==> Backed())
      ensures ap == 0 ==> g.Refuse? && live == old(live) && core == old(core) && !FitsSomewhere(free, Nunits(nbytes))
      ensures ap != 0 ==> ap > 0 && live == old(live) + [Blk(ap - 1, Nunits(nbytes))]
      ensures Obtained(old(brk), old(core), Ask(Nunits(nbytes)), g, brk, core, full, grants - old(grants))
      ensures FitsSomewhere(old(free), Nunits(nbytes)) ==>
        && ap != 0 && grants == old(grants) && brk == old(brk) && core == old(core)
        && FirstFit(old(free), old(at), Nunits(nbytes), free, at)
      ensures !FitsSomewhere(old(free), Nunits(nbytes)) ==> grants == old(grants) + (if ap == 0 then 0 else 1)
    {
      MayAnswer(brk, Ask(Nunits(nbytes)), g);
      Start();
      ghost var f1, at1 := free, at;
      ap, full := Allocate(Nunits(nbytes), g);
      assert FitsSomewhere(f1, Nunits(nbytes)) <==> FitsSomewhere(old(free), Nunits(nbytes));
      if ap != 0 && grants == old(grants) { FirstFits(f1, at1, Nunits(nbytes), free, at); }
      assert ap != 0 ==> live[|live| - 1] == Blk(ap - 1, Nunits(nbytes));
      if grants != old(grants) && full { GrantedBeneath(old(brk), old(core), base, Ask(Nunits(nbytes)), g, brk, core); }
    }
  }

  /** A request of the program: malloc, with what the kernel answers if it is asked, or free of
      whichever block it holds the number selects. */
  datatype Request = WantBytes(nbytes: nat, g: Grant) | GiveBack(which: nat)

  /** The pointers the program holds are those of the live blocks. */
  ghost predicate Handed(mine: seq<int>, live: seq<Blk>) {
    |mine| == |live| && forall k | 0 <= k < |mine| :: mine[k] == live[k].addr + 1
  }

  const NONE := -1                     // a request that was passed over, or no pointer to give

  predicate Sensible(request: Request, brk: int) {
    && request.WantBytes? && request.nbytes < 0x1_0000_0000
    && KernelMay(brk, SbrkArg(Ask(Nunits(request.nbytes))), request.g)
  }

  /** The heap between two requests: the break, the free list, the place in it where malloc last was, and
      the units obtained from sbrk. */
  datatype Mark = Mark(brk: int, free: seq<Blk>, at: nat, core: set<int>)

  /** What a request gave, from the heap before it to the heap after.  Sizes that no uint holds and answers
      the kernel cannot give are passed over.  malloc gives 0 only when nothing fits and sbrk refused; the
      break rises only when nothing fits, and otherwise the first fitting block is cut. */
  ghost predicate Serves(request: Request, got: int, from: Mark, to: Mark) {
    if !Sensible(request, from.brk) then got == NONE && to.brk == from.brk && to.core == from.core
    else
      var n := Nunits(request.nbytes);
      if FitsSomewhere(from.free, n) then
        && got > 0 && to.brk == from.brk && to.core == from.core
        && FirstFit(from.free, from.at, n, to.free, to.at)
      else if got == 0 then request.g.Refuse? && to.brk == from.brk && to.core == from.core
      else got > 0 && exists full :: Granted(from.brk, from.core, Ask(n), request.g, to.brk, to.core, full)
  }

  /** The live blocks after a request that gave the pointer p. */
  function Applied(live: seq<Blk>, request: Request, p: int): seq<Blk> {
    match request
    case WantBytes(nbytes, _) => if p > 0 then live + [Blk(p - 1, Nunits(nbytes))] else live
    case GiveBack(k) => if k < |live| then Without(live, k) else live
  }

  /** The blocks handed out and not given back. */
  function Replay(requests: seq<Request>, got: seq<int>): seq<Blk>
    requires |got| <= |requests|
  {
    if got == [] then [] else
      var n := |got| - 1;
      Applied(Replay(requests, got[..n]), requests[n], got[n])
  }

  method Serve(h: Heap, request: Request, mine: seq<int>) returns (mine': seq<int>, got: int, full: bool)
    requires h.Valid() && h.Backed() && Handed(mine, h.live)
    modifies h
    ensures h.Valid() && Handed(mine', h.live) && (full ==> h.Backed()) && (!full ==> request.WantBytes?)
    ensures Serves(request, got, old(h.Now()), h.Now())
    ensures h.live == Applied(old(h.live), request, got)
  {
    mine', got, full := mine, NONE, true;
    match request
    case WantBytes(n, g) =>
      if Sensible(request, h.brk) {
        got, full := h.Malloc(n, g);
        if got != 0 { mine' := mine + [got]; }
      }
    case GiveBack(k) =>
      if k < |mine| {
        h.Free(mine[k], k);
        mine' := mine[..k] + mine[k + 1..];
      }
  }

  /** What each request gave, with the heaps between them, each of them shared out among the free list and
      the blocks the program then held. */
  ghost predicate Told(requests: seq<Request>, got: seq<int>, marks: seq<Mark>) {
    && |got| <= |requests| && |marks| == |got| + 1
    && (forall k | 0 <= k < |got| :: Serves(requests[k], got[k], marks[k], marks[k + 1]))
    && (forall k | 0 <= k <= |got| :: Partition(marks[k].free, Replay(requests, got[..k]), marks[k].core))
  }

  lemma ToldNext(requests: seq<Request>, got: seq<int>, marks: seq<Mark>, p: int, to: Mark)
    requires Told(requests, got, marks) && |got| < |requests| && Serves(requests[|got|], p, marks[|got|], to)
    requires Partition(to.free, Applied(Replay(requests, got), requests[|got|], p), to.core)
    ensures Told(requests, got + [p], marks + [to])
    ensures Replay(requests, got + [p]) == Applied(Replay(requests, got), requests[|got|], p)
  {
    var got' := got + [p];
    assert got'[..|got|] == got && got'[..|got'|] == got';
    assert forall k | 0 <= k <= |got| :: got'[..k] == got[..k];
  }

  /** The heap and the program after some of the requests. */
  ghost predicate Reached(h: Heap, requests: seq<Request>, got: seq<int>, full: bool, marks: seq<Mark>, mine: seq<int>)
    reads h
  {
    && Told(requests, got, marks) && marks[|got|] == h.Now()
    && h.Valid() && Handed(mine, h.live) && h.live == Replay(requests, got)
    && if full then h.Backed() else got != [] && requests[|got| - 1].WantBytes?
  }

  method ServeNext(h: Heap, requests: seq<Request>, got: seq<int>, mine: seq<int>, ghost marks: seq<Mark>)
    returns (got': seq<int>, mine': seq<int>, full: bool, ghost marks': seq<Mark>)
    requires Reached(h, requests, got, true, marks, mine) && |got| < |requests|
    modifies h
    ensures Reached(h, requests, got', full, marks', mine') && |got'| == |got| + 1 && marks <= marks'
  {
    var p;
    mine', p, full := Serve(h, requests[|got|], mine);
    assert Partition(h.free, h.live, h.core);
    ToldNext(requests, got, marks, p, h.Now());
    got', marks' := got + [p], marks + [h.Now()];
  }

  /** Any sequence of requests, up to the first grant that is not full, keeps the invariant: an
      address-ordered, fully coalesced circular list, and a partition of the units obtained
      from sbrk into free blocks and the blocks handed out, which are as long as was asked.  Memory is
      obtained only when no free block is big enough.  If all grants were full, all those units are the
      process's. */
  method Session(h: Heap, requests: seq<Request>) returns (got: seq<int>, full: bool, ghost marks: seq<Mark>)
    requires h.Valid() && h.Backed() && h.live == []
    modifies h
    ensures h.Valid() && Partition(h.free, h.live, h.core) && Total(h.free) + Total(h.live) == |h.core|
    ensures h.freep != 0 ==> Linked(h.ptr, h.size, h.free)
    ensures |got| <= |requests| && h.live == Replay(requests, got)
    ensures if full then |got| == |requests| && h.Backed() else got != [] && requests[|got| - 1].WantBytes?
    ensures Told(requests, got, marks) && marks[0] == old(h.Now()) && marks[|got|] == h.Now()
  {
    var mine: seq<int> := [];
    got, full, marks := [], true, [h.Now()];
    while |got| < |requests| && full
      invariant Reached(h, requests, got, full, marks, mine) && marks[0] == old(h.Now())
      decreases |requests| - |got|
    {
      got, mine, full, marks := ServeNext(h, requests, got, mine, marks);
    }
    Conservation(h.free, h.live, h.core);
  }

  // ---------------------------------------------------------------- grants that are not full

  lemma OnlyBlock(f: seq<Blk>, b: Blk, core: set<int>)
    requires Partition(f, [b], core)
    ensures b.addr in core && b.addr + b.size - 1 in core
  {
    assert [b][0] == b && 0 < b.size;
    assert Inside([b][0], b.addr) && Inside([b][0], b.addr + b.size - 1);
    assert Owned([b], b.addr) && Owned([b], b.addr + b.size - 1);
  }

  lemma WholeRegion(f: seq<Blk>, b: Blk, core: set<int>, region: Blk)
    requires Partition(f, [b], core) && core == Range(region) && b.size == region.size
    ensures b == region
  {
    OnlyBlock(f, b, core);
    assert Inside(region, b.addr) && Inside(region, b.addr + b.size - 1);
  }

  /** A heap that has never been used gets one grant, and the whole of it is the block malloc returns. */
  method FirstBlock(h: Heap, nbytes: nat, g: Grant) returns (ap: int, full: bool)
    requires h.Valid() && h.Backed() && h.live == [] && h.core == {} && CORE <= Nunits(nbytes) && nbytes < 0x1_0000_0000
    requires g.Break? && KernelMay(h.brk, SbrkArg(Nunits(nbytes)), g)
    modifies h
    ensures h.Valid() && ap == old(h.brk) + 1 && h.brk == g.after && full == (old(h.brk) + Nunits(nbytes) <= h.brk)
    ensures h.live == [Blk(ap - 1, Nunits(nbytes))] && h.core == Range(h.live[0])
  {
    ap, full := h.Malloc(nbytes, g);
    OnlyBlock(h.free, h.live[0], h.core);
    if h.core == Range(Blk(old(h.brk), Nunits(nbytes))) {
      WholeRegion(h.free, h.live[0], h.core, Blk(old(h.brk), Nunits(nbytes)));
    }
  }

  lemma OnePageOrAll(nbytes: nat, brk: int)
    requires nbytes == 65520 && 0 < brk < BREAKS - CORE
    ensures Nunits(nbytes) == CORE
    ensures KernelMay(brk, SbrkArg(CORE), Break(brk + PAGE)) && KernelMay(brk, SbrkArg(CORE), Break(brk + CORE))
  {
  }

  /**
    * Two blocks handed out at once that share memory.  For a request of 4095 units of data sbrk gives one
    * page, since memory ran out; malloc hands the region out whole.  Memory is freed elsewhere, and the same
    * request is met in full, from the break on: inside the first block.
    */
  method ShortGrant(base: int, brk: int) returns (ap: int, ap': int, full: bool)
    requires 0 < base < brk < BREAKS - 2 * CORE
    ensures !full && ap == brk + 1 && ap' == brk + PAGE + 1
    ensures !Apart(Blk(ap - 1, Nunits(65520)), Blk(ap' - 1, Nunits(65520)))
  {
    var nbytes := 65520;
    OnePageOrAll(nbytes, brk);
    OnePageOrAll(nbytes, brk + PAGE);
    var h := new Heap(base, brk);
    ap, full := FirstBlock(h, nbytes, Break(brk + PAGE));
    h.Forget(0);
    assert h.core == {} && h.live == [];
    var full';
    ap', full' := FirstBlock(h, nbytes, Break(brk + PAGE + CORE));
  }

  /**
    * A request of 2^31 bytes makes sbrk's argument negative: the break stays, and malloc returns a block of
    * which no unit lies beneath it.
    */
  method HugeRequest(base: int, brk: int) returns (h: Heap, ap: int, full: bool)
    requires 0 < base < brk < BREAKS - 1
    ensures !full && ap == brk + 1 && h.brk == brk && h.Valid() && h.live == [Blk(ap - 1, BREAKS + 1)]
  {
    SbrkArgWraps();
    h := new Heap(base, brk);
    ap, full := FirstBlock(h, 0x8000_0000, Break(brk));
  }
}
