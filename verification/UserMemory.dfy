/** The bytes of a user address space, one by one: what copyin, copyout and copyinstr of kernel/vm.c move. */
module UserMemory {

  import opened Bytes
  import opened Common
  import opened Paging
  import opened VmState
  import opened Spaces

  /** Valid and with PTE_U set: what walkaddr lets through. */
  predicate IsUser(e: Pte) {
    IsValid(e) && Bit(e.flags, 4)
  }

  /** Every page the user can reach is a page of r. */
  ghost predicate UserOnly(own: Owners, maps: Maps, r: nat) {
    forall v {:trigger Item(maps, r, v)} | 0 <= v < NPAGE && IsUser(Item(maps, r, v)) ::
      Item(maps, r, v).frame in own && own[Item(maps, r, v).frame] == User(r, v)
  }

  function Where(maps: Maps, r: nat, a: nat): Pte {
    Item(maps, r, PageOf(a))
  }

  predicate Open(maps: Maps, r: nat, a: nat) {
    IsUser(Where(maps, r, a))
  }

  /** Address arithmetic is modulo 2 to the 64. */
  function Plus(a: nat, k: nat): nat {
    (a + k) % WORD
  }

  /** The byte at an address, where there is one. */
  function Peek(mem: Mem, maps: Maps, r: nat, a: nat): byte {
    var e := Where(maps, r, a);
    if e.Pte? && e.frame in mem then mem[e.frame][a % PGSIZE] else 0
  }

  function Poke(mem: Mem, maps: Maps, r: nat, a: nat, b: byte): (m: Mem) {
    var e := Where(maps, r, a);
    if e.Pte? && e.frame in mem then mem[e.frame := mem[e.frame][a % PGSIZE := b]] else mem
  }

  /** How many of n bytes from a on lie in pages the user can reach, before the first that does not. */
  function Reach(maps: Maps, r: nat, a: nat, n: nat): (k: nat)
    ensures k <= n
    decreases n
  {
    if n == 0 || !Open(maps, r, a) then 0 else 1 + Reach(maps, r, Plus(a, 1), n - 1)
  }

  function PeekAll(mem: Mem, maps: Maps, r: nat, a: nat, n: nat): (d: seq<byte>)
    ensures |d| == n && forall k | 0 <= k < n :: d[k] == Peek(mem, maps, r, Plus(a, k))
  {
    seq(n, k requires 0 <= k < n => Peek(mem, maps, r, Plus(a, k)))
  }

  function PokeAll(mem: Mem, maps: Maps, r: nat, a: nat, src: seq<byte>): (m: Mem)
    decreases |src|
  {
    if src == [] then mem
    else
      var k := |src| - 1;
      Poke(PokeAll(mem, maps, r, a, src[..k]), maps, r, Plus(a, k), src[k])
  }

  // ---------------------------------------------------------------- addresses

  lemma PlusPlus(a: nat, j: nat, k: nat)
    ensures Plus(Plus(a, j), k) == Plus(a, j + k)
  {
    var x := a + j;
    assert x == x / WORD * WORD + x % WORD;
    assert (x + k) % WORD == (x % WORD + k) % WORD by {
      ModShift(x % WORD + k, x / WORD);
    }
  }

  lemma ModShift(y: nat, q: nat)
    ensures (y + q * WORD) % WORD == y % WORD
  {
    var d := y / WORD;
    assert y + q * WORD == (d + q) * WORD + y % WORD;
    ModOf(d + q, y % WORD);
  }

  lemma {:induction false} ModOf(q: nat, m: nat)
    requires m < WORD
    ensures (q * WORD + m) % WORD == m
  {
  }

  /** Within a page, the page number stays and the offset counts up. */
  lemma InPage(a: nat, k: nat)
    requires a < WORD && a % PGSIZE + k < PGSIZE
    ensures Plus(a, k) == a + k && PageOf(a + k) == PageOf(a) && (a + k) % PGSIZE == a % PGSIZE + k
  {
    assert a + k < WORD;
    assert (a + k) / 4096 == a / 4096;
  }

  /** The address after the rest of a page is the start of the next one. */
  lemma NextPage(a: nat)
    requires a < WORD
    ensures Plus(a, PGSIZE - a % PGSIZE) == (PgRoundDown(a) + PGSIZE) % WORD
    ensures PgRoundDown(a) + a % PGSIZE == a && PageOf(PgRoundDown(a)) == PageOf(a)
  {
    assert a == a / PGSIZE * PGSIZE + a % PGSIZE;
  }

  // ---------------------------------------------------------------- pieces within a page

  lemma {:induction false} ReachChunk(maps: Maps, r: nat, a: nat, n: nat, k: nat)
    requires a < WORD && a % PGSIZE + k <= PGSIZE && k <= n && Open(maps, r, a)
    ensures Reach(maps, r, a, n) == k + Reach(maps, r, Plus(a, k), n - k)
    decreases k
  {
    if k > 0 {
      ReachChunk(maps, r, a, n, k - 1);
      InPage(a, k - 1);
      PlusPlus(a, k - 1, 1);
    } else {
      assert Plus(a, 0) == a;
    }
  }

  lemma PeekChunk(mem: Mem, maps: Maps, r: nat, a: nat, k: nat)
    requires a < WORD && a % PGSIZE + k <= PGSIZE && Open(maps, r, a) && Where(maps, r, a).frame in mem
    ensures PeekAll(mem, maps, r, a, k) == mem[Where(maps, r, a).frame][a % PGSIZE..a % PGSIZE + k]
  {
    var p := mem[Where(maps, r, a).frame];
    forall i | 0 <= i < k ensures PeekAll(mem, maps, r, a, k)[i] == p[a % PGSIZE + i] {
      InPage(a, i);
    }
  }

  lemma PeekJoin(mem: Mem, maps: Maps, r: nat, a: nat, j: nat, k: nat)
    ensures PeekAll(mem, maps, r, a, j) + PeekAll(mem, maps, r, Plus(a, j), k) == PeekAll(mem, maps, r, a, j + k)
  {
    forall i | 0 <= i < k ensures PeekAll(mem, maps, r, Plus(a, j), k)[i] == PeekAll(mem, maps, r, a, j + k)[j + i] {
      PlusPlus(a, j, i);
    }
  }

  lemma {:induction false} PokeJoin(mem: Mem, maps: Maps, r: nat, a: nat, s: seq<byte>, t: seq<byte>)
    ensures PokeAll(PokeAll(mem, maps, r, a, s), maps, r, Plus(a, |s|), t) == PokeAll(mem, maps, r, a, s + t)
    decreases |t|
  {
    if t == [] {
      assert s + t == s;
    } else {
      var k := |t| - 1;
      PokeJoin(mem, maps, r, a, s, t[..k]);
      assert (s + t)[..|s| + k] == s + t[..k];
      PlusPlus(a, |s|, k);
    }
  }

  /** The next n bytes after the first d. */
  lemma PokeMore(mem: Mem, maps: Maps, r: nat, a: nat, src: seq<byte>, d: nat, n: nat)
    requires d + n <= |src|
    ensures PokeAll(PokeAll(mem, maps, r, a, src[..d]), maps, r, Plus(a, d), src[d..][..n]) ==
      PokeAll(mem, maps, r, a, src[..d + n])
  {
    PokeJoin(mem, maps, r, a, src[..d], src[d..][..n]);
    assert src[..d] + src[d..][..n] == src[..d + n];
  }

  /** A copy that has written the first d bytes, all in reach. */
  ghost predicate Halfway(m0: Mem, mem: Mem, maps: Maps, r: nat, a: nat, src: seq<byte>, d: nat) {
    && d <= |src| && mem == PokeAll(m0, maps, r, a, src[..d])
    && Reach(maps, r, a, |src|) == d + Reach(maps, r, Plus(a, d), |src| - d)
  }

  lemma HalfwayStart(m0: Mem, maps: Maps, r: nat, a: nat, src: seq<byte>)
    requires a < WORD
    ensures Plus(a, 0) == a && Halfway(m0, m0, maps, r, a, src, 0)
  {
  }

  lemma HalfwayMore(m0: Mem, m1: Mem, m2: Mem, maps: Maps, r: nat, dst: nat, src: seq<byte>, d: nat, n: nat, a: nat)
    requires Halfway(m0, m1, maps, r, dst, src, d) && d + n <= |src| && a == Plus(dst, d)
    requires m2 == PokeAll(m1, maps, r, a, src[d..][..n])
    requires Reach(maps, r, a, |src[d..]|) == n + Reach(maps, r, Plus(a, n), |src[d..]| - n)
    ensures Halfway(m0, m2, maps, r, dst, src, d + n) && Plus(a, n) == Plus(dst, d + n)
  {
    PokeMore(m0, maps, r, dst, src, d, n);
    PlusPlus(dst, d, n);
  }

  lemma HalfwayEnd(m0: Mem, mem: Mem, maps: Maps, r: nat, a: nat, src: seq<byte>)
    requires Halfway(m0, mem, maps, r, a, src, |src|)
    ensures Reach(maps, r, a, |src|) == |src| && mem == PokeAll(m0, maps, r, a, src)
    ensures src[..|src|] == src
  {
    assert src[..|src|] == src;
    assert Reach(maps, r, Plus(a, |src|), 0) == 0;
  }

  /** A copy that has read the bytes d, all in reach. */
  ghost predicate ReadSoFar(mem: Mem, maps: Maps, r: nat, a: nat, n: nat, d: seq<byte>) {
    && |d| <= n && d == PeekAll(mem, maps, r, a, |d|)
    && Reach(maps, r, a, n) == |d| + Reach(maps, r, Plus(a, |d|), n - |d|)
  }

  lemma ReadStart(mem: Mem, maps: Maps, r: nat, a: nat, n: nat)
    requires a < WORD
    ensures Plus(a, 0) == a && ReadSoFar(mem, maps, r, a, n, [])
  {
  }

  lemma ReadMore(mem: Mem, maps: Maps, r: nat, a: nat, n: nat, d: seq<byte>, c: seq<byte>)
    requires ReadSoFar(mem, maps, r, a, n, d) && |d| + |c| <= n && c == PeekAll(mem, maps, r, Plus(a, |d|), |c|)
    requires Reach(maps, r, Plus(a, |d|), n - |d|) == |c| + Reach(maps, r, Plus(Plus(a, |d|), |c|), n - |d| - |c|)
    ensures ReadSoFar(mem, maps, r, a, n, d + c) && Plus(Plus(a, |d|), |c|) == Plus(a, |d + c|)
  {
    PlusPlus(a, |d|, |c|);
    PeekJoin(mem, maps, r, a, |d|, |c|);
  }

  /** Byte by byte or in one piece: the same within a page. */
  lemma {:induction false} PokeChunk(mem: Mem, maps: Maps, r: nat, a: nat, c: seq<byte>)
    requires a < WORD && a % PGSIZE + |c| <= PGSIZE && Open(maps, r, a) && Where(maps, r, a).frame in mem
    ensures PokeAll(mem, maps, r, a, c) ==
      mem[Where(maps, r, a).frame := Patch(mem[Where(maps, r, a).frame], a % PGSIZE, c)]
    decreases |c|
  {
    var f, o := Where(maps, r, a).frame, a % PGSIZE;
    if c == [] {
      assert Patch(mem[f], o, c) == mem[f];
    } else {
      var k := |c| - 1;
      PokeChunk(mem, maps, r, a, c[..k]);
      InPage(a, k);
      assert Patch(mem[f], o, c[..k])[o + k := c[k]] == Patch(mem[f], o, c);
    }
  }

  // ---------------------------------------------------------------- what a copy reaches and changes

  lemma {:induction false} ReachOpen(maps: Maps, r: nat, a: nat, n: nat, k: nat)
    requires a < WORD && Reach(maps, r, a, n) == n && k < n
    ensures Open(maps, r, Plus(a, k))
    decreases n
  {
    if k == 0 {
      assert Plus(a, 0) == a;
    } else {
      ReachOpen(maps, r, Plus(a, 1), n - 1, k - 1);
      PlusPlus(a, 1, k - 1);
    }
  }

  lemma {:induction false} OpenReach(maps: Maps, r: nat, a: nat, n: nat)
    requires a < WORD && forall k | 0 <= k < n :: Open(maps, r, Plus(a, k))
    ensures Reach(maps, r, a, n) == n
    decreases n
  {
    if n > 0 {
      assert Plus(a, 0) == a && Open(maps, r, Plus(a, 0));
      forall k | 0 <= k < n - 1 ensures Open(maps, r, Plus(Plus(a, 1), k)) {
        PlusPlus(a, 1, k);
      }
      OpenReach(maps, r, Plus(a, 1), n - 1);
    }
  }

  /** A copy goes through exactly when every page it touches is open to the user. */
  lemma ReachAll(maps: Maps, r: nat, a: nat, n: nat)
    requires a < WORD
    ensures Reach(maps, r, a, n) == n <==> forall k | 0 <= k < n :: Open(maps, r, Plus(a, k))
  {
    if Reach(maps, r, a, n) == n {
      forall k | 0 <= k < n ensures Open(maps, r, Plus(a, k)) {
        ReachOpen(maps, r, a, n, k);
      }
    }
    if forall k | 0 <= k < n :: Open(maps, r, Plus(a, k)) {
      OpenReach(maps, r, a, n);
    }
  }

  /** A copy into r leaves every frame alone that is not a page of r. */
  lemma {:induction false} PokeOthers(mem: Mem, own: Owners, maps: Maps, r: nat, a: nat, src: seq<byte>)
    requires mem.Keys == own.Keys && UserOnly(own, maps, r) && a < WORD && Reach(maps, r, a, |src|) == |src|
    ensures PokeAll(mem, maps, r, a, src).Keys == mem.Keys
    ensures forall f | f in own && !(own[f].User? && own[f].root == r) :: PokeAll(mem, maps, r, a, src)[f] == mem[f]
    decreases |src|
  {
    if src != [] {
      var k := |src| - 1;
      ReachPrefix(maps, r, a, |src|, k);
      PokeOthers(mem, own, maps, r, a, src[..k]);
      ReachAll(maps, r, a, |src|);
      assert Open(maps, r, Plus(a, k));
    }
  }

  lemma ReachPrefix(maps: Maps, r: nat, a: nat, n: nat, k: nat)
    requires a < WORD && k <= n && Reach(maps, r, a, n) == n
    ensures Reach(maps, r, a, k) == k
  {
    ReachAll(maps, r, a, n);
    ReachAll(maps, r, a, k);
  }

  const SPAN: nat := 0x80_0000_0000

  lemma SpotOf(x: nat)
    ensures PageOf(x) * PGSIZE + x % PGSIZE == x % SPAN
  {
    var q, o := x / 4096, x % 4096;
    var d, m := q / NPAGE, q % NPAGE;
    assert q == d * NPAGE + m;
    assert x == d * SPAN + (m * 4096 + o);
  }

  /** Addresses less than 2 to the 39 apart are different bytes. */
  lemma SpotsDiffer(a: nat, j: nat, k: nat)
    requires a < WORD && j < k < j + SPAN && k <= SPAN
    ensures PageOf(Plus(a, j)) != PageOf(Plus(a, k)) || Plus(a, j) % PGSIZE != Plus(a, k) % PGSIZE
  {
    SpotOf(Plus(a, j));
    SpotOf(Plus(a, k));
    ModSpan(a + j);
    ModSpan(a + k);
    Apart(a + j, k - j);
  }

  lemma ModSpan(x: nat)
    ensures x % WORD % SPAN == x % SPAN
  {
    var q := x / WORD;
    assert WORD == 0x200_0000 * SPAN;
    assert x == (q * 0x200_0000) * SPAN + x % WORD;
  }

  lemma Apart(x: nat, d: nat)
    requires 0 < d < SPAN
    ensures x % SPAN != (x + d) % SPAN
  {
  }

  /** Writing one byte of r leaves the others. */
  lemma PokePeek(mem: Mem, own: Owners, maps: Maps, r: nat, x: nat, y: nat, b: byte)
    requires mem.Keys == own.Keys && UserOnly(own, maps, r) && Open(maps, r, x) && Open(maps, r, y)
    ensures Peek(Poke(mem, maps, r, y, b), maps, r, y) == b
    ensures PageOf(x) != PageOf(y) || x % PGSIZE != y % PGSIZE ==>
      Peek(Poke(mem, maps, r, y, b), maps, r, x) == Peek(mem, maps, r, x)
  {
    var e, d := Where(maps, r, x), Where(maps, r, y);
    assert own[e.frame] == User(r, PageOf(x)) && own[d.frame] == User(r, PageOf(y));
  }

  /** Copying out and in again: the same bytes, for any range that does not run round the address space. */
  lemma {:induction false} RoundTrip(mem: Mem, own: Owners, maps: Maps, r: nat, a: nat, src: seq<byte>)
    requires mem.Keys == own.Keys && UserOnly(own, maps, r) && a < WORD && |src| <= SPAN
    requires Reach(maps, r, a, |src|) == |src|
    ensures PeekAll(PokeAll(mem, maps, r, a, src), maps, r, a, |src|) == src
    decreases |src|
  {
    if src != [] {
      var k := |src| - 1;
      ReachPrefix(maps, r, a, |src|, k);
      RoundTrip(mem, own, maps, r, a, src[..k]);
      PokeOthers(mem, own, maps, r, a, src[..k]);
      ReachAll(maps, r, a, |src|);
      var m := PokeAll(mem, maps, r, a, src[..k]);
      assert Open(maps, r, Plus(a, k));
      forall j | 0 <= j < |src| ensures Peek(Poke(m, maps, r, Plus(a, k), src[k]), maps, r, Plus(a, j)) == src[j] {
        if j < k {
          assert Peek(m, maps, r, Plus(a, j)) == PeekAll(m, maps, r, a, k)[j] == src[..k][j];
        }
        PokeStep(m, own, maps, r, a, j, k, src[k]);
      }
    }
  }

  lemma PokeStep(m: Mem, own: Owners, maps: Maps, r: nat, a: nat, j: nat, k: nat, b: byte)
    requires m.Keys == own.Keys && UserOnly(own, maps, r) && a < WORD && j <= k < SPAN
    requires Open(maps, r, Plus(a, j)) && Open(maps, r, Plus(a, k))
    ensures Peek(Poke(m, maps, r, Plus(a, k), b), maps, r, Plus(a, j)) ==
      if j == k then b else Peek(m, maps, r, Plus(a, j))
  {
    PokePeek(m, own, maps, r, Plus(a, j), Plus(a, k), b);
    if j < k {
      SpotsDiffer(a, j, k);
    }
  }

  // ---------------------------------------------------------------- strings

  /** The C string at an address, its NUL included, if it ends within max bytes before an unreachable page. */
  function CStr(mem: Mem, maps: Maps, r: nat, a: nat, max: nat): (s: Option<seq<byte>>)
    ensures s.Some? ==> 0 < |s.value| <= max
    decreases max
  {
    if max == 0 || !Open(maps, r, a) then None
    else if Peek(mem, maps, r, a) == 0 then Some([0])
    else Prepend([Peek(mem, maps, r, a)], CStr(mem, maps, r, Plus(a, 1), max - 1))
  }

  function Prepend(d: seq<byte>, s: Option<seq<byte>>): (t: Option<seq<byte>>)
    ensures t.Some? <==> s.Some?
    ensures s.Some? ==> t.value == d + s.value
  {
    if s.None? then None else Some(d + s.value)
  }

  /** k is where the string ends: the first NUL, in reach and within max bytes. */
  predicate EndsAt(mem: Mem, maps: Maps, r: nat, a: nat, max: nat, k: nat) {
    && k < max && Peek(mem, maps, r, Plus(a, k)) == 0
    && (forall j | 0 <= j <= k :: Open(maps, r, Plus(a, j)))
    && (forall j | 0 <= j < k :: Peek(mem, maps, r, Plus(a, j)) != 0)
  }

  lemma EndsNext(mem: Mem, maps: Maps, r: nat, a: nat, max: nat, k: nat)
    requires a < WORD && EndsAt(mem, maps, r, a, max, k) && k > 0
    ensures EndsAt(mem, maps, r, Plus(a, 1), max - 1, k - 1)
    ensures Open(maps, r, a) && Peek(mem, maps, r, a) != 0
  {
    assert Plus(a, 0) == a;
    var b := Plus(a, 1);
    forall j | 0 <= j <= k - 1
      ensures Open(maps, r, Plus(b, j)) && (j < k - 1 ==> Peek(mem, maps, r, Plus(b, j)) != 0)
    {
      PlusPlus(a, 1, j);
    }
    PlusPlus(a, 1, k - 1);
  }

  lemma {:induction false} StringFound(mem: Mem, maps: Maps, r: nat, a: nat, max: nat, k: nat)
    requires a < WORD && EndsAt(mem, maps, r, a, max, k)
    ensures CStr(mem, maps, r, a, max) == Some(PeekAll(mem, maps, r, a, k + 1))
    decreases max
  {
    assert Plus(a, 0) == a;
    assert PeekAll(mem, maps, r, a, 1) == [Peek(mem, maps, r, a)];
    if k > 0 {
      EndsNext(mem, maps, r, a, max, k);
      StringFound(mem, maps, r, Plus(a, 1), max - 1, k - 1);
      PeekJoin(mem, maps, r, a, 1, k);
    } else {
      assert Open(maps, r, Plus(a, 0));
    }
  }

  lemma {:induction false} StringEnds(mem: Mem, maps: Maps, r: nat, a: nat, max: nat) returns (k: nat)
    requires a < WORD && CStr(mem, maps, r, a, max).Some?
    ensures EndsAt(mem, maps, r, a, max, k)
    decreases max
  {
    assert Plus(a, 0) == a;
    k := 0;
    if Peek(mem, maps, r, a) != 0 {
      var b := Plus(a, 1);
      var i := StringEnds(mem, maps, r, b, max - 1);
      k := i + 1;
      forall j | 0 <= j <= k ensures Open(maps, r, Plus(a, j)) && (j < k ==> Peek(mem, maps, r, Plus(a, j)) != 0) {
        if j > 0 {
          PlusPlus(a, 1, j - 1);
          assert Open(maps, r, Plus(b, j - 1)) && (j - 1 < i ==> Peek(mem, maps, r, Plus(b, j - 1)) != 0);
        }
      }
      PlusPlus(a, 1, i);
    }
  }

  /** There is a string to copy in exactly when a NUL lies within max bytes before any page out of reach. */
  lemma StringIff(mem: Mem, maps: Maps, r: nat, a: nat, max: nat)
    requires a < WORD
    ensures CStr(mem, maps, r, a, max).Some? <==> exists k: nat :: EndsAt(mem, maps, r, a, max, k)
  {
    if CStr(mem, maps, r, a, max).Some? {
      var k := StringEnds(mem, maps, r, a, max);
    } else if exists k: nat :: EndsAt(mem, maps, r, a, max, k) {
      var k: nat :| EndsAt(mem, maps, r, a, max, k);
      StringFound(mem, maps, r, a, max, k);
    }
  }

  /** The string from a on is d followed by the string from d's end on. */
  ghost predicate StringSoFar(mem: Mem, maps: Maps, r: nat, a: nat, max: nat, d: seq<byte>) {
    |d| <= max && CStr(mem, maps, r, a, max) == Prepend(d, CStr(mem, maps, r, Plus(a, |d|), max - |d|))
  }

  lemma StringStart(mem: Mem, maps: Maps, r: nat, a: nat, max: nat)
    requires a < WORD
    ensures Plus(a, 0) == a && StringSoFar(mem, maps, r, a, max, [])
  {
    var s := CStr(mem, maps, r, a, max);
    assert s.Some? ==> [] + s.value == s.value;
  }

  lemma StringStep(mem: Mem, maps: Maps, r: nat, a: nat, max: nat, d: seq<byte>, b: byte)
    requires StringSoFar(mem, maps, r, a, max, d) && |d| < max
    requires Open(maps, r, Plus(a, |d|)) && b == Peek(mem, maps, r, Plus(a, |d|))
    ensures b == 0 ==> CStr(mem, maps, r, a, max) == Some(d + [0])
    ensures b != 0 ==> StringSoFar(mem, maps, r, a, max, d + [b])
  {
    if b != 0 {
      PlusPlus(a, |d|, 1);
      var s := CStr(mem, maps, r, Plus(a, |d| + 1), max - |d| - 1);
      assert s.Some? ==> d + ([b] + s.value) == d + [b] + s.value;
    }
  }

  lemma StringJoin(mem: Mem, maps: Maps, r: nat, a: nat, max: nat, d: seq<byte>, c: seq<byte>)
    requires StringSoFar(mem, maps, r, a, max, d) && StringSoFar(mem, maps, r, Plus(a, |d|), max - |d|, c)
    ensures StringSoFar(mem, maps, r, a, max, d + c) && Plus(Plus(a, |d|), |c|) == Plus(a, |d + c|)
  {
    PlusPlus(a, |d|, |c|);
    var s := CStr(mem, maps, r, Plus(a, |d + c|), max - |d| - |c|);
    assert s.Some? ==> d + (c + s.value) == d + c + s.value;
  }

  /** The byte k places on in an open page. */
  lemma PeekInPage(mem: Mem, maps: Maps, r: nat, a: nat, k: nat)
    requires a < WORD && a % PGSIZE + k < PGSIZE && Open(maps, r, a) && Where(maps, r, a).frame in mem
    ensures Open(maps, r, Plus(a, k)) && Peek(mem, maps, r, Plus(a, k)) == mem[Where(maps, r, a).frame][a % PGSIZE + k]
  {
    InPage(a, k);
  }
}
