/** The buffer cache of kernel/bio.c: an LRU list of buffers in front of a disk, used by any
    number of processes that hold buffers under sleep locks. */
module Bio {
  import opened Common

  const NBUF := 30
  const HEAD := 30                     // the list head's place among the nodes

  type Data = seq<int>

  datatype Buf = Buf(dev: nat, blockno: nat, refcnt: nat, valid: bool, data: Data)

  /** The node at place i of the list; the head stands before the first and after the last. */
  function Node(order: seq<nat>, i: int): nat {
    if 0 <= i < |order| then order[i] else HEAD
  }

  ghost predicate LinkAt(next: seq<nat>, prev: seq<nat>, order: seq<nat>, i: int) {
    && |next| == |prev| == NBUF + 1
    && Node(order, i - 1) <= NBUF && Node(order, i) <= NBUF
    && next[Node(order, i - 1)] == Node(order, i)
    && prev[Node(order, i)] == Node(order, i - 1)
  }

  /** The prev and next pointers form one cycle through the head, in this order. */
  ghost predicate Linked(next: seq<nat>, prev: seq<nat>, order: seq<nat>) {
    && |next| == |prev| == NBUF + 1
    && (forall i: int | 0 <= i <= |order| :: LinkAt(next, prev, order, i))
    && (forall i | 0 <= i < |order| :: order[i] < NBUF)
    && (forall i, j | 0 <= i < j < |order| :: order[i] != order[j])
  }

  ghost predicate Permutation(order: seq<nat>) {
    |order| == NBUF && forall b: nat | b < NBUF :: b in order
  }

  lemma PlaceOf(order: seq<nat>, b: nat) returns (i: nat)
    requires Permutation(order) && b < NBUF
    ensures i < |order| && order[i] == b
  {
    assert b in order;
    i :| i < |order| && order[i] == b;
  }

  /** order with its i-th element brought to the front. */
  function Front(order: seq<nat>, i: nat): (r: seq<nat>)
    requires i < |order|
    ensures |r| == |order|
    ensures forall k | 0 <= k < |r| :: r[k] == FrontItem(order, i, k)
  {
    seq(|order|, k requires 0 <= k < |order| => FrontItem(order, i, k))
  }

  function FrontItem(order: seq<nat>, i: nat, k: nat): nat
    requires i < |order| && k < |order|
  {
    if k == 0 then order[i] else if k <= i then order[k - 1] else order[k]
  }

  /** The two lines that take b out of the list and the four that put it in front. */
  method MoveToFront(next: seq<nat>, prev: seq<nat>, b: nat) returns (next': seq<nat>, prev': seq<nat>)
    requires |next| == |prev| == NBUF + 1 && b < NBUF && next[b] <= NBUF && prev[b] <= NBUF
    requires next[HEAD] <= NBUF && next[prev[b]] == b && next[b] != b && prev[b] != b
    requires next[HEAD] == b ==> prev[b] == HEAD
    ensures |next'| == |prev'| == NBUF + 1
    ensures
      var first := if prev[b] == HEAD then next[b] else next[HEAD];
      && next' == next[prev[b] := next[b]][b := first][HEAD := b]
      && prev' == prev[next[b] := prev[b]][b := HEAD][first := b]
  {
    next', prev' := next, prev;
    prev' := prev'[next'[b] := prev'[b]];
    next' := next'[prev'[b] := next'[b]];
    next' := next'[b := next'[HEAD]];
    prev' := prev'[b := HEAD];
    prev' := prev'[next'[HEAD] := b];
    next' := next'[HEAD := b];
  }

  lemma LinkedFront(next: seq<nat>, prev: seq<nat>, next': seq<nat>, prev': seq<nat>, order: seq<nat>, i: nat)
    requires Linked(next, prev, order) && i < |order|
    requires |next'| == |prev'| == NBUF + 1
    requires
      var b := order[i];
      var first := if i == 0 then Node(order, 1) else order[0];
      && first <= NBUF
      && next' == next[Node(order, i - 1) := Node(order, i + 1)][b := first][HEAD := b]
      && prev' == prev[Node(order, i + 1) := Node(order, i - 1)][b := HEAD][first := b]
    ensures Linked(next', prev', Front(order, i))
  {
    var r := Front(order, i);
    forall k: int | 0 <= k <= |r|
      ensures LinkAt(next', prev', r, k)
    {
      assert Node(r, k - 1) == if k == 0 then HEAD else FrontItem(order, i, k - 1);
      assert Node(r, k) == if k == |r| then HEAD else FrontItem(order, i, k);
      if k <= 1 {
        assert LinkAt(next, prev, order, i);
      } else if k <= i {
        assert LinkAt(next, prev, order, k - 1);
      } else if k == i + 1 {
        assert LinkAt(next, prev, order, i) && LinkAt(next, prev, order, i + 1);
      } else {
        assert LinkAt(next, prev, order, k);
      }
    }
    forall j, k | 0 <= j < k < |r|
      ensures r[j] != r[k]
    {
      assert r[j] == FrontItem(order, i, j) && r[k] == FrontItem(order, i, k);
    }
  }

  /** Where b's neighbours and the first node are, as MoveToFront needs and uses them. */
  lemma Neighbours(next: seq<nat>, prev: seq<nat>, order: seq<nat>, i: nat)
    requires Linked(next, prev, order) && i < |order|
    ensures
      var b := order[i];
      && next[b] == Node(order, i + 1) <= NBUF && prev[b] == Node(order, i - 1) <= NBUF
      && next[HEAD] == order[0] && next[prev[b]] == b && next[b] != b && prev[b] != b
      && (prev[b] == HEAD <==> i == 0)
  {
    assert LinkAt(next, prev, order, i) && LinkAt(next, prev, order, i + 1) && LinkAt(next, prev, order, 0);
  }

  /** A block's place: its device and number. */
  type Place = (nat, nat)

  type Disk = map<Place, Data>

  function Key(b: Buf): Place {
    (b.dev, b.blockno)
  }

  /** A buffer after the block was read into it if need be. */
  function Filled(x: Buf, disk: Disk): Buf
    requires Key(x) in disk
  {
    if x.valid then x else x.(data := disk[Key(x)], valid := true)
  }

  /** At most one buffer per block.  Device 0 stands for buffers never used yet. */
  ghost predicate Unique(buf: seq<Buf>) {
    forall a, b | 0 <= a < b < |buf| && buf[a].dev != 0 :: Key(buf[a]) != Key(buf[b])
  }

  /** A buffer's reference count is the number of processes waiting for it or holding it;
      only a buffer that was filled can have changed since it was last written. */
  ghost predicate Counted(buf: seq<Buf>, holder: seq<Option<nat>>, users: seq<set<nat>>, dirty: seq<bool>) {
    && |buf| == |holder| == |users| == |dirty| == NBUF
    && forall b | 0 <= b < NBUF ::
         && buf[b].refcnt == |users[b]|
         && (holder[b].Some? ==> holder[b].value in users[b])
         && (dirty[b] ==> buf[b].valid && buf[b].dev != 0)
  }

  /** A valid buffer holds what is on the disk, unless it was changed and not written. */
  ghost predicate Coherent(buf: seq<Buf>, dirty: seq<bool>, disk: Disk) {
    |buf| == |dirty| &&
    forall b | 0 <= b < |buf| && buf[b].dev != 0 ::
      Key(buf[b]) in disk && (buf[b].valid && !dirty[b] ==> buf[b].data == disk[Key(buf[b])])
  }

  /** The list is sorted by when each buffer was last let go of by everyone. */
  ghost predicate Recency(order: seq<nat>, stamp: seq<nat>, clock: nat) {
    && |stamp| == NBUF && (forall i | 0 <= i < |order| :: order[i] < NBUF)
    && (forall b | 0 <= b < NBUF :: stamp[b] < clock)
    && forall i, j | 0 <= i < j < |order| :: stamp[order[i]] > stamp[order[j]]
  }

  lemma FrontOk(order: seq<nat>, stamp: seq<nat>, clock: nat, i: nat)
    requires Permutation(order) && Recency(order, stamp, clock) && i < |order|
    requires forall j, k | 0 <= j < k < |order| :: order[j] != order[k]
    ensures Permutation(Front(order, i))
    ensures Recency(Front(order, i), stamp[order[i] := clock], clock + 1)
  {
    var r := Front(order, i);
    forall b: nat | b < NBUF
      ensures b in r
    {
      assert b in order;
      var j :| 0 <= j < |order| && order[j] == b;
      assert b == r[if j == i then 0 else if j < i then j + 1 else j];
    }
  }

  /** What the protocol keeps besides the list. */
  ghost predicate Sound(buf: seq<Buf>, holder: seq<Option<nat>>, users: seq<set<nat>>, dirty: seq<bool>, disk: Disk) {
    Counted(buf, holder, users, dirty) && Unique(buf) && Coherent(buf, dirty, disk)
  }

  lemma HitSound(buf: seq<Buf>, holder: seq<Option<nat>>, users: seq<set<nat>>, dirty: seq<bool>, disk: Disk,
                 b: nat, pid: nat)
    requires Sound(buf, holder, users, dirty, disk) && b < NBUF && pid !in users[b]
    ensures Sound(buf[b := buf[b].(refcnt := buf[b].refcnt + 1)], holder, users[b := users[b] + {pid}], dirty, disk)
  {
    var buf' := buf[b := buf[b].(refcnt := buf[b].refcnt + 1)];
    assert forall c | 0 <= c < NBUF :: Key(buf'[c]) == Key(buf[c]);
  }

  lemma MissSound(buf: seq<Buf>, holder: seq<Option<nat>>, users: seq<set<nat>>, dirty: seq<bool>, disk: Disk,
                  b: nat, pid: nat, dev: nat, blockno: nat)
    requires Sound(buf, holder, users, dirty, disk) && b < NBUF && buf[b].refcnt == 0
    requires (dev, blockno) in disk && forall c | 0 <= c < NBUF :: Key(buf[c]) != (dev, blockno)
    ensures users[b] == {} && holder[b] == None
    ensures Sound(buf[b := Buf(dev, blockno, 1, false, buf[b].data)], holder, users[b := users[b] + {pid}],
                  dirty[b := false], disk)
  {
    assert users[b] == {};
  }

  lemma ReleaseSound(buf: seq<Buf>, holder: seq<Option<nat>>, users: seq<set<nat>>, dirty: seq<bool>, disk: Disk,
                     b: nat, pid: nat)
    requires Sound(buf, holder, users, dirty, disk) && b < NBUF && holder[b] == Some(pid)
    ensures buf[b].refcnt > 0
    ensures Sound(buf[b := buf[b].(refcnt := buf[b].refcnt - 1)], holder[b := None],
                  users[b := users[b] - {pid}], dirty, disk)
  {
    var buf' := buf[b := buf[b].(refcnt := |users[b]| - 1)];
    assert forall c | 0 <= c < NBUF :: Key(buf'[c]) == Key(buf[c]);
  }

  class Cache {
    var next: seq<nat>
    var prev: seq<nat>
    var buf: seq<Buf>
    var holder: seq<Option<nat>>       // who holds each buffer's sleep lock
    var disk: Disk
    ghost var order: seq<nat>          // the list, most recently used first
    ghost var stamp: seq<nat>          // when each buffer was last moved to the front
    ghost var clock: nat
    var users: seq<set<nat>>           // processes between bget and brelse (not in the kernel)
    var dirty: seq<bool>               // changed since last written (not in the kernel)

    ghost predicate Valid()
      reads this
    {
      && Linked(next, prev, order) && Permutation(order) && Recency(order, stamp, clock)
      && Sound(buf, holder, users, dirty, disk)
    }

    /** binit */
    constructor (disk: Disk)
      ensures Valid() && this.disk == disk
      ensures forall b | 0 <= b < NBUF :: buf[b].dev == 0 && buf[b].refcnt == 0 && !buf[b].valid
    {
      var nx: seq<nat>, pv: seq<nat> := seq(NBUF + 1, i => HEAD), seq(NBUF + 1, i => HEAD);
      ghost var o: seq<nat> := [];
      var b := 0;
      while b < NBUF
        invariant 0 <= b <= NBUF && Linked(nx, pv, o) && |o| == b
        invariant forall k | 0 <= k < b :: o[k] == b - 1 - k
      {
        assert LinkAt(nx, pv, o, 0);
        ghost var nx0, pv0, o0 := nx, pv, o;
        nx := nx[b := nx[HEAD]];
        pv := pv[b := HEAD];
        pv := pv[nx[HEAD] := b];
        nx := nx[HEAD := b];
        o := [b] + o;
        LinkedPush(nx0, pv0, nx, pv, o0, b);
        b := b + 1;
      }
      this.next, this.prev := nx, pv;
      this.buf := seq(NBUF, i => Buf(0, 0, 0, false, []));
      this.holder := seq(NBUF, i => None);
      this.disk := disk;
      this.order, this.stamp, this.clock := o, seq(NBUF, i => i), NBUF;
      this.users, this.dirty := seq(NBUF, i => {}), seq(NBUF, i => false);
      assert Permutation(o) by {
        forall x: nat | x < NBUF
          ensures x in o
        {
          assert o[NBUF - 1 - x] == x;
        }
      }
    }

    /** bget's first loop: the buffer of that block, or the head when there is none. */
    method FindCached(dev: nat, blockno: nat) returns (b: nat)
      requires Valid()
      ensures b == HEAD || (b < NBUF && Key(buf[b]) == (dev, blockno))
      ensures b == HEAD ==> forall c | 0 <= c < NBUF :: Key(buf[c]) != (dev, blockno)
    {
      assert LinkAt(next, prev, order, 0);
      b := next[HEAD];
      ghost var i := 0;
      while b != HEAD
        invariant 0 <= i <= |order| && b == Node(order, i)
        invariant forall j | 0 <= j < i :: Key(buf[order[j]]) != (dev, blockno)
        decreases |order| - i
      {
        if buf[b].dev == dev && buf[b].blockno == blockno { return; }
        assert LinkAt(next, prev, order, i + 1);
        b := next[b];
        i := i + 1;
      }
      forall c | 0 <= c < NBUF
        ensures Key(buf[c]) != (dev, blockno)
      {
        assert c in order;
      }
    }

    /** bget's second loop: of the buffers nobody uses, the one released longest ago. */
    method FindVictim() returns (b: nat)
      requires Valid()
      ensures b == HEAD || (b < NBUF && buf[b].refcnt == 0)
      ensures b == HEAD ==> forall c | 0 <= c < NBUF :: buf[c].refcnt != 0
      ensures b != HEAD ==> forall c | 0 <= c < NBUF && buf[c].refcnt == 0 :: stamp[b] <= stamp[c]
    {
      assert LinkAt(next, prev, order, |order|);
      b := prev[HEAD];
      ghost var i := |order| - 1;
      while b != HEAD
        invariant -1 <= i < |order| && b == Node(order, i)
        invariant forall j | i < j < |order| :: buf[order[j]].refcnt != 0
        decreases i
      {
        if buf[b].refcnt == 0 { break; }
        assert LinkAt(next, prev, order, i);
        b := prev[b];
        i := i - 1;
      }
      forall c | 0 <= c < NBUF && buf[c].refcnt == 0
        ensures b != HEAD && stamp[b] <= stamp[c]
      {
        assert c in order;
        var j :| 0 <= j < |order| && order[j] == c;
        assert j <= i;
      }
    }

    /** A buffer nobody uses is given to another block, whatever is in it. */
    method Recycle(b: nat, dev: nat, blockno: nat, pid: nat)
      requires Valid() && dev != 0 && (dev, blockno) in disk && b < NBUF && buf[b].refcnt == 0
      requires forall c | 0 <= c < NBUF :: Key(buf[c]) != (dev, blockno)
      modifies this`buf, this`users, this`dirty
      ensures Valid() && users == old(users)[b := old(users)[b] + {pid}] && dirty == old(dirty)[b := false]
      ensures buf == old(buf)[b := buf[b]] && !buf[b].valid && Key(buf[b]) == (dev, blockno)
      ensures old(users)[b] == {} && holder[b] == None
    {
      MissSound(buf, holder, users, dirty, disk, b, pid, dev, blockno);
      buf := buf[b := Buf(dev, blockno, 1, false, buf[b].data)];
      users := users[b := users[b] + {pid}];
      dirty := dirty[b := false];
    }

    /** bget up to the sleep lock: process pid gets a reference to the buffer of the block,
        recycling the least recently used free buffer when the block is not cached. */
    method Bget(dev: nat, blockno: nat, pid: nat) returns (b: nat)
      requires Valid() && dev != 0 && (dev, blockno) in disk
      requires forall c | 0 <= c < NBUF && Key(buf[c]) == (dev, blockno) :: pid !in users[c]
      modifies this`buf, this`users, this`dirty
      ensures Valid() && (b == HEAD || b < NBUF)
      ensures b == HEAD ==> unchanged(this)
      ensures b == HEAD ==> forall c | 0 <= c < NBUF :: users[c] != {} && Key(buf[c]) != (dev, blockno)
      ensures b != HEAD ==> Key(buf[b]) == (dev, blockno) && users == old(users)[b := old(users)[b] + {pid}]
      ensures b != HEAD && Key(old(buf)[b]) == (dev, blockno) ==>
        buf == old(buf)[b := old(buf)[b].(refcnt := |users[b]|)] && dirty == old(dirty)
      ensures b != HEAD && Key(old(buf)[b]) != (dev, blockno) ==>
        && buf == old(buf)[b := buf[b]] && !buf[b].valid && dirty == old(dirty)[b := false]
        && (forall c | 0 <= c < NBUF :: Key(old(buf)[c]) != (dev, blockno))
        && old(users)[b] == {} && holder[b] == None
        && forall c | 0 <= c < NBUF && old(users)[c] == {} :: stamp[b] <= stamp[c]
    {
      b := FindCached(dev, blockno);
      if b != HEAD {
        HitSound(buf, holder, users, dirty, disk, b, pid);
        buf := buf[b := buf[b].(refcnt := buf[b].refcnt + 1)];
        users := users[b := users[b] + {pid}];
        return;
      }
      b := FindVictim();
      if b != HEAD { Recycle(b, dev, blockno, pid); }
    }

    /** acquiresleep(&b->lock), once it is free. */
    method Lock(b: nat, pid: nat)
      requires Valid() && b < NBUF && pid in users[b] && holder[b] == None
      modifies this`holder
      ensures Valid() && holder == old(holder)[b := Some(pid)]
    {
      holder := holder[b := Some(pid)];
    }

    /** The rest of bread: read the block if the buffer does not have it. */
    method Fill(b: nat, pid: nat)
      requires Valid() && b < NBUF && holder[b] == Some(pid) && buf[b].dev != 0
      modifies this`buf
      ensures Valid() && buf == old(buf)[b := Filled(old(buf)[b], disk)]
    {
      if !buf[b].valid {
        buf := buf[b := buf[b].(data := disk[Key(buf[b])], valid := true)];
      }
    }

    /** The holder changes the data in memory. */
    method Edit(b: nat, pid: nat, data: Data)
      requires Valid() && b < NBUF && holder[b] == Some(pid) && buf[b].dev != 0 && buf[b].valid
      modifies this`buf, this`dirty
      ensures Valid() && buf == old(buf)[b := old(buf)[b].(data := data)] && dirty == old(dirty)[b := true]
    {
      buf := buf[b := buf[b].(data := data)];
      dirty := dirty[b := true];
    }

    /** bwrite: the disk gets the buffer's data. */
    method Bwrite(b: nat, pid: nat)
      requires Valid() && b < NBUF && holder[b] == Some(pid) && buf[b].dev != 0
      modifies this`disk, this`dirty
      ensures Valid() && disk == old(disk)[Key(buf[b]) := buf[b].data] && dirty == old(dirty)[b := false]
    {
      disk := disk[Key(buf[b]) := buf[b].data];
      dirty := dirty[b := false];
    }

    /** The second half of brelse: b becomes the most recently used. */
    method ToFront(b: nat) returns (ghost i: nat)
      requires Linked(next, prev, order) && Permutation(order) && Recency(order, stamp, clock) && b < NBUF
      modifies this`next, this`prev, this`order, this`stamp, this`clock
      ensures Linked(next, prev, order) && Permutation(order) && Recency(order, stamp, clock)
      ensures i < NBUF && |old(order)| == NBUF && old(order)[i] == b && order == Front(old(order), i)
      ensures stamp == old(stamp)[b := old(clock)]
    {
      i := PlaceOf(order, b);
      Neighbours(next, prev, order, i);
      var next', prev' := MoveToFront(next, prev, b);
      LinkedFront(next, prev, next', prev', order, i);
      FrontOk(order, stamp, clock, i);
      next, prev := next', prev';
      order, stamp, clock := Front(order, i), stamp[b := clock], clock + 1;
    }

    /** brelse: a buffer nobody wants any more goes to the front of the list, written or not. */
    method Brelse(b: nat, pid: nat) returns (ghost i: nat)
      requires Valid() && b < NBUF && holder[b] == Some(pid)
      modifies this`next, this`prev, this`buf, this`holder, this`order, this`stamp, this`clock, this`users
      ensures Valid() && holder == old(holder)[b := None] && users == old(users)[b := old(users)[b] - {pid}]
      ensures buf == old(buf)[b := old(buf)[b].(refcnt := |users[b]|)]
      ensures i < NBUF && |old(order)| == NBUF && old(order)[i] == b
      ensures if users[b] == {} then order == Front(old(order), i) && stamp == old(stamp)[b := old(clock)]
              else order == old(order) && stamp == old(stamp)
    {
      ReleaseSound(buf, holder, users, dirty, disk, b, pid);
      holder := holder[b := None];
      buf := buf[b := buf[b].(refcnt := buf[b].refcnt - 1)];
      users := users[b := users[b] - {pid}];
      i := PlaceOf(order, b);
      if buf[b].refcnt == 0 { i := ToFront(b); }
    }
  }

  lemma LinkedPush(next: seq<nat>, prev: seq<nat>, next': seq<nat>, prev': seq<nat>, order: seq<nat>, b: nat)
    requires Linked(next, prev, order) && b < NBUF && b !in order
    requires next[HEAD] <= NBUF && next' == next[b := next[HEAD]][HEAD := b]
    requires prev' == prev[b := HEAD][next[HEAD] := b]
    ensures Linked(next', prev', [b] + order)
  {
    assert LinkAt(next, prev, order, 0);
    var r := [b] + order;
    forall k: int | 0 <= k <= |r|
      ensures LinkAt(next', prev', r, k)
    {
      if k > 0 { assert LinkAt(next, prev, order, k - 1); }
    }
  }
}
