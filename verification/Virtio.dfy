/** The virtio disk driver of kernel/virtio_disk.c against a device that may take requests
    and finish them in any order (sections 2.6 and 5.2.6 of VIRTIO 1.1). */
module Virtio {
  import opened Common

  const NUM := 8
  const U16 := 0x1_0000
  const F_NEXT := 1                    // VRING_DESC_F_NEXT
  const F_WRITE := 2                   // VRING_DESC_F_WRITE
  const NONE := 8                      // no descriptor

  type Data = seq<int>

  /** What a descriptor's address points at. */
  datatype Target = Nowhere | Header(op: nat) | Buffer(buf: nat) | Status(of: nat)

  datatype Desc = Desc(addr: Target, flags: nat, next: nat)

  datatype Op = Op(write: bool, sector: nat)

  datatype Info = Info(b: nat, status: nat)

  /** A struct buf: is the disk at work on it, where does it belong, what is in it. */
  datatype Buf = Buf(disk: bool, sector: nat, data: Data)

  datatype Phase = Queued | Fetched | Done | Acked

  /** A request in flight, indexed by its first descriptor. */
  datatype Chain = Chain(mid: nat, last: nat, id: nat, buf: nat, write: bool, phase: Phase, result: Data)

  predicate InChain(h: nat, c: Chain, d: nat) {
    d == h || d == c.mid || d == c.last
  }

  ghost predicate ChainOk(free: seq<bool>, owner: seq<nat>, chains: map<nat, Chain>, h: nat) {
    && |free| == |owner| == NUM && h in chains
    && var c := chains[h];
    && h < NUM && c.mid < NUM && c.last < NUM && h != c.mid && h != c.last && c.mid != c.last
    && owner[h] == owner[c.mid] == owner[c.last] == h
  }

  ghost predicate DescOk(free: seq<bool>, owner: seq<nat>, chains: map<nat, Chain>, d: nat) {
    && |free| == |owner| == NUM && d < NUM
    && (free[d] <==> owner[d] == NONE)
    && (!free[d] ==> owner[d] in chains && InChain(owner[d], chains[owner[d]], d))
  }

  /** Free descriptors and three-descriptor chains partition the NUM descriptors. */
  ghost predicate Partition(free: seq<bool>, owner: seq<nat>, chains: map<nat, Chain>) {
    && |free| == |owner| == NUM
    && (forall h: nat {:trigger ChainOk(free, owner, chains, h)} | h in chains :: ChainOk(free, owner, chains, h))
    && (forall d: nat | d < NUM :: DescOk(free, owner, chains, d))
  }

  /** Each chain in memory is the request the driver means. */
  ghost predicate FormatOk(desc: seq<Desc>, ops: seq<Op>, info: seq<Info>, bufs: map<nat, Buf>,
                           chains: map<nat, Chain>, h: nat)
  {
    && |desc| == |ops| == |info| == NUM && h in chains
    && var c := chains[h];
    && h < NUM && c.mid < NUM && c.last < NUM && c.buf in bufs
    && desc[h] == Desc(Header(h), F_NEXT, c.mid)
    && desc[c.mid] == Desc(Buffer(c.buf), (if c.write then 0 else F_WRITE) + F_NEXT, c.last)
    && desc[c.last] == Desc(Status(h), F_WRITE, 0)
    && ops[h] == Op(c.write, bufs[c.buf].sector)
    && info[h].b == c.buf
    && (Complete(c) ==> info[h].status == 0)
    && bufs[c.buf].disk == !c.phase.Acked?
    && (Complete(c) && !c.write ==> bufs[c.buf].data == c.result)
  }

  predicate Complete(c: Chain) {
    c.phase.Done? || c.phase.Acked?
  }

  predicate OtherBuf(chains: map<nat, Chain>, h: nat, g: nat) {
    h in chains && g in chains && h != g ==> chains[h].buf != chains[g].buf
  }

  ghost predicate Formatted(desc: seq<Desc>, ops: seq<Op>, info: seq<Info>, bufs: map<nat, Buf>,
                            chains: map<nat, Chain>) {
    && |desc| == |ops| == |info| == NUM
    && (forall h: nat {:trigger FormatOk(desc, ops, info, bufs, chains, h)} | h in chains ::
          FormatOk(desc, ops, info, bufs, chains, h))
    && (forall h: nat, g: nat :: OtherBuf(chains, h, g))
  }

  ghost predicate RingAt(ring: seq<nat>, lo: nat, q: seq<nat>, chains: map<nat, Chain>, phase: Phase, i: nat) {
    && |ring| == NUM && i < |q| && q[i] < NUM && ring[(lo + i) % NUM] == q[i]
    && q[i] in chains && chains[q[i]].phase == phase
  }

  predicate PhaseIn(q: seq<nat>, chains: map<nat, Chain>, phase: Phase, h: nat) {
    h in chains && chains[h].phase == phase ==> h in q
  }

  /** A ring whose entries from position lo on are the sequence q: the chains of one phase. */
  ghost predicate RingHolds(ring: seq<nat>, lo: nat, q: seq<nat>, chains: map<nat, Chain>, phase: Phase) {
    && |ring| == NUM && Distinct(q)
    && (forall i: nat | i < |q| :: RingAt(ring, lo, q, chains, phase, i))
    && (forall h: nat :: PhaseIn(q, chains, phase, h))
  }

  /** Distinct descriptor numbers are few. */
  lemma {:induction false} FewDistinct(q: seq<nat>, n: nat)
    requires Distinct(q) && forall i | 0 <= i < |q| :: q[i] < n
    ensures |q| <= n
  {
    if q != [] {
      assert q[0] < n;
      if i :| 0 <= i < |q| && q[i] == n - 1 {
        var r := q[..i] + q[i + 1..];
        FewDistinct(r, n - 1);
      } else {
        FewDistinct(q, n - 1);
      }
    }
  }

  /** Every request completes exactly once: it is in the log, or still on its way. */
  ghost predicate RequestOk(place: seq<nat>, log: seq<nat>, chains: map<nat, Chain>, n: nat) {
    n < |place| &&
    (n in log || (place[n] in chains && chains[place[n]].id == n))
  }

  ghost predicate ChainLogged(place: seq<nat>, log: seq<nat>, chains: map<nat, Chain>, h: nat) {
    h in chains ==>
      && chains[h].id < |place| && place[chains[h].id] == h
      && (chains[h].id in log <==> Complete(chains[h]))
  }

  ghost predicate Logged(place: seq<nat>, log: seq<nat>, chains: map<nat, Chain>) {
    && Distinct(log) && (forall i | 0 <= i < |log| :: log[i] < |place|)
    && (forall n: nat | n < |place| :: RequestOk(place, log, chains, n))
    && (forall h: nat :: ChainLogged(place, log, chains, h))
  }

  /** The device holds exactly the chains it has taken and not finished. */
  predicate TakenOk(pending: set<nat>, chains: map<nat, Chain>, h: nat) {
    h in pending <==> h in chains && chains[h].phase == Fetched
  }

  ghost predicate Taken(pending: set<nat>, chains: map<nat, Chain>) {
    forall h: nat :: TakenOk(pending, chains, h)
  }

  lemma WrapMod(n: nat)
    ensures n % U16 % NUM == n % NUM
    ensures (n + 1) % U16 == (n % U16 + 1) % U16
  {
  }

  /** 16-bit indices tell the ring's ends apart as long as the ring holds few entries. */
  lemma WrapEqual(lo: nat, k: nat)
    requires k < U16
    ensures lo % U16 == (lo + k) % U16 <==> k == 0
  {
  }

  /** Chains changed in phase and result alone. */
  ghost predicate SameShape(chains: map<nat, Chain>, chains': map<nat, Chain>) {
    && chains.Keys == chains'.Keys
    && forall h: nat | h in chains ::
         chains'[h] == chains[h].(phase := chains'[h].phase, result := chains'[h].result)
  }

  lemma PartitionSame(free: seq<bool>, owner: seq<nat>, chains: map<nat, Chain>, chains': map<nat, Chain>)
    requires Partition(free, owner, chains) && SameShape(chains, chains')
    ensures Partition(free, owner, chains')
  {
    forall h: nat | h in chains'
      ensures ChainOk(free, owner, chains', h)
    {
      assert ChainOk(free, owner, chains, h);
    }
    forall d: nat | d < NUM
      ensures DescOk(free, owner, chains', d)
    {
      assert DescOk(free, owner, chains, d);
    }
  }

  lemma PartitionAdd(free: seq<bool>, owner: seq<nat>, chains: map<nat, Chain>, h: nat, c: Chain)
    requires Partition(free, owner, chains) && h < NUM && c.mid < NUM && c.last < NUM
    requires h != c.mid && h != c.last && c.mid != c.last && free[h] && free[c.mid] && free[c.last]
    ensures h !in chains
    ensures Partition(free[h := false][c.mid := false][c.last := false], owner[h := h][c.mid := h][c.last := h],
                      chains[h := c])
  {
    assert DescOk(free, owner, chains, h) && DescOk(free, owner, chains, c.mid) && DescOk(free, owner, chains, c.last);
    assert h in chains ==> ChainOk(free, owner, chains, h);
    var free' := free[h := false][c.mid := false][c.last := false];
    var owner', chains' := owner[h := h][c.mid := h][c.last := h], chains[h := c];
    forall g: nat | g in chains'
      ensures ChainOk(free', owner', chains', g)
    {
      if g != h { assert ChainOk(free, owner, chains, g); }
    }
    forall d: nat | d < NUM
      ensures DescOk(free', owner', chains', d)
    {
      assert DescOk(free, owner, chains, d);
    }
  }

  lemma PartitionDrop(free: seq<bool>, owner: seq<nat>, chains: map<nat, Chain>, h: nat)
    requires Partition(free, owner, chains) && h in chains
    ensures h < NUM && chains[h].mid < NUM && chains[h].last < NUM
    ensures !free[h] && !free[chains[h].mid] && !free[chains[h].last]
    ensures
      var c := chains[h];
      Partition(free[h := true][c.mid := true][c.last := true], owner[h := NONE][c.mid := NONE][c.last := NONE],
                chains - {h})
  {
    var c := chains[h];
    assert ChainOk(free, owner, chains, h);
    assert DescOk(free, owner, chains, h) && DescOk(free, owner, chains, c.mid) && DescOk(free, owner, chains, c.last);
    var free' := free[h := true][c.mid := true][c.last := true];
    var owner', chains' := owner[h := NONE][c.mid := NONE][c.last := NONE], chains - {h};
    forall g: nat | g in chains'
      ensures ChainOk(free', owner', chains', g)
    {
      assert ChainOk(free, owner, chains, g);
    }
    forall d: nat | d < NUM
      ensures DescOk(free', owner', chains', d)
    {
      assert DescOk(free, owner, chains, d);
    }
  }

  /** Only chain h differs. */
  ghost predicate OnlyAt(chains: map<nat, Chain>, chains': map<nat, Chain>, h: nat) {
    forall g: nat {:trigger g in chains'} | g != h ::
      (g in chains <==> g in chains') && (g in chains ==> chains'[g] == chains[g])
  }

  /** Appending to a ring that is not full overwrites no unread entry. */
  lemma RingAdd(ring: seq<nat>, lo: nat, q: seq<nat>, chains: map<nat, Chain>, chains': map<nat, Chain>,
                phase: Phase, h: nat)
    requires RingHolds(ring, lo, q, chains, phase) && h < NUM && h in chains' && chains'[h].phase == phase
    requires h in chains ==> chains[h].phase != phase
    requires OnlyAt(chains, chains', h)
    ensures |q| < NUM
    ensures RingHolds(ring[(lo + |q|) % NUM := h], lo, q + [h], chains', phase)
  {
    var ring', q' := ring[(lo + |q|) % NUM := h], q + [h];
    assert forall i: nat | i < |q| :: q[i] < NUM && q[i] != h by {
      forall i: nat | i < |q|
        ensures q[i] < NUM && q[i] != h
      {
        assert RingAt(ring, lo, q, chains, phase, i);
      }
    }
    FewDistinct(q', NUM);
    forall i: nat | i < |q'|
      ensures RingAt(ring', lo, q', chains', phase, i)
    {
      if i < |q| {
        RingApart(lo + i, |q| - i);
        assert RingAt(ring, lo, q, chains, phase, i);
      }
    }
    forall g: nat
      ensures PhaseIn(q', chains', phase, g)
    {
      assert PhaseIn(q, chains, phase, g);
      if g == h { assert q'[|q|] == h; }
    }
  }

  lemma RingApart(a: nat, k: nat)
    requires 0 < k < NUM
    ensures a % NUM != (a + k) % NUM
  {
  }

  /** Taking the oldest entry: its chain leaves the phase. */
  lemma RingTake(ring: seq<nat>, lo: nat, q: seq<nat>, chains: map<nat, Chain>, chains': map<nat, Chain>, phase: Phase)
    requires RingHolds(ring, lo, q, chains, phase) && q != []
    requires q[0] in chains' && chains'[q[0]].phase != phase && OnlyAt(chains, chains', q[0])
    ensures ring[lo % NUM] == q[0] && RingHolds(ring, lo + 1, q[1..], chains', phase)
  {
    assert RingAt(ring, lo, q, chains, phase, 0);
    var hi, rest := lo + 1, q[1..];
    forall i: nat | i < |rest|
      ensures RingAt(ring, hi, rest, chains', phase, i)
    {
      assert RingAt(ring, lo, q, chains, phase, i + 1);
    }
    forall h: nat
      ensures PhaseIn(rest, chains', phase, h)
    {
      assert PhaseIn(q, chains, phase, h);
    }
  }

  /** A change to a chain outside the phase, before and after. */
  lemma RingOther(ring: seq<nat>, lo: nat, q: seq<nat>, chains: map<nat, Chain>, chains': map<nat, Chain>,
                  phase: Phase, h: nat)
    requires RingHolds(ring, lo, q, chains, phase) && OnlyAt(chains, chains', h)
    requires (h in chains ==> chains[h].phase != phase) && (h in chains' ==> chains'[h].phase != phase)
    ensures RingHolds(ring, lo, q, chains', phase)
  {
    forall i: nat | i < |q|
      ensures RingAt(ring, lo, q, chains', phase, i)
    {
      assert RingAt(ring, lo, q, chains, phase, i);
    }
    forall g: nat
      ensures PhaseIn(q, chains', phase, g)
    {
      assert PhaseIn(q, chains, phase, g);
    }
  }

  lemma TakenOther(pending: set<nat>, pending': set<nat>, chains: map<nat, Chain>, chains': map<nat, Chain>, h: nat)
    requires Taken(pending, chains) && OnlyAt(chains, chains', h) && TakenOk(pending', chains', h)
    requires forall g: nat | g != h :: g in pending <==> g in pending'
    ensures Taken(pending', chains')
  {
    forall g: nat
      ensures TakenOk(pending', chains', g)
    {
      assert TakenOk(pending, chains, g);
    }
  }

  /** Writing a new chain into free descriptors disturbs no chain in flight. */
  lemma FormattedAdd(desc: seq<Desc>, ops: seq<Op>, info: seq<Info>, bufs: map<nat, Buf>, chains: map<nat, Chain>,
                     free: seq<bool>, owner: seq<nat>, h: nat, c: Chain)
    requires Formatted(desc, ops, info, bufs, chains) && Partition(free, owner, chains)
    requires h < NUM && c.mid < NUM && c.last < NUM && free[h] && free[c.mid] && free[c.last]
    requires h != c.mid && h != c.last && c.mid != c.last && c.phase == Queued && c.buf in bufs
    requires forall g: nat | g in chains :: chains[g].buf != c.buf
    ensures Formatted(
              desc[h := Desc(Header(h), F_NEXT, c.mid)]
                  [c.mid := Desc(Buffer(c.buf), (if c.write then 0 else F_WRITE) + F_NEXT, c.last)]
                  [c.last := Desc(Status(h), F_WRITE, 0)],
              ops[h := Op(c.write, bufs[c.buf].sector)], info[h := Info(c.buf, 0xff)],
              bufs[c.buf := bufs[c.buf].(disk := true)], chains[h := c])
  {
    var desc' := desc[h := Desc(Header(h), F_NEXT, c.mid)]
                     [c.mid := Desc(Buffer(c.buf), (if c.write then 0 else F_WRITE) + F_NEXT, c.last)]
                     [c.last := Desc(Status(h), F_WRITE, 0)];
    var ops', info' := ops[h := Op(c.write, bufs[c.buf].sector)], info[h := Info(c.buf, 0xff)];
    var bufs' := bufs[c.buf := bufs[c.buf].(disk := true)];
    var chains' := chains[h := c];
    forall g: nat | g in chains'
      ensures FormatOk(desc', ops', info', bufs', chains', g)
    {
      if g != h {
        var x := chains[g];
        assert FormatOk(desc, ops, info, bufs, chains, g) && OtherBuf(chains', g, h);
        assert ChainOk(free, owner, chains, g);
        assert DescOk(free, owner, chains, g) && DescOk(free, owner, chains, x.mid);
        assert DescOk(free, owner, chains, x.last);
      }
    }
    forall f: nat, g: nat
      ensures OtherBuf(chains', f, g)
    {
      assert OtherBuf(chains, f, g);
    }
  }

  /** A chain's buffer and status changed along with its phase; all else stays. */
  lemma FormattedPhase(desc: seq<Desc>, ops: seq<Op>, info: seq<Info>, bufs: map<nat, Buf>, chains: map<nat, Chain>,
                       info': seq<Info>, bufs': map<nat, Buf>, h: nat, c: Chain)
    requires Formatted(desc, ops, info, bufs, chains) && h in chains && h < NUM
    requires c == chains[h].(phase := c.phase, result := c.result)
    requires |info'| == NUM && forall g | 0 <= g < NUM && g != h :: info'[g] == info[g]
    requires bufs'.Keys == bufs.Keys && forall b | b in bufs && b != c.buf :: bufs'[b] == bufs[b]
    requires FormatOk(desc, ops, info', bufs', chains[h := c], h)
    ensures Formatted(desc, ops, info', bufs', chains[h := c])
  {
    var chains' := chains[h := c];
    forall g: nat | g in chains'
      ensures FormatOk(desc, ops, info', bufs', chains', g)
    {
      if g != h { assert FormatOk(desc, ops, info, bufs, chains, g) && OtherBuf(chains, g, h); }
    }
    forall f: nat, g: nat
      ensures OtherBuf(chains', f, g)
    {
      assert OtherBuf(chains, f, g);
    }
  }

  lemma FormattedDrop(desc: seq<Desc>, ops: seq<Op>, info: seq<Info>, bufs: map<nat, Buf>, chains: map<nat, Chain>,
                      desc': seq<Desc>, info': seq<Info>, free: seq<bool>, owner: seq<nat>, h: nat)
    requires Formatted(desc, ops, info, bufs, chains) && Partition(free, owner, chains) && h in chains
    requires |desc'| == |info'| == NUM
    requires forall d | 0 <= d < NUM && !InChain(h, chains[h], d) :: desc'[d] == desc[d] && info'[d] == info[d]
    ensures Formatted(desc', ops, info', bufs, chains - {h})
  {
    var chains' := chains - {h};
    forall g: nat | g in chains'
      ensures FormatOk(desc', ops, info', bufs, chains', g)
    {
      assert FormatOk(desc, ops, info, bufs, chains, g);
      assert ChainOk(free, owner, chains, g) && ChainOk(free, owner, chains, h);
    }
    forall f: nat, g: nat
      ensures OtherBuf(chains', f, g)
    {
      assert OtherBuf(chains, f, g);
    }
  }

  lemma LoggedAdd(place: seq<nat>, log: seq<nat>, chains: map<nat, Chain>, h: nat, c: Chain)
    requires Logged(place, log, chains) && h !in chains && c.id == |place| && c.phase == Queued
    ensures Logged(place + [h], log, chains[h := c])
  {
    var place', chains' := place + [h], chains[h := c];
    forall n: nat | n <= |place|
      ensures RequestOk(place', log, chains', n)
    {
      if n < |place| { assert RequestOk(place, log, chains, n); }
    }
    forall g: nat
      ensures ChainLogged(place', log, chains', g)
    {
      assert ChainLogged(place, log, chains, g);
    }
  }

  /** A phase change that does not complete a request, or one that does and is logged. */
  lemma LoggedPhase(place: seq<nat>, log: seq<nat>, chains: map<nat, Chain>, h: nat, c: Chain, completes: bool)
    requires Logged(place, log, chains) && h in chains && c == chains[h].(phase := c.phase, result := c.result)
    requires if completes then !Complete(chains[h]) && Complete(c) else Complete(c) == Complete(chains[h])
    ensures Logged(place, if completes then log + [c.id] else log, chains[h := c])
  {
    var log', chains' := if completes then log + [c.id] else log, chains[h := c];
    assert ChainLogged(place, log, chains, h);
    forall n: nat | n < |place|
      ensures RequestOk(place, log', chains', n)
    {
      assert RequestOk(place, log, chains, n);
    }
    forall g: nat
      ensures ChainLogged(place, log', chains', g)
    {
      assert ChainLogged(place, log, chains, g);
    }
  }

  lemma LoggedDrop(place: seq<nat>, log: seq<nat>, chains: map<nat, Chain>, h: nat)
    requires Logged(place, log, chains) && h in chains && chains[h].phase.Acked?
    ensures Logged(place, log, chains - {h}) && chains[h].id in log
  {
    var chains' := chains - {h};
    assert ChainLogged(place, log, chains, h);
    forall n: nat | n < |place|
      ensures RequestOk(place, log, chains', n)
    {
      assert RequestOk(place, log, chains, n);
    }
    forall g: nat
      ensures ChainLogged(place, log, chains', g)
    {
      assert ChainLogged(place, log, chains, g);
    }
  }

  /** The driver's and the device's state at once, with the history that explains it. */
  datatype State = State(
    free: seq<bool>, desc: seq<Desc>, ops: seq<Op>, info: seq<Info>,
    availIdx: nat, availRing: seq<nat>, usedIdx: nat, usedRing: seq<nat>,
    driverUsed: nat,                   // disk.used_idx: the driver has looked this far
    deviceAvail: nat,                  // the device has looked this far
    pending: set<nat>,                 // chains the device has taken and not finished
    bufs: map<nat, Buf>, medium: map<nat, Data>,
    g: History)

  /** What explains a state: not part of the kernel or the device. */
  datatype History = History(
    owner: seq<nat>,                   // the chain each descriptor belongs to
    chains: map<nat, Chain>,
    seen: nat, acked: nat,             // avail entries the device, used entries the driver has read, ever
    queue: seq<nat>, done: seq<nat>,   // chains in the avail and the used ring, unread
    place: seq<nat>,                   // which chain each request was given
    log: seq<nat>)                     // requests completed, in order

  ghost predicate Good(s: State) {
    && Partition(s.free, s.g.owner, s.g.chains)
    && Formatted(s.desc, s.ops, s.info, s.bufs, s.g.chains)
    && RingHolds(s.availRing, s.g.seen, s.g.queue, s.g.chains, Queued)
    && RingHolds(s.usedRing, s.g.acked, s.g.done, s.g.chains, Done)
    && s.availIdx == (s.g.seen + |s.g.queue|) % U16 && s.deviceAvail == s.g.seen % U16
    && s.usedIdx == (s.g.acked + |s.g.done|) % U16 && s.driverUsed == s.g.acked % U16
    && Taken(s.pending, s.g.chains)
    && Logged(s.g.place, s.g.log, s.g.chains)
    && (forall b: nat {:trigger s.bufs[b]} | b in s.bufs :: s.bufs[b].sector in s.medium)
  }

  /** virtio_disk_rw has published a chain for request number |place|. */
  ghost predicate Submitted(s: State, t: State, h: nat, m: nat, l: nat, b: nat, write: bool) {
    && h < NUM && m < NUM && l < NUM && b in s.bufs
    && |s.free| == |s.desc| == |s.ops| == |s.info| == |s.availRing| == |s.g.owner| == NUM
    && t.free == s.free[h := false][m := false][l := false]
    && t.desc == s.desc[h := Desc(Header(h), F_NEXT, m)]
                       [m := Desc(Buffer(b), (if write then 0 else F_WRITE) + F_NEXT, l)]
                       [l := Desc(Status(h), F_WRITE, 0)]
    && t.ops == s.ops[h := Op(write, s.bufs[b].sector)]
    && t.info == s.info[h := Info(b, 0xff)]
    && t.bufs == s.bufs[b := s.bufs[b].(disk := true)]
    && t.availRing == s.availRing[s.availIdx % NUM := h]
    && t.availIdx == (s.availIdx + 1) % U16
    && t.g.owner == s.g.owner[h := h][m := h][l := h]
    && t.g.chains == s.g.chains[h := Chain(m, l, |s.g.place|, b, write, Queued, [])]
    && t.g.queue == s.g.queue + [h] && t.g.place == s.g.place + [h]
    && t.usedIdx == s.usedIdx && t.usedRing == s.usedRing && t.driverUsed == s.driverUsed
    && t.deviceAvail == s.deviceAvail && t.pending == s.pending && t.medium == s.medium
    && t.g.seen == s.g.seen && t.g.acked == s.g.acked && t.g.done == s.g.done && t.g.log == s.g.log
  }

  lemma SubmittedGood(s: State, t: State, h: nat, m: nat, l: nat, b: nat, write: bool)
    requires Good(s) && Submitted(s, t, h, m, l, b, write) && h < m < l
    requires s.free[h] && s.free[m] && s.free[l]
    requires forall x: nat | x in s.g.chains :: s.g.chains[x].buf != b
    ensures Good(t) && h !in s.g.chains
  {
    var c := Chain(m, l, |s.g.place|, b, write, Queued, []);
    PartitionAdd(s.free, s.g.owner, s.g.chains, h, c);
    assert Formatted(t.desc, t.ops, t.info, t.bufs, t.g.chains) by {
      FormattedAdd(s.desc, s.ops, s.info, s.bufs, s.g.chains, s.free, s.g.owner, h, c);
    }
    assert OnlyAt(s.g.chains, t.g.chains, h);
    assert RingHolds(t.availRing, t.g.seen, t.g.queue, t.g.chains, Queued)
        && t.availIdx == (t.g.seen + |t.g.queue|) % U16 by {
      RingAdd(s.availRing, s.g.seen, s.g.queue, s.g.chains, t.g.chains, Queued, h);
      WrapMod(s.g.seen + |s.g.queue|);
    }
    RingOther(s.usedRing, s.g.acked, s.g.done, s.g.chains, t.g.chains, Done, h);
    assert Taken(t.pending, t.g.chains) by {
      assert TakenOk(s.pending, s.g.chains, h);
      TakenOther(s.pending, s.pending, s.g.chains, t.g.chains, h);
    }
    LoggedAdd(s.g.place, s.g.log, s.g.chains, h, c);
  }

  /** The device reads the next avail entry. */
  function FetchOf(s: State): State
    requires s.g.queue != [] && s.g.queue[0] in s.g.chains
  {
    var h := s.g.queue[0];
    s.(deviceAvail := (s.deviceAvail + 1) % U16, pending := s.pending + {h},
       g := s.g.(chains := s.g.chains[h := s.g.chains[h].(phase := Fetched)],
                 seen := s.g.seen + 1, queue := s.g.queue[1..]))
  }

  lemma FetchGood(s: State)
    requires Good(s) && s.deviceAvail != s.availIdx
    ensures s.g.queue != [] && s.g.queue[0] in s.g.chains && s.availRing[s.deviceAvail % NUM] == s.g.queue[0]
    ensures Good(FetchOf(s))
  {
    var g := s.g;
    assert g.queue != [] && RingAt(s.availRing, g.seen, g.queue, g.chains, Queued, 0);
    var h := g.queue[0];
    WrapMod(g.seen);
    var t := FetchOf(s);
    var c := t.g.chains[h];
    assert OnlyAt(g.chains, t.g.chains, h);
    assert Partition(t.free, t.g.owner, t.g.chains) by { PartitionSame(s.free, g.owner, g.chains, t.g.chains); }
    assert Formatted(t.desc, t.ops, t.info, t.bufs, t.g.chains) by {
      assert FormatOk(s.desc, s.ops, s.info, s.bufs, g.chains, h);
      FormattedPhase(s.desc, s.ops, s.info, s.bufs, g.chains, s.info, s.bufs, h, c);
    }
    RingTake(s.availRing, g.seen, g.queue, g.chains, t.g.chains, Queued);
    assert RingHolds(t.usedRing, t.g.acked, t.g.done, t.g.chains, Done) by {
      RingOther(s.usedRing, g.acked, g.done, g.chains, t.g.chains, Done, h);
    }
    assert Taken(t.pending, t.g.chains) by { TakenOther(s.pending, t.pending, g.chains, t.g.chains, h); }
    assert Logged(t.g.place, t.g.log, t.g.chains) by { LoggedPhase(g.place, g.log, g.chains, h, c, false); }
  }

  /** The device finishes chain h: one transfer, a status of 0 and a used entry. */
  function CompleteOf(s: State, h: nat): State
    requires h in s.g.chains && s.g.chains[h].buf in s.bufs && h < NUM
    requires s.bufs[s.g.chains[h].buf].sector in s.medium && |s.info| == |s.usedRing| == NUM
  {
    var c := s.g.chains[h];
    var sector := s.bufs[c.buf].sector;
    s.(medium := if c.write then s.medium[sector := s.bufs[c.buf].data] else s.medium,
       bufs := if c.write then s.bufs else s.bufs[c.buf := s.bufs[c.buf].(data := s.medium[sector])],
       info := s.info[h := s.info[h].(status := 0)],
       usedRing := s.usedRing[s.usedIdx % NUM := h], usedIdx := (s.usedIdx + 1) % U16,
       pending := s.pending - {h},
       g := s.g.(chains := s.g.chains[h := c.(phase := Done, result := s.medium[sector])],
                 done := s.g.done + [h], log := s.g.log + [c.id]))
  }

  lemma CompleteGood(s: State, h: nat)
    requires Good(s) && h in s.pending
    ensures h in s.g.chains && FormatOk(s.desc, s.ops, s.info, s.bufs, s.g.chains, h)
    ensures s.bufs[s.g.chains[h].buf].sector in s.medium && |s.usedRing| == NUM
    ensures Good(CompleteOf(s, h)) && s.g.chains[h].id !in s.g.log
  {
    var g := s.g;
    assert TakenOk(s.pending, g.chains, h);
    assert FormatOk(s.desc, s.ops, s.info, s.bufs, g.chains, h);
    var t := CompleteOf(s, h);
    var c := t.g.chains[h];
    assert OnlyAt(g.chains, t.g.chains, h);
    assert Partition(t.free, t.g.owner, t.g.chains) by { PartitionSame(s.free, g.owner, g.chains, t.g.chains); }
    assert Formatted(t.desc, t.ops, t.info, t.bufs, t.g.chains) by {
      FormattedPhase(s.desc, s.ops, s.info, s.bufs, g.chains, t.info, t.bufs, h, c);
    }
    assert RingHolds(t.availRing, t.g.seen, t.g.queue, t.g.chains, Queued) by {
      RingOther(s.availRing, g.seen, g.queue, g.chains, t.g.chains, Queued, h);
    }
    assert RingHolds(t.usedRing, t.g.acked, t.g.done, t.g.chains, Done)
        && t.usedIdx == (t.g.acked + |t.g.done|) % U16 by {
      RingAdd(s.usedRing, g.acked, g.done, g.chains, t.g.chains, Done, h);
      WrapMod(g.acked + |g.done|);
    }
    assert Taken(t.pending, t.g.chains) by { TakenOther(s.pending, t.pending, g.chains, t.g.chains, h); }
    assert ChainLogged(g.place, g.log, g.chains, h);
    assert Logged(t.g.place, t.g.log, t.g.chains) by { LoggedPhase(g.place, g.log, g.chains, h, c, true); }
  }

  /** One turn of virtio_disk_intr's loop. */
  function AckOf(s: State): State
    requires s.g.done != [] && s.g.done[0] in s.g.chains && s.g.chains[s.g.done[0]].buf in s.bufs
  {
    var h := s.g.done[0];
    var c := s.g.chains[h];
    s.(bufs := s.bufs[c.buf := s.bufs[c.buf].(disk := false)], driverUsed := (s.driverUsed + 1) % U16,
       g := s.g.(chains := s.g.chains[h := c.(phase := Acked)], acked := s.g.acked + 1, done := s.g.done[1..]))
  }

  lemma AckGood(s: State)
    requires Good(s) && s.driverUsed != s.usedIdx
    ensures s.g.done != [] && s.usedRing[s.driverUsed % NUM] == s.g.done[0] && s.g.done[0] in s.g.chains
    ensures FormatOk(s.desc, s.ops, s.info, s.bufs, s.g.chains, s.g.done[0]) && s.g.chains[s.g.done[0]].phase == Done
    ensures Good(AckOf(s))
  {
    var g := s.g;
    assert g.done != [] && RingAt(s.usedRing, g.acked, g.done, g.chains, Done, 0);
    var h := g.done[0];
    WrapMod(g.acked);
    assert FormatOk(s.desc, s.ops, s.info, s.bufs, g.chains, h);
    var t := AckOf(s);
    var c := t.g.chains[h];
    assert OnlyAt(g.chains, t.g.chains, h);
    assert Partition(t.free, t.g.owner, t.g.chains) by { PartitionSame(s.free, g.owner, g.chains, t.g.chains); }
    assert Formatted(t.desc, t.ops, t.info, t.bufs, t.g.chains) by {
      FormattedPhase(s.desc, s.ops, s.info, s.bufs, g.chains, t.info, t.bufs, h, c);
    }
    assert RingHolds(t.availRing, t.g.seen, t.g.queue, t.g.chains, Queued) by {
      RingOther(s.availRing, g.seen, g.queue, g.chains, t.g.chains, Queued, h);
    }
    RingTake(s.usedRing, g.acked, g.done, g.chains, t.g.chains, Done);
    assert TakenOk(s.pending, g.chains, h);
    assert Taken(t.pending, t.g.chains) by { TakenOther(s.pending, t.pending, g.chains, t.g.chains, h); }
    assert Logged(t.g.place, t.g.log, t.g.chains) by { LoggedPhase(g.place, g.log, g.chains, h, c, false); }
  }

  /** The end of virtio_disk_rw: the chain of a finished request is given back. */
  ghost predicate Finished(s: State, t: State, h: nat) {
    && h in s.g.chains && |s.info| == |s.desc| == |t.desc| == |s.free| == |s.g.owner| == NUM
    && var c := s.g.chains[h];
    && h < NUM && c.mid < NUM && c.last < NUM
    && t.free == s.free[h := true][c.mid := true][c.last := true]
    && (forall d | 0 <= d < NUM && !InChain(h, c, d) :: t.desc[d] == s.desc[d])
    && t.info == s.info[h := s.info[h].(b := 0)]
    && t.g == s.g.(owner := s.g.owner[h := NONE][c.mid := NONE][c.last := NONE], chains := s.g.chains - {h})
    && t == s.(free := t.free, desc := t.desc, info := t.info, g := t.g)
  }

  lemma FinishGood(s: State, t: State, h: nat)
    requires Good(s) && Finished(s, t, h) && s.g.chains[h].buf in s.bufs && !s.bufs[s.g.chains[h].buf].disk
    ensures Good(t) && s.g.chains[h].id in s.g.log && s.g.chains[h].phase == Acked
  {
    var g := s.g;
    assert FormatOk(s.desc, s.ops, s.info, s.bufs, g.chains, h);
    assert OnlyAt(g.chains, t.g.chains, h);
    assert Partition(t.free, t.g.owner, t.g.chains) by { PartitionDrop(s.free, g.owner, g.chains, h); }
    assert Formatted(t.desc, t.ops, t.info, t.bufs, t.g.chains) by {
      FormattedDrop(s.desc, s.ops, s.info, s.bufs, g.chains, t.desc, t.info, s.free, g.owner, h);
    }
    assert RingHolds(t.availRing, t.g.seen, t.g.queue, t.g.chains, Queued) by {
      RingOther(s.availRing, g.seen, g.queue, g.chains, t.g.chains, Queued, h);
    }
    assert RingHolds(t.usedRing, t.g.acked, t.g.done, t.g.chains, Done) by {
      RingOther(s.usedRing, g.acked, g.done, g.chains, t.g.chains, Done, h);
    }
    assert Taken(t.pending, t.g.chains) by {
      assert TakenOk(s.pending, g.chains, h);
      TakenOther(s.pending, t.pending, g.chains, t.g.chains, h);
    }
    LoggedDrop(g.place, g.log, g.chains, h);
  }

  class Disk {
    var free: seq<bool>
    var desc: seq<Desc>
    var ops: seq<Op>
    var info: seq<Info>
    var availIdx: nat
    var availRing: seq<nat>
    var usedIdx: nat
    var usedRing: seq<nat>
    var driverUsed: nat
    var deviceAvail: nat
    var pending: set<nat>
    var bufs: map<nat, Buf>
    var medium: map<nat, Data>
    ghost var g: History

    ghost function Snap(): State
      reads this
    {
      State(free, desc, ops, info, availIdx, availRing, usedIdx, usedRing, driverUsed, deviceAvail, pending,
            bufs, medium, g)
    }

    ghost predicate Valid()
      reads this
    {
      Good(Snap())
    }

    /** The queue as virtio_disk_init leaves it. */
    constructor (bufs: map<nat, Buf>, medium: map<nat, Data>)
      requires forall b: nat | b in bufs :: bufs[b].sector in medium
      ensures Valid() && g.chains == map[] && this.bufs == bufs && this.medium == medium
    {
      free := seq(NUM, i => true);
      desc := seq(NUM, i => Desc(Nowhere, 0, 0));
      ops := seq(NUM, i => Op(false, 0));
      info := seq(NUM, i => Info(0, 0));
      availIdx, availRing, usedIdx, usedRing := 0, seq(NUM, i => 0), 0, seq(NUM, i => 0);
      driverUsed, deviceAvail, pending := 0, 0, {};
      this.bufs, this.medium := bufs, medium;
      g := History(seq(NUM, i => NONE), map[], 0, 0, [], [], [], []);
    }

    /** alloc_desc: the least free descriptor, or -1. */
    method AllocDesc() returns (i: int)
      requires |free| == NUM
      modifies this`free
      ensures -1 <= i < NUM
      ensures i == -1 ==> free == old(free) && forall d | 0 <= d < NUM :: !free[d]
      ensures i >= 0 ==> old(free)[i] && free == old(free)[i := false] && forall d | 0 <= d < i :: !free[d]
    {
      i := 0;
      while i < NUM
        invariant 0 <= i <= NUM && free == old(free)
        invariant forall d | 0 <= d < i :: !free[d]
      {
        if free[i] {
          free := free[i := false];
          return;
        }
        i := i + 1;
      }
      i := -1;
    }

    /** free_desc; the kernel panics unless i is a descriptor in use. */
    method FreeDesc(i: nat)
      requires |free| == |desc| == NUM && i < NUM && !free[i]
      modifies this`free, this`desc
      ensures free == old(free)[i := true] && desc == old(desc)[i := Desc(Nowhere, 0, 0)]
    {
      desc := desc[i := Desc(Nowhere, 0, 0)];
      free := free[i := true];
    }

    /** The error path of alloc3_desc: give back what was taken. */
    method Undo(idx: seq<nat>, ghost was: seq<bool>)
      requires |free| == |desc| == |was| == NUM
      requires forall a | 0 <= a < |idx| :: idx[a] < NUM && was[idx[a]]
      requires forall a, b | 0 <= a < b < |idx| :: idx[a] < idx[b]
      requires forall d: nat | d < NUM :: free[d] == (was[d] && d !in idx)
      modifies this`free, this`desc
      ensures free == was && |desc| == NUM && forall d | 0 <= d < NUM && !was[d] :: desc[d] == old(desc)[d]
    {
      for j := 0 to |idx|
        invariant |free| == |desc| == NUM
        invariant forall d: nat | d < NUM :: free[d] == (was[d] && d !in idx[j..])
        invariant forall d | 0 <= d < NUM && !was[d] :: desc[d] == old(desc)[d]
      {
        assert idx[j..] == [idx[j]] + idx[j + 1..];
        FreeDesc(idx[j]);
      }
    }

    /** alloc3_desc: three free descriptors, or none taken when there are fewer. */
    method Alloc3() returns (ok: bool, idx: seq<nat>)
      requires |free| == |desc| == NUM
      modifies this`free, this`desc
      ensures |free| == |desc| == NUM
      ensures forall d | 0 <= d < NUM && !old(free)[d] :: desc[d] == old(desc)[d]
      ensures !ok ==> free == old(free) && |idx| < 3 && forall d: nat | d < NUM && free[d] :: d in idx
      ensures ok ==>
        && |idx| == 3 && idx[0] < idx[1] < idx[2] < NUM
        && old(free)[idx[0]] && old(free)[idx[1]] && old(free)[idx[2]]
        && free == old(free)[idx[0] := false][idx[1] := false][idx[2] := false] && desc == old(desc)
    {
      idx := [];
      for i := 0 to 3
        invariant |idx| == i && |free| == NUM && desc == old(desc)
        invariant forall a | 0 <= a < i :: idx[a] < NUM && old(free)[idx[a]]
        invariant forall a, b | 0 <= a < b < i :: idx[a] < idx[b]
        invariant forall d: nat | d < NUM :: free[d] == (old(free)[d] && d !in idx)
        invariant forall d: nat | d < NUM && i > 0 && d <= idx[i - 1] :: !free[d]
      {
        var a := AllocDesc();
        if a < 0 {
          Undo(idx, old(free));
          return false, idx;
        }
        idx := idx + [a];
      }
      return true, idx;
    }

    /** free_chain: follows the next links and stops where they end. */
    method FreeChain(h: nat, ghost c: Chain)
      requires |free| == |desc| == NUM && h < NUM && c.mid < NUM && c.last < NUM
      requires h != c.mid && h != c.last && c.mid != c.last && !free[h] && !free[c.mid] && !free[c.last]
      requires desc[h].flags == F_NEXT && desc[h].next == c.mid
      requires desc[c.mid].flags % 2 == F_NEXT && desc[c.mid].next == c.last && desc[c.last].flags == F_WRITE
      modifies this`free, this`desc
      ensures free == old(free)[h := true][c.mid := true][c.last := true] && |desc| == NUM
      ensures forall d | 0 <= d < NUM && !InChain(h, c, d) :: desc[d] == old(desc)[d]
    {
      var i := h;
      ghost var left := 3;
      while true
        invariant |free| == |desc| == NUM && 1 <= left <= 3
        invariant i == if left == 3 then h else if left == 2 then c.mid else c.last
        invariant free == if left == 3 then old(free) else if left == 2 then old(free)[h := true]
                          else old(free)[h := true][c.mid := true]
        invariant forall d | 0 <= d < NUM && !(left < 3 && d == h) && !(left < 2 && d == c.mid) ::
          desc[d] == old(desc)[d]
        decreases left
      {
        var flag, nxt := desc[i].flags, desc[i].next;
        FreeDesc(i);
        if flag % 2 != F_NEXT { break; }
        i := nxt;
        left := left - 1;
      }
    }

    /** The middle of virtio_disk_rw: format three descriptors ... */
    method Format(b: nat, write: bool, h: nat, m: nat, l: nat)
      requires |desc| == |ops| == |info| == NUM && h < NUM && m < NUM && l < NUM && b in bufs
      modifies this`desc, this`ops, this`info
      ensures desc == old(desc)[h := Desc(Header(h), F_NEXT, m)]
                               [m := Desc(Buffer(b), (if write then 0 else F_WRITE) + F_NEXT, l)]
                               [l := Desc(Status(h), F_WRITE, 0)]
      ensures ops == old(ops)[h := Op(write, bufs[b].sector)] && info == old(info)[h := Info(b, 0xff)]
    {
      ops := ops[h := Op(write, bufs[b].sector)];
      desc := desc[h := Desc(Header(h), F_NEXT, m)];
      desc := desc[m := Desc(Buffer(b), (if write then 0 else F_WRITE) + F_NEXT, l)];
      info := info[h := Info(b, 0xff)];
      desc := desc[l := Desc(Status(h), F_WRITE, 0)];
    }

    /** ... and publish the chain. */
    method Publish(b: nat, write: bool, h: nat, m: nat, l: nat)
      requires |free| == |desc| == |ops| == |info| == |availRing| == |g.owner| == NUM
      requires h < m < l < NUM && b in bufs && free == free[h := false][m := false][l := false]
      modifies this
      ensures Submitted(old(Snap()), Snap(), h, m, l, b, write)
    {
      Format(b, write, h, m, l);
      bufs := bufs[b := bufs[b].(disk := true)];
      availRing := availRing[availIdx % NUM := h];
      availIdx := (availIdx + 1) % U16;
      g := g.(owner := g.owner[h := h][m := h][l := h],
              chains := g.chains[h := Chain(m, l, |g.place|, b, write, Queued, [])],
              queue := g.queue + [h], place := g.place + [h]);
    }

    /** The holder of a buffer that is in no request changes what is in it, or gives it to another block. */
    method Set(b: nat, sector: nat, data: Data)
      requires Valid() && b in bufs && sector in medium && forall x: nat | x in g.chains :: g.chains[x].buf != b
      modifies this`bufs
      ensures Valid() && bufs == old(bufs)[b := old(bufs)[b].(sector := sector, data := data)]
    {
      SetGood(Snap(), b, bufs[b].(sector := sector, data := data));
      bufs := bufs[b := bufs[b].(sector := sector, data := data)];
    }

    /** virtio_disk_rw up to its wait, over the fields alone. */
    method Enqueue(b: nat, write: bool) returns (ok: bool, idx: seq<nat>)
      requires b in bufs && |free| == |desc| == |ops| == |info| == |availRing| == |g.owner| == NUM
      modifies this
      ensures !ok ==>
        && |idx| < 3 && |desc| == NUM && |free| == NUM && (forall d: nat | d < NUM && free[d] :: d in idx)
        && (forall d | 0 <= d < NUM && !free[d] :: desc[d] == old(desc)[d])
        && Snap() == old(Snap()).(desc := desc)
      ensures ok ==>
        && |idx| == 3 && idx[0] < idx[1] < idx[2] < NUM
        && old(free)[idx[0]] && old(free)[idx[1]] && old(free)[idx[2]]
        && Submitted(old(Snap()), Snap(), idx[0], idx[1], idx[2], b, write)
    {
      ok, idx := Alloc3();
      if ok {
        assert free == free[idx[0] := false][idx[1] := false][idx[2] := false];
        Publish(b, write, idx[0], idx[1], idx[2]);
      }
    }

    /** virtio_disk_rw up to its wait: false when too few descriptors are free.  The caller
        holds b's lock, so b is in no other request. */
    method Submit(b: nat, write: bool) returns (ok: bool, idx: seq<nat>)
      requires Valid() && b in bufs && !bufs[b].disk && forall x: nat | x in g.chains :: g.chains[x].buf != b
      modifies this
      ensures Valid()
      ensures !ok ==>
        |idx| < 3 && (forall d: nat | d < NUM && free[d] :: d in idx) && Snap() == old(Snap()).(desc := desc)
      ensures ok ==>
        && |idx| == 3 && idx[0] < idx[1] < idx[2] < NUM && idx[0] !in old(g.chains)
        && old(free)[idx[0]] && old(free)[idx[1]] && old(free)[idx[2]]
        && Submitted(old(Snap()), Snap(), idx[0], idx[1], idx[2], b, write)
    {
      ok, idx := Enqueue(b, write);
      if ok {
        SubmittedGood(old(Snap()), Snap(), idx[0], idx[1], idx[2], b, write);
      } else {
        FreedGood(old(Snap()), desc);
      }
    }

    /** The device takes the next chain from the avail ring, if there is one. */
    method DeviceFetch()
      requires Valid()
      modifies this`deviceAvail, this`pending, this`g
      ensures Valid()
      ensures if old(deviceAvail) == availIdx then unchanged(this) && g.queue == []
              else old(g.queue) != [] && old(g.queue)[0] in old(g.chains) && Snap() == FetchOf(old(Snap()))
    {
      if deviceAvail == availIdx {
        QueueEmpty(Snap());
        return;
      }
      FetchGood(Snap());
      pending := pending + {availRing[deviceAvail % NUM]};
      deviceAvail := (deviceAvail + 1) % U16;
      g := FetchOf(old(Snap())).g;
    }

    /** The transfer itself: one block, one way. */
    method Transfer(b: nat, write: bool, sector: nat)
      requires b in bufs && sector in medium
      modifies this`medium, this`bufs
      ensures medium == if write then old(medium)[sector := old(bufs)[b].data] else old(medium)
      ensures bufs == if write then old(bufs) else old(bufs)[b := old(bufs)[b].(data := old(medium)[sector])]
    {
      if write {
        medium := medium[sector := bufs[b].data];
      } else {
        bufs := bufs[b := bufs[b].(data := medium[sector])];
      }
    }

    /** A status of 0 and a used entry. */
    method Notify(h: nat, status: nat)
      requires |info| == |usedRing| == NUM && status < NUM
      modifies this`info, this`usedRing, this`usedIdx, this`pending
      ensures info == old(info)[status := old(info)[status].(status := 0)] && pending == old(pending) - {h}
      ensures usedRing == old(usedRing)[old(usedIdx) % NUM := h] && usedIdx == (old(usedIdx) + 1) % U16
    {
      info := info[status := info[status].(status := 0)];
      usedRing := usedRing[usedIdx % NUM := h];
      usedIdx := (usedIdx + 1) % U16;
      pending := pending - {h};
    }

    /** What the device does with a chain, reading it from the descriptors. */
    method Carry(h: nat)
      requires FormatOk(desc, ops, info, bufs, g.chains, h) && |usedRing| == NUM
      requires bufs[g.chains[h].buf].sector in medium
      modifies this`medium, this`bufs, this`info, this`usedRing, this`usedIdx, this`pending, this`g
      ensures Snap() == CompleteOf(old(Snap()), h)
    {
      ghost var t := CompleteOf(Snap(), h);
      var d := desc[desc[h].next];
      var status := desc[d.next].addr.of;
      assert d.addr.buf == g.chains[h].buf && status == h;
      Transfer(d.addr.buf, ops[h].write, ops[h].sector);
      Notify(h, status);
      g := t.g;
    }

    /** The device carries out a chain it has taken, in any order. */
    method DeviceComplete(h: nat)
      requires Valid() && h in pending
      modifies this`medium, this`bufs, this`info, this`usedRing, this`usedIdx, this`pending, this`g
      ensures Valid() && h < NUM && h in old(g.chains) && old(g.chains)[h].buf in old(bufs)
      ensures old(bufs)[old(g.chains)[h].buf].sector in old(medium) && |old(info)| == |old(usedRing)| == NUM
      ensures Snap() == CompleteOf(old(Snap()), h) && old(g.chains)[h].id !in old(g.log)
    {
      CompleteGood(Snap(), h);
      Carry(h);
    }

    /** One turn of virtio_disk_intr's loop. */
    method AckOne()
      requires g.done != [] && |usedRing| == NUM && usedRing[driverUsed % NUM] == g.done[0]
      requires FormatOk(desc, ops, info, bufs, g.chains, g.done[0]) && Complete(g.chains[g.done[0]])
      modifies this`bufs, this`driverUsed, this`g
      ensures Snap() == AckOf(old(Snap()))
    {
      var id := usedRing[driverUsed % NUM];
      assert info[id].status == 0;     // or the kernel panics
      var b := info[id].b;
      bufs := bufs[b := bufs[b].(disk := false)];
      driverUsed := (driverUsed + 1) % U16;
      g := AckOf(old(Snap())).g;
    }

    /** virtio_disk_intr: every completion not yet seen is handled, once. */
    method Intr()
      requires Valid()
      modifies this`bufs, this`driverUsed, this`g
      ensures Valid() && g.done == [] && g.log == old(g.log) && g.place == old(g.place) && g.queue == old(g.queue)
      ensures g.chains == AckChains(old(g.chains)) && bufs == AckBufs(old(bufs), old(g.chains))
    {
      while driverUsed != usedIdx
        invariant Valid() && g.log == old(g.log) && g.place == old(g.place) && g.queue == old(g.queue)
        invariant AckChains(g.chains) == AckChains(old(g.chains))
        invariant AckBufs(bufs, g.chains) == AckBufs(old(bufs), old(g.chains))
        decreases |g.done|
      {
        ghost var s := Snap();
        AckGood(s);
        AckOne();
        AckedMore(s);
      }
      DoneEmpty(Snap());
    }

    /** The last lines of virtio_disk_rw, over the fields alone. */
    method Reclaim(h: nat)
      requires FormatOk(desc, ops, info, bufs, g.chains, h) && ChainOk(free, g.owner, g.chains, h)
      requires var c := g.chains[h]; !free[h] && !free[c.mid] && !free[c.last]
      modifies this`info, this`free, this`desc, this`g
      ensures Finished(old(Snap()), Snap(), h)
    {
      ghost var c := g.chains[h];
      info := info[h := info[h].(b := 0)];
      FreeChain(h, c);
      g := g.(owner := g.owner[h := NONE][c.mid := NONE][c.last := NONE], chains := g.chains - {h});
    }

    /** virtio_disk_rw after its wait: b->disk is 0, so this request's own transfer is done.
        A read has in its buffer what the device read. */
    method Finish(h: nat, b: nat)
      requires Valid() && h in g.chains && g.chains[h].buf == b && b in bufs && !bufs[b].disk
      modifies this`info, this`free, this`desc, this`g
      ensures Valid() && Finished(old(Snap()), Snap(), h)
      ensures old(g.chains)[h].id in g.log && (!old(g.chains)[h].write ==> bufs[b].data == old(g.chains)[h].result)
    {
      assert FormatOk(desc, ops, info, bufs, g.chains, h) && ChainOk(free, g.owner, g.chains, h);
      assert var c := g.chains[h]; !free[h] && !free[c.mid] && !free[c.last] by {
        PartitionDrop(free, g.owner, g.chains, h);
      }
      Reclaim(h);
      FinishGood(old(Snap()), Snap(), h);
    }
  }

  /** Every chain that was Done is Acked. */
  function AckChains(chains: map<nat, Chain>): map<nat, Chain> {
    map h: nat | h in chains :: if chains[h].phase == Done then chains[h].(phase := Acked) else chains[h]
  }

  ghost predicate DoneOn(chains: map<nat, Chain>, b: nat) {
    exists h: nat :: h in chains && chains[h].phase == Done && chains[h].buf == b
  }

  /** The disk is through with the buffers of the chains that were Done. */
  ghost function AckBufs(bufs: map<nat, Buf>, chains: map<nat, Chain>): map<nat, Buf> {
    map b: nat | b in bufs :: if DoneOn(chains, b) then bufs[b].(disk := false) else bufs[b]
  }

  lemma AckedMore(s: State)
    requires s.g.done != [] && s.g.done[0] in s.g.chains
    requires s.g.chains[s.g.done[0]].phase == Done && s.g.chains[s.g.done[0]].buf in s.bufs
    ensures AckChains(AckOf(s).g.chains) == AckChains(s.g.chains)
    ensures AckBufs(AckOf(s).bufs, AckOf(s).g.chains) == AckBufs(s.bufs, s.g.chains)
  {
    var h, t := s.g.done[0], AckOf(s);
    forall b: nat | b in s.bufs && b != s.g.chains[h].buf
      ensures DoneOn(t.g.chains, b) == DoneOn(s.g.chains, b)
    {
      if DoneOn(s.g.chains, b) {
        var x: nat :| x in s.g.chains && s.g.chains[x].phase == Done && s.g.chains[x].buf == b;
        assert x in t.g.chains && t.g.chains[x] == s.g.chains[x];
      }
    }
  }

  lemma QueueEmpty(s: State)
    requires Good(s) && s.deviceAvail == s.availIdx
    ensures s.g.queue == []
  {
    QueueShort(s.availRing, s.g.seen, s.g.queue, s.g.chains, Queued);
    WrapEqual(s.g.seen, |s.g.queue|);
  }

  lemma DoneEmpty(s: State)
    requires Good(s) && s.driverUsed == s.usedIdx
    ensures s.g.done == [] && AckChains(s.g.chains) == s.g.chains && AckBufs(s.bufs, s.g.chains) == s.bufs
  {
    QueueShort(s.usedRing, s.g.acked, s.g.done, s.g.chains, Done);
    WrapEqual(s.g.acked, |s.g.done|);
    forall h: nat | h in s.g.chains
      ensures s.g.chains[h].phase != Done
    {
      assert PhaseIn(s.g.done, s.g.chains, Done, h);
    }
  }

  /** A ring never holds more unread entries than it has room for. */
  lemma QueueShort(ring: seq<nat>, lo: nat, q: seq<nat>, chains: map<nat, Chain>, phase: Phase)
    requires RingHolds(ring, lo, q, chains, phase)
    ensures |q| <= NUM
  {
    forall i: nat | i < |q|
      ensures q[i] < NUM
    {
      assert RingAt(ring, lo, q, chains, phase, i);
    }
    FewDistinct(q, NUM);
  }

  /** A buffer in no request is changed. */
  lemma SetGood(s: State, b: nat, x: Buf)
    requires Good(s) && b in s.bufs && x.sector in s.medium && forall h: nat | h in s.g.chains :: s.g.chains[h].buf != b
    ensures Good(s.(bufs := s.bufs[b := x]))
  {
    forall h: nat | h in s.g.chains
      ensures FormatOk(s.desc, s.ops, s.info, s.bufs[b := x], s.g.chains, h)
    {
      assert FormatOk(s.desc, s.ops, s.info, s.bufs, s.g.chains, h);
    }
  }

  lemma FreedGood(s: State, desc': seq<Desc>)
    requires Good(s) && |desc'| == NUM && forall d | 0 <= d < NUM && !s.free[d] :: desc'[d] == s.desc[d]
    ensures Good(s.(desc := desc'))
  {
    FormattedFree(s.desc, desc', s.ops, s.info, s.bufs, s.g.chains, s.free, s.g.owner);
  }

  lemma FormattedFree(desc: seq<Desc>, desc': seq<Desc>, ops: seq<Op>, info: seq<Info>, bufs: map<nat, Buf>,
                      chains: map<nat, Chain>, free: seq<bool>, owner: seq<nat>)
    requires Formatted(desc, ops, info, bufs, chains) && Partition(free, owner, chains) && |desc'| == NUM
    requires forall d | 0 <= d < NUM && !free[d] :: desc'[d] == desc[d]
    ensures Formatted(desc', ops, info, bufs, chains)
  {
    forall g: nat | g in chains
      ensures FormatOk(desc', ops, info, bufs, chains, g)
    {
      var x := chains[g];
      assert FormatOk(desc, ops, info, bufs, chains, g);
      assert ChainOk(free, owner, chains, g);
      assert DescOk(free, owner, chains, g) && DescOk(free, owner, chains, x.mid);
      assert DescOk(free, owner, chains, x.last);
    }
  }
}
