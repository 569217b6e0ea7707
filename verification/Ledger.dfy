/** Where the frames are: counting the free ones, and the ones that nothing leads to any more. */
module Ledger {

  import opened Common
  import opened Bytes
  import opened Paging
  import opened VmState
  import opened Spaces
  import opened Pruning

  ghost function FreeFrames(own: Owners): set<nat> {
    set f | f in own && own[f].Free?
  }

  ghost function HeldFrames(own: Owners): set<nat> {
    set f | f in own && own[f].Held?
  }

  ghost function Items(s: seq<nat>): set<nat> {
    set f | f in s
  }

  lemma {:induction false} ItemCount(s: seq<nat>)
    requires Distinct(s)
    ensures |Items(s)| == |s|
  {
    if s != [] {
      var n := |s| - 1;
      ItemCount(s[..n]);
      assert Items(s) == Items(s[..n]) + {s[n]};
    }
  }

  /** The list is as long as there are free frames. */
  lemma FreeCount(mem: Mem, own: Owners, head: nat, free: seq<nat>)
    requires List(mem, own, head, free)
    ensures |FreeFrames(own)| == |free|
  {
    forall f
      ensures f in FreeFrames(own) <==> f in Items(free)
    {
      if f in own { assert FrameOk(own, free, f); }
      if f in free {
        var k :| 0 <= k < |free| && free[k] == f;
        assert LinkAt(mem, free, k);
      }
    }
    assert FreeFrames(own) == Items(free);
    ItemCount(free);
  }

  /** The frames that a leak takes away. */
  ghost function Gone(own: Owners, own': Owners): set<nat> {
    FreeFrames(own) - FreeFrames(own')
  }

  lemma LeakedCount(own: Owners, own': Owners)
    requires Leaked(own, own')
    ensures |Gone(own, own')| == |FreeFrames(own)| - |FreeFrames(own')|
  {
    assert FreeFrames(own') <= FreeFrames(own) by {
      forall f | f in FreeFrames(own')
        ensures f in FreeFrames(own)
      {
        assert own'[f] == own'[f];
      }
    }
    assert FreeFrames(own) == FreeFrames(own') + Gone(own, own');
  }

  lemma LeakedHeld(own: Owners, own': Owners)
    requires Leaked(own, own')
    ensures HeldFrames(own') == HeldFrames(own) + Gone(own, own') && HeldFrames(own) !! Gone(own, own')
  {
    forall f
      ensures f in HeldFrames(own') <==> f in HeldFrames(own) || f in Gone(own, own')
    {
      if f in own { assert own'[f] == own'[f]; }
    }
  }

  /** A leak is as large as the list is shorter. */
  lemma GoneCount(mem: Mem, own: Owners, head: nat, free: seq<nat>, mem': Mem, own': Owners, head': nat,
                  free': seq<nat>)
    requires List(mem, own, head, free) && List(mem', own', head', free') && Leaked(own, own')
    ensures |Gone(own, own')| == |free| - |free'|
  {
    LeakedCount(own, own');
    FreeCount(mem, own, head, free);
    FreeCount(mem', own', head', free');
  }

  lemma NothingGone(own: Owners)
    ensures Leaked(own, own) && |Gone(own, own)| == 0
  {
    assert Gone(own, own) == {};
  }

  /** Nothing becomes held, and nothing held is let go. */
  lemma HeldSame(own: Owners, own': Owners)
    requires own'.Keys == own.Keys
    requires forall f | f in own :: own'[f] == own[f] || !(own[f].Held? || own'[f].Held?)
    ensures HeldFrames(own') == HeldFrames(own)
  {
    forall f
      ensures f in HeldFrames(own') <==> f in HeldFrames(own)
    {
      if f in own { assert own'[f] == own[f] || !(own[f].Held? || own'[f].Held?); }
    }
  }

  lemma AllottedHeld(s: View, t: View, r: nat, lo: nat, ims: seq<Image>)
    requires Allotted(s, t, r, lo, ims)
    ensures HeldFrames(t.own) == HeldFrames(s.own)
  {
    forall f | f in s.own
      ensures t.own[f] == s.own[f] || !(s.own[f].Held? || t.own[f].Held?)
    {
    }
    HeldSame(s.own, t.own);
  }

  lemma FreedHeld(mem: Mem, own: Owners, mem': Mem, own': Owners, r: nat, lo: nat, hi: nat)
    requires Freed(mem, own, mem', own', r, lo, hi)
    ensures HeldFrames(own') == HeldFrames(own)
  {
    forall f | f in own
      ensures own'[f] == own[f] || !(own[f].Held? || own'[f].Held?)
    {
      assert own'[f] == own'[f];
    }
    HeldSame(own, own');
  }

  lemma ReleasedHeld(mem: Mem, own: Owners, mem': Mem, own': Owners, r: nat, t: nat)
    requires t in own && own[t].Held? && Released(mem, own[t := Free], mem', own', r)
    ensures HeldFrames(own') == HeldFrames(own) - {t}
  {
    var own1 := own[t := Free];
    forall f | f in own1
      ensures own'[f] == own1[f] || !(own1[f].Held? || own'[f].Held?)
    {
      assert own'[f] == own'[f];
    }
    HeldSame(own1, own');
    assert HeldFrames(own1) == HeldFrames(own) - {t};
  }

  /** A frame that was free and is not a root has neither tables nor pages. */
  lemma Ownerless(mem: Mem, own: Owners, maps: Maps, q: nat)
    requires Tree(mem, own) && Rooted(own, maps) && q in own && own[q].Free? && q !in maps
    ensures forall f | f in own :: !Belongs(own[f], q)
  {
    NoStrayTables(mem, own, q);
    forall f | f in own
      ensures !Belongs(own[f], q)
    {
      assert own[f] == own[f];
    }
  }

  /** Free frames became the trapframe t and tables of q, and nothing else changed hands. */
  ghost predicate Begun(own: Owners, own': Owners, q: nat, t: nat) {
    && own'.Keys == own.Keys && t in own && own[t].Free? && own'[t].Held?
    && (forall f | f in own :: !Belongs(own[f], q))
    && (forall f {:trigger own'[f]} | f in own && f != t ::
         own'[f] == own[f] || (own[f].Free? && own'[f].Table? && own'[f].root == q))
  }

  lemma BegunHeld(own: Owners, own': Owners, q: nat, t: nat)
    requires Begun(own, own', q, t)
    ensures HeldFrames(own') == HeldFrames(own) + {t} && t !in HeldFrames(own)
  {
    forall f
      ensures f in HeldFrames(own') <==> f in HeldFrames(own) || f == t
    {
      if f in own && f != t { assert own'[f] == own'[f]; }
    }
  }

  lemma KeptBegun(mem: Mem, own: Owners, own1: Owners, mem': Mem, own': Owners, q: nat, t: nat)
    requires t in own && own[t].Free? && own1 == own[t := Held] && q in own1 && own1[q].Free?
    requires forall f | f in own :: !Belongs(own[f], q)
    requires Kept(mem, own1[q := Table(q, Top, q)], mem', own', q)
    ensures Begun(own, own', q, t)
  {
    assert own'[t] == own'[t];
    forall f | f in own && f != t
      ensures own'[f] == own[f] || (own[f].Free? && own'[f].Table? && own'[f].root == q)
    {
      assert own'[f] == own'[f];
    }
  }

  lemma BegunHere(mem: Mem, own: Owners, maps: Maps, mem1: Mem, mem': Mem, own': Owners, q: nat, t: nat)
    requires Tree(mem, own) && Rooted(own, maps) && t in own && own[t].Free?
    requires q in own && own[t := Held][q].Free? && q !in maps
    requires Kept(mem1, own[t := Held][q := Table(q, Top, q)], mem', own', q)
    ensures Begun(own, own', q, t)
  {
    Ownerless(mem, own, maps, q);
    KeptBegun(mem1, own, own[t := Held], mem', own', q, t);
  }

  lemma TrapBack(own: Owners, t: nat)
    requires t in own && own[t].Free?
    ensures own[t := Held][t := Free] == own
  {
  }

  lemma UndoneAt(own: Owners, s: View, t: View, q: nat, trap: nat, m1: Mem, m2: Mem, own': Owners, f: nat)
    requires Begun(own, s.own, q, trap) && Allotted(s, t, q, 0, []) && f in own && trap in t.own
    requires Released(m1, t.own[trap := Free], m2, own', q)
    ensures f in own' && own'[f] == own[f]
  {
    assert own'[f] == if Belongs(t.own[trap := Free][f], q) then Free else t.own[trap := Free][f];
    if f != trap {
      assert t.own[f] == s.own[f] || (s.own[f].Free? && Belongs(t.own[f], q));
      assert s.own[f] == own[f] || (own[f].Free? && Belongs(s.own[f], q));
    }
  }

  /** All that was begun and added given back: every frame is where it was. */
  lemma Undone(own: Owners, s: View, t: View, q: nat, trap: nat, m1: Mem, m2: Mem, own': Owners)
    requires Begun(own, s.own, q, trap) && Allotted(s, t, q, 0, []) && trap in t.own
    requires Released(m1, t.own[trap := Free], m2, own', q)
    ensures own' == own
  {
    forall f | f in own
      ensures f in own' && own'[f] == own[f]
    {
      UndoneAt(own, s, t, q, trap, m1, m2, own', f);
    }
    assert own'.Keys == own.Keys;
  }
}
