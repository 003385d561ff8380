/** What the scan of EvictFromCache evicts, and when it gives up. */
module ClockScans {
  import opened ClockCache
  import opened ClockSafety
  import opened ClockLookups
  import opened ClockSections

  // ----- Once round

  /** In the current round, which started at the head, the scan has been at handle `i`. */
  predicate Visited(head: nat, at: nat, i: nat) {
    if head <= at then head <= i < at else i >= head || i < at
  }

  /** The handle that a round ends with. */
  function LastOf(s: State): nat
    requires s.head < |s.list|
  {
    if s.head == 0 then |s.list| - 1 else s.head - 1
  }

  lemma VisitedNext(s: State, at: nat, i: nat)
    requires at < |s.list| && s.head < |s.list| && i < |s.list|
    ensures Next(s, at) != s.head ==> (Visited(s.head, Next(s, at), i) <==> Visited(s.head, at, i) || i == at)
    ensures Next(s, at) == s.head ==> at == LastOf(s) && (Visited(s.head, at, i) || i == at)
    ensures Next(s, at) != s.head ==> at != LastOf(s)
  {
  }

  /** What has been cleared so far: usage bits in the first round, unreferenced entries in the second. */
  ghost predicate Swept(s: State, at: nat, second: bool)
    requires s.head < |s.list|
  {
    forall i :: 0 <= i < |s.list| ==> SweptAt(s.list[i].flags, second || Visited(s.head, at, i),
                                              second && Visited(s.head, at, i))
  }

  predicate SweptAt(f: Flags, once: bool, twice: bool) {
    (once ==> !f.used) && (twice && f.inCache ==> f.refs > 0)
  }

  lemma VisitSweeps(s: State, at: nat, second: bool)
    requires at < |s.list| && s.head < |s.list| && Swept(s, at, second)
    ensures var s' := Visit(s, at);
            && s'.head == s.head && |s'.list| == |s.list|
            && (Next(s, at) != s.head ==> Swept(s', Next(s, at), second))
            && (Next(s, at) == s.head && !second ==> Swept(s', s.head, true))
            && (Next(s, at) == s.head && second ==> AllPinned(s'))
  {
    var s' := Visit(s, at);
    forall i | 0 <= i < |s.list|
      ensures SweptAt(s'.list[i].flags, second || Visited(s.head, at, i) || i == at,
                      second && (Visited(s.head, at, i) || i == at))
    {
      assert SweptAt(s.list[i].flags, second || Visited(s.head, at, i), second && Visited(s.head, at, i));
    }
    forall i | 0 <= i < |s.list|
      ensures Next(s, at) != s.head ==> (Visited(s.head, Next(s, at), i) <==> Visited(s.head, at, i) || i == at)
      ensures Next(s, at) == s.head ==> Visited(s.head, at, i) || i == at
    {
      VisitedNext(s, at, i);
    }
  }

  /** Every entry that is in the cache is referenced. */
  ghost predicate AllPinned(s: State) {
    forall i :: 0 <= i < |s.list| && s.list[i].flags.inCache ==> s.list[i].flags.refs > 0
  }

  lemma {:induction false} GivesUpSwept(s: State, charge: nat, at: nat, second: bool)
    requires at < |s.list| && s.head < |s.list| && Swept(s, at, second)
    ensures !Scan(s, charge, at, second).1 ==> AllPinned(Scan(s, charge, at, second).0)
    decreases (if second then 0 else |s.list|) + Distance(s.head, at, |s.list|)
  {
    hide Swept, AllPinned;
    if s.usage + charge > s.capacity {
      VisitSweeps(s, at, second);
      if Next(s, at) != s.head {
        GivesUpSwept(Visit(s, at), charge, Next(s, at), second);
      } else if !second {
        GivesUpSwept(Visit(s, at), charge, s.head, true);
      }
    }
  }

  /** The scan reports success only when the charge fits; and when it gives up, everything that is
      still in the cache is referenced. */
  lemma ScanGivesUp(s: State, charge: nat)
    requires s.usage != 0 && s.head < |s.list|
    ensures var (s', success) := Evicts(s, charge);
            if success then s'.usage + charge <= s'.capacity else AllPinned(s')
  {
    GivesUpSwept(s, charge, s.head, false);
    SuccessFits(s, charge, s.head, false);
  }

  lemma {:induction false} SuccessFits(s: State, charge: nat, at: nat, second: bool)
    requires at < |s.list| && s.head < |s.list|
    ensures var (s', success) := Scan(s, charge, at, second); success ==> s'.usage + charge <= s'.capacity
    decreases (if second then 0 else |s.list|) + Distance(s.head, at, |s.list|)
  {
    if s.usage + charge > s.capacity {
      if Next(s, at) != s.head {
        SuccessFits(Visit(s, at), charge, Next(s, at), second);
      } else if !second {
        SuccessFits(Visit(s, at), charge, s.head, true);
      }
    }
  }

  /** With room enough nothing is evicted. */
  lemma RoomEnough(s: State, charge: nat)
    requires s.usage != 0 ==> s.head < |s.list|
    requires s.usage + charge <= s.capacity
    ensures Evicts(s, charge) == (s, true)
  {
  }

  // ----- Who is evicted

  /** What the scan has done to one handle: `once` it has been there, in the first round or before. */
  predicate SparedAt(f0: Flags, f: Flags, second: bool, once: bool) {
    && f.refs == f0.refs && (f.inCache ==> f0.inCache) && (f.used ==> f0.used)
    && (f0.refs > 0 ==> f.inCache == f0.inCache)
    && (!second && f0.used ==> f.inCache == f0.inCache)
    && (!once ==> f == f0)
    && (once && f0 == EVICTABLE ==> !f.inCache)
  }

  ghost predicate Spared(s0: State, s: State, at: nat, second: bool)
    requires s.head < |s.list|
  {
    |s.list| == |s0.list| &&
    forall i :: 0 <= i < |s.list| ==>
      SparedAt(s0.list[i].flags, s.list[i].flags, second, second || Visited(s.head, at, i))
  }

  /** Referenced entries stay, and an entry that was used goes only if all those go that were neither
      used nor referenced. */
  ghost predicate SecondChance(s0: State, s: State) {
    && |s.list| == |s0.list|
    && (forall i :: 0 <= i < |s.list| && s0.list[i].flags.refs > 0 ==>
      s.list[i].flags.refs == s0.list[i].flags.refs && s.list[i].flags.inCache == s0.list[i].flags.inCache)
    && (forall i, j ::
          0 <= i < |s.list| && 0 <= j < |s.list| && s0.list[j].flags.used && s0.list[i].flags == EVICTABLE ==>
            s.list[j].flags.inCache == s0.list[j].flags.inCache || !s.list[i].flags.inCache)
  }

  lemma VisitSpares(s0: State, s: State, at: nat, second: bool)
    requires at < |s.list| && s.head < |s.list| && Spared(s0, s, at, second)
    ensures var s' := Visit(s, at);
            && s'.head == s.head && |s'.list| == |s.list|
            && (Next(s, at) != s.head ==> Spared(s0, s', Next(s, at), second))
            && (Next(s, at) == s.head ==> Spared(s0, s', s.head, true))
  {
    var s' := Visit(s, at);
    forall i | 0 <= i < |s.list|
      ensures SparedAt(s0.list[i].flags, s'.list[i].flags, second, second || Visited(s.head, at, i) || i == at)
    {
      assert SparedAt(s0.list[i].flags, s.list[i].flags, second, second || Visited(s.head, at, i));
      assert i == at && !second ==> !Visited(s.head, at, i);
    }
    forall i | 0 <= i < |s.list|
      ensures Next(s, at) != s.head ==> (Visited(s.head, Next(s, at), i) <==> Visited(s.head, at, i) || i == at)
      ensures Next(s, at) == s.head ==> Visited(s.head, at, i) || i == at
    {
      VisitedNext(s, at, i);
    }
  }

  lemma SparedGives(s0: State, s: State, at: nat, second: bool)
    requires s.head < |s.list| && Spared(s0, s, at, second)
    ensures SecondChance(s0, s)
  {
    forall i | 0 <= i < |s.list|
      ensures SparedAt(s0.list[i].flags, s.list[i].flags, second, second || Visited(s.head, at, i))
    {
    }
  }

  lemma {:induction false} ScanSpares(s0: State, s: State, charge: nat, at: nat, second: bool)
    requires at < |s.list| && s.head < |s.list| && Spared(s0, s, at, second)
    ensures SecondChance(s0, Scan(s, charge, at, second).0)
    decreases (if second then 0 else |s.list|) + Distance(s.head, at, |s.list|)
  {
    hide Spared;
    if s.usage + charge <= s.capacity {
      SparedGives(s0, s, at, second);
    } else {
      VisitSpares(s0, s, at, second);
      if Next(s, at) != s.head {
        ScanSpares(s0, Visit(s, at), charge, Next(s, at), second);
      } else if !second {
        ScanSpares(s0, Visit(s, at), charge, s.head, true);
      } else {
        SparedGives(s0, Visit(s, at), s.head, true);
      }
    }
  }

  /** The second chance of the CLOCK policy, for every state and every charge. */
  lemma ScanGivesSecondChance(s: State, charge: nat)
    requires s.usage != 0 ==> s.head < |s.list|
    ensures SecondChance(s, Evicts(s, charge).0)
  {
    if s.usage != 0 {
      ScanSpares(s, s, charge, s.head, false);
    }
  }

  // ----- When it gives up

  /** Which of the entries that are not referenced: all; those that a scan in its first round takes
      before its last step; those that one in its second round does. */
  datatype Which = All | First | Second

  /** The last step of a scan finds the last handle of the round unused, but does not look at the usage
      any more. */
  predicate Counts(f: Flags, i: nat, last: nat, which: Which) {
    f.inCache && f.refs == 0 && (which == All || i != last || (which == First && !f.used))
  }

  function Reclaimed(list: seq<Handle>, last: nat, which: Which): nat {
    if list == [] then 0
    else
      var n := |list| - 1;
      Reclaimed(list[..n], last, which) + (if Counts(list[n].flags, n, last, which) then list[n].charge else 0)
  }

  function Share(h: Handle, i: nat, last: nat, which: Which): nat {
    if Counts(h.flags, i, last, which) then h.charge else 0
  }

  lemma {:induction false} ReclaimedUpdate(list: seq<Handle>, i: nat, h: Handle, last: nat, which: Which)
    requires i < |list|
    ensures Reclaimed(list[i := h], last, which) ==
            Reclaimed(list, last, which) - Share(list[i], i, last, which) + Share(h, i, last, which)
  {
    var n := |list| - 1;
    if i == n {
      assert list[i := h][..n] == list[..n];
    } else {
      assert list[i := h][..n] == list[..n][i := h];
      ReclaimedUpdate(list[..n], i, h, last, which);
    }
  }

  lemma {:induction false} NothingReclaimed(list: seq<Handle>, last: nat, which: Which)
    requires forall i :: 0 <= i < |list| ==> Share(list[i], i, last, which) == 0
    ensures Reclaimed(list, last, which) == 0
  {
    if list != [] {
      NothingReclaimed(list[..|list| - 1], last, which);
    }
  }

  lemma {:induction false} SecondIsFirst(list: seq<Handle>, last: nat)
    requires last < |list| ==> Share(list[last], last, last, First) == 0
    ensures Reclaimed(list, last, Second) == Reclaimed(list, last, First)
  {
    if list != [] {
      SecondIsFirst(list[..|list| - 1], last);
    }
  }

  /** A visit takes from the usage what it takes from the sum, but for the last of the second round. */
  lemma VisitReclaims(s: State, at: nat, which: Which)
    requires at < |s.list| && s.head < |s.list| && (which == Second ==> at != LastOf(s))
    requires which == First && at == LastOf(s) ==> s.list[at].flags == EVICTABLE
    ensures var s' := Visit(s, at);
            s'.usage - Reclaimed(s'.list, LastOf(s), which) == s.usage - Reclaimed(s.list, LastOf(s), which)
  {
    ReclaimedUpdate(s.list, at, Visit(s, at).list[at], LastOf(s), which);
    assert Visit(s, at).list == s.list[at := Visit(s, at).list[at]];
  }

  /** The last visit of the first round. */
  lemma RoundReclaims(s: State)
    requires s.head < |s.list|
    ensures var s' := Visit(s, LastOf(s));
            s'.usage - Reclaimed(s'.list, LastOf(s), Second) == s.usage - Reclaimed(s.list, LastOf(s), First)
  {
    var last := LastOf(s);
    var s' := Visit(s, last);
    assert s'.list == s.list[last := s'.list[last]];
    ReclaimedUpdate(s.list, last, s'.list[last], last, Second);
    if s.list[last].flags == EVICTABLE {
      ReclaimedUpdate(s.list, last, s'.list[last], last, First);
      SecondIsFirst(s'.list, last);
    } else {
      SecondIsFirst(s.list, last);
    }
  }

  lemma SweptReclaimsNothing(s: State, at: nat)
    requires at < |s.list| && s.head < |s.list| && Swept(s, at, true) && Next(s, at) == s.head
    ensures Reclaimed(s.list, LastOf(s), Second) == 0
  {
    forall i | 0 <= i < |s.list|
      ensures Share(s.list[i], i, LastOf(s), Second) == 0
    {
      VisitedNext(s, at, i);
      assert SweptAt(s.list[i].flags, true, Visited(s.head, at, i));
    }
    NothingReclaimed(s.list, LastOf(s), Second);
  }

  lemma {:induction false} SucceedsIf(s: State, charge: nat, at: nat, second: bool)
    requires at < |s.list| && s.head < |s.list| && Swept(s, at, second)
    ensures Scan(s, charge, at, second).1 <==>
            s.usage - Reclaimed(s.list, LastOf(s), if second then Second else First) + charge <= s.capacity
    decreases (if second then 0 else |s.list|) + Distance(s.head, at, |s.list|)
  {
    hide Swept, Reclaimed;
    if s.usage + charge > s.capacity {
      VisitSweeps(s, at, second);
      VisitedNext(s, at, at);
      if Next(s, at) != s.head {
        VisitReclaims(s, at, if second then Second else First);
        SucceedsIf(Visit(s, at), charge, Next(s, at), second);
      } else if !second {
        RoundReclaims(s);
        SucceedsIf(Visit(s, at), charge, s.head, true);
      } else {
        SweptReclaimsNothing(s, at);
      }
    }
  }

  /** Exactly when the scan succeeds: the charge must fit once all entries are gone that are not
      referenced, except the one just before the head if that was used.  The scan comes to that one
      last, and does not look again whether there is room. */
  lemma SucceedsExactly(s: State, charge: nat)
    requires s.usage != 0 && s.head < |s.list|
    ensures Evicts(s, charge).1 <==> s.usage - Reclaimed(s.list, LastOf(s), First) + charge <= s.capacity
  {
    SucceedsIf(s, charge, s.head, false);
  }

  lemma {:induction false} UsageAfter(s: State, charge: nat, at: nat, second: bool)
    requires at < |s.list| && s.head < |s.list|
    ensures var (s', success) := Scan(s, charge, at, second);
            !success ==>
              s'.usage - Reclaimed(s'.list, LastOf(s), All) == s.usage - Reclaimed(s.list, LastOf(s), All)
    decreases (if second then 0 else |s.list|) + Distance(s.head, at, |s.list|)
  {
    hide Reclaimed;
    if s.usage + charge > s.capacity {
      VisitReclaims(s, at, All);
      if Next(s, at) != s.head {
        UsageAfter(Visit(s, at), charge, Next(s, at), second);
      } else if !second {
        UsageAfter(Visit(s, at), charge, s.head, true);
      }
    }
  }

  /** When it gives up, all entries are gone that were not referenced; so it gives up in vain, with room
      after all, exactly if these would have been enough and they are without the one before the head
      not. */
  lemma GivesUpInVainExactly(s: State, charge: nat)
    requires s.usage != 0 && s.head < |s.list|
    ensures var (s', success) := Evicts(s, charge);
            && (!success ==> s'.usage == s.usage - Reclaimed(s.list, LastOf(s), All))
            && (!success && s'.usage + charge <= s.capacity <==>
                  s.usage - Reclaimed(s.list, LastOf(s), All) + charge <= s.capacity <
                    s.usage - Reclaimed(s.list, LastOf(s), First) + charge)
  {
    hide Reclaimed;
    SucceedsExactly(s, charge);
    UsageAfter(s, charge, s.head, false);
    GivesUpSwept(s, charge, s.head, false);
    var (s', success) := Evicts(s, charge);
    if !success {
      NothingReclaimed(s'.list, LastOf(s), All);
    }
  }

  /** One entry, inserted with a handle that has been released again, fills the cache: a further
      insertion evicts it and then gives up although the cache is empty. */
  lemma SomeScanGivesUpInVain() returns (s: State)
    ensures Reachable(s) && Rests(s, 0) && s.usage == 5 == s.capacity && |s.list| == 1 && s.head == 0
    ensures s.list[0].flags == Flags(true, true, 0) && s.list[0].charge == 5
    ensures var (s', success) := Evicts(s, 5); !success && s'.usage == 0
  {
    s := OneReleased();
    hide Reachable;
    var s1 := Visit(s, 0);
    assert s1.list[0].flags == EVICTABLE && s1.usage == 5;
    var s2 := Visit(s1, 0);
    assert s2.usage == 0;
    assert Scan(s1, 5, 0, true) == (s2, false);
    assert Scan(s, 5, 0, false) == (s2, false);
  }

  /** What an insertion that nothing interrupts leads to is reached. */
  lemma InsertReaches(s: State, t: nat, k: Key, charge: nat) returns (s': State)
    requires Reachable(s) && Rests(s, t) && s.usage == 0 && charge <= s.capacity && k !in s.table
    ensures s.recycle != [] ==> NextHandle(s) < |s.list|
    ensures Reachable(s') && s' == Inserted(s, Insert(k, charge, true))
  {
    hide Reachable, SectionStep, Inserted;
    var s1 := Apply(s, LockInsert(t, k, charge, true));
    var n := InsertAlone(s, t, k, charge, true);
    ReachesNext(s, LockInsert(t, k, charge, true), s1);
    AloneIsReached(s1, n);
    s' := Alone(s1, n);
  }

  lemma StartIsReached(n: nat, capacity: nat)
    ensures Reachable(Init(n, capacity, false))
  {
    var s := Init(n, capacity, false);
    assert Runs(s, []) && After(s, []) == s;
  }

  lemma OneReleased() returns (s: State)
    ensures Reachable(s)
    ensures s == State([Handle(Flags(true, true, 0), 7, 5, 1, 0)], [], map[7 := 0], 5, 5, false, 0, [Idle], [], Free)
  {
    hide Reachable, Runs, After, SectionStep;
    StartIsReached(1, 5);
    var s1 := InsertReaches(Init(1, 5, false), 0, 7, 5);
    assert s1 == State([Handle(Flags(true, false, 1), 7, 5, 1, 0)], [], map[7 := 0], 5, 5, false, 0, [Idle],
                       [Ref(0, 7)], Free);
    ReleaseAlone(s1, 0, 0);
    ReachableAfter(s1, [StartRelease(0, 0), SetUsed(0)] + [SubRef(0)]);
    s := After(s1, [StartRelease(0, 0), SetUsed(0)] + [SubRef(0)]);
  }
}
