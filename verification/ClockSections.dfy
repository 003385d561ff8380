/** What a call that works under the mutex does when no other thread interferes. */
module ClockSections {
  import opened ClockCache
  import opened ClockSafety
  import opened ClockLookups

  /** The state after `n` further steps of the thread that holds the mutex, or when it has left. */
  function Alone(s: State, n: nat): State
    decreases n
  {
    if n == 0 || !s.section.Held? then s else Alone(SectionStep(s), n - 1)
  }

  lemma {:induction false} AloneIsReached(s: State, n: nat)
    requires Reachable(s)
    ensures Reachable(Alone(s, n))
    decreases n
  {
    hide Reachable, SectionStep;
    if n > 0 && s.section.Held? {
      ReachesNext(s, Step.Section, SectionStep(s));
      AloneIsReached(SectionStep(s), n - 1);
    }
  }

  lemma {:induction false} AloneTwice(s: State, m: nat, n: nat)
    ensures Alone(Alone(s, m), n) == Alone(s, m + n)
    decreases m
  {
    hide SectionStep;
    if m > 0 && s.section.Held? {
      AloneTwice(SectionStep(s), m - 1, n);
    } else if m > 0 {
      assert Alone(s, n) == s;
    }
  }

  /** Thread `t`, idle otherwise, holds the mutex and is at `work`. */
  function During(s: State, t: nat, work: Work): State
    requires t < |s.pcs|
  {
    s.(pcs := s.pcs[t := InSection], section := Held(t, work))
  }

  /** No thread holds the mutex, and thread `t` is idle. */
  predicate Rests(s: State, t: nat) {
    t < |s.pcs| && s.pcs[t] == Idle && s.section == Free
  }

  lemma Leaves(s: State, t: nat)
    requires Rests(s, t)
    ensures Alone(During(s, t, Finish), 1) == s
  {
    var s' := SectionStep(During(s, t, Finish));
    assert s'.pcs == s.pcs;
    assert Alone(s', 0) == s';
  }

  // ----- Taking a handle out of the cache

  /** The handle leaves the cache: unless it is referenced it is recycled at once. */
  function Dropped(s: State, i: nat): State
    requires i < |s.list|
  {
    var h := s.list[i];
    var h' := h.(flags := h.flags.(inCache := false));
    if h.flags.inCache && h.flags.refs == 0 then
      s.(list := s.list[i := h'.(recycled := h.recycled + 1)], recycle := s.recycle + [i], usage := s.usage - h.charge)
    else s.(list := s.list[i := h'])
  }

  lemma UnsetStep(s: State, t: nat, i: nat, after: Then)
    requires t < |s.pcs| && i < |s.list|
    ensures var f := s.list[i].flags;
            SectionStep(During(s, t, Unset(i, after))) ==
            During(s.(list := s.list[i := s.list[i].(flags := f.(inCache := false))]), t,
                   if f.inCache && f.refs == 0 then Recycle(i, after) else WorkAfter(after))
  {
  }

  /** Two steps: into the bin, and off the usage. */
  lemma RecycleAlone(s: State, t: nat, i: nat, after: Then)
    requires t < |s.pcs| && i < |s.list|
    ensures Alone(During(s, t, Recycle(i, after)), 2) ==
            During(s.(list := s.list[i := s.list[i].(recycled := s.list[i].recycled + 1)],
                      recycle := s.recycle + [i], usage := s.usage - s.list[i].charge), t, WorkAfter(after))
  {
    var s1 := During(s.(list := s.list[i := s.list[i].(recycled := s.list[i].recycled + 1)],
                        recycle := s.recycle + [i]), t, Subtract(s.list[i].charge, after));
    assert SectionStep(During(s, t, Recycle(i, after))) == s1;
    var s2 := SectionStep(s1);
    assert Alone(s1, 1) == Alone(s2, 0) == s2;
  }

  lemma UnsetAlone(s: State, t: nat, i: nat, after: Then) returns (n: nat)
    requires t < |s.pcs| && i < |s.list|
    ensures Alone(During(s, t, Unset(i, after)), n) == During(Dropped(s, i), t, WorkAfter(after))
  {
    hide SectionStep;
    UnsetStep(s, t, i, after);
    var s1 := SectionStep(During(s, t, Unset(i, after)));
    if s.list[i].flags.inCache && s.list[i].flags.refs == 0 {
      RecycleAlone(s.(list := s1.list), t, i, after);
      n := 3;
    } else {
      n := 1;
      assert Alone(s1, 0) == s1;
    }
  }

  /** Erase, alone: the key leaves the table, and its handle the cache. */
  lemma EraseAlone(s: State, t: nat, k: Key) returns (n: nat)
    requires Reachable(s) && Rests(s, t)
    ensures k in s.table ==> s.table[k] < |s.list|
    ensures Alone(Apply(s, LockErase(t, k)), n) ==
            if k in s.table then Dropped(s.(table := s.table - {k}), s.table[k]) else s
  {
    hide Inv, SectionStep, Reachable;
    TableIsOk(s, k);
    var s0 := Apply(s, LockErase(t, k));
    assert s0 == During(s, t, EraseKey(k));
    EraseStep(s, t, k);
    if k in s.table {
      var s1 := s.(table := s.table - {k});
      var m := UnsetAlone(s1, t, s.table[k], Leave);
      var s2 := Dropped(s1, s.table[k]);
      Leaves(s2, t);
      AloneTwice(SectionStep(s0), m, 1);
      n := m + 2;
    } else {
      Leaves(s, t);
      n := 2;
    }
  }

  lemma EraseStep(s: State, t: nat, k: Key)
    requires t < |s.pcs|
    ensures SectionStep(During(s, t, EraseKey(k))) ==
            if k in s.table then During(s.(table := s.table - {k}), t, Unset(s.table[k], Leave))
            else During(s, t, Finish)
  {
  }

  lemma TableIsOk(s: State, k: Key)
    requires Reachable(s)
    ensures k in s.table ==> s.table[k] < |s.list| && s.list[s.table[k]].key == k
  {
    hide HandleOk, Listed, BinOk, HeldOk, UsageOk, SectionOk, Reachable;
    ReachableInv(s);
    assert EntryOk(s, k);
  }

  /** Recycling by the thread that took off the last reference, alone. */
  lemma RecyclesAlone(s: State, t: nat, i: nat)
    requires t < |s.pcs| && s.pcs[t] == MustRecycle(i) && s.section == Free && i < |s.list|
    ensures Alone(Apply(s, LockRecycle(t)), 3) ==
            s.(pcs := s.pcs[t := Idle], recycle := s.recycle + [i], usage := s.usage - s.list[i].charge,
               list := s.list[i := s.list[i].(recycled := s.list[i].recycled + 1)])
  {
    hide SectionStep;
    var s0 := s.(pcs := s.pcs[t := Idle]);
    assert Apply(s, LockRecycle(t)) == During(s0, t, Recycle(i, Leave));
    RecycleAlone(s0, t, i, Leave);
    var s1 := s0.(recycle := s.recycle + [i], usage := s.usage - s.list[i].charge,
                  list := s.list[i := s.list[i].(recycled := s.list[i].recycled + 1)]);
    Leaves(s1, t);
    AloneTwice(During(s0, t, Recycle(i, Leave)), 2, 1);
  }

  // ----- EraseUnRefEntries

  function DroppedFrom(s: State, i: nat): State
    requires i <= |s.list|
    decreases |s.list| - i
  {
    if i == |s.list| then s else DroppedFrom(Dropped(s, i), i + 1)
  }

  lemma ClearStep(s: State, t: nat, i: nat)
    requires t < |s.pcs|
    ensures SectionStep(During(s, t, ClearNext(i))) ==
            During(s, t, if i < |s.list| then Unset(i, ClearFrom(i + 1)) else Finish)
  {
  }

  lemma {:induction false} ClearsFrom(s: State, t: nat, i: nat) returns (n: nat)
    requires Rests(s, t) && i <= |s.list|
    ensures Alone(During(s, t, ClearNext(i)), n) == DroppedFrom(s, i)
    decreases |s.list| - i
  {
    hide SectionStep;
    ClearStep(s, t, i);
    if i == |s.list| {
      Leaves(s, t);
      n := 2;
    } else {
      var a := UnsetAlone(s, t, i, ClearFrom(i + 1));
      var b := ClearsFrom(Dropped(s, i), t, i + 1);
      AloneTwice(SectionStep(During(s, t, ClearNext(i))), a, b);
      n := 1 + a + b;
    }
  }

  /** EraseUnRefEntries, alone: the table is empty and no handle is in the cache any more; those that
      nobody references are recycled, and the others as they were. */
  lemma ClearAlone(s: State, t: nat) returns (n: nat)
    requires Reachable(s) && Rests(s, t)
    ensures var s' := Alone(Apply(s, LockClear(t)), n);
            && s' == DroppedFrom(s.(table := map[]), 0) && s'.table == map[] && |s'.list| == |s.list|
            && forall i :: 0 <= i < |s.list| ==> s'.list[i] == Dropped(s, i).list[i]
  {
    hide SectionStep, Reachable;
    assert Apply(s, LockClear(t)) == During(s.(table := map[]), t, ClearNext(0));
    n := ClearsFrom(s.(table := map[]), t, 0);
    DroppedEach(s.(table := map[]), 0);
  }

  lemma {:induction false} DroppedEach(s: State, i: nat)
    requires i <= |s.list|
    ensures var s' := DroppedFrom(s, i);
            && |s'.list| == |s.list| && s'.table == s.table
            && (forall j :: 0 <= j < i ==> s'.list[j] == s.list[j])
            && (forall j :: i <= j < |s.list| ==> s'.list[j] == Dropped(s, j).list[j])
    decreases |s.list| - i
  {
    if i < |s.list| {
      DroppedEach(Dropped(s, i), i + 1);
    }
  }

  // ----- Insert, once it has been decided

  /** The handle that an insertion fills. */
  function NextHandle(s: State): nat {
    if s.recycle != [] then s.recycle[|s.recycle| - 1] else |s.list|
  }

  function FreshFlags(hold: bool): Flags {
    Flags(true, false, if hold then 1 else 0)
  }

  /** A handle from the bin, or a new one, with the key, the charge and the flags. */
  function Filled(s: State, goal: Goal): State
    requires goal.Insert? && (s.recycle != [] ==> NextHandle(s) < |s.list|)
  {
    var i := NextHandle(s);
    if s.recycle != [] then
      s.(recycle := s.recycle[..|s.recycle| - 1],
         list := s.list[i := Handle(FreshFlags(goal.hold), goal.k, goal.charge, s.list[i].made + 1,
                                    s.list[i].recycled)])
    else s.(list := s.list + [Handle(FreshFlags(goal.hold), goal.k, goal.charge, 1, 0)])
  }

  /** The entry of the same key makes way, the table lists the new handle, and a client that wants it
      gets a reference. */
  function Inserted(s: State, goal: Goal): State
    requires goal.Insert? && (s.recycle != [] ==> NextHandle(s) < |s.list|)
    requires goal.k in s.table ==> s.table[goal.k] < |s.list|
  {
    var i := NextHandle(s);
    var s1 := Filled(s, goal);
    var s2 := if goal.k in s.table then Dropped(s1.(table := s.table - {goal.k}), s.table[goal.k]) else s1;
    s2.(table := s2.table[goal.k := i], usage := s2.usage + goal.charge,
        held := if goal.hold then s2.held + [Ref(i, goal.k)] else s2.held)
  }

  /** The insertion goes on. */
  predicate Accepted(s: State, goal: Goal, success: bool) {
    goal.Insert? && (success || (goal.hold && !s.strict))
  }

  lemma FillsAlone(s: State, t: nat, goal: Goal, success: bool)
    requires t < |s.pcs| && Accepted(s, goal, success) && (s.recycle != [] ==> NextHandle(s) < |s.list|)
    ensures Alone(During(s, t, Decide(goal, success)), 2) == During(Filled(s, goal), t, Replace(NextHandle(s), goal))
  {
    var i := NextHandle(s);
    var s0 := During(s, t, Decide(goal, success));
    var s1 := SectionStep(s0);
    assert s1.section == Held(t, StoreFlags(i, goal)) && i < |s1.list|;
    var s2 := SectionStep(s1);
    assert s2.list == Filled(s, goal).list;
    assert s2 == During(Filled(s, goal), t, Replace(i, goal));
    assert Alone(s1, 1) == Alone(s2, 0) == s2;
  }

  lemma ReplaceStep(s: State, t: nat, i: nat, goal: Goal)
    requires t < |s.pcs| && goal.Insert?
    ensures SectionStep(During(s, t, Replace(i, goal))) ==
            if goal.k in s.table
            then During(s.(table := s.table - {goal.k}), t, Unset(s.table[goal.k], Publish(i, goal)))
            else During(s, t, AddToTable(i, goal))
  {
  }

  lemma PublishesAlone(s: State, t: nat, i: nat, goal: Goal)
    requires Rests(s, t) && goal.Insert? && i < |s.list| && s.list[i].charge == goal.charge
    ensures Alone(During(s, t, AddToTable(i, goal)), 3) ==
            s.(table := s.table[goal.k := i], usage := s.usage + goal.charge,
               held := if goal.hold then s.held + [Ref(i, goal.k)] else s.held)
  {
    var s1 := During(s.(table := s.table[goal.k := i]), t, AddUsage(i, goal));
    assert SectionStep(During(s, t, AddToTable(i, goal))) == s1;
    var s2 := s.(table := s.table[goal.k := i], usage := s.usage + goal.charge,
                 held := if goal.hold then s.held + [Ref(i, goal.k)] else s.held);
    assert SectionStep(s1) == During(s2, t, Finish);
    Leaves(s2, t);
  }

  lemma InsertsAlone(s: State, t: nat, goal: Goal, success: bool) returns (n: nat)
    requires Rests(s, t) && Accepted(s, goal, success) && (s.recycle != [] ==> NextHandle(s) < |s.list|)
    requires goal.k in s.table ==> s.table[goal.k] < |s.list|
    ensures Alone(During(s, t, Decide(goal, success)), n) == Inserted(s, goal)
  {
    hide SectionStep;
    var i := NextHandle(s);
    var s1 := Filled(s, goal);
    FillsAlone(s, t, goal, success);
    ReplaceStep(s1, t, i, goal);
    if goal.k in s.table {
      var s2 := s1.(table := s.table - {goal.k});
      var m := UnsetAlone(s2, t, s.table[goal.k], Publish(i, goal));
      PublishesAlone(Dropped(s2, s.table[goal.k]), t, i, goal);
      AloneTwice(During(s2, t, Unset(s.table[goal.k], Publish(i, goal))), m, 3);
      AloneTwice(During(s, t, Decide(goal, success)), 2, 1 + m + 3);
      n := 2 + (1 + m + 3);
    } else {
      PublishesAlone(s1, t, i, goal);
      AloneTwice(During(s, t, Decide(goal, success)), 2, 1 + 3);
      n := 2 + (1 + 3);
    }
  }

  // ----- The scan

  const EVICTABLE := Flags(true, false, 0)

  /** TryEvict: an entry in the cache that is neither used nor referenced goes; else it is not used
      any more. */
  function Visit(s: State, at: nat): State
    requires at < |s.list|
  {
    var h := s.list[at];
    if h.flags == EVICTABLE then Dropped(s.(table := s.table - {h.key}), at)
    else s.(list := s.list[at := h.(flags := h.flags.(used := false))])
  }

  function Next(s: State, at: nat): nat {
    if at + 1 >= |s.list| then 0 else at + 1
  }

  /** How many handles are left in a round. */
  function Distance(head: nat, at: nat, size: nat): nat
    requires at < size && head < size
  {
    if at < head then head - at else size - at + head
  }

  /** The loop of EvictFromCache: at most twice round, from the head, until the charge fits. */
  function Scan(s: State, charge: nat, at: nat, second: bool): (r: (State, bool))
    requires at < |s.list| && s.head < |s.list|
    ensures r.0.pcs == s.pcs && |r.0.list| == |s.list|
    decreases (if second then 0 else |s.list|) + Distance(s.head, at, |s.list|)
  {
    if s.usage + charge <= s.capacity then (s.(head := at), true)
    else if Next(s, at) != s.head then Scan(Visit(s, at), charge, Next(s, at), second)
    else if !second then Scan(Visit(s, at), charge, s.head, true)
    else (Visit(s, at), false)
  }

  /** EvictFromCache. */
  function Evicts(s: State, charge: nat): (r: (State, bool))
    requires s.usage != 0 ==> s.head < |s.list|
    ensures r.0.pcs == s.pcs && |r.0.list| == |s.list|
  {
    if s.usage == 0 then (s, charge <= s.capacity) else Scan(s, charge, s.head, false)
  }

  lemma TryEvictStep(s: State, t: nat, goal: Goal, at: nat, second: bool)
    requires t < |s.pcs| && at < |s.list| && s.usage + GoalCharge(goal) > s.capacity && s.list[at].flags == EVICTABLE
    ensures SectionStep(During(s, t, EvictLoop(goal, s.usage, at, second))) ==
            During(s.(list := s.list[at := s.list[at].(flags := Flags(false, false, 0))]), t,
                   EraseEvicted(at, GoOn(goal, at, second)))
  {
  }

  lemma EraseEvictedStep(s: State, t: nat, at: nat, after: Then)
    requires t < |s.pcs| && at < |s.list|
    ensures SectionStep(During(s, t, EraseEvicted(at, after))) ==
            During(s.(table := s.table - {s.list[at].key}), t, Recycle(at, after))
  {
  }

  lemma EvictsOne(s: State, t: nat, goal: Goal, at: nat, second: bool)
    requires t < |s.pcs| && at < |s.list| && s.usage + GoalCharge(goal) > s.capacity && s.list[at].flags == EVICTABLE
    ensures Alone(During(s, t, EvictLoop(goal, s.usage, at, second)), 4) ==
            During(Visit(s, at), t, Reload(goal, at, second))
  {
    hide SectionStep;
    var h, after := s.list[at], GoOn(goal, at, second);
    var s1 := s.(list := s.list[at := h.(flags := Flags(false, false, 0))]);
    TryEvictStep(s, t, goal, at, second);
    var s2 := s1.(table := s.table - {h.key});
    EraseEvictedStep(s1, t, at, after);
    RecycleAlone(s2, t, at, after);
    assert Visit(s, at).list == s2.list[at := s2.list[at].(recycled := h.recycled + 1)];
    assert Visit(s, at) == s2.(list := Visit(s, at).list, recycle := s.recycle + [at], usage := s.usage - h.charge);
  }

  lemma SparesOne(s: State, t: nat, goal: Goal, at: nat, second: bool)
    requires t < |s.pcs| && at < |s.list| && s.usage + GoalCharge(goal) > s.capacity && s.list[at].flags != EVICTABLE
    ensures Alone(During(s, t, EvictLoop(goal, s.usage, at, second)), 2) ==
            During(Visit(s, at), t, Advance(s, goal, s.usage, at, second))
  {
    var s1 := During(s, t, ClearUsed(goal, s.usage, at, second));
    assert SectionStep(During(s, t, EvictLoop(goal, s.usage, at, second))) == s1;
    var s2 := SectionStep(s1);
    assert Alone(s1, 1) == Alone(s2, 0) == s2;
  }

  lemma ReloadStep(s: State, t: nat, goal: Goal, at: nat, second: bool)
    requires t < |s.pcs|
    ensures SectionStep(During(s, t, Reload(goal, at, second))) == During(s, t, Advance(s, goal, s.usage, at, second))
  {
  }

  /** One round of the loop. */
  lemma VisitsAlone(s: State, t: nat, goal: Goal, at: nat, second: bool) returns (n: nat)
    requires t < |s.pcs| && at < |s.list| && s.usage + GoalCharge(goal) > s.capacity
    ensures var s' := Visit(s, at);
            Alone(During(s, t, EvictLoop(goal, s.usage, at, second)), n) ==
            During(s', t, Advance(s', goal, s'.usage, at, second))
  {
    hide SectionStep;
    if s.list[at].flags == EVICTABLE {
      EvictsOne(s, t, goal, at, second);
      var s' := Visit(s, at);
      ReloadStep(s', t, goal, at, second);
      var last := SectionStep(During(s', t, Reload(goal, at, second)));
      assert Alone(During(s', t, Reload(goal, at, second)), 1) == Alone(last, 0) == last;
      AloneTwice(During(s, t, EvictLoop(goal, s.usage, at, second)), 4, 1);
      n := 5;
    } else {
      SparesOne(s, t, goal, at, second);
      n := 2;
    }
  }

  lemma FitsAlone(s: State, t: nat, goal: Goal, at: nat, second: bool)
    requires t < |s.pcs| && s.usage + GoalCharge(goal) <= s.capacity
    ensures Alone(During(s, t, EvictLoop(goal, s.usage, at, second)), 1) ==
            During(s.(head := at), t, Decide(goal, true))
  {
    var s' := SectionStep(During(s, t, EvictLoop(goal, s.usage, at, second)));
    assert Alone(s', 0) == s';
  }

  /** The steps of the section make up the loop. */
  lemma {:induction false} ScansAlone(s: State, t: nat, goal: Goal, at: nat, second: bool) returns (n: nat)
    requires t < |s.pcs| && at < |s.list| && s.head < |s.list|
    ensures var (s', success) := Scan(s, GoalCharge(goal), at, second);
            Alone(During(s, t, EvictLoop(goal, s.usage, at, second)), n) == During(s', t, Decide(goal, success))
    decreases (if second then 0 else |s.list|) + Distance(s.head, at, |s.list|)
  {
    hide SectionStep;
    if s.usage + GoalCharge(goal) <= s.capacity {
      FitsAlone(s, t, goal, at, second);
      n := 1;
    } else {
      var a := VisitsAlone(s, t, goal, at, second);
      var s' := Visit(s, at);
      var b := 0;
      if Next(s, at) != s.head {
        b := ScansAlone(s', t, goal, Next(s, at), second);
      } else if !second {
        b := ScansAlone(s', t, goal, s.head, true);
      }
      AloneTwice(During(s, t, EvictLoop(goal, s.usage, at, second)), a, b);
      n := a + b;
    }
  }

  lemma EvictStep(s: State, t: nat, goal: Goal)
    requires t < |s.pcs|
    ensures SectionStep(During(s, t, EvictStart(goal))) ==
            During(s, t, if s.usage == 0 then Decide(goal, GoalCharge(goal) <= s.capacity)
                         else EvictLoop(goal, s.usage, s.head, false))
  {
  }

  lemma EvictsAlone(s: State, t: nat, goal: Goal) returns (n: nat)
    requires t < |s.pcs| && (s.usage != 0 ==> s.head < |s.list|)
    ensures var (s', success) := Evicts(s, GoalCharge(goal));
            Alone(During(s, t, EvictStart(goal)), n) == During(s', t, Decide(goal, success))
  {
    hide SectionStep;
    EvictStep(s, t, goal);
    if s.usage == 0 {
      n := 1;
    } else {
      var m := ScansAlone(s, t, goal, s.head, false);
      n := 1 + m;
    }
  }

  lemma HeadIsInside(s: State)
    requires Reachable(s) && s.section == Free
    ensures s.usage != 0 ==> s.head < |s.list|
  {
    hide HandleOk, Listed, EntryOk, BinOk, HeldOk, Reachable;
    ReachableInv(s);
    UsageIsLiveCharge(s);
  }

  lemma DecidedIsOk(s: State, t: nat, work: Work, k: Key)
    requires t < |s.pcs| && Reachable(During(s, t, work))
    ensures s.recycle != [] ==> NextHandle(s) < |s.list|
    ensures k in s.table ==> s.table[k] < |s.list|
  {
    hide HandleOk, Listed, HeldOk, UsageOk, SectionOk, Reachable;
    ReachableInv(During(s, t, work));
    TableIsOk(During(s, t, work), k);
  }

  lemma StillRests(s: State, charge: nat, t: nat)
    requires Rests(s, t) && (s.usage != 0 ==> s.head < |s.list|)
    ensures var s' := Evicts(s, charge).0; Rests(s', t) && s'.pcs == s.pcs && s'.strict == s.strict
  {
    if s.usage != 0 {
      ScanKeeps(s, charge, s.head, false);
    }
  }

  lemma {:induction false} ScanKeeps(s: State, charge: nat, at: nat, second: bool)
    requires at < |s.list| && s.head < |s.list|
    ensures var s' := Scan(s, charge, at, second).0;
            && s'.pcs == s.pcs && s'.section == s.section && s'.strict == s.strict && s'.capacity == s.capacity
            && s'.held == s.held && |s'.list| == |s.list|
    decreases (if second then 0 else |s.list|) + Distance(s.head, at, |s.list|)
  {
    if s.usage + charge > s.capacity {
      if Next(s, at) != s.head {
        ScanKeeps(Visit(s, at), charge, Next(s, at), second);
      } else if !second {
        ScanKeeps(Visit(s, at), charge, s.head, true);
      }
    }
  }

  /** Insert, alone: the scan makes what room it can, and then the entry goes in, unless the scan has
      given up and the limit is strict or no handle is wanted. */
  lemma InsertAlone(s: State, t: nat, k: Key, charge: nat, hold: bool) returns (n: nat)
    requires Reachable(s) && Rests(s, t)
    ensures s.usage != 0 ==> s.head < |s.list|
    ensures var (s', success) := Evicts(s, charge);
            var goal := Insert(k, charge, hold);
            && (s'.recycle != [] ==> NextHandle(s') < |s'.list|) && (k in s'.table ==> s'.table[k] < |s'.list|)
            && Alone(Apply(s, LockInsert(t, k, charge, hold)), n) ==
               if Accepted(s', goal, success) then Inserted(s', goal) else s'
  {
    hide SectionStep, Reachable, Inserted, Scan;
    HeadIsInside(s);
    var goal := Insert(k, charge, hold);
    var s0 := During(s, t, EvictStart(goal));
    assert Apply(s, LockInsert(t, k, charge, hold)) == s0;
    ReachesNext(s, LockInsert(t, k, charge, hold), s0);
    var a := EvictsAlone(s, t, goal);
    AloneIsReached(s0, a);
    var (s', success) := Evicts(s, charge);
    StillRests(s, charge, t);
    DecidedIsOk(s', t, Decide(goal, success), k);
    var b := 2;
    if Accepted(s', goal, success) {
      b := InsertsAlone(s', t, goal, success);
    } else {
      RefuseStep(s', t, goal, success);
      Leaves(s', t);
    }
    AloneTwice(s0, a, b);
    n := a + b;
  }

  lemma RefuseStep(s: State, t: nat, goal: Goal, success: bool)
    requires t < |s.pcs| && !Accepted(s, goal, success)
    ensures SectionStep(During(s, t, Decide(goal, success))) == During(s, t, Finish)
  {
  }

  /** SetCapacity, alone: the new capacity, and what room the scan can make. */
  lemma ShrinkAlone(s: State, t: nat, capacity: nat) returns (n: nat)
    requires Reachable(s) && Rests(s, t)
    ensures s.usage != 0 ==> s.head < |s.list|
    ensures Alone(Apply(s, LockShrink(t, capacity)), n) == Evicts(s.(capacity := capacity), 0).0
  {
    hide SectionStep, Reachable, Scan;
    HeadIsInside(s);
    var s1 := s.(capacity := capacity);
    assert Apply(s, LockShrink(t, capacity)) == During(s1, t, EvictStart(Shrink));
    var a := EvictsAlone(s1, t, Shrink);
    var (s', success) := Evicts(s1, 0);
    StillRests(s1, 0, t);
    RefuseStep(s', t, Shrink, success);
    Leaves(s', t);
    AloneTwice(During(s1, t, EvictStart(Shrink)), a, 2);
    n := a + 2;
  }
}
