/** An interleaving of two threads that leaves `pinned_usage_` wrong. */
module ClockPinRun {
  import opened ClockCache
  import opened ClockPins

  lemma {:induction false} JoinRuns(x: Pins, first: seq<PinStep>, second: seq<PinStep>)
    requires PinRuns(x, first) && PinRuns(PinsAfter(x, first), second)
    ensures PinRuns(x, first + second) && PinsAfter(x, first + second) == PinsAfter(PinsAfter(x, first), second)
    decreases |first|
  {
    if first == [] {
      assert first + second == second;
    } else {
      JoinRuns(Go(x, first[0]), first[1..], second);
      assert (first + second)[1..] == first[1..] + second;
    }
  }

  lemma Run1(x: Pins, a: PinStep)
    requires CanStep(x, a)
    ensures PinRuns(x, [a]) && PinsAfter(x, [a]) == Go(x, a)
  {
    assert PinRuns(Go(x, a), []);
  }

  /** One more step at the end of a run. */
  lemma ThenStep(x: Pins, steps: seq<PinStep>, y: Pins, a: PinStep, z: Pins)
    requires PinRuns(x, steps) && PinsAfter(x, steps) == y && CanStep(y, a) && Go(y, a) == z
    ensures PinRuns(x, steps + [a]) && PinsAfter(x, steps + [a]) == z
  {
    Run1(y, a);
    JoinRuns(x, steps, [a]);
  }

  /** With two threads: the list, the table, the section and what the threads are doing and owe. */
  function At(list: seq<Handle>, recycle: seq<nat>, table: map<Key, nat>, usage: int, pcs: seq<Pc>, held: seq<Ref>,
              section: ClockCache.Section, pinned: int, late: seq<Late>): Pins
  {
    Pins(State(list, recycle, table, usage, 10, false, 0, pcs, held, section), pinned, late)
  }

  /** Where a run from the start leads. */
  ghost predicate LeadsTo(x: Pins) {
    exists steps :: PinRuns(Start(2, 10, false), steps) && PinsAfter(Start(2, 10, false), steps) == x
  }

  lemma LeadsOn(x: Pins, a: PinStep, y: Pins)
    requires LeadsTo(x) && CanStep(x, a) && Go(x, a) == y
    ensures LeadsTo(y)
  {
    var steps :| PinRuns(Start(2, 10, false), steps) && PinsAfter(Start(2, 10, false), steps) == x;
    ThenStep(Start(2, 10, false), steps, x, a, y);
  }

  lemma SectionLeads(x: Pins, s: State)
    requires LeadsTo(x) && x.s.section.Held? && x.s.section.t < |x.late| && x.late[x.s.section.t] == Done
    requires LateAfter(x.s, Step.Section) == Done && SectionStep(x.s) == s
    ensures LeadsTo(Pins(s, x.pinned, x.late))
  {
    hide LeadsTo, SectionStep;
    var t := x.s.section.t;
    assert x.late[t := Done] == x.late;
    LeadsOn(x, Base(Step.Section), Pins(s, x.pinned, x.late));
  }

  function Handle0(inCache: bool, used: bool, refs: nat, k: Key, charge: nat, made: nat, recycled: nat): Handle {
    Handle(Flags(inCache, used, refs), k, charge, made, recycled)
  }

  lemma LeadsToStart()
    ensures LeadsTo(At([], [], map[], 0, [Idle, Idle], [], Free, 0, [Done, Done]))
  {
    var start := Start(2, 10, false);
    assert PinRuns(start, []) && PinsAfter(start, []) == start;
    assert start == At([], [], map[], 0, [Idle, Idle], [], Free, 0, [Done, Done]);
  }

  /** Thread 0 inserts an entry of charge 1 and keeps a reference. */
  lemma EntryIsFilled()
    ensures LeadsTo(At([Handle0(false, false, 0, 0, 1, 1, 0)], [], map[], 0, [InSection, Idle], [],
                       Held(0, StoreFlags(0, Insert(0, 1, true))), 0, [Done, Done]))
  {
    LeadsToStart();
    hide LeadsTo;
    var goal, busy, late := Insert(0, 1, true), [InSection, Idle], [Done, Done];
    var x0 := At([], [], map[], 0, [Idle, Idle], [], Free, 0, late);
    var x1 := At([], [], map[], 0, busy, [], Held(0, EvictStart(goal)), 0, late);
    LeadsOn(x0, Base(LockInsert(0, 0, 1, true)), x1);
    var x2 := At([], [], map[], 0, busy, [], Held(0, Decide(goal, true)), 0, late);
    SectionLeads(x1, x2.s);
    var x3 := At([Handle0(false, false, 0, 0, 1, 1, 0)], [], map[], 0, busy, [], Held(0, StoreFlags(0, goal)), 0, late);
    SectionLeads(x2, x3.s);
  }

  lemma EntryIsPublished()
    ensures LeadsTo(At([Handle0(true, false, 1, 0, 1, 1, 0)], [], map[0 := 0], 0, [InSection, Idle], [],
                       Held(0, AddUsage(0, Insert(0, 1, true))), 0, [Add(0), Done]))
  {
    EntryIsFilled();
    hide LeadsTo;
    var goal, busy, late := Insert(0, 1, true), [InSection, Idle], [Done, Done];
    var x3 := At([Handle0(false, false, 0, 0, 1, 1, 0)], [], map[], 0, busy, [], Held(0, StoreFlags(0, goal)), 0, late);
    var list := [Handle0(true, false, 1, 0, 1, 1, 0)];
    var x4 := At(list, [], map[], 0, busy, [], Held(0, Replace(0, goal)), 0, late);
    SectionLeads(x3, x4.s);
    var x5 := At(list, [], map[], 0, busy, [], Held(0, AddToTable(0, goal)), 0, late);
    SectionLeads(x4, x5.s);
    var x6 := At(list, [], map[0 := 0], 0, busy, [], Held(0, AddUsage(0, goal)), 0, [Add(0), Done]);
    LeadsOn(x5, Base(Step.Section), x6);
  }

  lemma EntryIsInserted()
    ensures LeadsTo(At([Handle0(true, false, 1, 0, 1, 1, 0)], [], map[0 := 0], 1, [Idle, Idle], [Ref(0, 0)], Free, 1,
                       [Done, Done]))
  {
    EntryIsPublished();
    hide LeadsTo;
    var goal, busy, late := Insert(0, 1, true), [InSection, Idle], [Done, Done];
    var list := [Handle0(true, false, 1, 0, 1, 1, 0)];
    var x6 := At(list, [], map[0 := 0], 0, busy, [], Held(0, AddUsage(0, goal)), 0, [Add(0), Done]);
    var x7 := At(list, [], map[0 := 0], 0, busy, [], Held(0, AddUsage(0, goal)), 1, late);
    LeadsOn(x6, Settle(0), x7);
    var x8 := At(list, [], map[0 := 0], 1, busy, [Ref(0, 0)], Held(0, Finish), 1, late);
    SectionLeads(x7, x8.s);
    var x9 := At(list, [], map[0 := 0], 1, [Idle, Idle], [Ref(0, 0)], Free, 1, late);
    SectionLeads(x8, x9.s);
  }

  /** Thread 0 releases it and stops between the two steps of Unref. */
  lemma ReferenceIsDropped()
    ensures LeadsTo(At([Handle0(true, true, 0, 0, 1, 1, 0)], [], map[0 := 0], 1, [Idle, Idle], [], Free, 1,
                       [Sub(0), Done]))
  {
    EntryIsInserted();
    hide LeadsTo;
    var late, table := [Done, Done], map[0 := 0];
    var x0 := At([Handle0(true, false, 1, 0, 1, 1, 0)], [], table, 1, [Idle, Idle], [Ref(0, 0)], Free, 1, late);
    var x1 := At([Handle0(true, false, 1, 0, 1, 1, 0)], [], table, 1, [Releasing(0), Idle], [], Free, 1, late);
    LeadsOn(x0, Base(StartRelease(0, 0)), x1);
    var x2 := At([Handle0(true, true, 1, 0, 1, 1, 0)], [], table, 1, [Dropping(0), Idle], [], Free, 1, late);
    LeadsOn(x1, Base(SetUsed(0)), x2);
    var x3 := At([Handle0(true, true, 0, 0, 1, 1, 0)], [], table, 1, [Idle, Idle], [], Free, 1, [Sub(0), Done]);
    LeadsOn(x2, Base(SubRef(0)), x3);
  }

  /** Thread 1 erases the entry. */
  lemma EntryIsUnset()
    ensures LeadsTo(At([Handle0(false, true, 0, 0, 1, 1, 0)], [], map[], 1, [Idle, InSection], [],
                       Held(1, Recycle(0, Leave)), 1, [Sub(0), Done]))
  {
    ReferenceIsDropped();
    hide LeadsTo;
    var late, busy := [Sub(0), Done], [Idle, InSection];
    var list := [Handle0(true, true, 0, 0, 1, 1, 0)];
    var x0 := At(list, [], map[0 := 0], 1, [Idle, Idle], [], Free, 1, late);
    var x1 := At(list, [], map[0 := 0], 1, busy, [], Held(1, EraseKey(0)), 1, late);
    LeadsOn(x0, Base(LockErase(1, 0)), x1);
    var x2 := At(list, [], map[], 1, busy, [], Held(1, Unset(0, Leave)), 1, late);
    SectionLeads(x1, x2.s);
    var x3 := At([Handle0(false, true, 0, 0, 1, 1, 0)], [], map[], 1, busy, [], Held(1, Recycle(0, Leave)), 1, late);
    SectionLeads(x2, x3.s);
  }

  lemma EntryIsErased()
    ensures LeadsTo(At([Handle0(false, true, 0, 0, 1, 1, 1)], [0], map[], 0, [Idle, Idle], [], Free, 1, [Sub(0), Done]))
  {
    EntryIsUnset();
    hide LeadsTo;
    var late, busy := [Sub(0), Done], [Idle, InSection];
    var x3 := At([Handle0(false, true, 0, 0, 1, 1, 0)], [], map[], 1, busy, [], Held(1, Recycle(0, Leave)), 1, late);
    var x4 := At([Handle0(false, true, 0, 0, 1, 1, 1)], [0], map[], 1, busy, [], Held(1, Subtract(1, Leave)), 1, late);
    SectionLeads(x3, x4.s);
    var x5 := At([Handle0(false, true, 0, 0, 1, 1, 1)], [0], map[], 0, busy, [], Held(1, Finish), 1, late);
    SectionLeads(x4, x5.s);
    var x6 := At([Handle0(false, true, 0, 0, 1, 1, 1)], [0], map[], 0, [Idle, Idle], [], Free, 1, late);
    SectionLeads(x5, x6.s);
  }

  /** Thread 1 inserts an entry of charge 5 into the same handle. */
  lemma HandleIsTaken()
    ensures LeadsTo(At([Handle0(false, true, 0, 1, 5, 2, 1)], [], map[], 0, [Idle, InSection], [],
                       Held(1, StoreFlags(0, Insert(1, 5, false))), 1, [Sub(0), Done]))
  {
    EntryIsErased();
    hide LeadsTo;
    var late, busy, goal := [Sub(0), Done], [Idle, InSection], Insert(1, 5, false);
    var dead := [Handle0(false, true, 0, 0, 1, 1, 1)];
    var x0 := At(dead, [0], map[], 0, [Idle, Idle], [], Free, 1, late);
    var x1 := At(dead, [0], map[], 0, busy, [], Held(1, EvictStart(goal)), 1, late);
    LeadsOn(x0, Base(LockInsert(1, 1, 5, false)), x1);
    var x2 := At(dead, [0], map[], 0, busy, [], Held(1, Decide(goal, true)), 1, late);
    SectionLeads(x1, x2.s);
    var x3 := At([Handle0(false, true, 0, 1, 5, 2, 1)], [], map[], 0, busy, [], Held(1, StoreFlags(0, goal)), 1, late);
    SectionLeads(x2, x3.s);
  }

  lemma HandleIsPublished()
    ensures LeadsTo(At([Handle0(true, false, 0, 1, 5, 2, 1)], [], map[1 := 0], 0, [Idle, InSection], [],
                       Held(1, AddUsage(0, Insert(1, 5, false))), 1, [Sub(0), Done]))
  {
    HandleIsTaken();
    hide LeadsTo;
    var late, busy, goal := [Sub(0), Done], [Idle, InSection], Insert(1, 5, false);
    var x3 := At([Handle0(false, true, 0, 1, 5, 2, 1)], [], map[], 0, busy, [], Held(1, StoreFlags(0, goal)), 1, late);
    var list := [Handle0(true, false, 0, 1, 5, 2, 1)];
    var x4 := At(list, [], map[], 0, busy, [], Held(1, Replace(0, goal)), 1, late);
    SectionLeads(x3, x4.s);
    var x5 := At(list, [], map[], 0, busy, [], Held(1, AddToTable(0, goal)), 1, late);
    SectionLeads(x4, x5.s);
    var x6 := At(list, [], map[1 := 0], 0, busy, [], Held(1, AddUsage(0, goal)), 1, late);
    SectionLeads(x5, x6.s);
  }

  lemma HandleIsRefilled()
    ensures LeadsTo(At([Handle0(true, false, 0, 1, 5, 2, 1)], [], map[1 := 0], 5, [Idle, Idle], [], Free, 1,
                       [Sub(0), Done]))
  {
    HandleIsPublished();
    hide LeadsTo;
    var late, busy, goal := [Sub(0), Done], [Idle, InSection], Insert(1, 5, false);
    var list := [Handle0(true, false, 0, 1, 5, 2, 1)];
    var x6 := At(list, [], map[1 := 0], 0, busy, [], Held(1, AddUsage(0, goal)), 1, late);
    var x7 := At(list, [], map[1 := 0], 5, busy, [], Held(1, Finish), 1, late);
    SectionLeads(x6, x7.s);
    var x8 := At(list, [], map[1 := 0], 5, [Idle, Idle], [], Free, 1, late);
    SectionLeads(x7, x8.s);
  }

  /** Thread 0 goes on and takes off the charge of the other entry: nothing is referenced, and
      `pinned_usage_` is four below zero. */
  lemma SomeRunGoesWrong() returns (x: Pins)
    ensures LeadsTo(x) && AtRest(x) && x.s.held == [] && PinnedCharge(x.s.list) == 0 && x.pinned == -4
  {
    HandleIsRefilled();
    var list := [Handle0(true, false, 0, 1, 5, 2, 1)];
    var y := At(list, [], map[1 := 0], 5, [Idle, Idle], [], Free, 1, [Sub(0), Done]);
    x := At(list, [], map[1 := 0], 5, [Idle, Idle], [], Free, -4, [Done, Done]);
    LeadsOn(y, Settle(0), x);
    assert list[..0] == [];
  }
}
