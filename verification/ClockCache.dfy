/** ClockCacheShard as a step system: what each thread does between two atomic operations.

    Lookups and releases work on the flags of a handle without a lock.  Everything that changes
    the list, the recycle bin or the hash table runs in one section under the mutex; its steps
    interleave with those of the other threads.  A cache key is the pair of key and hash. */
module ClockCache {

  type Key = nat

  /** In-cache bit, usage bit and reference count share one atomic word. */
  datatype Flags = Flags(inCache: bool, used: bool, refs: nat)

  /** `made` and `recycled` count how often the handle has been filled and recycled. */
  datatype Handle = Handle(flags: Flags, key: Key, charge: nat, made: nat, recycled: nat)

  /** What a thread is doing outside the mutex. */
  datatype Pc =
    | Idle
    | Found(k: Key, i: nat)                  // Lookup has found handle i in the table
    | Loaded(k: Key, i: nat, seen: Flags)    // and read its flags, with the in-cache bit set
    | Pinned(k: Key, i: nat)                 // and added a reference; the key is checked next
    | Reffing(k: Key, i: nat)                // Ref by a client that holds a reference already
    | RefSeen(k: Key, i: nat, seen: Flags)   // and has read the flags, with the in-cache bit set
    | Releasing(i: nat)                      // about to set the usage bit
    | Dropping(i: nat)                       // about to take its reference off
    | MustRecycle(i: nat)                    // took off the last one of an erased entry
    | InSection

  datatype Goal = Insert(k: Key, charge: nat, hold: bool) | Shrink

  /** Where a section goes on after a handle has been dealt with. */
  datatype Then = Leave | GoOn(goal: Goal, head: nat, second: bool) | Publish(i: nat, goal: Goal) | ClearFrom(n: nat)

  datatype Work =
    | EraseKey(k: Key)
    | Unset(i: nat, after: Then)                                  // UnsetInCache
    | Recycle(i: nat, after: Then)                                // RecycleHandle
    | Subtract(charge: nat, after: Then)                          // its usage_.fetch_sub
    | EvictStart(goal: Goal)
    | EvictLoop(goal: Goal, usage: int, at: nat, second: bool)
    | ClearUsed(goal: Goal, usage: int, at: nat, second: bool)    // TryEvict has failed
    | EraseEvicted(i: nat, after: Then)                           // TryEvict has cleared the flags
    | Reload(goal: Goal, at: nat, second: bool)                   // and reads usage_ again
    | Decide(goal: Goal, success: bool)
    | StoreFlags(i: nat, goal: Goal)                              // handle is filled
    | Replace(i: nat, goal: Goal)                                 // looks for an entry of the same key
    | AddToTable(i: nat, goal: Goal)
    | AddUsage(i: nat, goal: Goal)
    | ClearNext(n: nat)
    | Finish

  datatype Section = Free | Held(t: nat, work: Work)

  /** A handle that a client got under a key. */
  datatype Ref = Ref(i: nat, k: Key)

  datatype State = State(
    list: seq<Handle>,
    recycle: seq<nat>,
    table: map<Key, nat>,
    usage: int, capacity: nat, strict: bool, head: nat,
    pcs: seq<Pc>,
    held: seq<Ref>,
    section: Section)

  function Init(n: nat, capacity: nat, strict: bool): State {
    State([], [], map[], 0, capacity, strict, 0, seq(n, i => Idle), [], Free)
  }

  datatype Step =
    | Find(t: nat, k: Key) | Load(t: nat) | CasRef(t: nat) | CheckKey(t: nat)
    | StartRef(t: nat, h: nat) | LoadRef(t: nat) | CasHeld(t: nat)
    | StartRelease(t: nat, h: nat) | SetUsed(t: nat) | SubRef(t: nat)
    | LockRecycle(t: nat) | LockErase(t: nat, k: Key) | LockInsert(t: nat, k: Key, charge: nat, hold: bool)
    | LockShrink(t: nat, capacity: nat) | LockClear(t: nat) | SetStrict(t: nat, strict: bool)
    | Section

  predicate Enabled(s: State, step: Step) {
    if step.Section? then s.section.Held?
    else
      step.t < |s.pcs| &&
      match step
      case Find(t, _) => s.pcs[t].Idle?
      case Load(t) => s.pcs[t].Found?
      case CasRef(t) => s.pcs[t].Loaded?
      case CheckKey(t) => s.pcs[t].Pinned?
      case StartRef(t, h) => s.pcs[t].Idle? && h < |s.held|
      case LoadRef(t) => s.pcs[t].Reffing?
      case CasHeld(t) => s.pcs[t].RefSeen?
      case StartRelease(t, h) => s.pcs[t].Idle? && h < |s.held|
      case SetUsed(t) => s.pcs[t].Releasing?
      case SubRef(t) => s.pcs[t].Dropping?
      case LockRecycle(t) => s.pcs[t].MustRecycle? && s.section == Free
      case SetStrict(t, _) => s.pcs[t].Idle?
      case _ => s.pcs[step.t].Idle? && s.section == Free
  }

  function SetPc(s: State, t: nat, pc: Pc): State
    requires t < |s.pcs|
  {
    s.(pcs := s.pcs[t := pc])
  }

  function SetFlags(s: State, i: nat, f: Flags): State {
    if i < |s.list| then s.(list := s.list[i := s.list[i].(flags := f)]) else s
  }

  function FlagsOf(s: State, i: nat): Flags {
    if i < |s.list| then s.list[i].flags else Flags(false, false, 0)
  }

  function KeyOf(s: State, i: nat): Key {
    if i < |s.list| then s.list[i].key else 0
  }

  function ChargeOf(s: State, i: nat): nat {
    if i < |s.list| then s.list[i].charge else 0
  }

  function Enter(s: State, t: nat, work: Work): State
    requires t < |s.pcs|
  {
    SetPc(s, t, InSection).(section := Held(t, work))
  }

  /** The steps of a thread outside the mutex, and those that take it. */
  function ThreadStep(s: State, step: Step): State
    requires Enabled(s, step) && !step.Section?
  {
    match step
    case Find(t, k) => if k in s.table then SetPc(s, t, Found(k, s.table[k])) else s
    case Load(t) =>
      var Found(k, i) := s.pcs[t];
      SetPc(s, t, if FlagsOf(s, i).inCache then Loaded(k, i, FlagsOf(s, i)) else Idle)
    case CasRef(t) =>
      // on failure compare_exchange reads the flags again
      var Loaded(k, i, seen) := s.pcs[t];
      if FlagsOf(s, i) == seen then SetFlags(SetPc(s, t, Pinned(k, i)), i, seen.(refs := seen.refs + 1))
      else SetPc(s, t, Found(k, i))
    case CheckKey(t) =>
      var Pinned(k, i) := s.pcs[t];
      if KeyOf(s, i) == k then SetPc(s, t, Idle).(held := s.held + [Ref(i, k)]) else SetPc(s, t, Dropping(i))
    case StartRef(t, h) =>
      // the reference that the caller holds is kept aside until the call returns
      SetPc(s, t, Reffing(s.held[h].k, s.held[h].i)).(held := s.held[..h] + s.held[h + 1..])
    case LoadRef(t) =>
      var Reffing(k, i) := s.pcs[t];
      if FlagsOf(s, i).inCache then SetPc(s, t, RefSeen(k, i, FlagsOf(s, i)))
      else SetPc(s, t, Idle).(held := s.held + [Ref(i, k)])
    case CasHeld(t) =>
      var RefSeen(k, i, seen) := s.pcs[t];
      if FlagsOf(s, i) == seen then
        SetFlags(SetPc(s, t, Idle), i, seen.(refs := seen.refs + 1)).(held := s.held + [Ref(i, k)] + [Ref(i, k)])
      else SetPc(s, t, Reffing(k, i))
    case StartRelease(t, h) =>
      SetPc(s, t, Releasing(s.held[h].i)).(held := s.held[..h] + s.held[h + 1..])
    case SetUsed(t) =>
      var i := s.pcs[t].i;
      SetFlags(SetPc(s, t, Dropping(i)), i, FlagsOf(s, i).(used := true))
    case SubRef(t) =>
      var i := s.pcs[t].i;
      var f := FlagsOf(s, i);
      SetFlags(SetPc(s, t, if f.refs == 1 && !f.inCache then MustRecycle(i) else Idle), i,
               f.(refs := if f.refs > 0 then f.refs - 1 else 0))
    case LockRecycle(t) => Enter(s, t, Recycle(s.pcs[t].i, Leave))
    case LockErase(t, k) => Enter(s, t, EraseKey(k))
    case LockInsert(t, k, charge, hold) => Enter(s, t, EvictStart(Insert(k, charge, hold)))
    case LockShrink(t, capacity) => Enter(s, t, EvictStart(Shrink)).(capacity := capacity)
    case LockClear(t) => Enter(s, t, ClearNext(0)).(table := map[])
    case SetStrict(_, strict) => s.(strict := strict)
  }

  function Do(s: State, work: Work): State
    requires s.section.Held?
  {
    s.(section := Held(s.section.t, work))
  }

  function WorkAfter(then_: Then): Work {
    match then_
    case Leave => Finish
    case GoOn(goal, at, second) => Reload(goal, at, second)
    case Publish(i, goal) => AddToTable(i, goal)
    case ClearFrom(n) => ClearNext(n)
  }

  function GoalCharge(goal: Goal): nat {
    if goal.Insert? then goal.charge else 0
  }

  /** The scan moves on to the next handle; after two rounds it gives up. */
  function Advance(s: State, goal: Goal, usage: int, at: nat, second: bool): Work {
    var next := if at + 1 >= |s.list| then 0 else at + 1;
    if next == s.head then (if second then Decide(goal, false) else EvictLoop(goal, usage, next, true))
    else EvictLoop(goal, usage, next, second)
  }

  /** A handle from the recycle bin, or a new one at the end of the list, filled. */
  function Take(s: State, goal: Goal): State
    requires s.section.Held? && goal.Insert?
  {
    if s.recycle != [] && s.recycle[|s.recycle| - 1] < |s.list| then
      var i := s.recycle[|s.recycle| - 1];
      var h := s.list[i];
      Do(s, StoreFlags(i, goal)).(
        recycle := s.recycle[..|s.recycle| - 1],
        list := s.list[i := h.(key := goal.k, charge := goal.charge, made := h.made + 1)])
    else
      Do(s, StoreFlags(|s.list|, goal)).(
        list := s.list + [Handle(Flags(false, false, 0), goal.k, goal.charge, 1, 0)])
  }

  /** The next step of the thread that holds the mutex. */
  function SectionStep(s: State): State
    requires s.section.Held?
  {
    match s.section.work
    case EraseKey(k) =>
      if k in s.table then Do(s, Unset(s.table[k], Leave)).(table := s.table - {k}) else Do(s, Finish)
    case Unset(i, after) =>
      var f := FlagsOf(s, i);
      SetFlags(Do(s, if f.inCache && f.refs == 0 then Recycle(i, after) else WorkAfter(after)), i, f.(inCache := false))
    case Recycle(i, after) =>
      if i < |s.list| then
        Do(s, Subtract(s.list[i].charge, after)).(
          recycle := s.recycle + [i], list := s.list[i := s.list[i].(recycled := s.list[i].recycled + 1)])
      else s
    case Subtract(charge, after) => Do(s, WorkAfter(after)).(usage := s.usage - charge)
    case EvictStart(goal) =>
      if s.usage == 0 then Do(s, Decide(goal, GoalCharge(goal) <= s.capacity))
      else Do(s, EvictLoop(goal, s.usage, s.head, false))
    case EvictLoop(goal, usage, at, second) =>
      if usage + GoalCharge(goal) <= s.capacity then Do(s, Decide(goal, true)).(head := at)
      else if FlagsOf(s, at) == Flags(true, false, 0) then
        SetFlags(Do(s, EraseEvicted(at, GoOn(goal, at, second))), at, Flags(false, false, 0))
      else Do(s, ClearUsed(goal, usage, at, second))
    case ClearUsed(goal, usage, at, second) =>
      SetFlags(Do(s, Advance(s, goal, usage, at, second)), at, FlagsOf(s, at).(used := false))
    case EraseEvicted(i, after) => Do(s, Recycle(i, after)).(table := s.table - {KeyOf(s, i)})
    case Reload(goal, at, second) => Do(s, Advance(s, goal, s.usage, at, second))
    case Decide(goal, success) =>
      if goal.Shrink? || (!success && (s.strict || !goal.hold)) then Do(s, Finish) else Take(s, goal)
    case StoreFlags(i, goal) =>
      if goal.Insert? then SetFlags(Do(s, Replace(i, goal)), i, Flags(true, false, if goal.hold then 1 else 0)) else s
    case Replace(i, goal) =>
      if goal.Insert? && goal.k in s.table
      then Do(s, Unset(s.table[goal.k], Publish(i, goal))).(table := s.table - {goal.k})
      else Do(s, AddToTable(i, goal))
    case AddToTable(i, goal) => if goal.Insert? then Do(s, AddUsage(i, goal)).(table := s.table[goal.k := i]) else s
    case AddUsage(i, goal) =>
      var s' := Do(s, Finish).(usage := s.usage + ChargeOf(s, i));
      if goal.Insert? && goal.hold then s'.(held := s'.held + [Ref(i, goal.k)]) else s'
    case ClearNext(n) => if n < |s.list| then Do(s, Unset(n, ClearFrom(n + 1))) else Do(s, Finish)
    case Finish => if s.section.t < |s.pcs| then SetPc(s, s.section.t, Idle).(section := Free) else s
  }

  function Apply(s: State, step: Step): State
    requires Enabled(s, step)
  {
    if step.Section? then SectionStep(s) else ThreadStep(s, step)
  }

  // ----- Counting

  datatype Measure = References | Recycles

  function Weight(m: Measure, pc: Pc, i: nat): nat {
    match m
    case References =>
      if (pc.Pinned? || pc.Reffing? || pc.RefSeen? || pc.Releasing? || pc.Dropping?) && pc.i == i then 1 else 0
    case Recycles => if pc == MustRecycle(i) then 1 else 0
  }

  function Total(m: Measure, pcs: seq<Pc>, i: nat): nat {
    if pcs == [] then 0 else Total(m, pcs[..|pcs| - 1], i) + Weight(m, pcs[|pcs| - 1], i)
  }

  lemma {:induction false} TotalUpdate(m: Measure, pcs: seq<Pc>, t: nat, pc: Pc, i: nat)
    requires t < |pcs|
    ensures Total(m, pcs[t := pc], i) == Total(m, pcs, i) - Weight(m, pcs[t], i) + Weight(m, pc, i)
    ensures Weight(m, pcs[t], i) <= Total(m, pcs, i)
  {
    var last := |pcs| - 1;
    if t == last {
      assert pcs[t := pc][..last] == pcs[..last];
    } else {
      assert pcs[t := pc][..last] == pcs[..last][t := pc];
      TotalUpdate(m, pcs[..last], t, pc, i);
    }
  }

  lemma {:induction false} TotalZero(m: Measure, pcs: seq<Pc>, i: nat)
    requires forall t :: 0 <= t < |pcs| ==> Weight(m, pcs[t], i) == 0
    ensures Total(m, pcs, i) == 0
  {
    if pcs != [] {
      TotalZero(m, pcs[..|pcs| - 1], i);
    }
  }

  /** References that clients hold on handle `i`. */
  function HeldCount(held: seq<Ref>, i: nat): nat {
    if held == [] then 0
    else HeldCount(held[..|held| - 1], i) + (if held[|held| - 1].i == i then 1 else 0)
  }

  lemma HeldAppend(held: seq<Ref>, r: Ref, i: nat)
    ensures HeldCount(held + [r], i) == HeldCount(held, i) + (if r.i == i then 1 else 0)
  {
    assert (held + [r])[..|held|] == held;
  }

  lemma {:induction false} HeldRemove(held: seq<Ref>, n: nat, i: nat)
    requires n < |held|
    ensures HeldCount(held[..n] + held[n + 1..], i) == HeldCount(held, i) - (if held[n].i == i then 1 else 0)
    ensures held[n].i == i ==> HeldCount(held, i) > 0
  {
    var last := |held| - 1;
    if n == last {
      assert held[..n] + held[n + 1..] == held[..last];
    } else {
      HeldRemove(held[..last], n, i);
      assert (held[..n] + held[n + 1..])[..last - 1] == held[..last][..n] + held[..last][n + 1..];
    }
  }

  /** Every time the handle was filled it has been recycled again: it is in the recycle bin. */
  predicate Binned(h: Handle) {
    h.made == h.recycled
  }

  /** What the handles outside the recycle bin are charged. */
  function LiveCharge(list: seq<Handle>): nat {
    if list == [] then 0
    else LiveCharge(list[..|list| - 1]) + (if Binned(list[|list| - 1]) then 0 else list[|list| - 1].charge)
  }

  lemma {:induction false} LiveChargeUpdate(list: seq<Handle>, i: nat, h: Handle)
    requires i < |list|
    ensures LiveCharge(list[i := h]) ==
            LiveCharge(list) - (if Binned(list[i]) then 0 else list[i].charge) + (if Binned(h) then 0 else h.charge)
  {
    var last := |list| - 1;
    if i == last {
      assert list[i := h][..last] == list[..last];
    } else {
      assert list[i := h][..last] == list[..last][i := h];
      LiveChargeUpdate(list[..last], i, h);
    }
  }

  lemma LiveChargeAppend(list: seq<Handle>, h: Handle)
    ensures LiveCharge(list + [h]) == LiveCharge(list) + (if Binned(h) then 0 else h.charge)
  {
    assert (list + [h])[..|list|] == list;
  }
}
