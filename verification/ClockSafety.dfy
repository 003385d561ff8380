/** The inductive invariant of the CLOCK cache and what it gives over every interleaving. */
module ClockSafety {
  import opened ClockCache

  // ----- What the section is in the middle of

  function ThenOf(work: Work): Then {
    match work
    case Unset(_, after) => after
    case Recycle(_, after) => after
    case Subtract(_, after) => after
    case _ => Leave
  }

  /** The handle being inserted has its flags set but is not in the table yet. */
  predicate Unpublished(work: Work, i: nat) {
    || (work.Replace? && work.i == i)
    || (work.AddToTable? && work.i == i)
    || (ThenOf(work).Publish? && ThenOf(work).i == i)
  }

  function GoalOf(work: Work): Goal {
    match work
    case Replace(_, goal) => goal
    case AddToTable(_, goal) => goal
    case AddUsage(_, goal) => goal
    case StoreFlags(_, goal) => goal
    case _ => if ThenOf(work).Publish? then ThenOf(work).goal else Shrink
  }

  /** The reference the section will hand to the client of Insert. */
  function WorkRefs(work: Work, i: nat): nat {
    if (Unpublished(work, i) || (work.AddUsage? && work.i == i)) && GoalOf(work).Insert? && GoalOf(work).hold then 1
      else 0
  }

  /** The section alone owns handle `i`, to recycle it or to fill it. */
  function WorkOwns(work: Work, i: nat): nat {
    if (work.Recycle? || work.EraseEvicted? || work.StoreFlags?) && work.i == i then 1 else 0
  }

  /** The charge that is still to be taken off `usage_`, or to be added. */
  function Unsettled(list: seq<Handle>, work: Work): int {
    (if work.Subtract? then work.charge else 0)
    - (match work
       case StoreFlags(i, _) => Charge(list, i)
       case Replace(i, _) => Charge(list, i)
       case AddToTable(i, _) => Charge(list, i)
       case AddUsage(i, _) => Charge(list, i)
       case _ => if ThenOf(work).Publish? then Charge(list, ThenOf(work).i) else 0)
  }

  function Charge(list: seq<Handle>, i: nat): nat {
    if i < |list| then list[i].charge else 0
  }

  function WorkOf(section: ClockCache.Section): Work {
    if section.Held? then section.work else Finish
  }

  /** Handles that are in the cache though the table does not list them. */
  predicate Exempt(work: Work, i: nat) {
    || (work.Unset? && work.i == i)
    || Unpublished(work, i)
    || (work.ClearNext? && i >= work.n)
    || (ThenOf(work).ClearFrom? && i >= ThenOf(work).n)
  }

  // ----- The invariant

  function Refs(s: State, i: nat): nat {
    Total(References, s.pcs, i) + HeldCount(s.held, i) + WorkRefs(WorkOf(s.section), i)
  }

  function Owners(s: State, i: nat): nat {
    Total(Recycles, s.pcs, i) + WorkOwns(WorkOf(s.section), i)
  }

  predicate Live(f: Flags) {
    f.inCache || f.refs > 0
  }

  /** Handle `i` counts the references that somebody holds, and unless it is in the cache or
      referenced it is in the recycle bin or in the care of exactly one thread. */
  ghost predicate HandleOk(s: State, i: nat)
    requires i < |s.list|
  {
    var h := s.list[i];
    && h.flags.refs == Refs(s, i)
    && (Live(h.flags) ==> Owners(s, i) == 0)
    && h.made - h.recycled == (if Live(h.flags) then 1 else Owners(s, i))
    && h.made - h.recycled <= 1
  }

  ghost predicate Listed(s: State, i: nat)
    requires i < |s.list|
  {
    s.list[i].flags.inCache ==>
      (s.list[i].key in s.table && s.table[s.list[i].key] == i) || Exempt(WorkOf(s.section), i)
  }

  ghost predicate EntryOk(s: State, k: Key) {
    k in s.table ==>
      && s.table[k] < |s.list|
      && s.list[s.table[k]].key == k
      && (s.list[s.table[k]].flags.inCache || (WorkOf(s.section).EraseEvicted? && WorkOf(s.section).i == s.table[k]))
  }

  predicate PcOk(pc: Pc, list: seq<Handle>) {
    var size := |list|;
    match pc
    case Idle => true
    case InSection => true
    case Found(_, i) => i < size
    case Loaded(_, i, seen) => i < size && seen.inCache
    case Pinned(_, i) => i < size
    case Reffing(k, i) => i < size && list[i].key == k
    case RefSeen(k, i, seen) => i < size && list[i].key == k && seen.inCache
    case Releasing(i) => i < size
    case Dropping(i) => i < size
    case MustRecycle(i) => i < size
  }

  ghost predicate BinOk(list: seq<Handle>, recycle: seq<nat>) {
    && (forall n :: 0 <= n < |recycle| ==> recycle[n] < |list| && Binned(list[recycle[n]]))
    && (forall m, n :: 0 <= m < n < |recycle| ==> recycle[m] != recycle[n])
    && (forall i :: 0 <= i < |list| && Binned(list[i]) ==> i in recycle)
  }

  ghost predicate HeldOk(list: seq<Handle>, held: seq<Ref>) {
    forall n :: 0 <= n < |held| ==> held[n].i < |list| && list[held[n].i].key == held[n].k
  }

  ghost predicate NotListed(table: map<Key, nat>, i: nat) {
    forall k :: k in table ==> table[k] != i
  }

  /** The handle being inserted carries the key and is in the table of no key. */
  ghost predicate NewOk(s: State, i: nat, goal: Goal) {
    goal.Insert? && i < |s.list| && s.list[i].key == goal.k && NotListed(s.table, i)
  }

  ghost predicate ThenOk(s: State, then_: Then) {
    match then_
    case Leave => true
    case GoOn(_, at, _) => at < |s.list| && s.head < |s.list|
    case Publish(i, goal) => NewOk(s, i, goal) && s.list[i].flags.inCache && goal.k !in s.table
    case ClearFrom(_) => s.table == map[]
  }

  ghost predicate WorkOk(s: State, work: Work) {
    match work
    case EraseKey(_) => true
    case Unset(i, after) =>
      && i < |s.list| && NotListed(s.table, i) && ThenOk(s, after)
      && (after.Publish? ==> after.i != i) && (after.ClearFrom? ==> after.n == i + 1)
    case Recycle(i, after) =>
      i < |s.list| && NotListed(s.table, i) && ThenOk(s, after) && (after.Publish? ==> after.i != i)
    case Subtract(_, after) => ThenOk(s, after)
    case EvictStart(_) => true
    case EvictLoop(_, usage, at, _) => at < |s.list| && s.head < |s.list| && usage == s.usage
    case ClearUsed(_, usage, at, _) => at < |s.list| && s.head < |s.list| && usage == s.usage
    case Reload(_, at, _) => at < |s.list| && s.head < |s.list|
    case EraseEvicted(i, after) =>
      i < |s.list| && after.GoOn? && ThenOk(s, after) && s.list[i].key in s.table && s.table[s.list[i].key] == i
    case Decide(goal, success) => success ==> s.usage + GoalCharge(goal) <= s.capacity
    case StoreFlags(i, goal) => NewOk(s, i, goal)
    case Replace(i, goal) => NewOk(s, i, goal) && s.list[i].flags.inCache
    case AddToTable(i, goal) => NewOk(s, i, goal) && s.list[i].flags.inCache && goal.k !in s.table
    case AddUsage(i, goal) => goal.Insert? && i < |s.list| && s.list[i].key == goal.k
    case ClearNext(_) => s.table == map[]
    case Finish => true
  }

  ghost predicate SectionOk(s: State) {
    && (s.section.Held? ==> s.section.t < |s.pcs| && s.pcs[s.section.t] == InSection && WorkOk(s, s.section.work))
    && (s.head < |s.list| || s.head == 0)
  }

  ghost predicate UsageOk(s: State) {
    s.usage == LiveCharge(s.list) + Unsettled(s.list, WorkOf(s.section))
  }

  ghost predicate Inv(s: State) {
    && (forall i :: 0 <= i < |s.list| ==> HandleOk(s, i))
    && (forall i :: 0 <= i < |s.list| ==> Listed(s, i))
    && (forall k :: EntryOk(s, k))
    && (forall t :: 0 <= t < |s.pcs| ==> PcOk(s.pcs[t], s.list))
    && BinOk(s.list, s.recycle)
    && HeldOk(s.list, s.held)
    && SectionOk(s)
    && UsageOk(s)
  }

  lemma InitInv(n: nat, capacity: nat, strict: bool)
    ensures Inv(Init(n, capacity, strict))
  {
  }

  // ----- What the code asserts

  ghost predicate Asserted(s: State, step: Step)
    requires Enabled(s, step)
  {
    match step
    case SubRef(t) => FlagsOf(s, s.pcs[t].i).refs > 0
    case Section =>
      (match s.section.work
       case Recycle(i, _) => i < |s.list| && !Live(s.list[i].flags) && s.list[i].made == s.list[i].recycled + 1
       case EvictLoop(_, _, at, _) => at < |s.list|
       case EraseEvicted(i, _) => i < |s.list| && s.list[i].key in s.table && s.table[s.list[i].key] == i
       case _ => true)
    case _ => true
  }

  lemma AssertionsHold(s: State, step: Step)
    requires Inv(s) && Enabled(s, step)
    ensures Asserted(s, step)
  {
    match step
    case SubRef(t) =>
      assert PcOk(s.pcs[t], s.list);
      assert HandleOk(s, s.pcs[t].i);
      TotalUpdate(References, s.pcs, t, Idle, s.pcs[t].i);
    case Section =>
      if s.section.work.Recycle? {
        assert HandleOk(s, s.section.work.i);
      }
    case _ =>
  }

  // ----- Steps outside the section

  /** Only reference counts and usage bits differ. */
  ghost predicate SameEntries(list: seq<Handle>, list': seq<Handle>) {
    |list| == |list'| &&
    forall i :: 0 <= i < |list| ==>
      list'[i] == list[i].(flags := list'[i].flags) && list'[i].flags.inCache == list[i].flags.inCache
  }

  /** Only flags differ. */
  ghost predicate SameData(list: seq<Handle>, list': seq<Handle>) {
    |list| == |list'| && forall i :: 0 <= i < |list| ==> list'[i] == list[i].(flags := list'[i].flags)
  }

  lemma {:induction false} SameDataCharge(list: seq<Handle>, list': seq<Handle>)
    requires SameData(list, list')
    ensures LiveCharge(list') == LiveCharge(list)
  {
    if list != [] {
      SameDataCharge(list[..|list| - 1], list'[..|list| - 1]);
    }
  }

  lemma SameDataBin(list: seq<Handle>, list': seq<Handle>, recycle: seq<nat>)
    requires SameData(list, list') && BinOk(list, recycle)
    ensures BinOk(list', recycle)
  {
  }

  /** Thread `t` changes alone, and the accounts of handle `i` change with its share. */
  lemma HandleChange(s: State, s': State, t: nat, i: nat)
    requires i < |s.list| && i < |s'.list| && HandleOk(s, i)
    requires t < |s.pcs| == |s'.pcs| && s'.pcs == s.pcs[t := s'.pcs[t]]
    requires s'.list[i].flags.refs - s.list[i].flags.refs ==
             Weight(References, s'.pcs[t], i) - Weight(References, s.pcs[t], i)
             + HeldCount(s'.held, i) - HeldCount(s.held, i)
             + WorkRefs(WorkOf(s'.section), i) - WorkRefs(WorkOf(s.section), i)
    requires s'.list[i].made - s.list[i].made == 0 == s'.list[i].recycled - s.list[i].recycled
    requires var duty := Weight(Recycles, s'.pcs[t], i) - Weight(Recycles, s.pcs[t], i)
                         + WorkOwns(WorkOf(s'.section), i) - WorkOwns(WorkOf(s.section), i);
             duty == if Live(s.list[i].flags) && !Live(s'.list[i].flags) then 1 else 0
    requires Live(s'.list[i].flags) ==> Live(s.list[i].flags)
    ensures HandleOk(s', i)
  {
    TotalUpdate(References, s.pcs, t, s'.pcs[t], i);
    TotalUpdate(Recycles, s.pcs, t, s'.pcs[t], i);
  }

  lemma ThreadStepKeepsEntries(s: State, step: Step)
    requires Enabled(s, step) && !step.Section?
    ensures SameEntries(s.list, Apply(s, step).list)
  {
  }

  lemma LookupKeepsHandle(s: State, step: Step, i: nat)
    requires Enabled(s, step) && (step.Find? || step.Load? || step.CasRef?)
    requires i < |s.list| && HandleOk(s, i) && PcOk(s.pcs[step.t], s.list)
    ensures |Apply(s, step).list| == |s.list| && HandleOk(Apply(s, step), i)
  {
    hide HandleOk, WorkRefs, WorkOwns;
    HandleChange(s, Apply(s, step), step.t, i);
  }

  lemma CheckKeyKeepsHandle(s: State, step: Step, i: nat)
    requires Enabled(s, step) && step.CheckKey?
    requires i < |s.list| && HandleOk(s, i) && PcOk(s.pcs[step.t], s.list)
    ensures |Apply(s, step).list| == |s.list| && HandleOk(Apply(s, step), i)
  {
    hide HandleOk, WorkRefs, WorkOwns;
    HeldAppend(s.held, Ref(s.pcs[step.t].i, s.pcs[step.t].k), i);
    HandleChange(s, Apply(s, step), step.t, i);
  }

  lemma StartRefKeepsHandle(s: State, step: Step, i: nat)
    requires Enabled(s, step) && step.StartRef?
    requires i < |s.list| && HandleOk(s, i)
    ensures |Apply(s, step).list| == |s.list| && HandleOk(Apply(s, step), i)
  {
    hide HandleOk, WorkRefs, WorkOwns;
    HeldRemove(s.held, step.h, i);
    HandleChange(s, Apply(s, step), step.t, i);
  }

  lemma LoadRefKeepsHandle(s: State, step: Step, i: nat)
    requires Enabled(s, step) && step.LoadRef?
    requires i < |s.list| && HandleOk(s, i) && PcOk(s.pcs[step.t], s.list)
    ensures |Apply(s, step).list| == |s.list| && HandleOk(Apply(s, step), i)
  {
    hide HandleOk, WorkRefs, WorkOwns;
    HeldAppend(s.held, Ref(s.pcs[step.t].i, s.pcs[step.t].k), i);
    HandleChange(s, Apply(s, step), step.t, i);
  }

  lemma CasHeldKeepsHandle(s: State, step: Step, i: nat)
    requires Enabled(s, step) && step.CasHeld?
    requires i < |s.list| && HandleOk(s, i) && PcOk(s.pcs[step.t], s.list)
    ensures |Apply(s, step).list| == |s.list| && HandleOk(Apply(s, step), i)
  {
    hide HandleOk, WorkRefs, WorkOwns, HeldCount;
    var r := Ref(s.pcs[step.t].i, s.pcs[step.t].k);
    HeldAppend(s.held, r, i);
    HeldAppend(s.held + [r], r, i);
    HandleChange(s, Apply(s, step), step.t, i);
  }

  lemma LockKeepsHandle(s: State, step: Step, i: nat)
    requires Enabled(s, step) && s.section == Free && Apply(s, step).section.Held?
    requires i < |s.list| && HandleOk(s, i)
    ensures |Apply(s, step).list| == |s.list| && HandleOk(Apply(s, step), i)
  {
    hide HandleOk;
    HandleChange(s, Apply(s, step), step.t, i);
  }

  lemma ReleaseKeepsHandle(s: State, step: Step, i: nat)
    requires Enabled(s, step) && (step.StartRelease? || step.SetUsed? || step.SubRef?) && Asserted(s, step)
    requires i < |s.list| && HandleOk(s, i) && PcOk(s.pcs[step.t], s.list)
    ensures |Apply(s, step).list| == |s.list| && HandleOk(Apply(s, step), i)
  {
    hide HandleOk, WorkRefs, WorkOwns;
    var t := step.t;
    if step.StartRelease? {
      HeldRemove(s.held, step.h, i);
    }
    HandleChange(s, Apply(s, step), t, i);
  }

  lemma ThreadStepKeepsHandle(s: State, step: Step, i: nat)
    requires Inv(s) && Enabled(s, step) && !step.Section? && i < |s.list|
    ensures |Apply(s, step).list| == |s.list| && HandleOk(Apply(s, step), i)
  {
    hide BinOk, HeldOk, UsageOk, EntryOk, Listed, SectionOk, HandleOk;
    assert PcOk(s.pcs[step.t], s.list) && HandleOk(s, i);
    if step.Find? || step.Load? || step.CasRef? {
      LookupKeepsHandle(s, step, i);
    } else if step.CheckKey? {
      CheckKeyKeepsHandle(s, step, i);
    } else if step.StartRef? {
      StartRefKeepsHandle(s, step, i);
    } else if step.LoadRef? {
      LoadRefKeepsHandle(s, step, i);
    } else if step.CasHeld? {
      CasHeldKeepsHandle(s, step, i);
    } else if step.StartRelease? || step.SetUsed? || step.SubRef? {
      AssertionsHold(s, step);
      ReleaseKeepsHandle(s, step, i);
    } else if !step.SetStrict? {
      LockKeepsHandle(s, step, i);
    } else {
      HandleChange(s, Apply(s, step), step.t, i);
    }
  }

  lemma ThreadStepKeepsListed(s: State, step: Step, i: nat)
    requires Enabled(s, step) && !step.Section? && i < |s.list| && Listed(s, i)
    ensures |Apply(s, step).list| == |s.list| && Listed(Apply(s, step), i)
  {
    ThreadStepKeepsEntries(s, step);
  }

  lemma ThreadStepKeepsEntry(s: State, step: Step, k: Key)
    requires Enabled(s, step) && !step.Section? && EntryOk(s, k)
    ensures EntryOk(Apply(s, step), k)
  {
    ThreadStepKeepsEntries(s, step);
  }

  lemma ThreadStepPc(s: State, step: Step)
    requires Enabled(s, step) && !step.Section? && PcOk(s.pcs[step.t], s.list) && (step.Find? ==> EntryOk(s, step.k))
    requires HeldOk(s.list, s.held)
    ensures var s' := Apply(s, step);
            && |s'.pcs| == |s.pcs| && PcOk(s'.pcs[step.t], s.list)
            && forall t :: 0 <= t < |s.pcs| && t != step.t ==> s'.pcs[t] == s.pcs[t]
  {
    match step
    case Find(_, _) =>
    case CasRef(_) =>
    case _ =>
  }

  lemma ThreadStepKeepsPcs(s: State, step: Step)
    requires Inv(s) && Enabled(s, step) && !step.Section?
    ensures var s' := Apply(s, step);
            |s'.pcs| == |s.pcs| && forall t :: 0 <= t < |s.pcs| ==> PcOk(s'.pcs[t], s'.list)
  {
    hide BinOk, UsageOk, Listed, SectionOk, HandleOk, HeldOk, EntryOk, Apply;
    assert PcOk(s.pcs[step.t], s.list);
    if step.Find? {
      assert EntryOk(s, step.k);
    }
    ThreadStepPc(s, step);
    ThreadStepKeepsEntries(s, step);
  }

  lemma ThreadStepKeepsHeld(s: State, step: Step)
    requires Enabled(s, step) && !step.Section? && HeldOk(s.list, s.held) && PcOk(s.pcs[step.t], s.list)
    ensures HeldOk(Apply(s, step).list, Apply(s, step).held)
  {
    ThreadStepKeepsEntries(s, step);
  }

  lemma SameEntriesWork(s: State, s': State, work: Work)
    requires SameEntries(s.list, s'.list) && s'.table == s.table && s'.head == s.head
    requires s'.usage == s.usage && s'.capacity == s.capacity
    requires WorkOk(s, work)
    ensures WorkOk(s', work)
  {
  }

  lemma ThreadStepKeepsSection(s: State, step: Step)
    requires Enabled(s, step) && !step.Section? && SectionOk(s)
    requires s.section == Free && step.LockRecycle? ==>
             NotListed(s.table, s.pcs[step.t].i) && PcOk(s.pcs[step.t], s.list)
    ensures SectionOk(Apply(s, step))
  {
    hide WorkOk, Apply;
    ThreadStepKeepsEntries(s, step);
    var s' := Apply(s, step);
    if TakesMutex(step) {
      LockStep(s, step);
      FirstWork(s, step);
    } else {
      LightStep(s, step);
      if s.section.Held? {
        SameEntriesWork(s, s', s.section.work);
      }
    }
  }

  predicate TakesMutex(step: Step) {
    step.LockRecycle? || step.LockErase? || step.LockInsert? || step.LockShrink? || step.LockClear?
  }

  /** Who holds the mutex, and what only its holder changes. */
  lemma LightStep(s: State, step: Step)
    requires Enabled(s, step) && !step.Section? && !TakesMutex(step)
    ensures var s' := Apply(s, step);
            && s' == s.(pcs := s'.pcs, list := s'.list, held := s'.held, strict := s'.strict)
            && (s'.pcs == s.pcs || s'.pcs == s.pcs[step.t := s'.pcs[step.t]])
  {
  }

  lemma LockStep(s: State, step: Step)
    requires Enabled(s, step) && TakesMutex(step)
    ensures var s' := Apply(s, step);
            && s.section == Free && s'.section.Held? && s'.section.t == step.t
            && s'.pcs == s.pcs[step.t := InSection] && s'.head == s.head
  {
  }

  lemma FirstWork(s: State, step: Step)
    requires Enabled(s, step) && !step.Section? && s.section == Free && Apply(s, step).section.Held?
    requires step.LockRecycle? ==> NotListed(s.table, s.pcs[step.t].i) && PcOk(s.pcs[step.t], s.list)
    ensures WorkOk(Apply(s, step), Apply(s, step).section.work)
  {
  }

  /** A handle that is not in the cache is in the table only while it is being evicted. */
  lemma DeadIsNotListed(s: State, i: nat)
    requires Inv(s) && i < |s.list| && !s.list[i].flags.inCache && !WorkOf(s.section).EraseEvicted?
    ensures NotListed(s.table, i)
  {
    hide BinOk, UsageOk, Listed, SectionOk, HandleOk, HeldOk, PcOk;
    forall k | k in s.table
      ensures s.table[k] != i
    {
      assert EntryOk(s, k);
    }
  }

  /** A section begins with no charge on its way. */
  lemma ThreadStepSettled(s: State, step: Step)
    requires Enabled(s, step) && !step.Section?
    ensures Apply(s, step).usage == s.usage
    ensures Apply(s, step).section == s.section ||
            (s.section == Free && Unsettled(s.list, WorkOf(Apply(s, step).section)) == 0)
  {
  }

  lemma ThreadStepKeepsUsage(s: State, step: Step)
    requires Enabled(s, step) && !step.Section? && UsageOk(s)
    ensures UsageOk(Apply(s, step))
  {
    hide Apply, Enabled, SameEntries, Unsettled, LiveCharge;
    ThreadStepKeepsEntries(s, step);
    SameEntriesData(s.list, Apply(s, step).list);
    SameDataCharge(s.list, Apply(s, step).list);
    SameDataUnsettled(s.list, Apply(s, step).list, WorkOf(Apply(s, step).section));
    ThreadStepSettled(s, step);
    FreeIsSettled(s.list);
  }

  lemma FreeIsSettled(list: seq<Handle>)
    ensures Unsettled(list, WorkOf(ClockCache.Section.Free)) == 0
  {
  }

  lemma SameEntriesData(list: seq<Handle>, list': seq<Handle>)
    requires SameEntries(list, list')
    ensures SameData(list, list')
  {
  }

  /** A thread that must recycle a handle finds it out of the cache. */
  lemma MustRecycleIsDead(s: State, t: nat)
    requires Inv(s) && t < |s.pcs| && s.pcs[t].MustRecycle?
    ensures s.pcs[t].i < |s.list| && !Live(s.list[s.pcs[t].i].flags)
  {
    hide BinOk, UsageOk, Listed, SectionOk, HeldOk, EntryOk;
    assert PcOk(s.pcs[t], s.list);
    assert HandleOk(s, s.pcs[t].i);
    TotalUpdate(Recycles, s.pcs, t, Idle, s.pcs[t].i);
  }

  lemma ThreadStepInv(s: State, step: Step)
    requires Inv(s) && Enabled(s, step) && !step.Section?
    ensures Inv(Apply(s, step))
  {
    hide BinOk, UsageOk, Listed, SectionOk, HeldOk, EntryOk, HandleOk, PcOk;
    var s' := Apply(s, step);
    ThreadStepKeepsEntries(s, step);
    forall i | 0 <= i < |s.list|
      ensures HandleOk(s', i) && Listed(s', i)
    {
      ThreadStepKeepsHandle(s, step, i);
      ThreadStepKeepsListed(s, step, i);
    }
    forall k
      ensures EntryOk(s', k)
    {
      assert EntryOk(s, k);
      ThreadStepKeepsEntry(s, step, k);
    }
    ThreadStepKeepsPcs(s, step);
    ThreadStepKeepsHeld(s, step);
    ThreadStepKeepsUsage(s, step);
    SameDataBin(s.list, s'.list, s.recycle);
    if step.LockRecycle? {
      MustRecycleIsDead(s, step.t);
      DeadIsNotListed(s, s.pcs[step.t].i);
      assert PcOk(s.pcs[step.t], s.list);
    }
    ThreadStepKeepsSection(s, step);
  }

  // ----- Steps of the section

  /** Nobody can refer to a handle that does not exist yet. */
  lemma NobodyKnows(s: State, i: nat)
    requires Inv(s) && i >= |s.list|
    ensures Total(References, s.pcs, i) == 0 == Total(Recycles, s.pcs, i) && HeldCount(s.held, i) == 0
  {
    hide BinOk, UsageOk, Listed, SectionOk, EntryOk, HandleOk;
    forall t | 0 <= t < |s.pcs|
      ensures Weight(References, s.pcs[t], i) == 0 == Weight(Recycles, s.pcs[t], i)
    {
      assert PcOk(s.pcs[t], s.list);
    }
    TotalZero(References, s.pcs, i);
    TotalZero(Recycles, s.pcs, i);
    NobodyHolds(s.list, s.held, i);
  }

  lemma {:induction false} NobodyHolds(list: seq<Handle>, held: seq<Ref>, i: nat)
    requires HeldOk(list, held) && i >= |list|
    ensures HeldCount(held, i) == 0
  {
    if held != [] {
      NobodyHolds(list, held[..|held| - 1], i);
    }
  }

  /** The works that touch neither a handle nor a thread. */
  predicate Quiet(s: State)
    requires s.section.Held?
  {
    var work := s.section.work;
    || work.EraseKey? || work.Subtract? || work.EvictStart? || work.EraseEvicted? || work.Reload?
    || work.Replace? || work.AddToTable? || work.ClearNext?
    || (work.EvictLoop? && SectionStep(s).list == s.list)
    || (work.Decide? && SectionStep(s).section.work.Finish?)
  }

  lemma QuietChangesNoHandle(s: State)
    requires s.section.Held? && Quiet(s)
    ensures var s' := SectionStep(s); s'.list == s.list && s'.pcs == s.pcs && s'.held == s.held && s'.section.Held?
  {
  }

  lemma QuietKeepsShares(s: State, i: nat)
    requires s.section.Held? && WorkOk(s, s.section.work) && Quiet(s)
    ensures WorkRefs(WorkOf(SectionStep(s).section), i) == WorkRefs(s.section.work, i)
    ensures WorkOwns(WorkOf(SectionStep(s).section), i) == WorkOwns(s.section.work, i)
  {
    hide NotListed;
    match s.section.work
    case Subtract(_, after) =>
    case _ =>
  }

  lemma QuietKeepsHandle(s: State, i: nat)
    requires s.section.Held? && WorkOk(s, s.section.work) && Quiet(s) && i < |s.list| && HandleOk(s, i)
    ensures |SectionStep(s).list| == |s.list| && HandleOk(SectionStep(s), i)
  {
    hide WorkOk, SectionStep, WorkRefs, WorkOwns, Total, HeldCount;
    QuietChangesNoHandle(s);
    QuietKeepsShares(s, i);
  }

  lemma UnsetKeepsHandle(s: State, i: nat)
    requires s.section.Held? && WorkOk(s, s.section.work) && i < |s.list| && HandleOk(s, i)
    requires s.section.work.Unset?
    ensures |SectionStep(s).list| == |s.list| && HandleOk(SectionStep(s), i)
  {
    hide NotListed, Total, HeldCount;
  }

  lemma ClearUsedKeepsHandle(s: State, i: nat)
    requires s.section.Held? && WorkOk(s, s.section.work) && i < |s.list| && HandleOk(s, i)
    requires s.section.work.ClearUsed?
    ensures |SectionStep(s).list| == |s.list| && HandleOk(SectionStep(s), i)
  {
    hide Total, HeldCount;
  }

  lemma TryEvictKeepsHandle(s: State, i: nat)
    requires s.section.Held? && WorkOk(s, s.section.work) && i < |s.list| && HandleOk(s, i)
    requires s.section.work.EvictLoop?
    ensures |SectionStep(s).list| == |s.list| && HandleOk(SectionStep(s), i)
  {
    hide Total, HeldCount;
  }

  lemma StoreFlagsKeepsHandle(s: State, i: nat)
    requires s.section.Held? && WorkOk(s, s.section.work) && i < |s.list| && HandleOk(s, i)
    requires s.section.work.StoreFlags?
    ensures |SectionStep(s).list| == |s.list| && HandleOk(SectionStep(s), i)
  {
    hide NotListed, Total, HeldCount;
  }

  lemma RecycleKeepsHandle(s: State, i: nat)
    requires s.section.Held? && WorkOk(s, s.section.work) && i < |s.list| && HandleOk(s, i)
    requires s.section.work.Recycle?
    ensures |SectionStep(s).list| == |s.list| && HandleOk(SectionStep(s), i)
  {
    hide NotListed;
  }

  lemma AddUsageKeepsHandle(s: State, i: nat)
    requires s.section.Held? && s.section.work.AddUsage? && WorkOk(s, s.section.work) && i < |s.list| && HandleOk(s, i)
    ensures |SectionStep(s).list| == |s.list| && HandleOk(SectionStep(s), i)
  {
    hide Total, HeldCount;
    HeldAppend(s.held, Ref(s.section.work.i, s.section.work.goal.k), i);
  }

  lemma FinishKeepsHandle(s: State, i: nat)
    requires SectionOk(s) && s.section.Held? && s.section.work.Finish? && i < |s.list| && HandleOk(s, i)
    ensures |SectionStep(s).list| == |s.list| && HandleOk(SectionStep(s), i)
  {
    hide Total, HeldCount;
    TotalUpdate(References, s.pcs, s.section.t, Idle, i);
    TotalUpdate(Recycles, s.pcs, s.section.t, Idle, i);
  }

  lemma TakeKeepsHandle(s: State, i: nat)
    requires Inv(s) && s.section.Held? && s.section.work.Decide? && !Quiet(s) && i < |SectionStep(s).list|
    ensures HandleOk(SectionStep(s), i)
  {
    hide Listed, EntryOk, UsageOk, HeldOk, SectionOk;
    if i < |s.list| {
      assert HandleOk(s, i);
    } else {
      NobodyKnows(s, i);
    }
  }

  lemma SectionKeepsHandle(s: State, i: nat)
    requires Inv(s) && s.section.Held? && i < |SectionStep(s).list|
    ensures HandleOk(SectionStep(s), i)
  {
    hide HandleOk, Listed, EntryOk, UsageOk, HeldOk, BinOk, WorkOk;
    var work := s.section.work;
    if work.Decide? && !Quiet(s) {
      TakeKeepsHandle(s, i);
    } else {
      assert HandleOk(s, i);
      if Quiet(s) {
        QuietKeepsHandle(s, i);
      } else if work.Recycle? {
        RecycleKeepsHandle(s, i);
      } else if work.Unset? {
        UnsetKeepsHandle(s, i);
      } else if work.StoreFlags? {
        StoreFlagsKeepsHandle(s, i);
      } else if work.AddUsage? {
        AddUsageKeepsHandle(s, i);
      } else if work.Finish? {
        FinishKeepsHandle(s, i);
      } else if work.ClearUsed? {
        ClearUsedKeepsHandle(s, i);
      } else {
        TryEvictKeepsHandle(s, i);
      }
    }
  }

  /** The handle at the back of the recycle bin is dead and in the table of no key. */
  lemma BackOfBin(s: State)
    requires Inv(s) && s.recycle != [] && !WorkOf(s.section).EraseEvicted?
    ensures var i := s.recycle[|s.recycle| - 1];
            i < |s.list| && Binned(s.list[i]) && !Live(s.list[i].flags) && NotListed(s.table, i) && Refs(s, i) == 0
  {
    hide UsageOk, Listed, SectionOk, HeldOk, EntryOk, NotListed;
    var i := s.recycle[|s.recycle| - 1];
    assert HandleOk(s, i);
    DeadIsNotListed(s, i);
  }

  lemma TakeKeepsListed(s: State, i: nat)
    requires Inv(s) && s.section.Held? && s.section.work.Decide? && !Quiet(s) && i < |SectionStep(s).list|
    ensures Listed(SectionStep(s), i)
  {
    hide HandleOk, EntryOk, UsageOk, HeldOk, SectionOk, BinOk;
    if s.recycle != [] {
      BackOfBin(s);
    }
    if i < |s.list| {
      assert Listed(s, i);
    }
  }

  lemma RemovalKeepsListed(s: State, i: nat)
    requires s.section.Held? && WorkOk(s, s.section.work) && i < |s.list| && Listed(s, i) && HandleOk(s, i)
    requires s.section.work.EraseKey? || s.section.work.EraseEvicted? || s.section.work.Replace?
    ensures |SectionStep(s).list| == |s.list| && Listed(SectionStep(s), i)
  {
    hide NotListed, Total, HeldCount;
  }

  lemma FlagsKeepListed(s: State, i: nat)
    requires s.section.Held? && WorkOk(s, s.section.work) && i < |s.list| && Listed(s, i)
    requires s.section.work.ClearUsed? || s.section.work.EvictLoop? || s.section.work.StoreFlags? ||
             s.section.work.Unset?
    ensures |SectionStep(s).list| == |s.list| && Listed(SectionStep(s), i)
  {
    hide NotListed;
  }

  lemma OtherwiseListed(s: State, i: nat)
    requires s.section.Held? && WorkOk(s, s.section.work) && i < |s.list| && Listed(s, i)
    requires
      var work := s.section.work;
      || work.Recycle? || work.Subtract? || work.EvictStart? || work.Reload? || work.AddToTable? || work.AddUsage?
      || work.ClearNext? || work.Finish? || (work.Decide? && Quiet(s))
    ensures |SectionStep(s).list| == |s.list| && Listed(SectionStep(s), i)
  {
    hide NotListed;
  }

  lemma SectionKeepsListed(s: State, i: nat)
    requires Inv(s) && s.section.Held? && i < |SectionStep(s).list|
    ensures Listed(SectionStep(s), i)
  {
    hide HandleOk, Listed, EntryOk, UsageOk, HeldOk, BinOk, WorkOk;
    var work := s.section.work;
    if work.Decide? && !Quiet(s) {
      TakeKeepsListed(s, i);
    } else {
      assert Listed(s, i) && HandleOk(s, i);
      if work.EraseKey? || work.EraseEvicted? || work.Replace? {
        RemovalKeepsListed(s, i);
      } else if work.ClearUsed? || work.EvictLoop? || work.StoreFlags? || work.Unset? {
        FlagsKeepListed(s, i);
      } else {
        OtherwiseListed(s, i);
      }
    }
  }

  lemma TakeKeepsEntry(s: State, k: Key)
    requires Inv(s) && s.section.Held? && s.section.work.Decide? && !Quiet(s)
    ensures EntryOk(SectionStep(s), k)
  {
    hide HandleOk, Listed, UsageOk, HeldOk, SectionOk, BinOk;
    assert EntryOk(s, k);
    if s.recycle != [] {
      BackOfBin(s);
    }
  }

  lemma FlagsKeepEntry(s: State, k: Key)
    requires s.section.Held? && WorkOk(s, s.section.work) && EntryOk(s, k)
    requires s.section.work.ClearUsed? || s.section.work.EvictLoop? || s.section.work.StoreFlags? ||
             s.section.work.Unset?
    ensures EntryOk(SectionStep(s), k)
  {
  }

  lemma OtherwiseEntry(s: State, k: Key)
    requires s.section.Held? && WorkOk(s, s.section.work) && EntryOk(s, k)
    requires
      var work := s.section.work;
      !(work.ClearUsed? || work.EvictLoop? || work.StoreFlags? || work.Unset?) && (work.Decide? ==> Quiet(s))
    ensures EntryOk(SectionStep(s), k)
  {
  }

  lemma SectionKeepsEntry(s: State, k: Key)
    requires Inv(s) && s.section.Held?
    ensures EntryOk(SectionStep(s), k)
  {
    hide HandleOk, Listed, EntryOk, UsageOk, HeldOk, BinOk, WorkOk;
    var work := s.section.work;
    assert EntryOk(s, k);
    if work.Decide? && !Quiet(s) {
      TakeKeepsEntry(s, k);
    } else if work.ClearUsed? || work.EvictLoop? || work.StoreFlags? || work.Unset? {
      FlagsKeepEntry(s, k);
    } else {
      OtherwiseEntry(s, k);
    }
  }

  /** Only the last step of the section touches a thread. */
  lemma SectionKeepsOthers(s: State)
    requires s.section.Held?
    ensures var s' := SectionStep(s);
            s'.pcs == (if s.section.work.Finish? && s.section.t < |s.pcs| then s.pcs[s.section.t := Idle] else s.pcs)
  {
    match s.section.work
    case Decide(_, _) =>
    case Unset(_, _) =>
    case AddUsage(_, _) =>
    case _ =>
  }

  lemma SectionNeverShrinks(s: State)
    requires s.section.Held?
    ensures |s.list| <= |SectionStep(s).list|
  {
    match s.section.work
    case Decide(_, _) =>
    case Unset(_, _) =>
    case AddUsage(_, _) =>
    case _ =>
  }

  /** Filling a handle leaves the ones alone that a thread refers to. */
  lemma TakeKeepsPc(s: State, t: nat)
    requires Inv(s) && s.section.Held? && s.section.work.Decide? && !Quiet(s) && t < |s.pcs|
    ensures PcOk(s.pcs[t], SectionStep(s).list)
  {
    hide HandleOk, Listed, EntryOk, UsageOk, BinOk, SectionOk, NotListed, Total, HeldCount, HeldOk, Binned;
    assert PcOk(s.pcs[t], s.list);
    if s.recycle != [] && (s.pcs[t].Reffing? || s.pcs[t].RefSeen?) {
      BackOfBin(s);
      TotalUpdate(References, s.pcs, t, Idle, s.pcs[t].i);
    }
  }

  lemma SectionKeepsPc(s: State, t: nat)
    requires Inv(s) && s.section.Held? && t < |s.pcs|
    ensures PcOk(s.pcs[t], SectionStep(s).list)
  {
    hide HandleOk, Listed, EntryOk, UsageOk, BinOk, HeldOk, NotListed;
    assert PcOk(s.pcs[t], s.list);
    if s.section.work.Decide? && !Quiet(s) {
      TakeKeepsPc(s, t);
    } else if !s.section.work.Recycle? {
      SectionKeepsData(s);
    }
  }

  lemma SectionKeepsPcs(s: State)
    requires Inv(s) && s.section.Held?
    ensures var s' := SectionStep(s);
            |s'.pcs| == |s.pcs| && forall t :: 0 <= t < |s'.pcs| ==> PcOk(s'.pcs[t], s'.list)
  {
    hide SectionStep, Inv;
    SectionKeepsOthers(s);
    forall t | 0 <= t < |s.pcs|
      ensures PcOk(s.pcs[t], SectionStep(s).list)
    {
      SectionKeepsPc(s, t);
    }
  }

  /** Apart from filling and recycling a handle, the section changes only flags. */
  lemma SectionKeepsData(s: State)
    requires s.section.Held? && (s.section.work.Decide? ==> Quiet(s)) && !s.section.work.Recycle?
    ensures SameData(s.list, SectionStep(s).list) && SectionStep(s).recycle == s.recycle
  {
    match s.section.work
    case Unset(_, _) =>
    case AddUsage(_, _) =>
    case _ =>
  }

  lemma RecycleKeepsBin(s: State)
    requires s.section.Held? && s.section.work.Recycle? && BinOk(s.list, s.recycle) && Asserted(s, Step.Section)
    ensures BinOk(SectionStep(s).list, SectionStep(s).recycle)
  {
    var s' := SectionStep(s);
    assert s'.recycle[|s.recycle|] == s.section.work.i;
  }

  lemma SectionKeepsBin(s: State)
    requires Inv(s) && s.section.Held?
    ensures BinOk(SectionStep(s).list, SectionStep(s).recycle)
  {
    hide Inv, BinOk;
    InvParts(s);
    if s.section.work.Recycle? {
      AssertionsHold(s, Step.Section);
      RecycleKeepsBin(s);
    } else if s.section.work.Decide? && !Quiet(s) {
      BackOfBinLeaves(s);
    } else {
      SectionKeepsData(s);
      SameDataBin(s.list, SectionStep(s).list, s.recycle);
    }
  }

  lemma InvParts(s: State)
    requires Inv(s)
    ensures BinOk(s.list, s.recycle) && HeldOk(s.list, s.held) && SectionOk(s) && UsageOk(s)
  {
  }

  lemma BinPop(list: seq<Handle>, recycle: seq<nat>, h: Handle)
    requires BinOk(list, recycle) && recycle != [] && !Binned(h)
    ensures recycle[|recycle| - 1] < |list| && BinOk(list[recycle[|recycle| - 1] := h], recycle[..|recycle| - 1])
  {
    var last := |recycle| - 1;
    forall i | 0 <= i < |list| && i in recycle && i != recycle[last]
      ensures i in recycle[..last]
    {
      var n :| 0 <= n < |recycle| && recycle[n] == i;
      assert recycle[..last][n] == i;
    }
  }

  lemma BinGrow(list: seq<Handle>, recycle: seq<nat>, h: Handle)
    requires BinOk(list, recycle) && !Binned(h)
    ensures BinOk(list + [h], recycle)
  {
  }

  lemma BackOfBinLeaves(s: State)
    requires BinOk(s.list, s.recycle) && s.section.Held? && s.section.work.Decide? && !Quiet(s)
    ensures BinOk(SectionStep(s).list, SectionStep(s).recycle)
  {
    var s' := SectionStep(s);
    if s.recycle != [] {
      var i := s.recycle[|s.recycle| - 1];
      assert i < |s.list| && Binned(s.list[i]);
      hide BinOk;
      BinPop(s.list, s.recycle, s'.list[i]);
    } else {
      hide BinOk;
      BinGrow(s.list, s.recycle, s'.list[|s.list|]);
    }
  }

  lemma {:induction false} HeldIsCounted(held: seq<Ref>, n: nat)
    requires n < |held|
    ensures HeldCount(held, held[n].i) > 0
  {
    HeldRemove(held, n, held[n].i);
  }

  lemma TakeKeepsHeld(s: State)
    requires Inv(s) && s.section.Held? && s.section.work.Decide? && !Quiet(s)
    ensures HeldOk(SectionStep(s).list, SectionStep(s).held)
  {
    hide HandleOk, Listed, EntryOk, UsageOk, BinOk, SectionOk, NotListed, Total, HeldCount, Binned;
    if s.recycle != [] {
      BackOfBin(s);
      forall n | 0 <= n < |s.held|
        ensures s.held[n].i != s.recycle[|s.recycle| - 1]
      {
        HeldIsCounted(s.held, n);
      }
    }
  }

  lemma SectionHandsOut(s: State)
    requires s.section.Held? && !s.section.work.AddUsage?
    ensures SectionStep(s).held == s.held
  {
    match s.section.work
    case Unset(_, _) =>
    case Decide(_, _) =>
    case _ =>
  }

  lemma SectionKeepsHeld(s: State)
    requires Inv(s) && s.section.Held?
    ensures HeldOk(SectionStep(s).list, SectionStep(s).held)
  {
    hide HandleOk, Listed, EntryOk, UsageOk, BinOk, NotListed;
    if s.section.work.Decide? && !Quiet(s) {
      TakeKeepsHeld(s);
    } else if !s.section.work.AddUsage? && !s.section.work.Recycle? {
      SectionKeepsData(s);
      SectionHandsOut(s);
    }
  }

  lemma RecycleKeepsUsage(s: State)
    requires s.section.Held? && s.section.work.Recycle? && WorkOk(s, s.section.work) && UsageOk(s) &&
             Asserted(s, Step.Section)
    ensures UsageOk(SectionStep(s))
  {
    hide LiveCharge, NotListed;
    LiveChargeUpdate(s.list, s.section.work.i, SectionStep(s).list[s.section.work.i]);
  }

  lemma SameDataUnsettled(list: seq<Handle>, list': seq<Handle>, work: Work)
    requires SameData(list, list')
    ensures Unsettled(list', work) == Unsettled(list, work)
  {
  }

  /** The works during which a charge can be on its way to or from `usage_`. */
  predicate Inserting(work: Work) {
    work.StoreFlags? || work.Replace? || work.AddToTable? || work.AddUsage? || work.Unset? || work.Subtract?
  }

  lemma InsertingUsage(s: State)
    requires s.section.Held? && WorkOk(s, s.section.work) && Inserting(s.section.work)
    ensures SectionStep(s).usage - s.usage ==
            Unsettled(s.list, WorkOf(SectionStep(s).section)) - Unsettled(s.list, s.section.work)
  {
    hide NotListed;
  }

  lemma OtherwiseUsage(s: State)
    requires s.section.Held? && (s.section.work.Decide? ==> Quiet(s)) && !s.section.work.Recycle? &&
             !Inserting(s.section.work)
    ensures SectionStep(s).usage == s.usage
  {
  }

  lemma OtherwiseSettled(s: State)
    requires s.section.Held? && (s.section.work.Decide? ==> Quiet(s)) && !s.section.work.Recycle? &&
             !Inserting(s.section.work)
    requires WorkOk(s, s.section.work)
    ensures !SectionStep(s).section.Held? || Settled(SectionStep(s).section.work)
    ensures Settled(s.section.work)
  {
    match s.section.work
    case EraseKey(_) =>
    case EvictLoop(_, _, _, _) =>
    case _ =>
  }

  /** No charge is on its way. */
  predicate Settled(work: Work) {
    && !work.Subtract? && !work.StoreFlags? && !work.Replace? && !work.AddToTable? && !work.AddUsage?
    && !ThenOf(work).Publish?
  }

  lemma SectionKeepsUsage(s: State)
    requires Inv(s) && s.section.Held?
    ensures UsageOk(SectionStep(s))
  {
    hide Inv, LiveCharge, WorkOk, SectionStep;
    InvParts(s);
    if s.section.work.Recycle? {
      AssertionsHold(s, Step.Section);
      RecycleKeepsUsage(s);
    } else if s.section.work.Decide? && !Quiet(s) {
      TakeKeepsUsage(s);
    } else {
      SectionKeepsData(s);
      SameDataCharge(s.list, SectionStep(s).list);
      SameDataUnsettled(s.list, SectionStep(s).list, WorkOf(SectionStep(s).section));
      if Inserting(s.section.work) {
        InsertingUsage(s);
      } else {
        OtherwiseUsage(s);
        OtherwiseSettled(s);
      }
    }
  }

  lemma TakeKeepsUsage(s: State)
    requires Inv(s) && s.section.Held? && s.section.work.Decide? && !Quiet(s)
    ensures UsageOk(SectionStep(s))
  {
    hide HandleOk, Listed, EntryOk, HeldOk, NotListed, LiveCharge, BinOk, SectionOk;
    var s' := SectionStep(s);
    if s.recycle != [] {
      BackOfBin(s);
      var i := s.recycle[|s.recycle| - 1];
      LiveChargeUpdate(s.list, i, s'.list[i]);
    } else {
      LiveChargeAppend(s.list, s'.list[|s.list|]);
    }
  }

  /** The table gives no two keys the same handle. */
  lemma RemovedIsNotListed(s: State, k: Key)
    requires Inv(s) && k in s.table
    ensures s.table[k] < |s.list| && NotListed(s.table - {k}, s.table[k])
  {
    hide HandleOk, Listed, HeldOk, UsageOk, BinOk, SectionOk;
    assert EntryOk(s, k);
    forall k' | k' in s.table - {k}
      ensures s.table[k'] != s.table[k]
    {
      assert EntryOk(s, k');
    }
  }

  lemma TakeKeepsWork(s: State)
    requires Inv(s) && s.section.Held? && s.section.work.Decide? && !Quiet(s)
    ensures WorkOk(SectionStep(s), WorkOf(SectionStep(s).section))
  {
    hide HandleOk, Listed, HeldOk, UsageOk, SectionOk;
    if s.recycle != [] {
      BackOfBin(s);
    } else {
      forall k | k in s.table
        ensures s.table[k] != |s.list|
      {
        assert EntryOk(s, k);
      }
    }
  }

  lemma RemovalKeepsWork(s: State)
    requires Inv(s) && s.section.Held?
    requires s.section.work.EraseKey? || s.section.work.EraseEvicted? || s.section.work.Replace?
    ensures WorkOk(SectionStep(s), WorkOf(SectionStep(s).section))
  {
    hide HandleOk, Listed, HeldOk, UsageOk, EntryOk, BinOk;
    var k := match s.section.work {
      case EraseKey(k) => k
      case EraseEvicted(i, _) => s.list[i].key
      case Replace(_, goal) => goal.k
    };
    if k in s.table {
      RemovedIsNotListed(s, k);
    }
  }

  lemma EvictionKeepsWork(s: State)
    requires Inv(s) && s.section.Held?
    requires s.section.work.EvictStart? || s.section.work.EvictLoop? || s.section.work.ClearUsed? ||
             s.section.work.Reload?
    ensures WorkOk(SectionStep(s), WorkOf(SectionStep(s).section))
  {
    hide HandleOk, HeldOk, EntryOk, BinOk;
    if s.section.work.EvictLoop? {
      assert Listed(s, s.section.work.at);
    }
  }

  lemma OtherwiseWork(s: State)
    requires s.section.Held? && WorkOk(s, s.section.work)
    requires
      var work := s.section.work;
      || work.Unset? || work.Recycle? || work.Subtract? || work.StoreFlags? || work.AddToTable? || work.AddUsage?
      || work.ClearNext? || work.Finish? || (work.Decide? && Quiet(s))
    ensures WorkOk(SectionStep(s), WorkOf(SectionStep(s).section))
  {
  }

  lemma SectionKeepsSection(s: State)
    requires Inv(s) && s.section.Held?
    ensures SectionOk(SectionStep(s))
  {
    hide HandleOk, HeldOk, EntryOk, BinOk, Listed, UsageOk, WorkOk;
    var work := s.section.work;
    if work.Decide? && !Quiet(s) {
      TakeKeepsWork(s);
    } else if work.EraseKey? || work.EraseEvicted? || work.Replace? {
      RemovalKeepsWork(s);
    } else if work.EvictStart? || work.EvictLoop? || work.ClearUsed? || work.Reload? {
      EvictionKeepsWork(s);
    } else {
      OtherwiseWork(s);
    }
    SectionKeepsPlace(s);
  }

  lemma SectionKeepsPlace(s: State)
    requires SectionOk(s) && s.section.Held?
    ensures var s' := SectionStep(s);
            && (s'.section.Held? ==> s'.section.t < |s'.pcs| && s'.pcs[s'.section.t] == InSection)
            && (s'.head < |s'.list| || s'.head == 0)
  {
    hide SectionStep;
    SectionKeepsOthers(s);
    SectionNeverShrinks(s);
    SectionHead(s);
  }

  lemma SectionHead(s: State)
    requires SectionOk(s) && s.section.Held?
    ensures var s' := SectionStep(s);
            && (s'.head == s.head || s'.head < |s'.list|)
            && (if s'.section.Held? then s'.section.t == s.section.t && !s.section.work.Finish?
              else s.section.work.Finish?)
  {
    match s.section.work
    case Decide(_, _) =>
    case Unset(_, _) =>
    case AddUsage(_, _) =>
    case _ =>
  }

  lemma SectionStepInv(s: State)
    requires Inv(s) && s.section.Held?
    ensures Inv(SectionStep(s))
  {
    hide HandleOk, HeldOk, EntryOk, BinOk, Listed, UsageOk, SectionOk, PcOk, SectionStep;
    var s' := SectionStep(s);
    forall i | 0 <= i < |s'.list|
      ensures HandleOk(s', i) && Listed(s', i)
    {
      SectionKeepsHandle(s, i);
      SectionKeepsListed(s, i);
    }
    forall k
      ensures EntryOk(s', k)
    {
      SectionKeepsEntry(s, k);
    }
    SectionKeepsPcs(s);
    SectionKeepsBin(s);
    SectionKeepsHeld(s);
    SectionKeepsUsage(s);
    SectionKeepsSection(s);
  }

  lemma StepKeepsInv(s: State, step: Step)
    requires Inv(s) && Enabled(s, step)
    ensures Inv(Apply(s, step))
  {
    hide Inv;
    if step.Section? {
      SectionStepInv(s);
    } else {
      ThreadStepInv(s, step);
    }
  }

  // ----- Whole runs

  /** `steps` is a run: every step is enabled when it is taken. */
  ghost predicate Runs(s: State, steps: seq<Step>)
    decreases |steps|
  {
    steps != [] ==> Enabled(s, steps[0]) && Runs(Apply(s, steps[0]), steps[1..])
  }

  ghost function After(s: State, steps: seq<Step>): State
    requires Runs(s, steps)
    decreases |steps|
  {
    if steps == [] then s else After(Apply(s, steps[0]), steps[1..])
  }

  /** Every step of the run meets what the code asserts there. */
  ghost predicate AlwaysAsserted(s: State, steps: seq<Step>)
    requires Runs(s, steps)
    decreases |steps|
  {
    steps != [] ==> Asserted(s, steps[0]) && AlwaysAsserted(Apply(s, steps[0]), steps[1..])
  }

  lemma {:induction false} RunKeepsInv(s: State, steps: seq<Step>)
    requires Inv(s) && Runs(s, steps)
    ensures Inv(After(s, steps)) && AlwaysAsserted(s, steps)
    decreases |steps|
  {
    hide Inv, Asserted, Apply, Enabled;
    if steps != [] {
      AssertionsHold(s, steps[0]);
      StepKeepsInv(s, steps[0]);
      RunKeepsInv(Apply(s, steps[0]), steps[1..]);
    }
  }

  /** A state that some interleaving of any number of threads reaches. */
  ghost predicate Reachable(s: State) {
    exists n: nat, capacity: nat, strict: bool, steps: seq<Step> ::
      Runs(Init(n, capacity, strict), steps) && s == After(Init(n, capacity, strict), steps)
  }

  lemma ReachableInv(s: State)
    requires Reachable(s)
    ensures Inv(s)
  {
    hide Inv;
    var n: nat, capacity: nat, strict: bool, steps: seq<Step> :|
      Runs(Init(n, capacity, strict), steps) && s == After(Init(n, capacity, strict), steps);
    InitInv(n, capacity, strict);
    RunKeepsInv(Init(n, capacity, strict), steps);
  }

  /** Along every run, all the assertions of the code hold. */
  lemma EveryRunMeetsItsAssertions(n: nat, capacity: nat, strict: bool, steps: seq<Step>)
    requires Runs(Init(n, capacity, strict), steps)
    ensures AlwaysAsserted(Init(n, capacity, strict), steps)
  {
    hide Inv;
    InitInv(n, capacity, strict);
    RunKeepsInv(Init(n, capacity, strict), steps);
  }

  /** What a client got from Lookup or Insert is pinned, has not been recycled since it was
      filled, and keeps the key it was asked for until it is released. */
  lemma HeldHandlesStay(s: State, n: nat)
    requires Reachable(s) && n < |s.held|
    ensures var r := s.held[n];
            && r.i < |s.list| && s.list[r.i].key == r.k
            && s.list[r.i].flags.refs > 0 && s.list[r.i].made == s.list[r.i].recycled + 1 && r.i !in s.recycle
  {
    ReachableInv(s);
    assert HandleOk(s, s.held[n].i);
    HeldIsCounted(s.held, n);
  }

  /** So does the one that a client passes to Ref, for as long as the call takes. */
  lemma RefKeepsItsHandle(s: State, t: nat)
    requires Reachable(s) && t < |s.pcs| && (s.pcs[t].Reffing? || s.pcs[t].RefSeen?)
    ensures var i := s.pcs[t].i;
            && i < |s.list| && s.list[i].key == s.pcs[t].k
            && s.list[i].flags.refs > 0 && s.list[i].made == s.list[i].recycled + 1 && i !in s.recycle
  {
    hide Listed, EntryOk, UsageOk, HeldOk, SectionOk;
    ReachableInv(s);
    var i := s.pcs[t].i;
    assert PcOk(s.pcs[t], s.list);
    assert HandleOk(s, i);
    TotalUpdate(References, s.pcs, t, Idle, i);
  }

  lemma RefEnds(s: State, step: Step)
    requires Enabled(s, step) && (step.LoadRef? || step.CasHeld?) && Apply(s, step).pcs[step.t].Idle?
    requires PcOk(s.pcs[step.t], s.list)
    ensures var s' := Apply(s, step); var i, k := s.pcs[step.t].i, s.pcs[step.t].k;
            var more := FlagsOf(s, i).inCache;
            && i < |s.list|
            && s'.held == s.held + [Ref(i, k)] + (if more then [Ref(i, k)] else [])
            && s'.list == s.list[i := s.list[i].(flags := s.list[i].flags.(
              refs := s.list[i].flags.refs + if more then 1 else 0))]
  {
    if step.LoadRef? {
      assert s.held + [Ref(s.pcs[step.t].i, s.pcs[step.t].k)] + [] == Apply(s, step).held;
    }
  }

  /** The step that ends Ref hands back the reference passed in, and a second one if and only if it
      found the entry in the cache; the second one is counted and both are of the same key. */
  lemma RefAddsOneInTheCache(s: State, step: Step)
    requires Reachable(s) && Enabled(s, step) && (step.LoadRef? || step.CasHeld?) && Apply(s, step).pcs[step.t].Idle?
    ensures var s' := Apply(s, step); var i, k := s.pcs[step.t].i, s.pcs[step.t].k;
            var more := if FlagsOf(s, i).inCache then 1 else 0;
            && i < |s.list| && HeldCount(s'.held, i) == HeldCount(s.held, i) + 1 + more
            && s'.list == s.list[i := s.list[i].(flags := s.list[i].flags.(refs := s.list[i].flags.refs + more))]
            && s'.held[|s'.held| - 1] == Ref(i, k) && s.held <= s'.held
  {
    hide Inv, Reachable, Apply, HeldCount;
    ReachableInv(s);
    PcIsOk(s, step.t);
    RefEnds(s, step);
    var r := Ref(s.pcs[step.t].i, s.pcs[step.t].k);
    HeldAppend(s.held, r, r.i);
    HeldAppend(s.held + [r], r, r.i);
    assert s.held + [r] + [] == s.held + [r];
  }

  lemma PcIsOk(s: State, t: nat)
    requires Inv(s) && t < |s.pcs|
    ensures PcOk(s.pcs[t], s.list)
  {
  }

  /** Whenever the mutex is free, `usage_` is what the handles outside the recycle bin are charged. */
  lemma UsageIsLiveCharge(s: State)
    requires Reachable(s) && s.section == Free
    ensures s.usage == LiveCharge(s.list)
  {
    hide HandleOk, Listed, EntryOk, BinOk, HeldOk;
    ReachableInv(s);
  }

  /** Whenever the mutex is free, the table lists exactly the handles in the cache, each under its key. */
  lemma TableListsTheCache(s: State, i: nat)
    requires Reachable(s) && s.section == Free && i < |s.list|
    ensures s.list[i].flags.inCache <==> s.list[i].key in s.table && s.table[s.list[i].key] == i
    ensures forall k :: k in s.table ==> s.table[k] < |s.list| && s.list[s.table[k]].key == k
  {
    hide HandleOk, BinOk, HeldOk, UsageOk;
    ReachableInv(s);
    assert Listed(s, i) && EntryOk(s, s.list[i].key);
    forall k | k in s.table
      ensures s.table[k] < |s.list| && s.list[s.table[k]].key == k
    {
      assert EntryOk(s, k);
    }
  }

  /** Eviction reports success only if the new charge fits, and an insertion that goes on in spite of
      failure is one that keeps a reference while the limit is not strict. */
  lemma EvictionMakesRoom(s: State)
    requires Reachable(s) && s.section.Held? && s.section.work.Decide?
    ensures s.section.work.success ==> s.usage + GoalCharge(s.section.work.goal) <= s.capacity
    ensures WorkOf(SectionStep(s).section).StoreFlags? ==>
              || s.usage + s.section.work.goal.charge <= s.capacity
              || (s.section.work.goal.hold && !s.strict)
  {
    hide HandleOk, Listed, EntryOk, BinOk, HeldOk, UsageOk;
    ReachableInv(s);
  }

  /** Thread `t` has to recycle handle `i`. */
  predicate Responsible(s: State, t: nat, i: nat) {
    || (t < |s.pcs| && s.pcs[t] == MustRecycle(i))
    || (s.section.Held? && s.section.t == t && (s.section.work.Recycle? || s.section.work.EraseEvicted?) &&
      s.section.work.i == i)
  }

  function Actor(s: State, step: Step): nat
    requires Enabled(s, step)
  {
    if step.Section? then s.section.t else step.t
  }

  /** A handle is recycled exactly once for every time it is filled: by the thread whose step left
      it out of the cache without references, and never while it is in the cache or referenced. */
  lemma LastOneRecycles(s: State, step: Step, i: nat)
    requires Reachable(s) && Enabled(s, step) && i < |s.list|
    ensures var s' := Apply(s, step);
            && |s.list| <= |s'.list|
            && s'.list[i].recycled <= s'.list[i].made <= s'.list[i].recycled + 1
            && (Live(s.list[i].flags) && !Live(s'.list[i].flags) ==> Responsible(s', Actor(s, step), i))
            && (s'.list[i].recycled != s.list[i].recycled ==>
                  && Responsible(s, Actor(s, step), i) && !Live(s.list[i].flags) && !Live(s'.list[i].flags)
                  && s.list[i].made == s.list[i].recycled + 1 == s'.list[i].recycled && i in s'.recycle)
  {
    hide Inv, HandleOk, SectionStep, ThreadStep, Live;
    ReachableInv(s);
    StepKeepsInv(s, step);
    AssertionsHold(s, step);
    if step.Section? {
      SectionRecycles(s, i);
      SectionUnsets(s, i);
    } else {
      ThreadEffect(s, step, i);
    }
    FilledOnce(Apply(s, step), i);
  }

  lemma FilledOnce(s: State, i: nat)
    requires Inv(s) && i < |s.list|
    ensures s.list[i].recycled <= s.list[i].made <= s.list[i].recycled + 1
  {
    assert HandleOk(s, i);
  }

  lemma ThreadEffect(s: State, step: Step, i: nat)
    requires Enabled(s, step) && !step.Section? && i < |s.list|
    ensures var s' := Apply(s, step);
            && |s.list| == |s'.list| && s'.list[i].recycled == s.list[i].recycled
            && (Live(s.list[i].flags) && !Live(s'.list[i].flags) ==> Responsible(s', step.t, i))
  {
    ThreadStepKeepsEntries(s, step);
  }

  lemma SectionUnsets(s: State, i: nat)
    requires s.section.Held? && i < |s.list|
    ensures var s' := SectionStep(s);
            |s.list| <= |s'.list| && (Live(s.list[i].flags) && !Live(s'.list[i].flags) ==>
              Responsible(s', s.section.t, i))
  {
    match s.section.work
    case Unset(_, _) =>
    case Decide(_, _) =>
    case _ =>
  }

  lemma SectionRecycles(s: State, i: nat)
    requires s.section.Held? && i < |s.list| && Asserted(s, Step.Section)
    ensures var s' := SectionStep(s);
            && |s.list| <= |s'.list|
            && (s'.list[i].recycled != s.list[i].recycled ==>
                  && s.section.work.Recycle? && s.section.work.i == i && !Live(s.list[i].flags) &&
                    !Live(s'.list[i].flags)
                  && s.list[i].made == s.list[i].recycled + 1 == s'.list[i].recycled && i in s'.recycle)
  {
    SectionNeverShrinks(s);
    if s.section.work.Recycle? {
      assert SectionStep(s).recycle[|s.recycle|] == s.section.work.i;
    } else if !s.section.work.Decide? || Quiet(s) {
      SectionKeepsData(s);
    }
  }

  /** No handle has two threads responsible for it. */
  lemma OnlyOneIsResponsible(s: State, t: nat, t': nat, i: nat)
    requires Reachable(s) && i < |s.list| && t != t' && Responsible(s, t, i) && t < |s.pcs|
    ensures !(t' < |s.pcs| && Responsible(s, t', i))
  {
    hide BinOk, HeldOk, UsageOk, EntryOk, Listed;
    ReachableInv(s);
    assert HandleOk(s, i);
    if t' < |s.pcs| && Responsible(s, t', i) {
      TotalUpdate(Recycles, s.pcs, t, Idle, i);
      TotalUpdate(Recycles, s.pcs[t := Idle], t', Idle, i);
    }
  }

  /** When no call is in progress, every handle is in the cache, held by a client, or in the bin. */
  lemma NothingIsLost(s: State, i: nat)
    requires Reachable(s) && s.section == Free && (forall t :: 0 <= t < |s.pcs| ==> s.pcs[t] == Idle) && i < |s.list|
    ensures s.list[i].flags.refs == HeldCount(s.held, i)
    ensures s.list[i].flags.inCache || HeldCount(s.held, i) > 0 <==> i !in s.recycle
  {
    hide HeldOk, UsageOk, EntryOk, Listed;
    ReachableInv(s);
    assert HandleOk(s, i);
    TotalZero(References, s.pcs, i);
    TotalZero(Recycles, s.pcs, i);
  }
}
