/** `pinned_usage_` of the CLOCK cache, which is brought up to date in a step of its own: after a thread
    has added the first reference to a handle or taken the last one off, and before it does anything
    else.  The charge is read from the handle only then.  After a last reference has been taken off an
    entry that is in the cache, others can evict it and fill its handle anew in between. */
module ClockPins {
  import opened ClockCache
  import opened ClockSafety

  /** What a thread still has to do to `pinned_usage_` before its next step. */
  datatype Late = Done | Add(i: nat) | Sub(i: nat)

  datatype Pins = Pins(s: State, pinned: int, late: seq<Late>)

  datatype PinStep = Base(step: Step) | Settle(t: nat)

  function Start(n: nat, capacity: nat, strict: bool): Pins {
    Pins(Init(n, capacity, strict), 0, seq(n, i => Done))
  }

  predicate CanStep(x: Pins, step: PinStep) {
    match step
    case Base(b) => Enabled(x.s, b) && Actor(x.s, b) < |x.late| && x.late[Actor(x.s, b)] == Done
    case Settle(t) => t < |x.late| && x.late[t] != Done
  }

  /** What the step leaves to do: Ref of an unreferenced handle, Unref of the last reference, and Insert
      when it is to hand out a reference. */
  function LateAfter(s: State, step: Step): Late
    requires Enabled(s, step)
  {
    match step
    case CasRef(t) =>
      var i, seen := s.pcs[t].i, s.pcs[t].seen;
      if FlagsOf(s, i) == seen && seen.refs == 0 then Add(i) else Done
    case CasHeld(t) =>
      var i, seen := s.pcs[t].i, s.pcs[t].seen;
      if FlagsOf(s, i) == seen && seen.refs == 0 then Add(i) else Done
    case SubRef(t) => if FlagsOf(s, s.pcs[t].i).refs == 1 then Sub(s.pcs[t].i) else Done
    case Section =>
      var work := s.section.work;
      if work.AddToTable? && work.goal.Insert? && work.goal.hold then Add(work.i) else Done
    case _ => Done
  }

  function Change(list: seq<Handle>, late: Late): int {
    match late
    case Done => 0
    case Add(i) => Charge(list, i)
    case Sub(i) => -(Charge(list, i) as int)
  }

  function Go(x: Pins, step: PinStep): Pins
    requires CanStep(x, step)
  {
    match step
    case Base(b) => Pins(Apply(x.s, b), x.pinned, x.late[Actor(x.s, b) := LateAfter(x.s, b)])
    case Settle(t) => Pins(x.s, x.pinned + Change(x.s.list, x.late[t]), x.late[t := Done])
  }

  // ----- What it should be

  function Pin(h: Handle): nat {
    if h.flags.refs > 0 then h.charge else 0
  }

  /** What the referenced handles are charged. */
  function PinnedCharge(list: seq<Handle>): nat {
    if list == [] then 0 else PinnedCharge(list[..|list| - 1]) + Pin(list[|list| - 1])
  }

  /** What all threads together still have to change. */
  function Owed(list: seq<Handle>, late: seq<Late>): int {
    if late == [] then 0 else Owed(list, late[..|late| - 1]) + Change(list, late[|late| - 1])
  }

  /** The handle that an insertion has referenced already, without having come to that change. */
  function Unpaid(list: seq<Handle>, work: Work): int {
    if GoalOf(work).Insert? && GoalOf(work).hold then
      match work
      case Replace(i, _) => Charge(list, i)
      case AddToTable(i, _) => Charge(list, i)
      case _ => if ThenOf(work).Publish? then Charge(list, ThenOf(work).i) else 0
    else 0
  }

  /** How far `pinned_usage_` is off. */
  function Error(x: Pins): int {
    x.pinned + Owed(x.s.list, x.late) + Unpaid(x.s.list, WorkOf(x.s.section)) - PinnedCharge(x.s.list)
  }

  // ----- Sums

  lemma {:induction false} PinnedUpdate(list: seq<Handle>, i: nat, h: Handle)
    requires i < |list|
    ensures PinnedCharge(list[i := h]) == PinnedCharge(list) - Pin(list[i]) + Pin(h)
  {
    var last := |list| - 1;
    if i == last {
      assert list[i := h][..last] == list[..last];
    } else {
      assert list[i := h][..last] == list[..last][i := h];
      PinnedUpdate(list[..last], i, h);
    }
  }

  lemma PinnedAppend(list: seq<Handle>, h: Handle)
    ensures PinnedCharge(list + [h]) == PinnedCharge(list) + Pin(h)
  {
    assert (list + [h])[..|list|] == list;
  }

  lemma {:induction false} OwedUpdate(list: seq<Handle>, late: seq<Late>, t: nat, l: Late)
    requires t < |late|
    ensures Owed(list, late[t := l]) == Owed(list, late) - Change(list, late[t]) + Change(list, l)
  {
    var last := |late| - 1;
    if t == last {
      assert late[t := l][..last] == late[..last];
    } else {
      assert late[t := l][..last] == late[..last][t := l];
      OwedUpdate(list, late[..last], t, l);
    }
  }

  ghost predicate SameCharges(list: seq<Handle>, list': seq<Handle>) {
    |list| == |list'| && forall i :: 0 <= i < |list| ==> list'[i].charge == list[i].charge
  }

  ghost predicate SamePins(list: seq<Handle>, list': seq<Handle>) {
    SameCharges(list, list') && forall i :: 0 <= i < |list| ==> Pin(list'[i]) == Pin(list[i])
  }

  lemma {:induction false} SamePinned(list: seq<Handle>, list': seq<Handle>)
    requires SamePins(list, list')
    ensures PinnedCharge(list') == PinnedCharge(list)
  {
    if list != [] {
      SamePinned(list[..|list| - 1], list'[..|list| - 1]);
    }
  }

  lemma {:induction false} SameOwed(list: seq<Handle>, list': seq<Handle>, late: seq<Late>)
    requires SameCharges(list, list')
    ensures Owed(list', late) == Owed(list, late)
  {
    if late != [] {
      SameOwed(list, list', late[..|late| - 1]);
    }
  }

  lemma {:induction false} NothingOwed(list: seq<Handle>, late: seq<Late>)
    requires forall t :: 0 <= t < |late| ==> late[t] == Done
    ensures Owed(list, late) == 0
  {
    if late != [] {
      NothingOwed(list, late[..|late| - 1]);
    }
  }

  // ----- Threads that are late

  /** A thread that owes an addition has its reference; one that owes a subtraction is between the two
      steps of Unref. */
  ghost predicate LateOk(s: State, t: nat, late: Late)
    requires t < |s.pcs|
  {
    match late
    case Done => true
    case Add(i) =>
      || (s.pcs[t].Pinned? && s.pcs[t].i == i)
      || (s.section.Held? && s.section.t == t && s.section.work.AddUsage? && s.section.work.i == i &&
          s.section.work.goal.Insert? && s.section.work.goal.hold)
    case Sub(i) => i < |s.list| && (s.pcs[t].Idle? || s.pcs[t] == MustRecycle(i))
  }

  ghost predicate PinInv(x: Pins) {
    && Inv(x.s) && |x.late| == |x.s.pcs|
    && forall t :: 0 <= t < |x.late| ==> LateOk(x.s, t, x.late[t])
  }

  /** Threads between the two steps of Unref of handle `i`. */
  function Unreffing(late: seq<Late>, i: nat): nat {
    if late == [] then 0
    else Unreffing(late[..|late| - 1], i) + (if late[|late| - 1] == Sub(i) then 1 else 0)
  }

  /** What filling a handle anew puts wrong: the threads between the two steps of Unref will take off
      the new charge instead of the old one. */
  function Refill(x: Pins, step: PinStep): int
    requires CanStep(x, step)
  {
    if step.Base? && step.step.Section? && x.s.section.work.Decide? && x.s.section.work.goal.Insert?
       && x.s.recycle != [] && Apply(x.s, step.step).section.work.StoreFlags?
    then
      var i := x.s.recycle[|x.s.recycle| - 1];
      Unreffing(x.late, i) * (x.s.section.work.goal.charge - Charge(x.s.list, i))
    else 0
  }

  // ----- Steps outside the section

  /** A client that holds a reference finds the handle referenced. */
  lemma HolderIsCounted(s: State, t: nat)
    requires Inv(s) && t < |s.pcs| && (s.pcs[t].RefSeen? || s.pcs[t].Dropping? || s.pcs[t].Pinned?)
    ensures s.pcs[t].i < |s.list| && s.list[s.pcs[t].i].flags.refs > 0
  {
    hide BinOk, UsageOk, Listed, SectionOk, HeldOk, EntryOk;
    assert PcOk(s.pcs[t], s.list);
    assert HandleOk(s, s.pcs[t].i);
    TotalUpdate(References, s.pcs, t, Idle, s.pcs[t].i);
  }

  lemma ThreadChanges(s: State, step: Step)
    requires Inv(s) && Enabled(s, step) && !step.Section?
    ensures PinnedCharge(Apply(s, step).list) == PinnedCharge(s.list) + Change(s.list, LateAfter(s, step))
    ensures SameCharges(s.list, Apply(s, step).list)
  {
    hide Inv, PinnedCharge;
    ThreadStepKeepsEntries(s, step);
    var s' := Apply(s, step);
    if step.CasRef? || step.CasHeld? || step.SubRef? || step.SetUsed? {
      if step.CasHeld? || step.SubRef? {
        HolderIsCounted(s, step.t);
      }
      var i := s.pcs[step.t].i;
      if i < |s.list| {
        PinnedUpdate(s.list, i, s'.list[i]);
        assert s'.list == s.list[i := s'.list[i]];
      }
    }
  }

  lemma UnpaidStays(list: seq<Handle>, list': seq<Handle>, work: Work)
    requires SameCharges(list, list')
    ensures Unpaid(list', work) == Unpaid(list, work)
  {
  }

  lemma ThreadSection(s: State, step: Step)
    requires Enabled(s, step) && !step.Section?
    ensures var work, work' := WorkOf(s.section), WorkOf(Apply(s, step).section);
            work' == work || (Unpaid(s.list, work') == 0 == Unpaid(s.list, work))
  {
  }

  lemma ThreadKeepsError(x: Pins, step: Step)
    requires PinInv(x) && CanStep(x, Base(step)) && !step.Section?
    ensures Error(Go(x, Base(step))) == Error(x)
  {
    hide Inv, Apply, PinnedCharge, Owed, LateOk;
    var s, s' := x.s, Apply(x.s, step);
    ThreadChanges(s, step);
    ThreadSection(s, step);
    OwedUpdate(s.list, x.late, step.t, LateAfter(s, step));
    SameOwed(s.list, s'.list, x.late[step.t := LateAfter(s, step)]);
    UnpaidStays(s.list, s'.list, WorkOf(s'.section));
  }

  /** Another thread's debt is not touched. */
  lemma ThreadKeepsLate(s: State, step: Step, t: nat, late: Late)
    requires Enabled(s, step) && !step.Section? && t < |s.pcs| && t != step.t && LateOk(s, t, late)
    ensures |Apply(s, step).pcs| == |s.pcs| && LateOk(Apply(s, step), t, late)
  {
    ThreadStepKeepsEntries(s, step);
  }

  lemma ThreadOwes(s: State, step: Step)
    requires Inv(s) && Enabled(s, step) && !step.Section?
    ensures |Apply(s, step).pcs| == |s.pcs| && LateOk(Apply(s, step), step.t, LateAfter(s, step))
  {
    hide Inv;
    ThreadStepKeepsEntries(s, step);
    if step.CasHeld? || step.SubRef? {
      HolderIsCounted(s, step.t);
    }
  }

  lemma ThreadKeepsPins(x: Pins, step: Step)
    requires PinInv(x) && CanStep(x, Base(step)) && !step.Section?
    ensures PinInv(Go(x, Base(step)))
  {
    hide Inv, Apply, LateOk;
    StepKeepsInv(x.s, step);
    ThreadOwes(x.s, step);
    var x' := Go(x, Base(step));
    forall t | 0 <= t < |x'.late|
      ensures LateOk(x'.s, t, x'.late[t])
    {
      if t != step.t {
        ThreadKeepsLate(x.s, step, t, x.late[t]);
      }
    }
  }

  // ----- Steps of the section

  predicate Takes(s: State)
    requires s.section.Held?
  {
    s.section.work.Decide? && SectionStep(s).section.Held? && SectionStep(s).section.work.StoreFlags?
  }

  /** Apart from filling a handle and setting its flags, the section leaves references and charges alone. */
  lemma SectionKeepsPins(s: State)
    requires Inv(s) && s.section.Held? && !Takes(s) && !s.section.work.StoreFlags?
    ensures SamePins(s.list, SectionStep(s).list)
  {
    hide HandleOk, Listed, EntryOk, UsageOk, HeldOk, BinOk, NotListed;
    match s.section.work
    case Unset(_, _) =>
    case Decide(_, _) =>
    case _ =>
  }

  lemma StoreChanges(s: State)
    requires Inv(s) && s.section.Held? && s.section.work.StoreFlags?
    ensures var s' := SectionStep(s);
            && SameCharges(s.list, s'.list) && Unpaid(s.list, WorkOf(s.section)) == 0
            && PinnedCharge(s'.list) == PinnedCharge(s.list) + Unpaid(s'.list, WorkOf(s'.section))
  {
    hide Listed, EntryOk, UsageOk, HeldOk, BinOk, NotListed, PinnedCharge, Total, HeldCount;
    var i := s.section.work.i;
    assert HandleOk(s, i);
    PinnedUpdate(s.list, i, SectionStep(s).list[i]);
  }

  lemma SectionUnpaid(s: State)
    requires s.section.Held? && !Takes(s) && !s.section.work.StoreFlags?
    requires s.section.work.EraseEvicted? ==> s.section.work.after.GoOn?
    ensures var s' := SectionStep(s);
            Unpaid(s.list, WorkOf(s'.section)) ==
            Unpaid(s.list, WorkOf(s.section)) - Change(s.list, LateAfter(s, Step.Section))
  {
    hide Charge;
    match s.section.work
    case Unset(_, _) => UnsetUnpaid(s);
    case Recycle(_, _) => UnsetUnpaid(s);
    case Subtract(_, _) => UnsetUnpaid(s);
    case Replace(_, _) => ReplaceUnpaid(s);
    case AddToTable(_, _) =>
    case Decide(_, _) =>
    case _ => OtherUnpaid(s);
  }

  lemma UnsetUnpaid(s: State)
    requires s.section.Held? && (s.section.work.Unset? || s.section.work.Recycle? || s.section.work.Subtract?)
    ensures Unpaid(s.list, WorkOf(SectionStep(s).section)) == Unpaid(s.list, s.section.work)
  {
    hide Charge;
  }

  lemma ReplaceUnpaid(s: State)
    requires s.section.Held? && s.section.work.Replace?
    ensures Unpaid(s.list, WorkOf(SectionStep(s).section)) == Unpaid(s.list, s.section.work)
  {
    hide Charge;
  }

  lemma OtherUnpaid(s: State)
    requires s.section.Held?
    requires
      var work := s.section.work;
      || work.EraseKey? || work.EvictStart? || work.EvictLoop? || work.ClearUsed? || work.EraseEvicted? || work.Reload?
      || work.AddUsage? || work.ClearNext? || work.Finish?
    requires s.section.work.EraseEvicted? ==> s.section.work.after.GoOn?
    ensures Unpaid(s.list, WorkOf(SectionStep(s).section)) == 0 == Unpaid(s.list, s.section.work)
  {
    hide Charge;
  }

  lemma EvictedGoesOn(s: State)
    requires Inv(s) && s.section.Held? && s.section.work.EraseEvicted?
    ensures s.section.work.after.GoOn?
  {
    hide HandleOk, Listed, EntryOk, UsageOk, HeldOk, BinOk, NotListed;
  }

  lemma SectionKeepsError(x: Pins)
    requires PinInv(x) && CanStep(x, Base(Step.Section)) && !Takes(x.s)
    ensures Error(Go(x, Base(Step.Section))) == Error(x)
  {
    hide Inv, SectionStep, PinnedCharge, Owed, LateOk, Unpaid;
    var s, s' := x.s, SectionStep(x.s);
    var late := LateAfter(s, Step.Section);
    OwedUpdate(s.list, x.late, s.section.t, late);
    if s.section.work.StoreFlags? {
      StoreChanges(s);
    } else {
      SectionKeepsPins(s);
      SamePinned(s.list, s'.list);
      if s.section.work.EraseEvicted? {
        EvictedGoesOn(s);
      }
      SectionUnpaid(s);
      UnpaidStays(s.list, s'.list, WorkOf(s'.section));
    }
    SameOwed(s.list, s'.list, x.late[s.section.t := late]);
  }

  /** The handle that is filled is referenced by nobody, so no thread owes an addition for it. */
  lemma NobodyAdds(x: Pins, i: nat, t: nat)
    requires PinInv(x) && i < |x.s.list| && x.s.list[i].flags.refs == 0 && t < |x.late|
    requires x.s.section.Held? && x.s.section.work.Decide?
    ensures x.late[t] != Add(i)
  {
    hide HandleOk, Listed, EntryOk, UsageOk, HeldOk, BinOk, SectionOk;
    assert LateOk(x.s, t, x.late[t]);
    if x.s.pcs[t].Pinned? {
      HolderIsCounted(x.s, t);
    }
  }

  lemma LateInRange(x: Pins, t: nat)
    requires PinInv(x) && t < |x.late| && x.late[t] != Done && x.s.section.Held? && x.s.section.work.Decide?
    ensures x.late[t].i < |x.s.list|
  {
    hide HandleOk, Listed, EntryOk, UsageOk, HeldOk, BinOk, SectionOk;
    assert LateOk(x.s, t, x.late[t]) && PcOk(x.s.pcs[t], x.s.list);
  }

  lemma {:induction false} OwedRefill(list: seq<Handle>, late: seq<Late>, i: nat, h: Handle)
    requires i < |list| && forall t :: 0 <= t < |late| ==> late[t] != Add(i)
    ensures Owed(list[i := h], late) == Owed(list, late) - Unreffing(late, i) * (h.charge - list[i].charge)
  {
    if late != [] {
      var rest, l := late[..|late| - 1], late[|late| - 1];
      OwedRefill(list, rest, i, h);
      var d := h.charge - list[i].charge;
      assert Change(list[i := h], l) == Change(list, l) - (if l == Sub(i) then d else 0);
      OneMoreTime(Unreffing(rest, i), d);
    }
  }

  lemma OneMoreTime(n: int, d: int)
    ensures (n + 1) * d == n * d + d
  {
  }

  lemma {:induction false} OwedAppend(list: seq<Handle>, late: seq<Late>, h: Handle)
    requires forall t :: 0 <= t < |late| && late[t] != Done ==> late[t].i < |list|
    ensures Owed(list + [h], late) == Owed(list, late)
  {
    if late != [] {
      OwedAppend(list, late[..|late| - 1], h);
    }
  }

  lemma TakeShape(s: State)
    requires s.section.Held? && Takes(s) && (s.recycle != [] ==> s.recycle[|s.recycle| - 1] < |s.list|)
    ensures var s', goal := SectionStep(s), s.section.work.goal;
            && goal.Insert? && Unpaid(s.list, WorkOf(s.section)) == 0 == Unpaid(s'.list, WorkOf(s'.section))
            && if s.recycle != [] then
                 var i := s.recycle[|s.recycle| - 1];
                 && i < |s'.list| && s'.list == s.list[i := s'.list[i]]
                 && s'.list[i].charge == goal.charge && s'.list[i].flags == s.list[i].flags
               else |s'.list| == |s.list| + 1 && s'.list == s.list + [s'.list[|s.list|]] && Pin(s'.list[|s.list|]) == 0
  {
  }

  lemma RefillChangesError(x: Pins)
    requires PinInv(x) && CanStep(x, Base(Step.Section)) && Takes(x.s) && x.s.recycle != []
    ensures Error(Go(x, Base(Step.Section))) == Error(x) - Refill(x, Base(Step.Section))
  {
    hide Inv, LateOk, PinnedCharge, Owed, SectionStep, Unreffing, Unpaid, Refs, Live;
    var s, s' := x.s, SectionStep(x.s);
    BackOfBin(s);
    var i := s.recycle[|s.recycle| - 1];
    DeadHasNone(s, i);
    forall t | 0 <= t < |x.late|
      ensures x.late[t] != Add(i)
    {
      NobodyAdds(x, i, t);
    }
    TakeShape(s);
    OwedRefill(s.list, x.late, i, s'.list[i]);
    PinnedUpdate(s.list, i, s'.list[i]);
    NothingNew(x);
  }

  lemma DeadHasNone(s: State, i: nat)
    requires i < |s.list| && !Live(s.list[i].flags)
    ensures s.list[i].flags.refs == 0
  {
  }

  lemma AppendKeepsError(x: Pins)
    requires PinInv(x) && CanStep(x, Base(Step.Section)) && Takes(x.s) && x.s.recycle == []
    ensures Error(Go(x, Base(Step.Section))) == Error(x)
  {
    hide Inv, LateOk, PinnedCharge, Owed, SectionStep, Unpaid;
    var s, s' := x.s, SectionStep(x.s);
    forall t | 0 <= t < |x.late| && x.late[t] != Done
      ensures x.late[t].i < |s.list|
    {
      LateInRange(x, t);
    }
    TakeShape(s);
    OwedAppend(s.list, x.late, s'.list[|s.list|]);
    PinnedAppend(s.list, s'.list[|s.list|]);
    NothingNew(x);
  }

  lemma NothingNew(x: Pins)
    requires CanStep(x, Base(Step.Section)) && Takes(x.s)
    ensures x.late[x.s.section.t := LateAfter(x.s, Step.Section)] == x.late
  {
  }

  lemma SectionKeepsLate(s: State, t: nat, late: Late)
    requires Inv(s) && s.section.Held? && t < |s.pcs| && t != s.section.t && LateOk(s, t, late)
    ensures |SectionStep(s).pcs| == |s.pcs| && LateOk(SectionStep(s), t, late)
  {
    hide SectionStep, Inv;
    SectionKeepsOthers(s);
    SectionNeverShrinks(s);
  }

  lemma SectionOwes(s: State)
    requires Inv(s) && s.section.Held?
    ensures s.section.t < |s.pcs| == |SectionStep(s).pcs|
    ensures LateOk(SectionStep(s), s.section.t, LateAfter(s, Step.Section))
  {
    hide HandleOk, Listed, EntryOk, UsageOk, HeldOk, BinOk, NotListed;
    SectionKeepsOthers(s);
    if s.section.work.AddToTable? {
      assert SectionStep(s).section.Held?;
    } else {
      hide SectionStep;
    }
  }

  lemma SectionKeepsAllLate(x: Pins)
    requires PinInv(x) && CanStep(x, Base(Step.Section))
    ensures PinInv(Go(x, Base(Step.Section)))
  {
    hide Inv, LateOk, SectionStep;
    StepKeepsInv(x.s, Step.Section);
    SectionOwes(x.s);
    var x' := Go(x, Base(Step.Section));
    forall t | 0 <= t < |x'.late|
      ensures LateOk(x'.s, t, x'.late[t])
    {
      if t != x.s.section.t {
        SectionKeepsLate(x.s, t, x.late[t]);
      }
    }
  }

  // ----- Every step

  lemma SettleKeepsError(x: Pins, t: nat)
    requires PinInv(x) && CanStep(x, Settle(t))
    ensures PinInv(Go(x, Settle(t))) && Error(Go(x, Settle(t))) == Error(x)
  {
    hide Inv, LateOk;
    OwedUpdate(x.s.list, x.late, t, Done);
    var x' := Go(x, Settle(t));
    forall u | 0 <= u < |x'.late|
      ensures LateOk(x'.s, u, x'.late[u])
    {
      DoneIsOk(x.s, u);
      assert LateOk(x.s, u, x.late[u]);
    }
  }

  lemma DoneIsOk(s: State, t: nat)
    requires t < |s.pcs|
    ensures LateOk(s, t, Done)
  {
  }

  /** Only filling a handle anew between the two steps of an Unref of it changes the error. */
  lemma StepChangesError(x: Pins, step: PinStep)
    requires PinInv(x) && CanStep(x, step)
    ensures PinInv(Go(x, step)) && Error(Go(x, step)) == Error(x) - Refill(x, step)
  {
    hide PinInv, Error, Go;
    match step
    case Settle(t) => SettleKeepsError(x, t);
    case Base(b) =>
      if !b.Section? {
        ThreadKeepsError(x, b);
        ThreadKeepsPins(x, b);
      } else {
        SectionKeepsAllLate(x);
        if !Takes(x.s) {
          SectionKeepsError(x);
        } else if x.s.recycle != [] {
          RefillChangesError(x);
        } else {
          AppendKeepsError(x);
        }
      }
  }

  // ----- Whole runs

  ghost predicate PinRuns(x: Pins, steps: seq<PinStep>)
    decreases |steps|
  {
    steps != [] ==> CanStep(x, steps[0]) && PinRuns(Go(x, steps[0]), steps[1..])
  }

  ghost function PinsAfter(x: Pins, steps: seq<PinStep>): Pins
    requires PinRuns(x, steps)
    decreases |steps|
  {
    if steps == [] then x else PinsAfter(Go(x, steps[0]), steps[1..])
  }

  /** What all refills of the run put wrong together. */
  ghost function Refills(x: Pins, steps: seq<PinStep>): int
    requires PinRuns(x, steps)
    decreases |steps|
  {
    if steps == [] then 0 else Refill(x, steps[0]) + Refills(Go(x, steps[0]), steps[1..])
  }

  lemma {:induction false} RunChangesError(x: Pins, steps: seq<PinStep>)
    requires PinInv(x) && PinRuns(x, steps)
    ensures PinInv(PinsAfter(x, steps)) && Error(PinsAfter(x, steps)) == Error(x) - Refills(x, steps)
    decreases |steps|
  {
    hide PinInv, Error, Go, CanStep, Refill;
    if steps != [] {
      StepChangesError(x, steps[0]);
      RunChangesError(Go(x, steps[0]), steps[1..]);
    }
  }

  lemma StartInv(n: nat, capacity: nat, strict: bool)
    ensures PinInv(Start(n, capacity, strict)) && Error(Start(n, capacity, strict)) == 0
  {
    InitInv(n, capacity, strict);
    NothingOwed([], Start(n, capacity, strict).late);
  }

  /** No call is between a change of a reference count and its change of `pinned_usage_`. */
  predicate AtRest(x: Pins) {
    x.s.section == Free && forall t :: 0 <= t < |x.late| ==> x.late[t] == Done
  }

  /** Over every run: at rest `pinned_usage_` is what the referenced handles are charged, if and only if
      what the refills put wrong adds up to zero; it is off by exactly that sum. */
  lemma PinnedUsageExactly(n: nat, capacity: nat, strict: bool, steps: seq<PinStep>)
    requires PinRuns(Start(n, capacity, strict), steps) && AtRest(PinsAfter(Start(n, capacity, strict), steps))
    ensures var x := PinsAfter(Start(n, capacity, strict), steps);
            var wrong := Refills(Start(n, capacity, strict), steps);
            && x.pinned == PinnedCharge(x.s.list) - wrong
            && (x.pinned == PinnedCharge(x.s.list) <==> wrong == 0)
  {
    hide PinInv, Start;
    StartInv(n, capacity, strict);
    RunChangesError(Start(n, capacity, strict), steps);
    var x := PinsAfter(Start(n, capacity, strict), steps);
    NothingOwed(x.s.list, x.late);
  }

  /** No handle is filled anew between the two steps of an Unref of it. */
  ghost predicate NoRefill(x: Pins, steps: seq<PinStep>)
    requires PinRuns(x, steps)
    decreases |steps|
  {
    steps != [] ==>
      && (IsTake(x, steps[0]) && x.s.recycle != [] ==> Unreffing(x.late, x.s.recycle[|x.s.recycle| - 1]) == 0)
      && NoRefill(Go(x, steps[0]), steps[1..])
  }

  predicate IsTake(x: Pins, step: PinStep)
    requires CanStep(x, step)
  {
    step.Base? && step.step.Section? && Takes(x.s)
  }

  lemma {:induction false} NoRefillIsZero(x: Pins, steps: seq<PinStep>)
    requires PinRuns(x, steps) && NoRefill(x, steps)
    ensures Refills(x, steps) == 0
    decreases |steps|
  {
    if steps != [] {
      NoRefillIsZero(Go(x, steps[0]), steps[1..]);
    }
  }

  lemma PinnedUsageWithoutRefills(n: nat, capacity: nat, strict: bool, steps: seq<PinStep>)
    requires PinRuns(Start(n, capacity, strict), steps) && AtRest(PinsAfter(Start(n, capacity, strict), steps))
    requires NoRefill(Start(n, capacity, strict), steps)
    ensures var x := PinsAfter(Start(n, capacity, strict), steps);
            x.pinned == PinnedCharge(x.s.list)
  {
    PinnedUsageExactly(n, capacity, strict, steps);
    NoRefillIsZero(Start(n, capacity, strict), steps);
  }
}
