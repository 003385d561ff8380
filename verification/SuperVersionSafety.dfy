/** The inductive invariant of the SuperVersion protocol and what it gives over every run. */
module SuperVersionSafety {
  import opened Options
  import opened SuperVersions

  /** The slot of thread `t` has been scraped for the version installed last. */
  predicate Settled(i: Installer, t: nat) {
    match i
    case Published(_) => false
    case Scraping(_, next, _) => t < next
    case _ => true
  }

  /** The version that thread `t` may keep or put back in its slot. */
  function Base(s: State, t: nat): int {
    if Settled(s.installer, t) then Current(s) else Current(s) - 1
  }

  ghost predicate ThreadOk(s: State, t: nat)
    requires t < |s.threads|
  {
    var slot := s.threads[t].slot;
    && (slot.Cached? ==> slot.v == Base(s, t))
    && match s.threads[t].pc
       case Idle => slot != InUse
       case Swapped(taken) =>
         && !slot.Cached? && taken != InUse
         && (taken.Cached? ==> taken.v <= Current(s) && (slot == InUse ==> taken.v == Base(s, t)))
       case Stale(v) => !slot.Cached? && v <= Current(s)
       case NeedsLock(dead) => !slot.Cached? && (dead.Some? ==> dead.value <= Current(s))
       case Locked(dead) =>
         !slot.Cached? && s.mutex == Reader(t) && (dead.Some? ==> dead.value <= Current(s))
       case Holding(v) => !slot.Cached? && v <= Current(s) && (slot == InUse ==> v == Base(s, t))
       case TwiceHolding(v) => !slot.Cached? && v <= Current(s) && (slot == InUse ==> v == Base(s, t))
       case SlotLost(v) => slot == Obsolete && v <= Current(s)
       case Releasing(v) => slot != InUse && v <= Current(s)
       case AwaitsCleanup(v) => slot != InUse && v <= Current(s)
       case Cleaning(v) => slot != InUse && v <= Current(s) && s.mutex == Reader(t)
  }

  ghost predicate InstallerOk(s: State) {
    && (s.installer.Quiet? <==> s.mutex != Install)
    && (!s.installer.Quiet? ==> s.installer.prior == Current(s) - 1)
    && (s.installer.Scraping? ==> s.installer.next <= |s.threads|)
    && (s.installer.Scraping? || s.installer.Unreffing? ==> forall v :: v in s.installer.got ==> v == s.installer.prior)
    && s.number == Current(s) - (if s.installer.Published? then 1 else 0)
  }

  /** Version `v` has exactly the references somebody holds, and once there are none, it has been
      cleaned up or exactly one party is about to do so. */
  ghost predicate Accounted(s: State, v: nat)
    requires v < |s.refs| == |s.cleaned|
  {
    && s.refs[v] == Owed(s, v)
    && s.cleaned[v] + Pending(s, v) == if s.refs[v] == 0 then 1 else 0
  }

  ghost predicate Inv(s: State) {
    && |s.refs| == |s.cleaned| == |s.external| && |s.refs| > 0
    && InstallerOk(s)
    && (forall t :: 0 <= t < |s.threads| ==> ThreadOk(s, t))
    && (forall v :: 0 <= v < |s.refs| ==> Accounted(s, v))
  }

  lemma InitInv(n: nat)
    ensures Inv(Init(n))
  {
    TotalZero(References, Init(n).threads, 0);
    TotalZero(Cleanups, Init(n).threads, 0);
  }

  /** What the code asserts, or silently relies on, when it takes a step. */
  ghost predicate Asserted(s: State, step: Step)
    requires Enabled(s, step)
  {
    match step
    case Swap(t) => s.threads[t].slot != InUse
    case UnrefStale(t) => HasRefs(s, s.threads[t].pc.v, 1)
    case RefCurrent(t) =>
      if s.threads[t].pc.dead.Some? then Disposable(s, s.threads[t].pc.dead.value) else HasRefs(s, |s.refs| - 1, 1)
    case Return(t) => s.threads[t].slot == InUse || s.threads[t].slot == Obsolete
    case ReturnReferenced(t) => s.threads[t].slot == InUse || s.threads[t].slot == Obsolete
    case UnrefSlot(t) => HasRefs(s, s.threads[t].pc.v, 2)
    case Unref(t) => HasRefs(s, s.threads[t].pc.v, 1)
    case Cleanup(t) => Disposable(s, s.threads[t].pc.v)
    case ThreadExit(t) => s.threads[t].slot.Cached? ==> HasRefs(s, s.threads[t].slot.v, 2)
    case UnrefScraped => HasRefs(s, s.installer.got[0], 2)
    case UnrefOld => HasRefs(s, s.installer.prior, 1)
    case CleanupOld => Disposable(s, s.installer.prior)
    case _ => true
  }

  /** At least `n` references; with two, dropping one cannot be dropping the last. */
  ghost predicate HasRefs(s: State, v: int, n: nat) {
    0 <= v < |s.refs| && s.refs[v] >= n
  }

  ghost predicate Disposable(s: State, v: nat) {
    v < |s.refs| == |s.cleaned| && s.refs[v] == 0 && s.cleaned[v] == 0
  }

  /** A thread's own share of the references and the cleanups. */
  lemma ThreadShare(s: State, t: nat, v: nat)
    requires Inv(s) && t < |s.threads| && v < |s.refs|
    ensures Weight(References, s.threads[t], v) <= Total(References, s.threads, v)
    ensures Weight(Cleanups, s.threads[t], v) <= Total(Cleanups, s.threads, v)
  {
    TotalUpdate(References, s.threads, t, s.threads[t], v);
    TotalUpdate(Cleanups, s.threads, t, s.threads[t], v);
  }

  /** The version a step of the thread may drop a reference to, or the current one. */
  function Concerned(s: State, th: Thread): int {
    match th.pc
    case Stale(v) => v
    case Locked(dead) => if dead.Some? then dead.value else Current(s)
    case SlotLost(v) => v
    case Releasing(v) => v
    case Cleaning(v) => v
    case _ => if th.slot.Cached? then th.slot.v else 0
  }

  lemma AssertionsHold(s: State, step: Step)
    requires Inv(s) && Enabled(s, step)
    ensures Asserted(s, step)
  {
    if IsThreadStep(step) {
      assert ThreadOk(s, step.t);
      var v := Concerned(s, s.threads[step.t]);
      ThreadShare(s, step.t, v);
      assert Accounted(s, v);
    } else if !s.installer.Quiet? {
      if step.UnrefScraped? {
        assert s.installer.got[0] in s.installer.got;
      }
      assert Accounted(s, s.installer.prior);
    }
  }

  /** Thread `t` changes alone, and the accounts change with its share. */
  lemma ThreadChange(s: State, s': State, t: nat, v: nat)
    requires Inv(s) && t < |s.threads| == |s'.threads| && v < |s.refs| == |s'.refs| == |s'.cleaned| == |s'.external|
    requires s'.threads == s.threads[t := s'.threads[t]] && s'.installer == s.installer
    requires s'.refs[v] - s.refs[v] ==
             Weight(References, s'.threads[t], v) - Weight(References, s.threads[t], v) + s'.external[v] - s.external[v]
    requires s'.cleaned[v] - s.cleaned[v] + Weight(Cleanups, s'.threads[t], v) - Weight(Cleanups, s.threads[t], v) ==
             (if s'.refs[v] == 0 then 1 else 0) - (if s.refs[v] == 0 then 1 else 0)
    ensures Accounted(s', v)
  {
    assert Accounted(s, v);
    TotalUpdate(References, s.threads, t, s'.threads[t], v);
    TotalUpdate(Cleanups, s.threads, t, s'.threads[t], v);
  }

  /** The steps that move a reference or a duty without changing any count. */
  predicate OnlyMoves(step: Step) {
    step.Swap? || step.CheckNumber? || step.Lock? || step.Return? || step.LockForCleanup? || step.GiveBack? ||
      step.ReturnReferenced?
  }

  lemma MoveKeepsAccounts(s: State, step: Step, v: nat)
    requires Inv(s) && Enabled(s, step) && IsThreadStep(step) && OnlyMoves(step) && v < |s.refs|
    ensures var s' := Apply(s, step); |s'.refs| == |s'.cleaned| == |s'.external| == |s.refs| && Accounted(s', v)
  {
    assert ThreadOk(s, step.t);
    assert Accounted(s, v);
    ThreadChange(s, Apply(s, step), step.t, v);
  }

  lemma ReleaseKeepsAccounts(s: State, step: Step, v: nat)
    requires Inv(s) && Enabled(s, step) && (step.UnrefStale? || step.UnrefSlot? || step.Unref? || step.ThreadExit?) &&
             v < |s.refs|
    ensures var s' := Apply(s, step); |s'.refs| == |s'.cleaned| == |s'.external| == |s.refs| && Accounted(s', v)
  {
    AssertionsHold(s, step);
    assert ThreadOk(s, step.t);
    assert Accounted(s, v);
    ThreadChange(s, Apply(s, step), step.t, v);
  }

  lemma ThreadStepKeepsAccounts(s: State, step: Step, v: nat)
    requires Inv(s) && Enabled(s, step) && IsThreadStep(step) && v < |s.refs|
    ensures var s' := Apply(s, step); |s'.refs| == |s'.cleaned| == |s'.external| == |s.refs| && Accounted(s', v)
  {
    if OnlyMoves(step) {
      MoveKeepsAccounts(s, step, v);
    } else if step.UnrefStale? || step.UnrefSlot? || step.Unref? || step.ThreadExit? {
      ReleaseKeepsAccounts(s, step, v);
    } else {
      AssertionsHold(s, step);
      ThreadShare(s, step.t, v);
      assert ThreadOk(s, step.t);
      assert Accounted(s, v);
      ThreadChange(s, Apply(s, step), step.t, v);
    }
  }

  lemma ThreadStepKeepsItself(s: State, step: Step)
    requires Inv(s) && Enabled(s, step) && IsThreadStep(step)
    ensures |Apply(s, step).threads| == |s.threads| && ThreadOk(Apply(s, step), step.t)
  {
    hide Accounted;
    assert ThreadOk(s, step.t);
    var s' := Apply(s, step);
    assert s'.installer == s.installer && s'.number == s.number && |s'.refs| == |s.refs|;
  }

  lemma ThreadStepKeepsInstaller(s: State, step: Step)
    requires Inv(s) && Enabled(s, step) && IsThreadStep(step)
    ensures InstallerOk(Apply(s, step))
  {
    hide Accounted;
    assert ThreadOk(s, step.t);
    var s' := Apply(s, step);
    assert s'.installer == s.installer && s'.number == s.number && |s'.refs| == |s.refs|;
  }

  /** What a step of another thread leaves alone. */
  lemma ThreadStepKeepsOthers(s: State, step: Step, t: nat)
    requires Inv(s) && Enabled(s, step) && IsThreadStep(step) && t < |s.threads| && t != step.t
    ensures |Apply(s, step).threads| == |s.threads| && ThreadOk(Apply(s, step), t)
  {
    hide Accounted;
    var s' := Apply(s, step);
    assert ThreadOk(s, step.t) && ThreadOk(s, t);
    assert s'.threads[t] == s.threads[t] && s'.installer == s.installer && s'.number == s.number &&
      |s'.refs| == |s.refs|;
    assert s.mutex == Reader(t) ==> s'.mutex == Reader(t);
  }

  lemma ThreadStepInv(s: State, step: Step)
    requires Inv(s) && Enabled(s, step) && IsThreadStep(step)
    ensures Inv(Apply(s, step))
  {
    hide ThreadOk, Accounted, InstallerOk;
    var s' := Apply(s, step);
    ThreadStepKeepsItself(s, step);
    ThreadStepKeepsInstaller(s, step);
    forall t | 0 <= t < |s.threads|
      ensures ThreadOk(s', t)
    {
      if t != step.t {
        ThreadStepKeepsOthers(s, step, t);
      }
    }
    forall v | 0 <= v < |s.refs|
      ensures |s'.refs| == |s'.cleaned| == |s'.external| == |s.refs| && Accounted(s', v)
    {
      ThreadStepKeepsAccounts(s, step, v);
    }
  }

  /** No thread knows of a version that is not published yet. */
  lemma NobodyKnows(s: State, v: nat)
    requires Inv(s) && v >= |s.refs|
    ensures Total(References, s.threads, v) == 0 && Total(Cleanups, s.threads, v) == 0
  {
    forall t | 0 <= t < |s.threads|
      ensures Weight(References, s.threads[t], v) == 0 && Weight(Cleanups, s.threads[t], v) == 0
    {
      assert ThreadOk(s, t);
    }
    TotalZero(References, s.threads, v);
    TotalZero(Cleanups, s.threads, v);
  }

  lemma PublishKeepsAccounts(s: State, v: nat)
    requires Inv(s) && Enabled(s, Publish) && v < |Apply(s, Publish).refs|
    ensures var s' := Apply(s, Publish); |s'.refs| == |s'.cleaned| == |s'.external| && Accounted(s', v)
  {
    hide ThreadOk;
    if v < |s.refs| {
      assert Accounted(s, v);
    } else {
      NobodyKnows(s, v);
    }
  }

  lemma ScrapedWeight(th: Thread, v: nat)
    ensures Weight(References, Thread(Obsolete, th.pc), v) + (if th.slot == Cached(v) then 1 else 0) ==
            Weight(References, th, v)
    ensures Weight(Cleanups, Thread(Obsolete, th.pc), v) == Weight(Cleanups, th, v)
  {
  }

  lemma ScrapedOwes(got: seq<nat>, slot: Slot, v: nat)
    ensures multiset(if slot.Cached? then got + [slot.v] else got)[v] ==
            multiset(got)[v] + (if slot == Cached(v) then 1 else 0)
  {
    if slot.Cached? {
      assert multiset(got + [slot.v]) == multiset(got) + multiset{slot.v};
    }
  }

  lemma ScrapeKeepsAccounts(s: State, v: nat)
    requires Inv(s) && Enabled(s, ScrapeNext) && v < |s.refs|
    ensures Accounted(Apply(s, ScrapeNext), v)
  {
    hide ThreadOk, Weight, Total;
    assert Accounted(s, v);
    var t := s.installer.next;
    ScrapedWeight(s.threads[t], v);
    ScrapedOwes(s.installer.got, s.threads[t].slot, v);
    TotalUpdate(References, s.threads, t, Thread(Obsolete, s.threads[t].pc), v);
    TotalUpdate(Cleanups, s.threads, t, Thread(Obsolete, s.threads[t].pc), v);
  }

  lemma InstallerStepKeepsAccounts(s: State, step: Step, v: nat)
    requires Inv(s) && Enabled(s, step) && !IsThreadStep(step) && v < |Apply(s, step).refs|
    ensures var s' := Apply(s, step); |s'.refs| == |s'.cleaned| == |s'.external| && Accounted(s', v)
  {
    hide ThreadOk;
    if step.Publish? {
      PublishKeepsAccounts(s, v);
    } else if step.ScrapeNext? {
      ScrapeKeepsAccounts(s, v);
    } else {
      AssertionsHold(s, step);
      assert Accounted(s, v);
      if step.UnrefScraped? {
        assert s.installer.got == [s.installer.got[0]] + s.installer.got[1..];
      }
    }
  }

  lemma InstallerStepKeepsThreads(s: State, step: Step, t: nat)
    requires Inv(s) && Enabled(s, step) && !IsThreadStep(step) && t < |s.threads|
    ensures |Apply(s, step).threads| == |s.threads| && ThreadOk(Apply(s, step), t)
  {
    hide Accounted;
    assert ThreadOk(s, t);
    var s' := Apply(s, step);
    assert s'.threads[t].pc == s.threads[t].pc;
    assert s'.threads[t].slot == s.threads[t].slot || (s'.threads[t].slot == Obsolete && step.ScrapeNext?);
  }

  lemma InstallerStepKeepsInstaller(s: State, step: Step)
    requires Inv(s) && Enabled(s, step) && !IsThreadStep(step)
    ensures InstallerOk(Apply(s, step))
  {
    hide Accounted;
    match step
    case ScrapeNext =>
      assert ThreadOk(s, s.installer.next);
    case UnrefScraped =>
      assert forall v :: v in s.installer.got[1..] ==> v in s.installer.got;
    case _ =>
  }

  lemma InstallerStepInv(s: State, step: Step)
    requires Inv(s) && Enabled(s, step) && !IsThreadStep(step)
    ensures Inv(Apply(s, step))
  {
    hide ThreadOk, Accounted, InstallerOk;
    var s' := Apply(s, step);
    forall t | 0 <= t < |s'.threads|
      ensures ThreadOk(s', t)
    {
      InstallerStepKeepsThreads(s, step, t);
    }
    forall v | 0 <= v < |s'.refs|
      ensures |s'.refs| == |s'.cleaned| == |s'.external| && Accounted(s', v)
    {
      InstallerStepKeepsAccounts(s, step, v);
    }
    InstallerStepKeepsInstaller(s, step);
  }

  lemma StepKeepsInv(s: State, step: Step)
    requires Inv(s) && Enabled(s, step)
    ensures Inv(Apply(s, step))
  {
    if IsThreadStep(step) {
      ThreadStepInv(s, step);
    } else {
      InstallerStepInv(s, step);
    }
  }

  // ----- Whole runs

  /** `steps` is a run: every step is enabled when it is taken. */
  ghost predicate Runs(s: State, steps: seq<Step>)
    decreases |steps|
  {
    steps != [] ==> Enabled(s, steps[0]) && Runs(Apply(s, steps[0]), steps[1..])
  }

  ghost function After(s: State, steps: seq<Step>): State
    requires Runs(s, steps)
    decreases |steps|
  {
    if steps == [] then s else After(Apply(s, steps[0]), steps[1..])
  }

  /** Every step of the run meets what the code asserts there. */
  ghost predicate AlwaysAsserted(s: State, steps: seq<Step>)
    requires Runs(s, steps)
    decreases |steps|
  {
    steps != [] ==> Asserted(s, steps[0]) && AlwaysAsserted(Apply(s, steps[0]), steps[1..])
  }

  lemma {:induction false} RunKeepsInv(s: State, steps: seq<Step>)
    requires Inv(s) && Runs(s, steps)
    ensures Inv(After(s, steps)) && AlwaysAsserted(s, steps)
    decreases |steps|
  {
    if steps != [] {
      AssertionsHold(s, steps[0]);
      StepKeepsInv(s, steps[0]);
      RunKeepsInv(Apply(s, steps[0]), steps[1..]);
    }
  }

  /** Any number of threads, any interleaving: all assertions hold, and in the state reached a
      version that somebody uses, caches or holds a reference to has not been cleaned up; no
      version is ever cleaned up twice; and a version nobody refers to any more has been cleaned
      up or exactly one party is on its way to do so. */
  lemma EveryRunIsSafe(n: nat, steps: seq<Step>, v: nat)
    requires Runs(Init(n), steps) && v < |After(Init(n), steps).refs|
    ensures AlwaysAsserted(Init(n), steps)
    ensures var s := After(Init(n), steps);
            && |s.cleaned| == |s.refs|
            && s.refs[v] == Owed(s, v) && s.cleaned[v] <= 1
            && (Owed(s, v) > 0 ==> s.cleaned[v] == 0 && Pending(s, v) == 0)
            && (Owed(s, v) == 0 ==> s.cleaned[v] + Pending(s, v) == 1)
  {
    InitInv(n);
    RunKeepsInv(Init(n), steps);
    assert Accounted(After(Init(n), steps), v);
  }

  /** What a reader holds stays intact. */
  lemma HeldStaysIntact(n: nat, steps: seq<Step>, t: nat)
    requires Runs(Init(n), steps)
    requires var s := After(Init(n), steps); t < |s.threads| && Holds(s.threads[t].pc)
    ensures var s := After(Init(n), steps);
            var v := s.threads[t].pc.v;
            v < |s.refs| == |s.cleaned| && s.refs[v] > 0 && s.cleaned[v] == 0
  {
    InitInv(n);
    RunKeepsInv(Init(n), steps);
    var s := After(Init(n), steps);
    assert ThreadOk(s, t);
    ThreadShare(s, t, s.threads[t].pc.v);
    assert Accounted(s, s.threads[t].pc.v);
  }

  /** Once the slots have been scraped no thread-local slot keeps an older version. */
  lemma ScrapedSlotsAreCurrent(n: nat, steps: seq<Step>, t: nat)
    requires Runs(Init(n), steps)
    requires var s := After(Init(n), steps);
             !s.installer.Published? && !s.installer.Scraping? && t < |s.threads| && s.threads[t].slot.Cached?
    ensures var s := After(Init(n), steps); s.threads[t].slot.v == Current(s)
  {
    InitInv(n);
    RunKeepsInv(Init(n), steps);
    assert ThreadOk(After(Init(n), steps), t);
  }
}
