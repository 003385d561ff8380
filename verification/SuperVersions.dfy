/** The thread-local caching of SuperVersions (ColumnFamilyData), as a step system.

    Any number of reader threads take the cached version out of their slot with Swap and put it
    back with CompareAndSwap, without the DB mutex.  An installer, under the DB mutex, publishes a
    new version, bumps the version number, scrapes the slots one by one and only then drops its
    reference to the old version.  Every step below is one atomic operation of the code; a step
    label names who does what, and a run is any sequence of enabled steps.

    Versions are named by their version number, in the order they are installed. */
module SuperVersions {
  import opened Options

  // kSVObsolete, kSVInUse or a pointer to a version
  datatype Slot = Obsolete | InUse | Cached(v: nat)

  /** Where a reader thread is. */
  datatype Pc =
    | Idle
    | Swapped(taken: Slot)         // has swapped kSVInUse in
    | Stale(v: nat)                // found its cached version out of date
    | NeedsLock(dead: Option<nat>) // `dead`: a version it must clean up
    | Locked(dead: Option<nat>)
    | Holding(v: nat)              // GetThreadLocalSuperVersion has returned v
    | TwiceHolding(v: nat)         // GetReferencedSuperVersion after its Ref
    | SlotLost(v: nat)             // ... after its CompareAndSwap failed
    | Releasing(v: nat)            // about to Unref
    | AwaitsCleanup(v: nat)        // was the last, needs the mutex
    | Cleaning(v: nat)

  /** The thread has been given a version and has not put it back yet. */
  predicate Holds(pc: Pc) {
    pc.Holding? || pc.TwiceHolding? || pc.SlotLost?
  }

  datatype Thread = Thread(slot: Slot, pc: Pc)

  datatype Installer =
    | Quiet
    | Published(prior: nat)
    | Scraping(prior: nat, next: nat, got: seq<nat>)
    | Unreffing(prior: nat, got: seq<nat>)
    | Disposing(prior: nat)

  datatype Owner = Free | Reader(t: nat) | Install

  datatype State = State(
    refs: seq<int>,          // of every version ever installed
    cleaned: seq<nat>,       // how often Cleanup ran for it
    external: seq<nat>,      // references handed out by GetReferencedSuperVersion
    number: nat,             // super_version_number_
    threads: seq<Thread>,
    installer: Installer,
    mutex: Owner)

  function Current(s: State): int {
    |s.refs| - 1
  }

  function Init(n: nat): State {
    State([1], [0], [0], 0, seq(n, i => Thread(Obsolete, Idle)), Quiet, Free)
  }

  datatype Step =
    | Swap(t: nat) | CheckNumber(t: nat) | UnrefStale(t: nat) | Lock(t: nat) | RefCurrent(t: nat)
    | Return(t: nat) | TakeRef(t: nat) | ReturnReferenced(t: nat) | UnrefSlot(t: nat)
    | GiveBack(t: nat, v: nat) | Unref(t: nat) | LockForCleanup(t: nat) | Cleanup(t: nat) | ThreadExit(t: nat)
    | Publish | BumpNumber | ScrapeNext | ScrapeDone | UnrefScraped | UnrefOld | CleanupOld

  predicate IsThreadStep(step: Step) {
    !(step.Publish? || step.BumpNumber? || step.ScrapeNext? || step.ScrapeDone? || step.UnrefScraped?
      || step.UnrefOld? || step.CleanupOld?)
  }

  predicate ThreadEnabled(s: State, step: Step)
    requires IsThreadStep(step) && step.t < |s.threads|
  {
    var pc := s.threads[step.t].pc;
    match step
    case Swap(_) => pc.Idle?
    case CheckNumber(_) => pc.Swapped?
    case UnrefStale(_) => pc.Stale?
    case Lock(_) => pc.NeedsLock? && s.mutex == Free
    case RefCurrent(_) => pc.Locked?
    case Return(_) => pc.Holding?
    case TakeRef(_) => pc.Holding?
    case ReturnReferenced(_) => pc.TwiceHolding?
    case UnrefSlot(_) => pc.SlotLost?
    case GiveBack(_, v) => pc.Idle? && v < |s.external| && s.external[v] > 0
    case Unref(_) => pc.Releasing?
    case LockForCleanup(_) => pc.AwaitsCleanup? && s.mutex == Free
    case Cleanup(_) => pc.Cleaning?
    case ThreadExit(_) => pc.Idle? && !s.installer.Scraping?  // a scrape holds the thread-list mutex
  }

  predicate Enabled(s: State, step: Step) {
    if IsThreadStep(step) then step.t < |s.threads| && ThreadEnabled(s, step)
    else match step
      case Publish => s.mutex == Free && |s.refs| > 0
      case BumpNumber => s.installer.Published?
      case ScrapeNext => s.installer.Scraping? && s.installer.next < |s.threads|
      case ScrapeDone => s.installer.Scraping? && s.installer.next >= |s.threads|
      case UnrefScraped => s.installer.Unreffing? && s.installer.got != []
      case UnrefOld => s.installer.Unreffing? && s.installer.got == []
      case CleanupOld => s.installer.Disposing?
      case _ => false
  }

  function SetThread(s: State, t: nat, slot: Slot, pc: Pc): State
    requires t < |s.threads|
  {
    s.(threads := s.threads[t := Thread(slot, pc)])
  }

  function AddRef(s: State, v: nat, d: int): State {
    if v < |s.refs| then s.(refs := s.refs[v := s.refs[v] + d]) else s
  }

  function WasLast(s: State, v: nat): bool {
    v < |s.refs| && s.refs[v] == 1
  }

  function CleanUp(s: State, v: nat): State {
    if v < |s.cleaned| then s.(cleaned := s.cleaned[v := s.cleaned[v] + 1]) else s
  }

  function AddExternal(s: State, v: nat, d: int): State
    requires v < |s.external| ==> s.external[v] + d >= 0
  {
    if v < |s.external| then s.(external := s.external[v := s.external[v] + d]) else s
  }

  function ThreadStep(s: State, step: Step): State
    requires IsThreadStep(step) && step.t < |s.threads| && ThreadEnabled(s, step)
  {
    var t := step.t;
    var Thread(slot, pc) := s.threads[t];
    match step
    case Swap(_) => SetThread(s, t, InUse, Swapped(slot))
    case CheckNumber(_) =>
      (match pc.taken
       case Cached(v) => SetThread(s, t, slot, if v == s.number then Holding(v) else Stale(v))
       case _ => SetThread(s, t, slot, NeedsLock(None)))
    case UnrefStale(_) =>
      AddRef(SetThread(s, t, slot, NeedsLock(if WasLast(s, pc.v) then Some(pc.v) else None)), pc.v, -1)
    case Lock(_) => SetThread(s, t, slot, Locked(pc.dead)).(mutex := Reader(t))
    case RefCurrent(_) =>
      if pc.dead.Some? then CleanUp(SetThread(s, t, slot, Locked(None)), pc.dead.value)
      else if |s.refs| == 0 then s
      else AddRef(SetThread(s, t, slot, Holding(|s.refs| - 1)), |s.refs| - 1, 1).(mutex := Free)
    case Return(_) => if slot == InUse then SetThread(s, t, Cached(pc.v), Idle)
      else SetThread(s, t, slot, Releasing(pc.v))
    case TakeRef(_) => AddRef(SetThread(s, t, slot, TwiceHolding(pc.v)), pc.v, 1)
    case ReturnReferenced(_) =>
      if slot == InUse then AddExternal(SetThread(s, t, Cached(pc.v), Idle), pc.v, 1)
      else SetThread(s, t, slot, SlotLost(pc.v))
    case UnrefSlot(_) => AddExternal(AddRef(SetThread(s, t, slot, Idle), pc.v, -1), pc.v, 1)
    case GiveBack(_, v) => AddExternal(SetThread(s, t, slot, Releasing(v)), v, -1)
    case Unref(_) => AddRef(SetThread(s, t, slot, if WasLast(s, pc.v) then AwaitsCleanup(pc.v) else Idle), pc.v, -1)
    case LockForCleanup(_) => SetThread(s, t, slot, Cleaning(pc.v)).(mutex := Reader(t))
    case Cleanup(_) => CleanUp(SetThread(s, t, slot, Idle), pc.v).(mutex := Free)
    case ThreadExit(_) =>
      if slot.Cached? then AddRef(SetThread(s, t, Obsolete, Idle), slot.v, -1) else SetThread(s, t, Obsolete, Idle)
  }

  function InstallerStep(s: State, step: Step): State
    requires !IsThreadStep(step) && Enabled(s, step)
  {
    match step
    case Publish =>
      s.(refs := s.refs + [1], cleaned := s.cleaned + [0], external := s.external + [0],
         installer := Published(|s.refs| - 1), mutex := Install)
    case BumpNumber => s.(number := s.number + 1, installer := Scraping(s.installer.prior, 0, []))
    case ScrapeNext =>
      var Scraping(prior, i, got) := s.installer;
      var slot := s.threads[i].slot;
      SetThread(s, i, Obsolete, s.threads[i].pc).(
        installer := Scraping(prior, i + 1, if slot.Cached? then got + [slot.v] else got))
    case ScrapeDone => s.(installer := Unreffing(s.installer.prior, s.installer.got))
    case UnrefScraped =>
      AddRef(s.(installer := Unreffing(s.installer.prior, s.installer.got[1..])), s.installer.got[0], -1)
    case UnrefOld =>
      var prior := s.installer.prior;
      if WasLast(s, prior) then AddRef(s.(installer := Disposing(prior)), prior, -1)
      else AddRef(s.(installer := Quiet, mutex := Free), prior, -1)
    case CleanupOld => CleanUp(s.(installer := Quiet, mutex := Free), s.installer.prior)
  }

  function Apply(s: State, step: Step): State
    requires Enabled(s, step)
  {
    if IsThreadStep(step) then ThreadStep(s, step) else InstallerStep(s, step)
  }

  // ----- Counting references

  datatype Measure = References | Cleanups

  function Weight(m: Measure, th: Thread, v: nat): nat {
    match m
    case References =>
      (if th.slot == Cached(v) then 1 else 0) +
      (match th.pc
       case Swapped(taken) => if taken == Cached(v) then 1 else 0
       case Stale(w) => if w == v then 1 else 0
       case Holding(w) => if w == v then 1 else 0
       case TwiceHolding(w) => if w == v then 2 else 0
       case SlotLost(w) => if w == v then 2 else 0
       case Releasing(w) => if w == v then 1 else 0
       case _ => 0)
    case Cleanups =>
      match th.pc
      case NeedsLock(dead) => if dead == Some(v) then 1 else 0
      case Locked(dead) => if dead == Some(v) then 1 else 0
      case AwaitsCleanup(w) => if w == v then 1 else 0
      case Cleaning(w) => if w == v then 1 else 0
      case _ => 0
  }

  function Total(m: Measure, threads: seq<Thread>, v: nat): nat {
    if threads == [] then 0
    else Total(m, threads[..|threads| - 1], v) + Weight(m, threads[|threads| - 1], v)
  }

  lemma {:induction false} TotalUpdate(m: Measure, threads: seq<Thread>, t: nat, th: Thread, v: nat)
    requires t < |threads|
    ensures Total(m, threads[t := th], v) == Total(m, threads, v) - Weight(m, threads[t], v) + Weight(m, th, v)
    ensures Weight(m, threads[t], v) <= Total(m, threads, v)
  {
    var last := |threads| - 1;
    if t == last {
      assert threads[t := th][..last] == threads[..last];
    } else {
      assert threads[t := th][..last] == threads[..last][t := th];
      TotalUpdate(m, threads[..last], t, th, v);
    }
  }

  lemma {:induction false} TotalZero(m: Measure, threads: seq<Thread>, v: nat)
    requires forall i :: 0 <= i < |threads| ==> Weight(m, threads[i], v) == 0
    ensures Total(m, threads, v) == 0
  {
    if threads != [] {
      TotalZero(m, threads[..|threads| - 1], v);
    }
  }

  function InstallerOwes(i: Installer, v: nat): nat {
    match i
    case Quiet => 0
    case Published(prior) => if prior == v then 1 else 0
    case Scraping(prior, _, got) => (if prior == v then 1 else 0) + multiset(got)[v]
    case Unreffing(prior, got) => (if prior == v then 1 else 0) + multiset(got)[v]
    case Disposing(_) => 0
  }

  /** Who holds references to version `v`. */
  function Owed(s: State, v: nat): int {
    (if v == Current(s) then 1 else 0) + InstallerOwes(s.installer, v)
    + Total(References, s.threads, v) + (if v < |s.external| then s.external[v] else 0)
  }

  /** Who is about to clean up version `v`. */
  function Pending(s: State, v: nat): nat {
    Total(Cleanups, s.threads, v) + (if s.installer == Disposing(v) then 1 else 0)
  }
}
