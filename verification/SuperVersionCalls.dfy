/** What a call of a reader or of the installer gives, in any interleaving and on its own. */
module SuperVersionCalls {
  import opened Options
  import opened SuperVersions
  import opened SuperVersionSafety

  // ----- Runs in parts

  lemma {:induction false} RunSplits(s: State, a: seq<Step>, b: seq<Step>)
    requires Runs(s, a + b)
    ensures Runs(s, a) && Runs(After(s, a), b) && After(s, a + b) == After(After(s, a), b)
    decreases |a|
  {
    if a == [] {
      assert a + b == b;
    } else {
      assert (a + b)[1..] == a[1..] + b;
      RunSplits(Apply(s, a[0]), a[1..], b);
    }
  }

  lemma {:induction false} RunJoins(s: State, a: seq<Step>, b: seq<Step>)
    requires Runs(s, a) && Runs(After(s, a), b)
    ensures Runs(s, a + b) && After(s, a + b) == After(After(s, a), b)
    decreases |a|
  {
    if a == [] {
      assert a + b == b;
    } else {
      assert (a + b)[1..] == a[1..] + b;
      RunJoins(Apply(s, a[0]), a[1..], b);
    }
  }

  lemma OneStep(s: State, step: Step)
    requires Enabled(s, step)
    ensures Runs(s, [step]) && After(s, [step]) == Apply(s, step)
  {
    assert [step][1..] == [];
    assert Runs(Apply(s, step), []);
  }

  lemma TwoSteps(s: State, x: Step, y: Step)
    requires Enabled(s, x) && Enabled(Apply(s, x), y)
    ensures Runs(s, [x, y]) && After(s, [x, y]) == Apply(Apply(s, x), y)
  {
    hide Enabled, Apply;
    OneStep(Apply(s, x), y);
    assert [x, y][1..] == [y];
  }

  // ----- A reader gets a version at least as new as the one current when its call began

  ghost predicate NotOlder(s: State, t: nat, m: nat) {
    && t < |s.threads| && m <= s.number
    && (Holds(s.threads[t].pc) ==> m <= s.threads[t].pc.v)
  }

  lemma StepKeepsNotOlder(s: State, step: Step, t: nat, m: nat)
    requires Inv(s) && Enabled(s, step) && NotOlder(s, t, m)
    ensures NotOlder(Apply(s, step), t, m)
  {
    hide ThreadOk, Accounted;
  }

  lemma {:induction false} RunKeepsNotOlder(s: State, steps: seq<Step>, t: nat, m: nat)
    requires Inv(s) && Runs(s, steps) && NotOlder(s, t, m)
    ensures NotOlder(After(s, steps), t, m)
    decreases |steps|
  {
    hide Inv, NotOlder, Enabled, Apply;
    if steps != [] {
      StepKeepsInv(s, steps[0]);
      StepKeepsNotOlder(s, steps[0], t, m);
      RunKeepsNotOlder(Apply(s, steps[0]), steps[1..], t, m);
    }
  }

  /** Whatever happens between the start of a call, which is its Swap, and the moment the caller
      has its version: the version is no older than the one whose number was current at the start. */
  lemma ReaderIsUpToDate(n: nat, a: seq<Step>, b: seq<Step>, t: nat)
    requires Runs(Init(n), a + ([Swap(t)] + b))
    requires var s := After(Init(n), a + ([Swap(t)] + b)); t < |s.threads| && Holds(s.threads[t].pc)
    ensures Runs(Init(n), a)
    ensures After(Init(n), a).number <= After(Init(n), a + ([Swap(t)] + b)).threads[t].pc.v
  {
    hide Inv, Runs, After;
    RunSplits(Init(n), a, [Swap(t)] + b);
    InitInv(n);
    RunKeepsInv(Init(n), a);
    CallIsUpToDate(After(Init(n), a), b, t);
  }

  lemma CallIsUpToDate(s: State, b: seq<Step>, t: nat)
    requires Inv(s) && Runs(s, [Swap(t)] + b)
    ensures NotOlder(After(s, [Swap(t)] + b), t, s.number)
  {
    hide Inv, After;
    var s' := Apply(s, Swap(t));
    assert ([Swap(t)] + b)[1..] == b;
    RunSplits(s, [Swap(t)], b);
    OneStep(s, Swap(t));
    StepKeepsInv(s, Swap(t));
    RunKeepsNotOlder(s', b, t, s.number);
  }

  // ----- The slot after a call

  predicate InCall(pc: Pc) {
    pc.Swapped? || pc.Stale? || pc.NeedsLock? || pc.Locked? || pc.Holding? || pc.TwiceHolding?
  }

  /** The step puts a version back. */
  predicate PutsBack(step: Step, t: nat) {
    step == Return(t) || step == ReturnReferenced(t)
  }

  predicate ScrapesSlot(s: State, step: Step, t: nat) {
    step.ScrapeNext? && s.installer.Scraping? && s.installer.next == t
  }

  /** Some step of the run scrapes the slot of thread `t`. */
  ghost predicate Scraped(s: State, steps: seq<Step>, t: nat)
    requires Runs(s, steps)
    decreases |steps|
  {
    steps != [] && (ScrapesSlot(s, steps[0], t) || Scraped(Apply(s, steps[0]), steps[1..], t))
  }

  lemma StepInCall(s: State, step: Step, t: nat)
    requires Enabled(s, step) && t < |s.threads| && InCall(s.threads[t].pc) && !PutsBack(step, t)
    ensures var s' := Apply(s, step);
            && t < |s'.threads| && InCall(s'.threads[t].pc)
            && s'.threads[t].slot == if ScrapesSlot(s, step, t) then Obsolete else s.threads[t].slot
  {
  }

  lemma {:induction false} SlotDuringCall(s: State, steps: seq<Step>, t: nat)
    requires Runs(s, steps) && t < |s.threads| && InCall(s.threads[t].pc)
    requires s.threads[t].slot == InUse || s.threads[t].slot == Obsolete
    requires forall step :: step in steps ==> !PutsBack(step, t)
    ensures var s' := After(s, steps);
            && t < |s'.threads| && InCall(s'.threads[t].pc)
            && s'.threads[t].slot == if Scraped(s, steps, t) then Obsolete else s.threads[t].slot
    decreases |steps|
  {
    hide Apply, InCall, Enabled, ScrapesSlot;
    if steps != [] {
      StepInCall(s, steps[0], t);
      SlotDuringCall(Apply(s, steps[0]), steps[1..], t);
    }
  }

  /** A call that begins with Swap and has come to its Return leaves the version it gave in the
      slot if and only if no install scraped the slot meanwhile; otherwise the slot stays obsolete
      and the thread gives its reference up. */
  lemma ReturnKeepsTheCache(n: nat, a: seq<Step>, b: seq<Step>, t: nat)
    requires Runs(Init(n), a + ([Swap(t)] + b)) && Enabled(After(Init(n), a + ([Swap(t)] + b)), Return(t))
    requires forall step :: step in b ==> !PutsBack(step, t)
    ensures Runs(Init(n), a) && Enabled(After(Init(n), a), Swap(t))
    ensures Runs(Apply(After(Init(n), a), Swap(t)), b)
    ensures var s := After(Init(n), a + ([Swap(t)] + b));
            var v := s.threads[t].pc.v;
            Apply(s, Return(t)) == s.(threads := s.threads[t :=
              if Scraped(Apply(After(Init(n), a), Swap(t)), b, t) then Thread(Obsolete, Releasing(v))
              else Thread(Cached(v), Idle)])
  {
    RunSplits(Init(n), a, [Swap(t)] + b);
    var s := After(Init(n), a);
    RunSplits(s, [Swap(t)], b);
    OneStep(s, Swap(t));
    SlotDuringCall(Apply(s, Swap(t)), b, t);
  }

  // ----- Calls on their own

  /** The thread holds version `v` after `steps`, which are taken alone. */
  ghost predicate Gives(s: State, steps: seq<Step>, t: nat, v: nat) {
    && Runs(s, steps)
    && t < |After(s, steps).threads| && After(s, steps).threads[t].pc == Holding(v)
  }

  /** With the current version cached a call needs no lock, and returning it leaves no trace. */
  lemma CachedCall(s: State, t: nat, v: nat)
    requires t < |s.threads| && s.threads[t] == Thread(Cached(v), Idle) && v == s.number
    ensures Gives(s, [Swap(t), CheckNumber(t)], t, v)
    ensures Apply(After(s, [Swap(t), CheckNumber(t)]), Return(t)) == s
  {
    TwoSteps(s, Swap(t), CheckNumber(t));
    var s' := After(s, [Swap(t), CheckNumber(t)]);
    assert s'.threads == s.threads[t := Thread(InUse, Holding(v))];
    assert Apply(s', Return(t)).threads == s.threads;
  }

  /** A thread that has found nothing cached. */
  lemma NothingCached(s: State, t: nat)
    requires t < |s.threads| && s.threads[t] == Thread(Obsolete, Idle)
    ensures Runs(s, [Swap(t), CheckNumber(t)])
    ensures After(s, [Swap(t), CheckNumber(t)]) ==
            s.(threads := s.threads[t := Thread(InUse, NeedsLock(None))])
  {
    TwoSteps(s, Swap(t), CheckNumber(t));
  }

  lemma TakesCurrent(s: State, t: nat, threads: seq<Thread>)
    requires t < |threads| && s.threads == threads[t := Thread(InUse, NeedsLock(None))]
    requires s.mutex == Free && s.number == |s.refs| - 1
    ensures Runs(s, [Lock(t), RefCurrent(t)])
    ensures After(s, [Lock(t), RefCurrent(t)]) ==
            s.(threads := threads[t := Thread(InUse, Holding(s.number))],
               refs := s.refs[s.number := s.refs[s.number] + 1])
  {
    var s' := Apply(s, Lock(t));
    assert s' == s.(threads := threads[t := Thread(InUse, Locked(None))], mutex := Reader(t));
    TwoSteps(s, Lock(t), RefCurrent(t));
  }

  /** Without a cached version the call takes a reference to the current version under the mutex,
      and returning it puts it in the slot. */
  lemma UncachedCall(s: State, t: nat)
    requires Inv(s) && t < |s.threads| && s.threads[t] == Thread(Obsolete, Idle) && s.mutex == Free
    ensures s.number < |s.refs|
    ensures Gives(s, [Swap(t), CheckNumber(t)] + [Lock(t), RefCurrent(t)], t, s.number)
    ensures Apply(After(s, [Swap(t), CheckNumber(t)] + [Lock(t), RefCurrent(t)]), Return(t)) ==
            s.(threads := s.threads[t := Thread(Cached(s.number), Idle)],
               refs := s.refs[s.number := s.refs[s.number] + 1])
  {
    hide ThreadOk, Accounted, Runs, After;
    NothingCached(s, t);
    TakesCurrent(After(s, [Swap(t), CheckNumber(t)]), t, s.threads);
    RunJoins(s, [Swap(t), CheckNumber(t)], [Lock(t), RefCurrent(t)]);
  }

  lemma GivesReference(s: State, t: nat, v: nat)
    requires t < |s.threads| && s.threads[t] == Thread(InUse, Holding(v)) && v < |s.refs| == |s.external|
    ensures Runs(s, [TakeRef(t), ReturnReferenced(t)])
    ensures After(s, [TakeRef(t), ReturnReferenced(t)]) ==
            s.(threads := s.threads[t := Thread(Cached(v), Idle)], refs := s.refs[v := s.refs[v] + 1],
               external := s.external[v := s.external[v] + 1])
  {
    var s' := Apply(s, TakeRef(t));
    assert s' == s.(threads := s.threads[t := Thread(InUse, TwiceHolding(v))], refs := s.refs[v := s.refs[v] + 1]);
    TwoSteps(s, TakeRef(t), ReturnReferenced(t));
  }

  lemma TakesReferenceBack(s: State, t: nat, v: nat)
    requires t < |s.threads| && s.threads[t].pc == Idle && v < |s.refs| == |s.external|
    requires s.external[v] > 0 && s.refs[v] > 1
    ensures Runs(s, [GiveBack(t, v), Unref(t)])
    ensures After(s, [GiveBack(t, v), Unref(t)]) ==
            s.(refs := s.refs[v := s.refs[v] - 1], external := s.external[v := s.external[v] - 1])
  {
    var s' := Apply(s, GiveBack(t, v));
    assert s' == s.(threads := s.threads[t := Thread(s.threads[t].slot, Releasing(v))],
                    external := s.external[v := s.external[v] - 1]);
    TwoSteps(s, GiveBack(t, v), Unref(t));
    assert Apply(s', Unref(t)).threads == s.threads;
  }

  /** GetReferencedSuperVersion hands out one more reference than the cache keeps, and giving that
      reference back undoes it. */
  lemma ReferencedCall(s: State, t: nat, v: nat)
    requires Inv(s) && t < |s.threads| && s.threads[t] == Thread(InUse, Holding(v))
    ensures v < |s.refs| == |s.external|
    ensures Runs(s, [TakeRef(t), ReturnReferenced(t)])
    ensures var s' := After(s, [TakeRef(t), ReturnReferenced(t)]);
            && s' == s.(threads := s.threads[t := Thread(Cached(v), Idle)], refs := s.refs[v := s.refs[v] + 1],
                        external := s.external[v := s.external[v] + 1])
            && Runs(s', [GiveBack(t, v), Unref(t)])
            && After(s', [GiveBack(t, v), Unref(t)]) == s.(threads := s.threads[t := Thread(Cached(v), Idle)])
  {
    hide Runs, After;
    assert ThreadOk(s, t) && Accounted(s, v);
    ThreadShare(s, t, v);
    GivesReference(s, t, v);
    var s' := After(s, [TakeRef(t), ReturnReferenced(t)]);
    TakesReferenceBack(s', t, v);
    assert s'.refs[v := s.refs[v]] == s.refs && s'.external[v := s.external[v]] == s.external;
  }

  // ----- An install on its own

  function Repeat(step: Step, k: nat): (steps: seq<Step>)
    ensures |steps| == k
  {
    if k == 0 then [] else [step] + Repeat(step, k - 1)
  }

  /** The versions in the slots from position `i` on. */
  function CachedFrom(threads: seq<Thread>, i: nat): seq<nat>
    requires i <= |threads|
    decreases |threads| - i
  {
    if i == |threads| then []
    else (if threads[i].slot.Cached? then [threads[i].slot.v] else []) + CachedFrom(threads, i + 1)
  }

  /** The threads with the slots from position `i` on scraped. */
  function ScrapedFrom(threads: seq<Thread>, i: nat): (r: seq<Thread>)
    requires i <= |threads|
    ensures |r| == |threads|
  {
    threads[..i] + seq(|threads| - i, k requires 0 <= k < |threads| - i => Thread(Obsolete, threads[i + k].pc))
  }

  lemma ScrapedNext(threads: seq<Thread>, i: nat)
    requires i < |threads|
    ensures var next := threads[i := Thread(Obsolete, threads[i].pc)];
            && ScrapedFrom(next, i + 1) == ScrapedFrom(threads, i)
            && CachedFrom(threads, i) ==
               (if threads[i].slot.Cached? then [threads[i].slot.v] else []) + CachedFrom(next, i + 1)
  {
    SameCached(threads, threads[i := Thread(Obsolete, threads[i].pc)], i + 1);
  }

  lemma ScrapeStep(s: State)
    requires s.installer.Scraping? && s.installer.next < |s.threads|
    ensures Enabled(s, ScrapeNext)
    ensures var Scraping(prior, i, got) := s.installer;
            var th := s.threads[i];
            Apply(s, ScrapeNext) ==
            s.(threads := s.threads[i := Thread(Obsolete, th.pc)],
               installer := Scraping(prior, i + 1, got + if th.slot.Cached? then [th.slot.v] else []))
  {
    assert s.installer.got + [] == s.installer.got;
  }

  lemma {:induction false} ScrapesAll(s: State, i: nat)
    requires s.installer.Scraping? && s.installer.next == i <= |s.threads|
    ensures Runs(s, Repeat(ScrapeNext, |s.threads| - i))
    ensures After(s, Repeat(ScrapeNext, |s.threads| - i)) ==
            s.(threads := ScrapedFrom(s.threads, i),
               installer := Scraping(s.installer.prior, |s.threads|, s.installer.got + CachedFrom(s.threads, i)))
    decreases |s.threads| - i
  {
    hide ScrapedFrom, Enabled, Apply;
    if i == |s.threads| {
      NoneLeft(s.threads);
      assert s.installer.got + [] == s.installer.got;
    } else {
      ScrapedNext(s.threads, i);
      ScrapeStep(s);
      var s' := Apply(s, ScrapeNext);
      var rest := Repeat(ScrapeNext, |s.threads| - i - 1);
      assert Repeat(ScrapeNext, |s.threads| - i) == [ScrapeNext] + rest;
      ScrapesAll(s', i + 1);
      hide CachedFrom, Runs, After;
      OneStep(s, ScrapeNext);
      RunJoins(s, [ScrapeNext], rest);
      Regroup(s.installer.got, s.threads[i].slot, CachedFrom(s'.threads, i + 1));
    }
  }

  lemma Regroup(got: seq<nat>, slot: Slot, rest: seq<nat>)
    ensures var one := if slot.Cached? then [slot.v] else []; got + one + rest == got + (one + rest)
  {
  }

  lemma NoneLeft(threads: seq<Thread>)
    ensures ScrapedFrom(threads, |threads|) == threads
  {
  }

  lemma {:induction false} SameCached(a: seq<Thread>, b: seq<Thread>, i: nat)
    requires |a| == |b| && i <= |a| && forall k :: i <= k < |a| ==> a[k] == b[k]
    ensures CachedFrom(a, i) == CachedFrom(b, i)
    decreases |a| - i
  {
    if i < |a| {
      SameCached(a, b, i + 1);
    }
  }

  lemma {:induction false} UnrefsAll(s: State)
    requires s.installer.Unreffing? && s.installer.prior < |s.refs|
    requires forall v :: v in s.installer.got ==> v == s.installer.prior
    ensures Runs(s, Repeat(UnrefScraped, |s.installer.got|))
    ensures var prior := s.installer.prior;
            After(s, Repeat(UnrefScraped, |s.installer.got|)) ==
            s.(installer := Unreffing(prior, []), refs := s.refs[prior := s.refs[prior] - |s.installer.got|])
    decreases |s.installer.got|
  {
    var Unreffing(prior, got) := s.installer;
    if got == [] {
      assert s.refs[prior := s.refs[prior]] == s.refs;
    } else {
      var s' := Apply(s, UnrefScraped);
      assert got[0] in got && forall v :: v in got[1..] ==> v in got;
      UnrefsAll(s');
      assert Repeat(UnrefScraped, |got|)[1..] == Repeat(UnrefScraped, |got| - 1);
      assert s'.refs[prior := s'.refs[prior] - |got[1..]|] == s.refs[prior := s.refs[prior] - |got|];
    }
  }

  /** The steps of an install that nothing else interrupts. */
  ghost function InstallSteps(s: State): seq<Step>
    requires s.refs != []
  {
    var cached := |CachedFrom(s.threads, 0)|;
    ([Publish, BumpNumber] + Repeat(ScrapeNext, |s.threads|)) + (
      ([ScrapeDone] + Repeat(UnrefScraped, cached)) +
      (if s.refs[|s.refs| - 1] == 1 + cached then [UnrefOld, CleanupOld] else [UnrefOld]))
  }

  lemma PublishesAndScrapes(s: State)
    requires s.mutex == Free && s.refs != []
    ensures Runs(s, [Publish, BumpNumber] + Repeat(ScrapeNext, |s.threads|))
    ensures After(s, [Publish, BumpNumber] + Repeat(ScrapeNext, |s.threads|)) ==
            State(s.refs + [1], s.cleaned + [0], s.external + [0], s.number + 1, ScrapedFrom(s.threads, 0),
                  Scraping(|s.refs| - 1, |s.threads|, CachedFrom(s.threads, 0)), Install)
  {
    hide ScrapedFrom;
    TwoSteps(s, Publish, BumpNumber);
    var s' := Apply(Apply(s, Publish), BumpNumber);
    ScrapesAll(s', 0);
    RunJoins(s, [Publish, BumpNumber], Repeat(ScrapeNext, |s.threads|));
    assert [] + CachedFrom(s.threads, 0) == CachedFrom(s.threads, 0);
  }

  lemma UnrefsWhatItGot(s: State)
    requires s.installer.Scraping? && s.installer.next == |s.threads| && s.installer.prior < |s.refs|
    requires forall v :: v in s.installer.got ==> v == s.installer.prior
    ensures var steps := [ScrapeDone] + Repeat(UnrefScraped, |s.installer.got|);
            var prior := s.installer.prior;
            && Runs(s, steps)
            && After(s, steps) ==
               s.(installer := Unreffing(prior, []), refs := s.refs[prior := s.refs[prior] - |s.installer.got|])
  {
    OneStep(s, ScrapeDone);
    var s' := Apply(s, ScrapeDone);
    UnrefsAll(s');
    RunJoins(s, [ScrapeDone], Repeat(UnrefScraped, |s.installer.got|));
  }

  lemma DropsOld(s: State)
    requires s.installer.Unreffing? && s.installer.got == [] && s.installer.prior < |s.refs| == |s.cleaned|
    ensures var prior := s.installer.prior;
            var steps := if s.refs[prior] == 1 then [UnrefOld, CleanupOld] else [UnrefOld];
            && Runs(s, steps)
            && After(s, steps) ==
               s.(installer := Quiet, mutex := Free, refs := s.refs[prior := s.refs[prior] - 1],
                  cleaned := if s.refs[prior] == 1 then s.cleaned[prior := s.cleaned[prior] + 1] else s.cleaned)
  {
    if s.refs[s.installer.prior] == 1 {
      TwoSteps(s, UnrefOld, CleanupOld);
    } else {
      OneStep(s, UnrefOld);
    }
  }

  lemma {:induction false} CachedAreCurrent(s: State, i: nat)
    requires Inv(s) && s.mutex == Free && i <= |s.threads|
    ensures forall v :: v in CachedFrom(s.threads, i) ==> v == Current(s)
    decreases |s.threads| - i
  {
    hide Accounted;
    if i < |s.threads| {
      assert ThreadOk(s, i);
      CachedAreCurrent(s, i + 1);
    }
  }

  /** An install that nothing interrupts makes a new version current under the next number, with
      the one reference of the column family, leaves every slot obsolete, every reader where it was
      and the mutex free, and drops exactly the references of the column family and of the cached
      slots to the version that was current; that version is cleaned up at once when these were all. */
  lemma InstallOnItsOwn(s: State)
    requires Inv(s) && s.mutex == Free
    ensures Runs(s, InstallSteps(s))
    ensures var v := |s.refs| - 1;
            var left := s.refs[v] - 1 - |CachedFrom(s.threads, 0)|;
            && left >= 0
            && After(s, InstallSteps(s)) ==
               State(s.refs[v := left] + [1],
                     (if left == 0 then s.cleaned[v := 1] else s.cleaned) + [0],
                     s.external + [0], s.number + 1, ScrapedFrom(s.threads, 0), Quiet, Free)
  {
    hide ScrapedFrom, ThreadOk, Runs, After;
    var v := |s.refs| - 1;
    var n := |CachedFrom(s.threads, 0)|;
    CachedAreCurrent(s, 0);
    PublishesAndScrapes(s);
    var first := [Publish, BumpNumber] + Repeat(ScrapeNext, |s.threads|);
    var s1 := After(s, first);
    UnrefsWhatItGot(s1);
    var second := [ScrapeDone] + Repeat(UnrefScraped, n);
    var s2 := After(s1, second);
    assert s2.refs == s.refs[v := s.refs[v] - n] + [1];
    DropsOld(s2);
    var third := if s.refs[v] == 1 + n then [UnrefOld, CleanupOld] else [UnrefOld];
    RunJoins(s1, second, third);
    RunJoins(s, first, second + third);
    InstallAccounts(s);
    assert s2.refs[v := s.refs[v] - 1 - n] == s.refs[v := s.refs[v] - 1 - n] + [1];
  }

  lemma {:induction false} CachedAreCounted(threads: seq<Thread>, i: nat, v: nat)
    requires i <= |threads| && forall k :: i <= k < |threads| && threads[k].slot.Cached? ==> threads[k].slot.v == v
    ensures |CachedFrom(threads, i)| <= Total(References, threads[i..], v)
    decreases |threads| - i
  {
    if i < |threads| {
      CachedAreCounted(threads, i + 1, v);
      TotalFront(threads[i..], v);
      assert threads[i..][1..] == threads[i + 1..];
    }
  }

  lemma {:induction false} TotalFront(threads: seq<Thread>, v: nat)
    requires threads != []
    ensures Total(References, threads, v) ==
            Weight(References, threads[0], v) + Total(References, threads[1..], v)
  {
    hide Weight;
    if |threads| > 1 {
      var last := |threads| - 1;
      TotalFront(threads[..last], v);
      assert threads[..last][1..] == threads[1..][..last - 1];
    }
  }

  lemma InstallAccounts(s: State)
    requires Inv(s) && s.mutex == Free
    ensures var v := |s.refs| - 1;
            var left := s.refs[v] - 1 - |CachedFrom(s.threads, 0)|;
            && left >= 0 && s.cleaned[v] == 0
  {
    var v := |s.refs| - 1;
    forall k | 0 <= k < |s.threads| && s.threads[k].slot.Cached?
      ensures s.threads[k].slot.v == v
    {
      assert ThreadOk(s, k);
    }
    CachedAreCounted(s.threads, 0, v);
    assert s.threads[0..] == s.threads;
    assert Accounted(s, v);
  }

  // ----- Threads that exit

  function Exits(from: nat, n: nat): seq<Step>
    requires from <= n
    decreases n - from
  {
    if from == n then [] else [ThreadExit(from)] + Exits(from + 1, n)
  }

  predicate AllIdle(s: State) {
    forall t :: 0 <= t < |s.threads| ==> s.threads[t].pc == Idle
  }

  /** The threads exit one after the other, from thread `i` on. */
  lemma {:induction false} ExitsRun(s: State, i: nat)
    requires i <= |s.threads| && AllIdle(s) && s.installer == Quiet
    requires forall t :: 0 <= t < i ==> s.threads[t] == Thread(Obsolete, Idle)
    ensures Runs(s, Exits(i, |s.threads|))
    ensures var s' := After(s, Exits(i, |s.threads|));
            && s'.threads == seq(|s.threads|, _ => Thread(Obsolete, Idle))
            && s'.installer == Quiet && s'.external == s.external && |s'.refs| == |s.refs|
    decreases |s.threads| - i
  {
    if i < |s.threads| {
      ExitsRun(Apply(s, ThreadExit(i)), i + 1);
      assert Exits(i, |s.threads|)[1..] == Exits(i + 1, |s.threads|);
    } else {
      assert s.threads == seq(|s.threads|, _ => Thread(Obsolete, Idle));
    }
  }

  /** Nothing leaks: in any state reached where all readers are idle, no install is under way and
      every reference handed out has been given back, once the threads have exited the current
      version has exactly the column family's reference and every older one has been cleaned up,
      exactly once. */
  lemma NothingLeaks(n: nat, steps: seq<Step>, v: nat)
    requires Runs(Init(n), steps)
    requires var s := After(Init(n), steps);
             && AllIdle(s) && s.installer == Quiet && v < |s.refs|
             && (forall w :: 0 <= w < |s.external| ==> s.external[w] == 0)
    ensures var s := After(Init(n), steps);
            var exits := Exits(0, |s.threads|);
            && Runs(s, exits)
            && var s' := After(s, exits);
            && |s'.refs| == |s'.cleaned| == |s.refs|
            && s'.refs[v] == (if v == |s.refs| - 1 then 1 else 0)
            && s'.cleaned[v] == (if v == |s.refs| - 1 then 0 else 1)
  {
    hide ThreadOk;
    InitInv(n);
    RunKeepsInv(Init(n), steps);
    var s := After(Init(n), steps);
    ExitsRun(s, 0);
    RunKeepsInv(s, Exits(0, |s.threads|));
    var s' := After(s, Exits(0, |s.threads|));
    TotalZero(References, s'.threads, v);
    TotalZero(Cleanups, s'.threads, v);
    assert Accounted(s', v);
  }
}
