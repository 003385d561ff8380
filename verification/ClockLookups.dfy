/** What Lookup, Ref and Release give, alone and among other threads. */
module ClockLookups {
  import opened ClockCache
  import opened ClockSafety

  // ----- Runs in parts

  lemma {:induction false} RunSplits(s: State, a: seq<Step>, b: seq<Step>)
    requires Runs(s, a + b)
    ensures Runs(s, a) && Runs(After(s, a), b) && After(s, a + b) == After(After(s, a), b)
    decreases |a|
  {
    hide Enabled, Apply;
    if a == [] {
      assert a + b == b;
    } else {
      assert (a + b)[1..] == a[1..] + b;
      RunSplits(Apply(s, a[0]), a[1..], b);
    }
  }

  lemma {:induction false} RunJoins(s: State, a: seq<Step>, b: seq<Step>)
    requires Runs(s, a) && Runs(After(s, a), b)
    ensures Runs(s, a + b) && After(s, a + b) == After(After(s, a), b)
    decreases |a|
  {
    hide Enabled, Apply;
    if a == [] {
      assert a + b == b;
    } else {
      assert (a + b)[1..] == a[1..] + b;
      RunJoins(Apply(s, a[0]), a[1..], b);
    }
  }

  lemma TwoSteps(s: State, x: Step, y: Step)
    requires Enabled(s, x) && Enabled(Apply(s, x), y)
    ensures Runs(s, [x, y]) && After(s, [x, y]) == Apply(Apply(s, x), y)
  {
    hide Enabled, Apply;
    assert [x, y][1..] == [y] && [y][1..] == [];
    var s' := Apply(Apply(s, x), y);
    assert Runs(s', []) && After(s', []) == s';
  }

  lemma ReachableAfter(s: State, steps: seq<Step>)
    requires Reachable(s) && Runs(s, steps)
    ensures Reachable(After(s, steps))
  {
    var n: nat, capacity: nat, strict: bool, before: seq<Step> :|
      Runs(Init(n, capacity, strict), before) && s == After(Init(n, capacity, strict), before);
    RunJoins(Init(n, capacity, strict), before, steps);
  }

  // ----- Lookup on its own

  /** The mutex is held by an eviction that has cleared the flags of the handle and is about to erase
      its entry. */
  predicate Evicting(s: State, i: nat) {
    WorkOf(s.section).EraseEvicted? && WorkOf(s.section).i == i
  }

  /** The table lists the handle under the key. */
  predicate Lists(s: State, k: Key, i: nat) {
    k in s.table && s.table[k] == i
  }

  /** One reference more to handle `i`, in the hands of a client. */
  function OneMore(s: State, i: nat, k: Key): State
    requires i < |s.list|
  {
    var f := s.list[i].flags;
    s.(held := s.held + [Ref(i, k)], list := s.list[i := s.list[i].(flags := f.(refs := f.refs + 1))])
  }

  /** A Lookup that nothing interrupts returns the handle that the table lists, pinned once more, and
      changes nothing else. */
  lemma LookupAlone(s: State, t: nat, k: Key)
    requires Reachable(s) && t < |s.pcs| && s.pcs[t] == Idle && k in s.table && !Evicting(s, s.table[k])
    ensures s.table[k] < |s.list|
    ensures Runs(s, [Find(t, k), Load(t)] + [CasRef(t), CheckKey(t)])
    ensures After(s, [Find(t, k), Load(t)] + [CasRef(t), CheckKey(t)]) == OneMore(s, s.table[k], k)
  {
    hide HandleOk, Listed, BinOk, HeldOk, UsageOk, SectionOk, Reachable;
    ReachableInv(s);
    assert EntryOk(s, k);
    var i := s.table[k];
    var f := s.list[i].flags;
    FindsAndLoads(s, t, k);
    var s' := After(s, [Find(t, k), Load(t)]);
    var s'' := Apply(s', CasRef(t));
    assert s'' == s.(pcs := s.pcs[t := Pinned(k, i)],
                     list := s.list[i := s.list[i].(flags := f.(refs := f.refs + 1))]);
    TwoSteps(s', CasRef(t), CheckKey(t));
    assert s''.pcs[t := Idle] == s.pcs;
    RunJoins(s, [Find(t, k), Load(t)], [CasRef(t), CheckKey(t)]);
  }

  lemma FindsAndLoads(s: State, t: nat, k: Key)
    requires t < |s.pcs| && s.pcs[t] == Idle && k in s.table && FlagsOf(s, s.table[k]).inCache
    ensures Runs(s, [Find(t, k), Load(t)])
    ensures After(s, [Find(t, k), Load(t)]) ==
            s.(pcs := s.pcs[t := Loaded(k, s.table[k], FlagsOf(s, s.table[k]))])
  {
    assert Apply(s, Find(t, k)) == s.(pcs := s.pcs[t := Found(k, s.table[k])]);
    TwoSteps(s, Find(t, k), Load(t));
  }

  // ----- Lookup among other threads

  predicate InLookup(pc: Pc) {
    pc.Found? || pc.Loaded? || pc.Pinned?
  }

  /** A thread in the middle of a Lookup is after the key it was given and the handle it found. */
  predicate Aims(s: State, t: nat, k: Key, i: nat) {
    t < |s.pcs| && (InLookup(s.pcs[t]) ==> s.pcs[t].k == k && s.pcs[t].i == i)
  }

  lemma StepKeepsAim(s: State, step: Step, t: nat, k: Key, i: nat)
    requires Enabled(s, step) && Aims(s, t, k, i) && !(step.Find? && step.t == t)
    ensures Aims(Apply(s, step), t, k, i)
  {
    if step.Section? {
      SectionKeepsOthersPc(s, t);
    }
  }

  lemma SectionKeepsOthersPc(s: State, t: nat)
    requires s.section.Held? && t < |s.pcs|
    ensures |SectionStep(s).pcs| == |s.pcs|
    ensures SectionStep(s).pcs[t] == s.pcs[t] || SectionStep(s).pcs[t] == Idle
  {
  }

  lemma {:induction false} RunKeepsAim(s: State, steps: seq<Step>, t: nat, k: Key, i: nat)
    requires Runs(s, steps) && Aims(s, t, k, i)
    requires forall step :: step in steps ==> !(step.Find? && step.t == t)
    ensures Aims(After(s, steps), t, k, i)
    decreases |steps|
  {
    hide Enabled, Apply, Aims;
    if steps != [] {
      StepKeepsAim(s, steps[0], t, k, i);
      RunKeepsAim(Apply(s, steps[0]), steps[1..], t, k, i);
    }
  }

  /** What the step that reads the flags finds: where the table lists the handle under the key, the
      in-cache bit is clear if and only if an eviction of the handle is under way. */
  lemma LoadSeesTheCache(s: State, t: nat)
    requires Reachable(s) && Enabled(s, Load(t)) && Lists(s, s.pcs[t].k, s.pcs[t].i)
    ensures Apply(s, Load(t)).pcs[t] == Idle <==> Evicting(s, s.pcs[t].i)
  {
    hide Listed, BinOk, HeldOk, UsageOk, SectionOk, Reachable;
    ReachableInv(s);
    assert EntryOk(s, s.pcs[t].k);
    assert HandleOk(s, s.pcs[t].i);
  }

  lemma CheckSeesTheKey(s: State, t: nat)
    requires Reachable(s) && Enabled(s, CheckKey(t)) && Lists(s, s.pcs[t].k, s.pcs[t].i)
    ensures Apply(s, CheckKey(t)).pcs[t] == Idle
  {
    hide HandleOk, Listed, BinOk, HeldOk, UsageOk, SectionOk, Reachable;
    ReachableInv(s);
    assert EntryOk(s, s.pcs[t].k);
  }

  /** Any interleaving: a Lookup begins with Find, which misses if and only if the table lacks the
      key.  With `i` the handle it finds, its last step hands the client exactly a reference to `i`,
      or gives up; and it gives up only when the table does not list `i` under the key at that step,
      or an eviction of `i` is under way. */
  lemma LookupAmongOthers(s: State, t: nat, k: Key, b: seq<Step>, last: Step)
    requires Reachable(s) && Runs(s, [Find(t, k)] + b) && k in s.table
    requires forall step :: step in b ==> !(step.Find? && step.t == t)
    requires (last == Load(t) || last == CheckKey(t)) && Enabled(After(s, [Find(t, k)] + b), last)
    ensures var s1 := After(s, [Find(t, k)] + b);
            var s2, i := Apply(s1, last), s.table[k];
            && (last == CheckKey(t) && s2.pcs[t] == Idle ==> s2.held == s1.held + [Ref(i, k)])
            && (s2.pcs[t] == Dropping(i) || (last == Load(t) && s2.pcs[t] == Idle) ==>
                  s2.held == s1.held && (!Lists(s1, k, i) || Evicting(s1, i)))
            && (last == CheckKey(t) ==> s2.pcs[t] == Idle || s2.pcs[t] == Dropping(i))
            && (last == Load(t) ==> s2.pcs[t] == Idle || s2.pcs[t] == Loaded(k, i, FlagsOf(s1, i)))
  {
    hide Reachable, Runs, After;
    ReachableAfter(s, [Find(t, k)] + b);
    FindAims(s, t, k, b);
    var s1 := After(s, [Find(t, k)] + b);
    if Lists(s1, k, s.table[k]) {
      if last == Load(t) {
        LoadSeesTheCache(s1, t);
      } else {
        CheckSeesTheKey(s1, t);
      }
    }
  }

  lemma FindAims(s: State, t: nat, k: Key, b: seq<Step>)
    requires Runs(s, [Find(t, k)] + b) && k in s.table
    requires forall step :: step in b ==> !(step.Find? && step.t == t)
    ensures Aims(After(s, [Find(t, k)] + b), t, k, s.table[k])
  {
    assert ([Find(t, k)] + b)[1..] == b;
    RunKeepsAim(Apply(s, Find(t, k)), b, t, k, s.table[k]);
  }

  /** Where the table lacks the key Find comes back at once, with the state as it was. */
  lemma FindMisses(s: State, t: nat, k: Key)
    requires Enabled(s, Find(t, k))
    ensures Apply(s, Find(t, k)) == s <==> k !in s.table
  {
    assert s.pcs[t] == Idle;
  }

  // ----- A Lookup that misses an entry the table lists

  /** While an eviction of its handle is under way a Lookup of a listed key comes back empty. */
  lemma LookupMissesWhileEvicting(s: State, t: nat, k: Key)
    requires Reachable(s) && t < |s.pcs| && s.pcs[t] == Idle && k in s.table && Evicting(s, s.table[k])
    ensures Runs(s, [Find(t, k), Load(t)]) && After(s, [Find(t, k), Load(t)]) == s
  {
    hide Listed, BinOk, HeldOk, UsageOk, SectionOk, Reachable;
    ReachableInv(s);
    assert EntryOk(s, k);
    assert HandleOk(s, s.table[k]);
    var s' := Apply(s, Find(t, k));
    TwoSteps(s, Find(t, k), Load(t));
    assert Apply(s', Load(t)).pcs == s.pcs;
  }

  lemma ReachesNext(s: State, step: Step, s': State)
    requires Reachable(s) && Enabled(s, step) && Apply(s, step) == s'
    ensures Reachable(s')
  {
    hide Reachable, Enabled, Apply;
    assert [step][1..] == [] && Runs(s', []) && After(s', []) == s';
    assert Runs(s, [step]);
    ReachableAfter(s, [step]);
  }

  /** A shard of capacity five and two threads, in which thread 0 works under the mutex. */
  function Shard(list: seq<Handle>, table: map<Key, nat>, usage: int, section: ClockCache.Section): State {
    State(list, [], table, usage, 5, false, 0, [if section.Held? then InSection else Idle, Idle], [], section)
  }

  const ENTRY := Handle(Flags(true, false, 0), 7, 5, 1, 0)
  const FIRST := Insert(7, 5, false)
  const SECOND := Insert(8, 5, false)

  lemma FirstIsDecided()
    ensures Reachable(Shard([], map[], 0, Held(0, Decide(FIRST, true))))
  {
    var s0 := Init(2, 5, false);
    assert Runs(s0, []) && After(s0, []) == s0;
    assert s0 == Shard([], map[], 0, Free);
    hide Reachable;
    ReachesNext(s0, LockInsert(0, 7, 5, false), Shard([], map[], 0, Held(0, EvictStart(FIRST))));
    ReachesNext(Shard([], map[], 0, Held(0, EvictStart(FIRST))), Step.Section,
                Shard([], map[], 0, Held(0, Decide(FIRST, true))));
  }

  lemma FirstIsAdded()
    ensures Reachable(Shard([ENTRY], map[], 0, Held(0, AddToTable(0, FIRST))))
  {
    FirstIsDecided();
    hide Reachable;
    var unset := ENTRY.(flags := Flags(false, false, 0));
    var s2 := Shard([], map[], 0, Held(0, Decide(FIRST, true)));
    var s3 := Shard([unset], map[], 0, Held(0, StoreFlags(0, FIRST)));
    ReachesNext(s2, Step.Section, s3);
    var s4 := Shard([ENTRY], map[], 0, Held(0, Replace(0, FIRST)));
    ReachesNext(s3, Step.Section, s4);
    ReachesNext(s4, Step.Section, Shard([ENTRY], map[], 0, Held(0, AddToTable(0, FIRST))));
  }

  lemma FirstIsIn()
    ensures Reachable(Shard([ENTRY], map[7 := 0], 5, Free))
  {
    FirstIsAdded();
    hide Reachable;
    var s5 := Shard([ENTRY], map[], 0, Held(0, AddToTable(0, FIRST)));
    var s6 := Shard([ENTRY], map[7 := 0], 0, Held(0, AddUsage(0, FIRST)));
    ReachesNext(s5, Step.Section, s6);
    var s7 := Shard([ENTRY], map[7 := 0], 5, Held(0, Finish));
    ReachesNext(s6, Step.Section, s7);
    ReachesNext(s7, Step.Section, Shard([ENTRY], map[7 := 0], 5, Free));
  }

  /** An entry is in the table and an insertion needs its room: between the step that clears its flags
      and the one that erases it, a Lookup by the other thread misses the key, though the table lists
      it under the same handle from the first step of the Lookup to the last. */
  lemma SomeLookupMissesAListedKey() returns (s: State)
    ensures Reachable(s) && Lists(s, 7, 0) && |s.pcs| == 2 && s.pcs[1] == Idle
    ensures Runs(s, [Find(1, 7), Load(1)]) && After(s, [Find(1, 7), Load(1)]) == s
    ensures Lists(Apply(s, Find(1, 7)), 7, 0)
  {
    FirstIsIn();
    hide Reachable, Runs, After;
    var s0 := Shard([ENTRY], map[7 := 0], 5, Free);
    var s1 := Shard([ENTRY], map[7 := 0], 5, Held(0, EvictStart(SECOND)));
    ReachesNext(s0, LockInsert(0, 8, 5, false), s1);
    var s2 := Shard([ENTRY], map[7 := 0], 5, Held(0, EvictLoop(SECOND, 5, 0, false)));
    ReachesNext(s1, Step.Section, s2);
    s := Shard([ENTRY.(flags := Flags(false, false, 0))], map[7 := 0], 5,
               Held(0, EraseEvicted(0, GoOn(SECOND, 0, false))));
    ReachesNext(s2, Step.Section, s);
    LookupMissesWhileEvicting(s, 1, 7);
  }

  // ----- Ref and Release on their own

  /** A client hands in a reference that it holds; what it holds otherwise. */
  function Rest(held: seq<Ref>, h: nat): seq<Ref>
    requires h < |held|
  {
    held[..h] + held[h + 1..]
  }

  lemma SingleStep(s: State, x: Step)
    requires Enabled(s, x)
    ensures Runs(s, [x]) && After(s, [x]) == Apply(s, x)
  {
    hide Enabled, Apply;
    assert [x][1..] == [];
    assert Runs(Apply(s, x), []) && After(Apply(s, x), []) == Apply(s, x);
  }

  lemma ThreeSteps(s: State, x: Step, y: Step, z: Step)
    requires Enabled(s, x) && Enabled(Apply(s, x), y) && Enabled(Apply(Apply(s, x), y), z)
    ensures Runs(s, [x, y] + [z]) && After(s, [x, y] + [z]) == Apply(Apply(Apply(s, x), y), z)
  {
    hide Enabled, Apply, Runs, After;
    TwoSteps(s, x, y);
    SingleStep(Apply(Apply(s, x), y), z);
    RunJoins(s, [x, y], [z]);
  }

  /** The client hands its reference in. */
  lemma HandsIn(s: State, t: nat, h: nat)
    requires t < |s.pcs| && s.pcs[t] == Idle && h < |s.held|
    ensures var r := s.held[h];
            && Enabled(s, StartRef(t, h)) && Enabled(s, StartRelease(t, h))
            && Apply(s, StartRef(t, h)) == s.(pcs := s.pcs[t := Reffing(r.k, r.i)], held := Rest(s.held, h))
            && Apply(s, StartRelease(t, h)) == s.(pcs := s.pcs[t := Releasing(r.i)], held := Rest(s.held, h))
  {
  }

  lemma RefReads(s: State, t: nat, k: Key, i: nat)
    requires t < |s.pcs| && s.pcs[t] == Reffing(k, i)
    ensures Enabled(s, LoadRef(t))
    ensures Apply(s, LoadRef(t)) ==
            if FlagsOf(s, i).inCache then s.(pcs := s.pcs[t := RefSeen(k, i, FlagsOf(s, i))])
            else s.(pcs := s.pcs[t := Idle], held := s.held + [Ref(i, k)])
  {
  }

  lemma RefAdds(s: State, t: nat, k: Key, i: nat)
    requires t < |s.pcs| && i < |s.list| && s.pcs[t] == RefSeen(k, i, s.list[i].flags)
    ensures Enabled(s, CasHeld(t))
    ensures Apply(s, CasHeld(t)) == OneMore(s.(pcs := s.pcs[t := Idle], held := s.held + [Ref(i, k)]), i, k)
  {
  }

  /** Ref, when nothing interrupts it: one reference more if the entry is in the cache, else none. */
  lemma RefAlone(s: State, t: nat, h: nat)
    requires Reachable(s) && t < |s.pcs| && s.pcs[t] == Idle && h < |s.held|
    ensures s.held[h].i < |s.list|
    ensures var r := s.held[h];
            var back := s.(held := Rest(s.held, h) + [r]);
            if s.list[r.i].flags.inCache then
              Runs(s, [StartRef(t, h), LoadRef(t)] + [CasHeld(t)]) &&
              After(s, [StartRef(t, h), LoadRef(t)] + [CasHeld(t)]) == OneMore(back, r.i, r.k)
            else Runs(s, [StartRef(t, h), LoadRef(t)]) && After(s, [StartRef(t, h), LoadRef(t)]) == back
  {
    hide Reachable, Enabled, Apply, Runs, After;
    HeldHandlesStay(s, h);
    var r := s.held[h];
    HandsIn(s, t, h);
    var s1 := Apply(s, StartRef(t, h));
    RefReads(s1, t, r.k, r.i);
    var s2 := Apply(s1, LoadRef(t));
    assert s1.pcs[t := Idle] == s.pcs;
    if s.list[r.i].flags.inCache {
      RefAdds(s2, t, r.k, r.i);
      ThreeSteps(s, StartRef(t, h), LoadRef(t), CasHeld(t));
      assert s2.pcs[t := Idle] == s.pcs;
    } else {
      TwoSteps(s, StartRef(t, h), LoadRef(t));
    }
  }

  lemma ReleaseMarks(s: State, t: nat, i: nat)
    requires t < |s.pcs| && i < |s.list| && s.pcs[t] == Releasing(i)
    ensures Enabled(s, SetUsed(t))
    ensures Apply(s, SetUsed(t)) ==
            s.(pcs := s.pcs[t := Dropping(i)],
               list := s.list[i := s.list[i].(flags := s.list[i].flags.(used := true))])
  {
  }

  lemma ReleaseDrops(s: State, t: nat, i: nat)
    requires t < |s.pcs| && i < |s.list| && s.pcs[t] == Dropping(i) && s.list[i].flags.refs > 0
    ensures Enabled(s, SubRef(t))
    ensures var f := s.list[i].flags;
            Apply(s, SubRef(t)) ==
            s.(pcs := s.pcs[t := if f.refs == 1 && !f.inCache then MustRecycle(i) else Idle],
               list := s.list[i := s.list[i].(flags := f.(refs := f.refs - 1))])
  {
  }

  /** Release, when nothing interrupts it: the entry is marked used and has one reference less; the
      thread has to recycle it if and only if that was the last one of an erased entry. */
  lemma ReleaseAlone(s: State, t: nat, h: nat)
    requires Reachable(s) && t < |s.pcs| && s.pcs[t] == Idle && h < |s.held|
    ensures s.held[h].i < |s.list| && s.list[s.held[h].i].flags.refs > 0
    ensures Runs(s, [StartRelease(t, h), SetUsed(t)] + [SubRef(t)])
    ensures var i := s.held[h].i;
            var f := s.list[i].flags;
            After(s, [StartRelease(t, h), SetUsed(t)] + [SubRef(t)]) ==
            s.(held := Rest(s.held, h), list := s.list[i := s.list[i].(flags := Flags(f.inCache, true, f.refs - 1))],
               pcs := s.pcs[t := if f.refs == 1 && !f.inCache then MustRecycle(i) else Idle])
  {
    hide Reachable, Enabled, Apply, Runs, After;
    HeldHandlesStay(s, h);
    var i := s.held[h].i;
    HandsIn(s, t, h);
    var s1 := Apply(s, StartRelease(t, h));
    ReleaseMarks(s1, t, i);
    var s2 := Apply(s1, SetUsed(t));
    ReleaseDrops(s2, t, i);
    ThreeSteps(s, StartRelease(t, h), SetUsed(t), SubRef(t));
  }
}
