/** Exactly when a worker loses a packet: an invalid packet that finds the return buffer full is
    neither kept nor freed. */
module SchedulerLosses {
  import opened Arithmetic
  import opened Scheduler
  import opened SchedulerSafety

  // ----- One burst

  /** The packets that the next dequeue takes from the ring. */
  function Burst(w: Worker): seq<Packet>
    requires w.stage.Dequeue?
  {
    if w.stage.force || (w.dispatchIndex >= DISPATCH_PERIOD && w.idle != []) then w.ring[..Min(|w.ring|, |w.idle|)]
      else []
  }

  function InvalidCount(ps: seq<Packet>): nat {
    if ps == [] then 0 else InvalidCount(ps[..|ps| - 1]) + (if ps[|ps| - 1].valid then 0 else 1)
  }

  /** The invalid packets of a burst, last first. */
  function InvalidBackwards(ps: seq<Packet>): seq<Packet> {
    if ps == [] then []
    else (if ps[|ps| - 1].valid then [] else [ps[|ps| - 1]]) + InvalidBackwards(ps[..|ps| - 1])
  }

  /** The invalid packets of a burst fill the return buffer, last first, and the others get lost. */
  lemma {:induction false} AdmitAllExactly(w: Worker, ps: seq<Packet>)
    requires |ps| <= |w.idle| && |w.returning| <= RETURN_BURST
    ensures var v := AdmitAll(w, ps);
            && |v.busy| == |w.busy| + |ps| - InvalidCount(ps) && |v.idle| == |w.idle| - (|ps| - InvalidCount(ps))
            && |v.returning| == Min(RETURN_BURST, |w.returning| + InvalidCount(ps))
            && w.lost <= v.lost && v.returning + v.lost[|w.lost|..] == w.returning + InvalidBackwards(ps)
            && v == w.(busy := v.busy, idle := v.idle, returning := v.returning, lost := v.lost,
              discarded := v.discarded)
    decreases |ps|
  {
    if ps != [] {
      var p, rest := ps[|ps| - 1], ps[..|ps| - 1];
      var u := Admit(w, p);
      AdmitAllExactly(u, rest);
      var v := AdmitAll(w, ps);
      if !p.valid {
        if |w.returning| < RETURN_BURST {
          assert v.returning + v.lost[|w.lost|..] == w.returning + InvalidBackwards(ps);
        } else {
          FullStaysFull(u.returning, v.returning, v.lost[|u.lost|..], InvalidBackwards(rest));
          assert v.lost[|w.lost|..] == [p] + v.lost[|u.lost|..];
        }
      }
    }
  }

  lemma FullStaysFull(before: seq<Packet>, after: seq<Packet>, lost: seq<Packet>, invalid: seq<Packet>)
    requires |before| == |after| && after + lost == before + invalid
    ensures after == before && lost == invalid
  {
    assert (after + lost)[..|after|] == after && (before + invalid)[..|before|] == before;
    assert (after + lost)[|after|..] == lost && (before + invalid)[|before|..] == invalid;
  }

  lemma {:induction false} InvalidLength(ps: seq<Packet>)
    ensures |InvalidBackwards(ps)| == InvalidCount(ps)
  {
    if ps != [] {
      InvalidLength(ps[..|ps| - 1]);
    }
  }

  /** More invalid packets in the burst than room in the return buffer. */
  predicate Spills(w: Worker)
    requires w.stage.Dequeue?
  {
    |w.returning| + InvalidCount(Burst(w)) > RETURN_BURST
  }

  /** A burst loses exactly the invalid packets beyond the room in the return buffer, hence some if
      and only if there are more of them than there is room. */
  lemma DequeueLosesExactly(w: Worker)
    requires WorkerOk(w) && w.stage.Dequeue?
    ensures var v := DequeueBurst(w);
            && w.lost <= v.lost
            && |v.lost| == |w.lost| +
               (if Spills(w) then |w.returning| + InvalidCount(Burst(w)) - RETURN_BURST else 0)
            && v.returning + v.lost[|w.lost|..] == w.returning + InvalidBackwards(Burst(w))
            && |v.busy| == |w.busy| + |Burst(w)| - InvalidCount(Burst(w))
            && v.transmit == w.transmit && v.ring == w.ring[|Burst(w)|..] && v.stage == Transmit(w.stage.flush)
  {
    hide Partitions, AdmitAll, InvalidCount, InvalidBackwards;
    InvalidLength(Burst(w));
    if w.stage.force || (w.dispatchIndex >= DISPATCH_PERIOD && w.idle != []) {
      var n := Min(|w.ring|, |w.idle|);
      AdmitAllExactly(w.(stage := Transmit(w.stage.flush), ring := w.ring[n..], dispatchIndex := 0), w.ring[..n]);
    } else {
      NoneInvalid();
    }
  }

  lemma NoneInvalid()
    ensures InvalidCount([]) == 0 && InvalidBackwards([]) == []
  {
  }

  // ----- Whole runs

  ghost predicate NoneLost(s: State) {
    forall w :: 0 <= w < |s.workers| ==> s.workers[w].lost == []
  }

  predicate SpillStep(s: State, step: Step) {
    step.StepWork? && step.w < |s.workers| && s.workers[step.w].stage.Dequeue? && Spills(s.workers[step.w])
  }

  lemma OtherStagesLoseNothing(w: Worker, finishes: bool)
    ensures w.stage == Resume ==> RunQuantum(w, finishes).lost == w.lost
    ensures w.stage.Transmit? ==> TransmitBurst(w).lost == w.lost
  {
  }

  /** Only a step of a worker touches what has been lost. */
  lemma StepLoses(s: State, step: Step, w: nat)
    requires Inv(s) && Enabled(s, step) && w < |s.workers|
    ensures var s' := Apply(s, step);
            && |s'.workers| == |s.workers|
            && s.workers[w].lost <= s'.workers[w].lost
            && (s'.workers[w].lost == s.workers[w].lost <==> !(SpillStep(s, step) && step.w == w))
  {
    hide WorkerOk, Accounted, Conserved, VersionsOk, TotalOk, Spills;
    if step.StepWork? && step.w == w {
      var x := s.workers[w];
      assert WorkerOk(x);
      OtherStagesLoseNothing(x, step.finishes);
      if x.stage.Dequeue? {
        DequeueLosesExactly(x);
        SpillIsPositive(x);
      }
    }
  }

  lemma SpillIsPositive(w: Worker)
    requires w.stage.Dequeue?
    ensures Spills(w) <==> |w.returning| + InvalidCount(Burst(w)) - RETURN_BURST > 0
  {
  }

  /** No burst of the run holds more invalid packets than there is room for. */
  ghost predicate NeverSpills(s: State, steps: seq<Step>)
    requires Runs(s, steps)
    decreases |steps|
  {
    steps != [] ==> !SpillStep(s, steps[0]) && NeverSpills(Apply(s, steps[0]), steps[1..])
  }

  lemma LostStepByStep(s: State, step: Step)
    requires Inv(s) && Enabled(s, step)
    ensures NoneLost(Apply(s, step)) <==> NoneLost(s) && !SpillStep(s, step)
  {
    hide Inv, Apply, Enabled, SpillStep;
    var s' := Apply(s, step);
    forall w | 0 <= w < |s.workers|
      ensures |s'.workers| == |s.workers| && s.workers[w].lost <= s'.workers[w].lost
      ensures s'.workers[w].lost == s.workers[w].lost <==> !(SpillStep(s, step) && step.StepWork? && step.w == w)
    {
      StepLoses(s, step, w);
      SpillIsWork(s, step);
    }
    SameWorkers(s, step);
    SpillIsWork(s, step);
    if SpillStep(s, step) {
      assert |s'.workers[step.w].lost| > |s.workers[step.w].lost|;
    } else {
      assert forall w :: 0 <= w < |s.workers| ==> s'.workers[w].lost == s.workers[w].lost;
    }
  }

  lemma SpillIsWork(s: State, step: Step)
    ensures SpillStep(s, step) ==> step.StepWork? && step.w < |s.workers|
  {
  }

  lemma SameWorkers(s: State, step: Step)
    requires Enabled(s, step)
    ensures |Apply(s, step).workers| == |s.workers|
  {
  }

  lemma {:induction false} LostExactlyBySpills(s: State, steps: seq<Step>)
    requires Inv(s) && Runs(s, steps)
    ensures NoneLost(After(s, steps)) <==> NoneLost(s) && NeverSpills(s, steps)
    decreases |steps|
  {
    hide Inv, Apply, Enabled, NoneLost, SpillStep;
    if steps != [] {
      StepKeepsInv(s, steps[0]);
      LostStepByStep(s, steps[0]);
      LostExactlyBySpills(Apply(s, steps[0]), steps[1..]);
    }
  }

  /** Over any run, packets have been lost if and only if some burst held more invalid packets than
      there was room for. */
  lemma PacketsAreLostExactlyBySpills(n: nat, steps: seq<Step>)
    requires Runs(Init(n), steps)
    ensures NoneLost(After(Init(n), steps)) <==> NeverSpills(Init(n), steps)
  {
    hide Inv;
    InitInv(n);
    LostExactlyBySpills(Init(n), steps);
  }

  // ----- Where packets are

  /** All packets a worker has, without those it has lost. */
  function Keeps(w: Worker): multiset<Packet> {
    multiset(w.ring) + Packets(w.busy) + multiset(w.returning)
  }

  function AllKeep(workers: seq<Worker>): multiset<Packet> {
    if workers == [] then multiset{} else AllKeep(workers[..|workers| - 1]) + Keeps(workers[|workers| - 1])
  }

  function AllLost(workers: seq<Worker>): multiset<Packet> {
    if workers == [] then multiset{} else AllLost(workers[..|workers| - 1]) + multiset(workers[|workers| - 1].lost)
  }

  lemma {:induction false} KeptOrLost(workers: seq<Worker>, p: Packet)
    ensures AllHave(workers)[p] == AllKeep(workers)[p] + AllLost(workers)[p]
  {
    if workers != [] {
      KeptOrLost(workers[..|workers| - 1], p);
    }
  }

  lemma {:induction false} NoneLostNowhere(workers: seq<Worker>)
    requires forall w :: 0 <= w < |workers| ==> workers[w].lost == []
    ensures AllLost(workers) == multiset{}
  {
    if workers != [] {
      NoneLostNowhere(workers[..|workers| - 1]);
    }
  }

  /** How often a packet is with the dispatcher, in a ring, with a coroutine, in a return buffer or freed. */
  function LivePlaces(s: State, p: Packet): nat {
    multiset(Pending(s.dispatcher))[p] + AllKeep(s.workers)[p] + multiset(s.freed)[p]
  }

  /** Every received packet is in exactly one place or has been lost, once. */
  lemma EveryPacketIsLiveOrLost(s: State, p: Packet)
    requires Reachable(s)
    ensures LivePlaces(s, p) + AllLost(s.workers)[p] == if p in s.arrived then 1 else 0
  {
    EveryPacketIsInOnePlace(s, p);
    KeptOrLost(s.workers, p);
  }

  /** Over a run in which no burst holds more invalid packets than there is room for, every received
      packet is pending, held or freed, in one place. */
  lemma NoPacketIsLostWithoutSpills(n: nat, steps: seq<Step>, p: Packet)
    requires Runs(Init(n), steps) && NeverSpills(Init(n), steps)
    ensures var s := After(Init(n), steps); LivePlaces(s, p) == if p in s.arrived then 1 else 0
  {
    hide LivePlaces, AllLost;
    var s := After(Init(n), steps);
    PacketsAreLostExactlyBySpills(n, steps);
    NoneLostNowhere(s.workers);
    EveryPacketIsLiveOrLost(s, p);
  }

  // ----- A run that loses one

  lemma {:induction false} AfterAppend(s: State, steps: seq<Step>, step: Step)
    requires Runs(s, steps) && Enabled(After(s, steps), step)
    ensures Runs(s, steps + [step]) && After(s, steps + [step]) == Apply(After(s, steps), step)
    decreases |steps|
  {
    hide Apply, Enabled;
    if steps == [] {
      assert [] + [step] == [step];
      assert [step][1..] == [];
    } else {
      AfterAppend(Apply(s, steps[0]), steps[1..], step);
      assert (steps + [step])[1..] == steps[1..] + [step];
    }
  }

  lemma ReachableStep(s: State, step: Step)
    requires Reachable(s) && Enabled(s, step)
    ensures Reachable(Apply(s, step))
  {
    hide Apply, Enabled;
    var n: nat, steps: seq<Step> :| Runs(Init(n), steps) && s == After(Init(n), steps);
    AfterAppend(Init(n), steps, step);
  }

  /** One worker, at the start of its loop with nothing to do, invalid packets in its ring and in its
      return buffer. */
  ghost predicate Stocked(s: State, ring: nat, returning: nat) {
    && Reachable(s) && |s.workers| == 1 == |s.infos| && s.dispatcher == Receiving
    && var w := s.workers[0];
       && w.stage == Resume && w.busy == [] && w.transmit == 0 && w.lost == []
       && |w.ring| == ring && |w.returning| == returning
       && forall i :: 0 <= i < |w.ring| ==> !w.ring[i].valid
  }

  function InvalidPackets(first: nat, n: nat): seq<Packet> {
    seq(n, i requires 0 <= i => Packet(first + i, false))
  }

  /** Receiving up to four invalid packets puts them into the ring. */
  lemma Feed(s: State, ring: nat, returning: nat, n: nat) returns (s': State)
    requires Stocked(s, ring, returning) && 0 < n <= DISPATCH_UNIT && ring + n <= RING_CAPACITY
    ensures Stocked(s', ring + n, returning)
  {
    hide Reachable;
    var packets := InvalidPackets(|s.arrived|, n);
    var s1 := Apply(s, StepReceive(packets));
    ReachableStep(s, StepReceive(packets));
    var s2 := Apply(s1, StepSend(0));
    ReachableStep(s1, StepSend(0));
    assert s2.dispatcher == Sending([], n);
    assert s2.workers[0].ring == s.workers[0].ring + packets;
    var s3 := Apply(s2, StepSent);
    ReachableStep(s2, StepSent);
    assert s3.dispatcher == CheckingIn({}, 0, 0);
    var s4 := Apply(s3, StepCheckIn(0));
    ReachableStep(s3, StepCheckIn(0));
    s' := Apply(s4, StepCheckedIn);
    ReachableStep(s4, StepCheckedIn);
  }

  /** Up to the dequeue: all coroutines are idle, so a burst of up to eight is due. */
  lemma ReadyToDequeue(s: State, ring: nat, returning: nat) returns (s': State)
    requires Stocked(s, ring, returning)
    ensures Reachable(s') && |s'.workers| == 1 && s'.workers[0] == s.workers[0].(stage := Dequeue(true, false))
    ensures s' == s.(workers := s'.workers)
  {
    hide Reachable;
    s' := Apply(s, StepWork(0, false));
    ReachableStep(s, StepWork(0, false));
  }

  lemma {:induction false} AllInvalid(ps: seq<Packet>)
    requires forall i :: 0 <= i < |ps| ==> !ps[i].valid
    ensures InvalidCount(ps) == |ps|
  {
    if ps != [] {
      AllInvalid(ps[..|ps| - 1]);
    }
  }

  /** A worker without jobs has all coroutines idle. */
  lemma AllIdle(s: State)
    requires Reachable(s) && |s.workers| == 1 && s.workers[0].busy == []
    ensures WorkerOk(s.workers[0]) && |s.workers[0].idle| == COROUTINES
  {
    hide Accounted, Conserved, VersionsOk, TotalOk, Partitions, BuffersOk;
    ReachableInv(s);
    assert WorkerOk(s.workers[0]);
    PartitionSize(s.workers[0].idle, s.workers[0].busy);
  }

  /** A burst of eight invalid packets that has room ends up in the return buffer. */
  lemma Turn(s: State, ring: nat, returning: nat, m: nat) returns (s': State)
    requires Stocked(s, ring, returning) && m == Min(ring, COROUTINES) && returning + m < RETURN_BURST
    ensures Stocked(s', ring - m, returning + m)
  {
    hide Reachable, DequeueBurst, InvalidBackwards, InvalidCount, WorkerOk;
    var s1 := ReadyToDequeue(s, ring, returning);
    var w := s1.workers[0];
    AllIdle(s1);
    assert Burst(w) == w.ring[..m];
    AllInvalid(Burst(w));
    InvalidLength(Burst(w));
    DequeueLosesExactly(w);
    var s2 := Apply(s1, StepWork(0, false));
    ReachableStep(s1, StepWork(0, false));
    assert s2.workers[0] == DequeueBurst(w);
    assert |s2.workers[0].busy| == 0 && s2.workers[0].lost == [];
    var s3 := Apply(s2, StepWork(0, false));
    ReachableStep(s2, StepWork(0, false));
    s' := Apply(s3, StepWork(0, false));
    ReachableStep(s3, StepWork(0, false));
  }

  lemma {:induction false} FeedMany(s: State, ring: nat, returning: nat, k: nat) returns (s': State)
    requires Stocked(s, ring, returning) && ring + 4 * k <= RING_CAPACITY
    ensures Stocked(s', ring + 4 * k, returning)
    decreases k
  {
    hide Stocked;
    s' := s;
    if k > 0 {
      s' := Feed(s, ring, returning, 4);
      s' := FeedMany(s', ring + 4, returning, k - 1);
    }
  }

  lemma {:induction false} TurnMany(s: State, ring: nat, returning: nat, k: nat) returns (s': State)
    requires Stocked(s, ring, returning) && 8 * k <= ring && returning + 8 * k < RETURN_BURST
    ensures Stocked(s', ring - 8 * k, returning + 8 * k)
    decreases k
  {
    hide Stocked;
    s' := s;
    if k > 0 {
      s' := Turn(s, ring, returning, 8);
      s' := TurnMany(s', ring - 8, returning + 8, k - 1);
    }
  }

  lemma StartStocked()
    ensures Stocked(Init(1), 0, 0)
  {
    assert Runs(Init(1), []) && After(Init(1), []) == Init(1);
  }

  /** A run with a single worker that loses a packet: one invalid packet, then sixty-four more, of
      which fifty-six are taken in bursts of eight; the last burst finds room for seven. */
  lemma SomeRunLosesAPacket() returns (s: State)
    ensures Reachable(s) && |s.workers| == 1 && |s.workers[0].lost| == 1
  {
    hide Stocked, Reachable, DequeueBurst, InvalidBackwards, InvalidCount, WorkerOk;
    StartStocked();
    var a := Feed(Init(1), 0, 0, 1);
    a := Turn(a, 1, 0, 1);
    a := FeedMany(a, 0, 1, 16);
    a := TurnMany(a, 64, 1, 7);
    var b := ReadyToDequeue(a, 8, 57);
    var w := b.workers[0];
    StockedFacts(a, 8, 57);
    AllIdle(b);
    assert Burst(w) == w.ring[..8];
    AllInvalid(Burst(w));
    DequeueLosesExactly(w);
    s := Apply(b, StepWork(0, false));
    ReachableStep(b, StepWork(0, false));
  }

  lemma StockedFacts(s: State, ring: nat, returning: nat)
    requires Stocked(s, ring, returning)
    ensures |s.workers| == 1 == |s.infos| && s.workers[0].busy == [] && s.workers[0].lost == []
    ensures |s.workers[0].ring| == ring && |s.workers[0].returning| == returning
    ensures forall i :: 0 <= i < ring ==> !s.workers[0].ring[i].valid
  {
  }
}
