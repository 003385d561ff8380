/** In which order a worker takes up packets and runs its jobs. */
module SchedulerTurns {
  import opened Arithmetic
  import opened Scheduler
  import opened SchedulerSafety
  import opened SchedulerLosses

  // ----- Taking up packets

  function ValidOnes(ps: seq<Packet>): seq<Packet> {
    if ps == [] then []
    else ValidOnes(ps[..|ps| - 1]) + (if ps[|ps| - 1].valid then [ps[|ps| - 1]] else [])
  }

  function PacketsOf(jobs: seq<Job>): seq<Packet> {
    seq(|jobs|, i requires 0 <= i < |jobs| => jobs[i].packet)
  }

  function CoroutinesOf(jobs: seq<Job>): seq<nat> {
    seq(|jobs|, i requires 0 <= i < |jobs| => jobs[i].coroutine)
  }

  lemma JobsJoin(a: seq<Job>, b: seq<Job>)
    ensures PacketsOf(a + b) == PacketsOf(a) + PacketsOf(b) && CoroutinesOf(a + b) == CoroutinesOf(a) + CoroutinesOf(b)
  {
  }

  lemma AdmitsOne(w: Worker, p: Packet) returns (one: seq<Job>)
    requires w.idle != []
    ensures Admit(w, p).busy == one + w.busy && PacketsOf(one) == if p.valid then [p] else []
    ensures Admit(w, p).idle + CoroutinesOf(one) == w.idle
  {
    one := if p.valid then [Job(w.idle[|w.idle| - 1], p)] else [];
  }

  lemma {:induction false} AdmitsInOrder(w: Worker, ps: seq<Packet>) returns (jobs: seq<Job>)
    requires |ps| <= |w.idle|
    ensures AdmitAll(w, ps).busy == jobs + w.busy && PacketsOf(jobs) == ValidOnes(ps)
    ensures AdmitAll(w, ps).idle + CoroutinesOf(jobs) == w.idle
    decreases |ps|
  {
    hide Admit, PacketsOf, CoroutinesOf;
    jobs := [];
    if ps == [] {
      NoJobs();
      assert jobs + w.busy == w.busy && w.idle + [] == w.idle;
    } else {
      var n := |ps| - 1;
      var v := Admit(w, ps[n]);
      var one := AdmitsOne(w, ps[n]);
      SmallBurst(w, v, one, ps[n]);
      var front := AdmitsInOrder(v, ps[..n]);
      JobsJoin(front, one);
      jobs := front + one;
      assert jobs + w.busy == front + v.busy;
      assert AdmitAll(w, ps).idle + (CoroutinesOf(front) + CoroutinesOf(one)) == v.idle + CoroutinesOf(one);
    }
  }

  lemma NoJobs()
    ensures PacketsOf([]) == [] && CoroutinesOf([]) == []
  {
  }

  /** A packet takes at most one coroutine. */
  lemma SmallBurst(w: Worker, v: Worker, one: seq<Job>, p: Packet)
    requires v.idle + CoroutinesOf(one) == w.idle && PacketsOf(one) == if p.valid then [p] else []
    ensures |v.idle| >= |w.idle| - 1
  {
    assert |PacketsOf(one)| == |one| == |CoroutinesOf(one)|;
  }

  /** A burst puts the valid packets, in the order in which they lay in the ring, in front of all jobs
      that are under way, whose order it keeps; the coroutines idle last are the first to be used. */
  lemma BurstGoesFirst(w: Worker) returns (jobs: seq<Job>)
    requires w.stage.Dequeue?
    ensures DequeueBurst(w).busy == jobs + w.busy && PacketsOf(jobs) == ValidOnes(Burst(w))
    ensures DequeueBurst(w).idle + CoroutinesOf(jobs) == w.idle
  {
    if w.stage.force || (w.dispatchIndex >= DISPATCH_PERIOD && w.idle != []) {
      var n := Min(|w.ring|, |w.idle|);
      jobs := AdmitsInOrder(w.(stage := Transmit(w.stage.flush), ring := w.ring[n..], dispatchIndex := 0), w.ring[..n]);
    } else {
      jobs := [];
      assert jobs + w.busy == w.busy && w.idle + CoroutinesOf(jobs) == w.idle;
    }
  }

  // ----- Running jobs

  /** The step resumes a coroutine of worker `w` for a quantum. */
  predicate IsQuantum(s: State, step: Step, w: nat) {
    step.StepWork? && step.w == w && w < |s.workers| && s.workers[w].stage == Resume && s.workers[w].busy != []
  }

  /** How many jobs the step admits to worker `w`. */
  function Admits(s: State, step: Step, w: nat): nat {
    if step.StepWork? && step.w == w && w < |s.workers| && s.workers[w].stage.Dequeue?
    then |ValidOnes(Burst(s.workers[w]))| else 0
  }

  /** How many quanta worker `w` has given along a run, and how many jobs it has admitted. */
  ghost function Quanta(s: State, steps: seq<Step>, w: nat): nat
    requires Runs(s, steps)
    decreases |steps|
  {
    if steps == [] then 0
    else (if IsQuantum(s, steps[0], w) then 1 else 0) + Quanta(Apply(s, steps[0]), steps[1..], w)
  }

  ghost function Admitted(s: State, steps: seq<Step>, w: nat): nat
    requires Runs(s, steps)
    decreases |steps|
  {
    if steps == [] then 0 else Admits(s, steps[0], w) + Admitted(Apply(s, steps[0]), steps[1..], w)
  }

  /** What a step does to the job at position `p`: a quantum brings it one forward, and those admitted
      get in front of it. */
  lemma StepMovesJob(s: State, step: Step, w: nat, p: nat)
    requires Enabled(s, step) && w < |s.workers| && p < |s.workers[w].busy|
    requires IsQuantum(s, step, w) ==> p > 0
    ensures var s' := Apply(s, step);
            var q := if IsQuantum(s, step, w) then p - 1 else p + Admits(s, step, w);
            w < |s'.workers| && q < |s'.workers[w].busy| && s'.workers[w].busy[q] == s.workers[w].busy[p]
  {
    if step.StepWork? && step.w == w && s.workers[w].stage.Dequeue? {
      var jobs := BurstGoesFirst(s.workers[w]);
    }
  }

  /** Along the run worker `w` never gives more quanta than there were `front` jobs at first, and jobs
      admitted since. */
  ghost predicate NotYet(s: State, steps: seq<Step>, w: nat, front: nat)
    requires Runs(s, steps)
    decreases |steps|
  {
    steps != [] ==>
      && (IsQuantum(s, steps[0], w) ==> front > 0)
      && NotYet(Apply(s, steps[0]), steps[1..], w,
                if IsQuantum(s, steps[0], w) then front - 1 else front + Admits(s, steps[0], w))
  }

  /** In any interleaving, the job at position `p` has in front of it the `p` jobs that were there and
      all that were admitted since, less one for every quantum that the worker has given. */
  lemma {:induction false} JobKeepsItsTurn(s: State, steps: seq<Step>, w: nat, p: nat)
    requires Runs(s, steps) && w < |s.workers| && p < |s.workers[w].busy| && NotYet(s, steps, w, p)
    ensures var s', q := After(s, steps), p + Admitted(s, steps, w) - Quanta(s, steps, w);
            && w < |s'.workers| && 0 <= q < |s'.workers[w].busy|
            && s'.workers[w].busy[q] == s.workers[w].busy[p]
    decreases |steps|
  {
    hide Enabled, Apply, IsQuantum, Admits;
    if steps != [] {
      StepMovesJob(s, steps[0], w, p);
      QuantumAdmitsNothing(s, steps[0], w);
      var q := if IsQuantum(s, steps[0], w) then p - 1 else p + Admits(s, steps[0], w);
      JobKeepsItsTurn(Apply(s, steps[0]), steps[1..], w, q);
    }
  }

  lemma QuantumAdmitsNothing(s: State, step: Step, w: nat)
    ensures IsQuantum(s, step, w) ==> Admits(s, step, w) == 0
  {
  }

  /** So its turn comes with the quantum number `p` plus those admitted meanwhile, counted from zero, and
      with no other: then it finishes, or goes to the back; before, it comes one forward. */
  lemma TurnComes(s: State, steps: seq<Step>, w: nat, p: nat, finishes: bool)
    requires Runs(s, steps) && w < |s.workers| && p < |s.workers[w].busy| && NotYet(s, steps, w, p)
    requires IsQuantum(After(s, steps), StepWork(w, finishes), w)
    ensures var s' := After(s, steps);
            var x, y := s'.workers[w], RunQuantum(s'.workers[w], finishes);
            var job, front := s.workers[w].busy[p], p + Admitted(s, steps, w) - Quanta(s, steps, w);
            && Work(s', w, finishes).workers == s'.workers[w := y]
            && (front == 0 ==>
                  if finishes then
                    && y.returning == x.returning + [job.packet] && y.busy == x.busy[1..]
                    && y.idle == x.idle + [job.coroutine] && y.finished == x.finished + 1
                  else y.returning == x.returning && y.busy == x.busy[1..] + [job] && y.idle == x.idle)
            && (front > 0 ==> front - 1 < |y.busy| && y.busy[front - 1] == job)
  {
    hide Runs, After, Quanta, Admitted, NotYet;
    JobKeepsItsTurn(s, steps, w, p);
  }

  // ----- Sending answers

  /** Answers that wait have waited for less than a period, and fill less than a burst. */
  predicate AnswersOk(w: Worker) {
    (w.stage == Resume || w.stage.Return?) && w.transmit > 0 ==>
      w.flushIndex < TRANSMIT_PERIOD && w.transmit != TRANSMIT_BURST
  }

  ghost predicate AllAnswersOk(s: State) {
    forall w :: 0 <= w < |s.workers| ==> AnswersOk(s.workers[w])
  }

  lemma StepKeepsAnswers(s: State, step: Step)
    requires AllAnswersOk(s) && Enabled(s, step)
    ensures AllAnswersOk(Apply(s, step))
  {
    if step.StepWork? {
      var x := s.workers[step.w];
      assert AnswersOk(x);
      assert x.stage.Dequeue? ==> DequeueBurst(x).stage.Transmit? by {
        if x.stage.Dequeue? {
          BurstStage(x);
        }
      }
    }
  }

  lemma BurstStage(w: Worker)
    requires w.stage.Dequeue?
    ensures DequeueBurst(w).stage == Transmit(w.stage.flush)
  {
    if w.stage.force || (w.dispatchIndex >= DISPATCH_PERIOD && w.idle != []) {
      var n := Min(|w.ring|, |w.idle|);
      AdmitKeepsStage(w.(stage := Transmit(w.stage.flush), ring := w.ring[n..], dispatchIndex := 0), w.ring[..n]);
    }
  }

  lemma {:induction false} AdmitKeepsStage(w: Worker, ps: seq<Packet>)
    ensures AdmitAll(w, ps).stage == w.stage
    decreases |ps|
  {
    if ps != [] {
      AdmitKeepsStage(Admit(w, ps[|ps| - 1]), ps[..|ps| - 1]);
    }
  }

  lemma {:induction false} RunKeepsAnswers(s: State, steps: seq<Step>)
    requires AllAnswersOk(s) && Runs(s, steps)
    ensures AllAnswersOk(After(s, steps))
    decreases |steps|
  {
    hide Enabled, Apply, AllAnswersOk;
    if steps != [] {
      StepKeepsAnswers(s, steps[0]);
      RunKeepsAnswers(Apply(s, steps[0]), steps[1..]);
    }
  }

  /** No answer waits for more than a period of quanta: whenever a worker starts its loop over, those
      that wait have waited for less, and are fewer than a burst. */
  lemma AnswersDoNotWait(s: State, w: nat)
    requires Reachable(s) && w < |s.workers| && s.workers[w].stage == Resume && s.workers[w].transmit > 0
    ensures s.workers[w].flushIndex < TRANSMIT_PERIOD && s.workers[w].transmit < TRANSMIT_BURST
  {
    hide WorkerOk, Accounted, Conserved, VersionsOk, TotalOk;
    var n: nat, steps: seq<Step> :| Runs(Init(n), steps) && s == After(Init(n), steps);
    RunKeepsAnswers(Init(n), steps);
    assert AnswersOk(s.workers[w]);
    ReachableInv(s);
    WorkersNeverOverflow(s, w, 0);
  }

  // ----- Arrival order, and what is due

  /** Packets in the order in which they arrived. */
  predicate InOrder(ps: seq<Packet>) {
    forall i, j :: 0 <= i < j < |ps| ==> ps[i].id < ps[j].id
  }

  /** Everything that is in the ring arrived before what is still to be sent, in this order. */
  ghost predicate RingOk(ring: seq<Packet>, pending: seq<Packet>, arrived: nat) {
    InOrder(ring + pending) && forall p :: p in ring + pending ==> p.id < arrived
  }

  ghost predicate OrderOk(s: State) {
    && (forall w :: 0 <= w < |s.workers| ==> RingOk(s.workers[w].ring, Pending(s.dispatcher), |s.arrived|))
    && (s.dispatcher == Receiving ==> s.checkin < CHECKIN_PERIOD)
  }

  lemma RingShrinks(ring: seq<Packet>, pending: seq<Packet>, arrived: nat, n: nat, m: nat)
    requires RingOk(ring, pending, arrived) && n <= |ring| && m <= |pending|
    ensures RingOk(ring[n..], pending[m..], arrived)
  {
    var whole, part := ring + pending, ring[n..] + pending[m..];
    var gap := |ring| - n;
    forall i | 0 <= i < |part|
      ensures part[i] == whole[if i < gap then n + i else n + m + i]
    {
    }
  }

  lemma RingGrows(ring: seq<Packet>, pending: seq<Packet>, arrived: nat, taken: nat, size: nat)
    requires RingOk(ring, pending, arrived) && taken <= size <= |pending|
    ensures RingOk(ring + pending[..taken], pending[size..], arrived)
  {
    var whole, part := ring + pending, ring + pending[..taken] + pending[size..];
    var kept := |ring| + taken;
    forall i | 0 <= i < |part|
      ensures part[i] == whole[if i < kept then i else i - kept + |ring| + size]
    {
    }
  }

  lemma RingReceives(ring: seq<Packet>, arrived: seq<Packet>, packets: seq<Packet>)
    requires RingOk(ring, [], |arrived|) && Fresh(arrived, packets)
    ensures RingOk(ring, packets, |arrived + packets|)
  {
    assert ring + [] == ring;
  }

  /** A step of a worker takes from the front of its ring or leaves it. */
  lemma WorkTakesFromRing(s: State, w: nat, finishes: bool) returns (n: nat)
    requires w < |s.workers|
    ensures n <= |s.workers[w].ring| && Work(s, w, finishes).workers[w].ring == s.workers[w].ring[n..]
  {
    n := 0;
    var x := s.workers[w];
    if x.stage.Dequeue? && Burst(x) != [] {
      n := |Burst(x)|;
      AdmitKeepsRing(x.(stage := Transmit(x.stage.flush), ring := x.ring[n..], dispatchIndex := 0), x.ring[..n]);
    } else if x.stage.Dequeue? {
      assert x.ring[0..] == x.ring && x.ring[..0] == [];
    }
  }

  lemma {:induction false} AdmitKeepsRing(w: Worker, ps: seq<Packet>)
    ensures AdmitAll(w, ps).ring == w.ring
    decreases |ps|
  {
    if ps != [] {
      AdmitKeepsRing(Admit(w, ps[|ps| - 1]), ps[..|ps| - 1]);
    }
  }

  lemma SendKeepsOrder(s: State, w: nat)
    requires OrderOk(s) && Enabled(s, StepSend(w))
    ensures OrderOk(Apply(s, StepSend(w)))
  {
    hide RingOk;
    var s' := Apply(s, StepSend(w));
    var Sending(left, chunk) := s.dispatcher;
    var size := Min(chunk, |left|);
    var taken := Min(size, RING_CAPACITY - |s.workers[w].ring|);
    forall v | 0 <= v < |s'.workers|
      ensures RingOk(s'.workers[v].ring, left[size..], |s.arrived|)
    {
      RingGrows(s.workers[v].ring, left, |s.arrived|, if v == w then taken else 0, size);
      assert left[..0] == [] && s.workers[v].ring + [] == s.workers[v].ring;
    }
  }

  lemma WorkKeepsOrder(s: State, w: nat, finishes: bool)
    requires OrderOk(s) && Enabled(s, StepWork(w, finishes))
    ensures OrderOk(Apply(s, StepWork(w, finishes)))
  {
    hide RingOk;
    var n := WorkTakesFromRing(s, w, finishes);
    var pending := Pending(s.dispatcher);
    RingShrinks(s.workers[w].ring, pending, |s.arrived|, n, 0);
    assert pending[0..] == pending;
  }

  lemma StepKeepsOrder(s: State, step: Step)
    requires OrderOk(s) && Enabled(s, step)
    ensures OrderOk(Apply(s, step))
  {
    hide RingOk;
    match step
    case StepReceive(packets) =>
      forall w | 0 <= w < |s.workers|
        ensures RingOk(s.workers[w].ring, packets, |s.arrived + packets|)
      {
        RingReceives(s.workers[w].ring, s.arrived, packets);
      }
    case StepSend(w) => SendKeepsOrder(s, w);
    case StepWork(w, finishes) => WorkKeepsOrder(s, w, finishes);
    case _ =>
  }

  lemma {:induction false} RunKeepsOrder(s: State, steps: seq<Step>)
    requires OrderOk(s) && Runs(s, steps)
    ensures OrderOk(After(s, steps))
    decreases |steps|
  {
    hide Enabled, Apply, OrderOk;
    if steps != [] {
      StepKeepsOrder(s, steps[0]);
      RunKeepsOrder(Apply(s, steps[0]), steps[1..]);
    }
  }

  /** Every ring holds packets in the order in which they arrived, all before those still to be sent;
      and whenever the dispatcher is ready to receive, no check-in is due. */
  lemma PacketsKeepTheirOrder(s: State, w: nat)
    requires Reachable(s) && w < |s.workers|
    ensures InOrder(s.workers[w].ring + Pending(s.dispatcher))
    ensures s.dispatcher == Receiving ==> s.checkin < CHECKIN_PERIOD
  {
    var n: nat, steps: seq<Step> :| Runs(Init(n), steps) && s == After(Init(n), steps);
    RunKeepsOrder(Init(n), steps);
    assert RingOk(s.workers[w].ring, Pending(s.dispatcher), |s.arrived|);
  }

  // ----- Once round the loop of a worker

  /** One turn of the loop, when the dispatcher does not interfere. */
  function Turned(s: State, w: nat, finishes: bool): State
    requires w < |s.workers|
  {
    Work(Work(Work(Work(s, w, finishes), w, false), w, false), w, false)
  }

  /** What a burst that is forced leaves: the packets beyond what all coroutines can take. */
  lemma ForcedBurst(w: Worker)
    requires WorkerOk(w) && w.stage.Dequeue? && w.stage.force
    ensures var v := DequeueBurst(w);
            v.ring == w.ring[Min(|w.ring|, COROUTINES)..] && v.transmit == w.transmit &&
            v.stage == Transmit(w.stage.flush)
  {
    hide Partitions, AdmitAll, DequeueBurst, Spills;
    PartitionSize(w.idle, w.busy);
    DequeueLosesExactly(w);
  }

  /** Answers are to be sent: at once, or as enough quanta have passed or enough answers have come. */
  predicate IsDue(w: Worker, now: bool) {
    now || w.flushIndex >= TRANSMIT_PERIOD || w.transmit == TRANSMIT_BURST
  }

  /** The second half of the loop, after a burst. */
  lemma SendsAndReturns(s: State, w: nat)
    requires w < |s.workers| && s.workers[w].stage.Transmit?
    ensures var s' := Work(Work(s, w, false), w, false);
            var x, y := s.workers[w], s'.workers[w];
            && y.stage == Resume && y.ring == x.ring && s.freed <= s'.freed
            && (y.transmit != x.transmit <==> x.transmit > 0 && IsDue(x, x.stage.flush))
            && (y.transmit != x.transmit ==> y.transmit == 0)
            && (x.stage.flush ==> y.transmit == 0 && y.returning == [] && s'.freed == s.freed + x.returning)
  {
  }

  /** A worker that has no job left after its quantum takes up as many packets as it has room for, and if
      it has answers to send it sends them all and gives back every packet it has finished with. */
  lemma IdleWorkerCatchesUp(s: State, w: nat, finishes: bool)
    requires Reachable(s) && w < |s.workers| && s.workers[w].stage == Resume
    requires RunQuantum(s.workers[w], finishes).busy == []
    ensures var x, y := s.workers[w], Turned(s, w, finishes).workers[w];
            && y.stage == Resume && y.ring == x.ring[Min(|x.ring|, COROUTINES)..]
            && (RunQuantum(x, finishes).transmit > 0 ==>
                  y.transmit == 0 && y.returning == [] && s.freed <= Turned(s, w, finishes).freed)
  {
    hide Reachable, Inv, WorkerOk, AdmitAll, DequeueBurst, Flushes, TransmitBurst;
    ReachableInv(s);
    WorkerIsOk(s, w);
    QuantumKeeps(s.workers[w], finishes);
    ForcedBurst(RunQuantum(s.workers[w], finishes));
    SendsAndReturns(Work(Work(s, w, finishes), w, false), w);
  }

  /** In a turn of the loop a worker sends its answers, all of them, exactly if it has some and has run
      out of jobs, or has given four quanta since it sent some, or has two. */
  lemma AnswersGoOutExactly(s: State, w: nat, finishes: bool)
    requires Reachable(s) && w < |s.workers| && s.workers[w].stage == Resume
    ensures var x, y := RunQuantum(s.workers[w], finishes), Turned(s, w, finishes).workers[w];
            y.transmit == if IsDue(x, x.busy == []) then 0 else x.transmit
  {
    hide Reachable, Inv, WorkerOk, AdmitAll, DequeueBurst, Flushes, TransmitBurst;
    ReachableInv(s);
    WorkerIsOk(s, w);
    QuantumKeeps(s.workers[w], finishes);
    var x := RunQuantum(s.workers[w], finishes);
    BurstKeepsAnswers(x);
    SendsAndReturns(Work(Work(s, w, finishes), w, false), w);
  }

  lemma BurstKeepsAnswers(w: Worker)
    requires WorkerOk(w) && w.stage.Dequeue?
    ensures var v := DequeueBurst(w);
            v.transmit == w.transmit && v.flushIndex == w.flushIndex && v.stage == Transmit(w.stage.flush)
  {
    hide Partitions, AdmitAll, Spills;
    if w.stage.force || (w.dispatchIndex >= DISPATCH_PERIOD && w.idle != []) {
      var n := Min(|w.ring|, |w.idle|);
      AdmitAllExactly(w.(stage := Transmit(w.stage.flush), ring := w.ring[n..], dispatchIndex := 0), w.ring[..n]);
    }
  }

  lemma WorkerIsOk(s: State, w: nat)
    requires Inv(s) && w < |s.workers|
    ensures WorkerOk(s.workers[w])
  {
  }
}
