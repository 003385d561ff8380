/** What every interleaving of the dispatcher and the workers keeps. */
module SchedulerSafety {
  import opened Arithmetic
  import opened Scheduler

  // ----- A worker by itself

  function Coroutines(busy: seq<Job>): multiset<nat> {
    if busy == [] then multiset{} else multiset{busy[0].coroutine} + Coroutines(busy[1..])
  }

  function Packets(busy: seq<Job>): multiset<Packet> {
    if busy == [] then multiset{} else multiset{busy[0].packet} + Packets(busy[1..])
  }

  lemma {:induction false} BusyAppend(busy: seq<Job>, job: Job)
    ensures Coroutines(busy + [job]) == Coroutines(busy) + multiset{job.coroutine}
    ensures Packets(busy + [job]) == Packets(busy) + multiset{job.packet}
  {
    if busy == [] {
      assert busy + [job] == [job];
      assert [job][1..] == [];
    } else {
      assert (busy + [job])[1..] == busy[1..] + [job];
      BusyAppend(busy[1..], job);
    }
  }

  lemma BusyPrepend(busy: seq<Job>, job: Job)
    ensures Coroutines([job] + busy) == multiset{job.coroutine} + Coroutines(busy)
    ensures Packets([job] + busy) == multiset{job.packet} + Packets(busy)
  {
    assert ([job] + busy)[1..] == busy;
  }

  lemma {:induction false} BusySize(busy: seq<Job>)
    ensures |Coroutines(busy)| == |busy|
  {
    if busy != [] {
      BusySize(busy[1..]);
    }
  }

  ghost function Pool(): multiset<nat> {
    multiset(FirstCoroutines(COROUTINES))
  }

  lemma {:induction false} PoolCount(n: nat, c: nat)
    ensures |FirstCoroutines(n)| == n && multiset(FirstCoroutines(n))[c] == if c < n then 1 else 0
  {
    if n > 0 {
      PoolCount(n - 1, c);
    }
  }

  /** Idle and busy coroutines together are the pool, each once. */
  ghost predicate Partitions(idle: seq<nat>, busy: seq<Job>) {
    multiset(idle) + Coroutines(busy) == Pool()
  }

  lemma PartitionSize(idle: seq<nat>, busy: seq<Job>)
    requires Partitions(idle, busy)
    ensures |idle| + |busy| == COROUTINES
  {
    BusySize(busy);
    PoolCount(COROUTINES, 0);
    assert |multiset(idle) + Coroutines(busy)| == |idle| + |busy|;
  }

  /** Room in the buffers, as each part of the loop finds it. */
  ghost predicate BuffersOk(w: Worker) {
    match w.stage
    case Resume => w.transmit < TRANSMIT_BURST && |w.returning| < RETURN_BURST
    case Dequeue(force, _) => w.transmit <= TRANSMIT_BURST && |w.returning| <= RETURN_BURST && (force ==> w.busy == [])
    case Transmit(_) => w.transmit <= TRANSMIT_BURST && |w.returning| <= RETURN_BURST
    case Return(_) => w.transmit < TRANSMIT_BURST && |w.returning| <= RETURN_BURST
  }

  ghost predicate WorkerOk(w: Worker) {
    && Partitions(w.idle, w.busy) && BuffersOk(w) && |w.ring| <= RING_CAPACITY
    && (forall i :: 0 <= i < |w.busy| ==> w.busy[i].packet.valid)
    && (forall i :: 0 <= i < |w.lost| ==> !w.lost[i].valid)
  }

  /** All packets a worker has, and those it has lost. */
  function Has(w: Worker): multiset<Packet> {
    multiset(w.ring) + Packets(w.busy) + multiset(w.returning) + multiset(w.lost)
  }

  /** Jobs the dispatcher has not heard the end of; invalid packets are never reported. */
  function Load(w: Worker): int {
    |w.ring| + |w.busy| + w.finished + w.discarded
  }

  // ----- What a burst does to a worker

  lemma AdmitKeeps(w: Worker, p: Packet)
    requires Partitions(w.idle, w.busy) && w.idle != []
    ensures var v := Admit(w, p);
            && Partitions(v.idle, v.busy) && |v.idle| >= |w.idle| - 1
            && Has(v) == Has(w) + multiset{p} && Load(v) == Load(w) + 1
  {
    hide Pool, Coroutines, Packets;
    if p.valid {
      var last := |w.idle| - 1;
      BusyPrepend(w.busy, Job(w.idle[last], p));
      assert w.idle == w.idle[..last] + [w.idle[last]];
    } else {
      assert multiset(w.returning + [p]) == multiset(w.returning) + multiset{p};
      assert multiset(w.lost + [p]) == multiset(w.lost) + multiset{p};
    }
  }

  lemma AdmitKeepsRest(w: Worker, p: Packet)
    requires WorkerOk(w.(stage := Transmit(false))) && w.idle != []
    ensures var v := Admit(w, p);
            && v.ring == w.ring && v.transmit == w.transmit && v.stage == w.stage && v.finished == w.finished
            && |v.returning| <= RETURN_BURST
            && (forall i :: 0 <= i < |v.busy| ==> v.busy[i].packet.valid)
            && (forall i :: 0 <= i < |v.lost| ==> !v.lost[i].valid)
  {
    hide Partitions;
  }

  lemma {:induction false} AdmitAllKeeps(w: Worker, ps: seq<Packet>)
    requires w.stage.Transmit? && WorkerOk(w) && |ps| <= |w.idle|
    ensures var v := AdmitAll(w, ps);
            && WorkerOk(v) && v.stage == w.stage && v.finished == w.finished
            && Has(v) == Has(w) + multiset(ps) && Load(v) == Load(w) + |ps|
    decreases |ps|
  {
    hide Has, Load, Partitions, Admit;
    if ps != [] {
      var last := |ps| - 1;
      var v := Admit(w, ps[last]);
      AdmitKeeps(w, ps[last]);
      AdmitKeepsRest(w, ps[last]);
      AdmitAllKeeps(v, ps[..last]);
      assert ps == ps[..last] + [ps[last]];
    }
  }

  lemma DequeueKeeps(w: Worker)
    requires WorkerOk(w) && w.stage.Dequeue?
    ensures var v := DequeueBurst(w); WorkerOk(v) && v.finished == w.finished && Has(v) == Has(w) && Load(v) == Load(w)
  {
    hide Partitions, AdmitAll, Packets;
    if w.stage.force || (w.dispatchIndex >= DISPATCH_PERIOD && w.idle != []) {
      var n := Min(|w.ring|, |w.idle|);
      var v := w.(stage := Transmit(w.stage.flush), ring := w.ring[n..], dispatchIndex := 0);
      AdmitAllKeeps(v, w.ring[..n]);
      assert w.ring == w.ring[..n] + w.ring[n..];
    }
  }

  lemma QuantumKeepsPool(w: Worker, finishes: bool)
    requires Partitions(w.idle, w.busy) && w.busy != []
    ensures var v := ResumeFront(w, finishes); Partitions(v.idle, v.busy) && Has(v) == Has(w) && Load(v) == Load(w)
  {
    hide Pool, Coroutines, Packets;
    var job := w.busy[0];
    BusyPrepend(w.busy[1..], job);
    assert w.busy == [job] + w.busy[1..];
    if finishes {
      assert multiset(w.idle + [job.coroutine]) == multiset(w.idle) + multiset{job.coroutine};
      assert multiset(w.returning + [job.packet]) == multiset(w.returning) + multiset{job.packet};
    } else {
      BusyAppend(w.busy[1..], job);
    }
  }

  lemma QuantumKeeps(w: Worker, finishes: bool)
    requires WorkerOk(w) && w.stage == Resume
    ensures var v := RunQuantum(w, finishes);
            WorkerOk(v) && w.finished <= v.finished && Has(v) == Has(w) && Load(v) == Load(w)
  {
    hide Partitions, Packets;
    if w.busy != [] {
      QuantumKeepsPool(w, finishes);
    }
  }

  // ----- All workers

  function AllHave(workers: seq<Worker>): multiset<Packet> {
    if workers == [] then multiset{} else AllHave(workers[..|workers| - 1]) + Has(workers[|workers| - 1])
  }

  lemma {:induction false} AllHaveUpdate(workers: seq<Worker>, w: nat, v: Worker)
    requires w < |workers|
    ensures AllHave(workers[w := v]) + Has(workers[w]) == AllHave(workers) + Has(v)
  {
    hide Has;
    var last := |workers| - 1;
    if w == last {
      assert workers[w := v][..last] == workers[..last];
    } else {
      assert workers[w := v][..last] == workers[..last][w := v];
      AllHaveUpdate(workers[..last], w, v);
      var a, b, c, d, e := AllHave(workers[..last][w := v]), Has(workers[w]), AllHave(workers[..last]), Has(v),
        Has(workers[last]);
      assert a + b == c + d;
      assert AllHave(workers[w := v]) == a + e && AllHave(workers) == c + e;
      Rearrange(a, b, c, d, e);
    }
  }

  lemma Rearrange(a: multiset<Packet>, b: multiset<Packet>, c: multiset<Packet>, d: multiset<Packet>,
      e: multiset<Packet>)
    requires a + b == c + d
    ensures (a + e) + b == (c + e) + d
  {
    assert (a + e) + b == (a + b) + e;
    assert (c + e) + d == (c + d) + e;
  }

  function AllRunning(infos: seq<Info>): int {
    if infos == [] then 0 else AllRunning(infos[..|infos| - 1]) + infos[|infos| - 1].running
  }

  lemma {:induction false} AllRunningUpdate(infos: seq<Info>, w: nat, info: Info)
    requires w < |infos|
    ensures AllRunning(infos[w := info]) == AllRunning(infos) - infos[w].running + info.running
  {
    var last := |infos| - 1;
    if w == last {
      assert infos[w := info][..last] == infos[..last];
    } else {
      assert infos[w := info][..last] == infos[..last][w := info];
      AllRunningUpdate(infos[..last], w, info);
    }
  }

  // ----- The invariant

  function Pending(d: Dispatcher): seq<Packet> {
    if d.Sending? then d.left else []
  }

  /** Every packet is in one place. */
  ghost predicate Conserved(s: State) {
    multiset(Pending(s.dispatcher)) + AllHave(s.workers) + multiset(s.freed) == multiset(s.arrived)
  }

  ghost predicate Numbered(arrived: seq<Packet>) {
    forall i :: 0 <= i < |arrived| ==> arrived[i].id == i
  }

  /** The dispatcher's count is what the worker still has, plus what it has not been told. */
  ghost predicate Accounted(w: Worker, info: Info) {
    info.running == Load(w) - info.seen && info.seen <= w.finished
  }

  /** The workers visited in this check-in are those of the next version. */
  ghost predicate VersionsOk(s: State) {
    match s.dispatcher
    case CheckingIn(visited, count, _) =>
      && |visited| == count <= |s.infos| && (forall v :: v in visited ==> v < |s.infos|)
      && (forall v :: 0 <= v < |s.infos| ==> s.infos[v].version == if v in visited then s.version + 1 else s.version)
    case _ => forall v :: 0 <= v < |s.infos| ==> s.infos[v].version == s.version
  }

  ghost predicate TotalOk(s: State) {
    s.total == AllRunning(s.infos) + (if s.dispatcher.CheckingIn? then s.dispatcher.returned else 0)
  }

  ghost predicate Inv(s: State) {
    && |s.infos| == |s.workers|
    && (forall w :: 0 <= w < |s.workers| ==> WorkerOk(s.workers[w]))
    && (forall w :: 0 <= w < |s.workers| ==> Accounted(s.workers[w], s.infos[w]))
    && (s.dispatcher.Sending? ==> 0 < s.dispatcher.chunk <= DISPATCH_UNIT)
    && Conserved(s) && Numbered(s.arrived) && VersionsOk(s) && TotalOk(s)
  }

  lemma {:induction false} InitTotals(n: nat)
    ensures AllHave(Init(n).workers) == multiset{} && AllRunning(Init(n).infos) == 0
  {
    if n > 0 {
      InitTotals(n - 1);
      assert Init(n).workers[..n - 1] == Init(n - 1).workers;
      assert Init(n).infos[..n - 1] == Init(n - 1).infos;
    }
  }

  lemma InitInv(n: nat)
    ensures Inv(Init(n))
  {
    hide WorkerOk, Accounted, AllHave, AllRunning;
    InitTotals(n);
    NewWorkerOk();
  }

  lemma NewWorkerOk()
    ensures WorkerOk(NewWorker()) && Accounted(NewWorker(), Info(0, 0, 0))
  {
    hide FirstCoroutines;
    assert Pool() + multiset{} == Pool();
  }

  // ----- Steps of a worker

  /** A worker's step, seen from outside: what it gives up is freed. */
  ghost predicate WorkerStep(x: Worker, y: Worker, out: seq<Packet>) {
    WorkerOk(y) && x.finished <= y.finished && Load(y) == Load(x) && Has(y) + multiset(out) == Has(x)
  }

  lemma WorkOne(s: State, w: nat, finishes: bool) returns (out: seq<Packet>)
    requires w < |s.workers| && WorkerOk(s.workers[w])
    ensures var s' := Work(s, w, finishes);
            && |s'.workers| == |s.workers| && s'.workers == s.workers[w := s'.workers[w]]
            && s' == s.(workers := s'.workers, freed := s.freed + out)
            && WorkerStep(s.workers[w], s'.workers[w], out)
  {
    hide Partitions, Packets;
    var x := s.workers[w];
    out := [];
    assert s.freed + [] == s.freed;
    match x.stage
    case Resume =>
      QuantumKeeps(x, finishes);
      assert Has(x) + multiset([]) == Has(x);
    case Dequeue(_, _) =>
      DequeueKeeps(x);
      assert Has(x) + multiset([]) == Has(x);
    case Transmit(_) =>
      assert Has(x) + multiset([]) == Has(x);
    case Return(_) =>
      if Flushes(x) {
        out := x.returning;
      } else {
        assert Has(x) + multiset([]) == Has(x);
      }
  }

  lemma FreeConserves(pending: multiset<Packet>, all: multiset<Packet>, all': multiset<Packet>, x: multiset<Packet>,
                      y: multiset<Packet>, freed: multiset<Packet>, out: multiset<Packet>)
    requires all' + x == all + y && y + out == x
    ensures pending + all' + (freed + out) == pending + all + freed
  {
    assert forall p ::
      all'[p] + x[p] == (all' + x)[p] == (all + y)[p] == all[p] + y[p] && y[p] + out[p] == (y + out)[p] == x[p];
  }

  lemma WorkKeepsInv(s: State, w: nat, finishes: bool)
    requires Inv(s) && w < |s.workers|
    ensures Inv(Work(s, w, finishes))
  {
    hide WorkerOk, Load, Has, Work, AllHave, AllRunning;
    var s' := Work(s, w, finishes);
    var out := WorkOne(s, w, finishes);
    AllHaveUpdate(s.workers, w, s'.workers[w]);
    FreeConserves(multiset(Pending(s.dispatcher)), AllHave(s.workers), AllHave(s'.workers),
                  Has(s.workers[w]), Has(s'.workers[w]), multiset(s.freed), multiset(out));
    assert multiset(s.freed + out) == multiset(s.freed) + multiset(out);
  }

  // ----- Steps of the dispatcher

  lemma ReceiveKeepsInv(s: State, packets: seq<Packet>)
    requires Inv(s) && Enabled(s, StepReceive(packets))
    ensures Inv(Apply(s, StepReceive(packets)))
  {
    hide WorkerOk, Accounted, AllHave, AllRunning;
    ChunkIsSmall(|packets|, |s.workers|);
    assert multiset(s.arrived + packets) == multiset(s.arrived) + multiset(packets);
  }

  lemma ChunkIsSmall(packets: nat, workers: nat)
    requires 0 < packets <= workers * DISPATCH_UNIT
    ensures 0 < Chunk(packets, workers) <= DISPATCH_UNIT
  {
    DivisionBounds(packets + workers - 1, workers, DISPATCH_UNIT);
  }

  lemma DivisionBounds(a: nat, d: nat, n: nat)
    requires d > 0 && d <= a < d * (n + 1)
    ensures 0 < a / d <= n
  {
    var q := a / d;
    assert a == d * q + a % d;
    if q > n {
      TimesMore(d, n + 1, q);
    }
  }

  lemma TimesMore(d: nat, m: nat, n: nat)
    requires m <= n
    ensures d * m <= d * n
  {
  }

  lemma SendConserves(left: seq<Packet>, taken: nat, size: nat, all: multiset<Packet>, all': multiset<Packet>,
                      x: Worker, y: Worker, freed: seq<Packet>)
    requires taken <= size <= |left| && y == x.(ring := x.ring + left[..taken]) && all' + Has(x) == all + Has(y)
    ensures multiset(left[size..]) + all' + multiset(freed + left[taken..size]) ==
            multiset(left) + all + multiset(freed)
  {
    assert left == left[..taken] + left[taken..size] + left[size..];
    assert multiset(left) == multiset(left[..taken]) + multiset(left[taken..size]) + multiset(left[size..]);
    assert multiset(y.ring) == multiset(x.ring) + multiset(left[..taken]);
    assert Has(y) == Has(x) + multiset(left[..taken]);
    CancelHas(all, all', Has(x), multiset(left[..taken]));
    assert multiset(freed + left[taken..size]) == multiset(freed) + multiset(left[taken..size]);
  }

  lemma CancelHas(all: multiset<Packet>, all': multiset<Packet>, x: multiset<Packet>, more: multiset<Packet>)
    requires all' + x == all + (x + more)
    ensures all' == all + more
  {
    assert forall p :: all'[p] + x[p] == (all' + x)[p] == all[p] + (x[p] + more[p]);
  }

  lemma SendKeepsWorker(x: Worker, more: seq<Packet>)
    requires WorkerOk(x) && |x.ring| + |more| <= RING_CAPACITY
    ensures WorkerOk(x.(ring := x.ring + more)) && Load(x.(ring := x.ring + more)) == Load(x) + |more|
  {
  }

  lemma SendKeepsInv(s: State, w: nat)
    requires Inv(s) && Enabled(s, StepSend(w))
    ensures Inv(Apply(s, StepSend(w)))
  {
    hide WorkerOk, Load, Has, AllHave, AllRunning;
    var s' := Apply(s, StepSend(w));
    var Sending(left, chunk) := s.dispatcher;
    var size := Min(chunk, |left|);
    var taken := Min(size, RING_CAPACITY - |s.workers[w].ring|);
    SendKeepsWorker(s.workers[w], left[..taken]);
    AllHaveUpdate(s.workers, w, s'.workers[w]);
    AllRunningUpdate(s.infos, w, s'.infos[w]);
    SendConserves(left, taken, size, AllHave(s.workers), AllHave(s'.workers), s.workers[w], s'.workers[w], s.freed);
  }

  /** As long as fewer than all workers have been visited, one is left. */
  lemma SomeoneIsLeft(visited: set<nat>, n: nat)
    requires (forall v :: v in visited ==> v < n) && |visited| < n
    ensures exists v :: 0 <= v < n && v !in visited
  {
    if forall v :: 0 <= v < n ==> v in visited {
      AllVisited(visited, n);
      assert false;
    }
  }

  lemma {:induction false} AllVisited(visited: set<nat>, n: nat)
    requires forall v :: 0 <= v < n ==> v in visited
    ensures |visited| >= n
    decreases n
  {
    if n > 0 {
      AllVisited(visited - {n - 1}, n - 1);
    }
  }

  lemma {:induction false} NoneLeft(visited: set<nat>, n: nat)
    requires (forall v :: v in visited ==> v < n) && |visited| == n
    ensures forall v :: 0 <= v < n ==> v in visited
    decreases n
  {
    if n > 0 {
      if n - 1 in visited {
        var rest := visited - {n - 1};
        NoneLeft(rest, n - 1);
        assert forall v :: v in rest ==> v in visited;
      } else {
        FewerThan(visited, n - 1);
      }
    }
  }

  lemma {:induction false} FewerThan(visited: set<nat>, n: nat)
    requires forall v :: v in visited ==> v < n
    ensures |visited| <= n
    decreases n
  {
    if n == 0 {
      assert visited == {};
    } else {
      FewerThan(visited - {n - 1}, n - 1);
      assert |visited| <= |visited - {n - 1}| + 1;
    }
  }

  /** The assertion of the check-in loop: the top of the queue has not been visited yet. */
  lemma TopIsNotVisited(s: State, w: nat)
    requires Inv(s) && Enabled(s, StepCheckIn(w))
    ensures s.infos[w].version == s.version && w !in s.dispatcher.visited
  {
    hide WorkerOk, Accounted, Conserved, TotalOk;
    SomeoneIsLeft(s.dispatcher.visited, |s.infos|);
    var v :| 0 <= v < |s.infos| && v !in s.dispatcher.visited;
    assert !Less(s.infos[w], s.infos[v]);
  }

  lemma CheckInKeepsInv(s: State, w: nat)
    requires Inv(s) && Enabled(s, StepCheckIn(w))
    ensures Inv(Apply(s, StepCheckIn(w)))
  {
    hide WorkerOk, Load, AllHave, AllRunning;
    TopIsNotVisited(s, w);
    AllRunningUpdate(s.infos, w, Apply(s, StepCheckIn(w)).infos[w]);
  }

  lemma StepKeepsInv(s: State, step: Step)
    requires Inv(s) && Enabled(s, step)
    ensures Inv(Apply(s, step))
  {
    match step
    case StepReceive(packets) =>
      ReceiveKeepsInv(s, packets);
    case StepSend(w) =>
      SendKeepsInv(s, w);
    case StepSent =>
      SentKeepsInv(s);
    case StepCheckIn(w) =>
      CheckInKeepsInv(s, w);
    case StepCheckedIn =>
      CheckedInKeepsInv(s);
    case StepWork(w, finishes) =>
      WorkKeepsInv(s, w, finishes);
  }

  lemma SentKeepsInv(s: State)
    requires Inv(s) && Enabled(s, StepSent)
    ensures Inv(Apply(s, StepSent))
  {
    hide WorkerOk, Accounted, AllHave, AllRunning;
  }

  lemma CheckedInKeepsInv(s: State)
    requires Inv(s) && Enabled(s, StepCheckedIn)
    ensures Inv(Apply(s, StepCheckedIn))
  {
    hide WorkerOk, Accounted, AllHave, AllRunning;
    NoneLeft(s.dispatcher.visited, |s.infos|);
  }

  // ----- Whole runs

  /** `steps` is a run: every step is enabled when it is taken. */
  ghost predicate Runs(s: State, steps: seq<Step>)
    decreases |steps|
  {
    steps != [] ==> Enabled(s, steps[0]) && Runs(Apply(s, steps[0]), steps[1..])
  }

  ghost function After(s: State, steps: seq<Step>): State
    requires Runs(s, steps)
    decreases |steps|
  {
    if steps == [] then s else After(Apply(s, steps[0]), steps[1..])
  }

  /** A state that some interleaving of the dispatcher and any number of workers reaches. */
  ghost predicate Reachable(s: State) {
    exists n: nat, steps: seq<Step> :: Runs(Init(n), steps) && s == After(Init(n), steps)
  }

  lemma {:induction false} RunKeepsInv(s: State, steps: seq<Step>)
    requires Inv(s) && Runs(s, steps)
    ensures Inv(After(s, steps))
    decreases |steps|
  {
    hide Inv, Apply, Enabled;
    if steps != [] {
      StepKeepsInv(s, steps[0]);
      RunKeepsInv(Apply(s, steps[0]), steps[1..]);
    }
  }

  lemma ReachableInv(s: State)
    requires Reachable(s)
    ensures Inv(s)
  {
    hide Inv;
    var n: nat, steps: seq<Step> :| Runs(Init(n), steps) && s == After(Init(n), steps);
    InitInv(n);
    RunKeepsInv(Init(n), steps);
  }

  /** How often a packet is anywhere: with the dispatcher, in a ring, with a coroutine, in a return
      buffer, freed or lost. */
  function Places(s: State, p: Packet): nat {
    multiset(Pending(s.dispatcher))[p] + AllHave(s.workers)[p] + multiset(s.freed)[p]
  }

  lemma {:induction false} NumberedOnce(arrived: seq<Packet>, i: nat)
    requires Numbered(arrived) && i < |arrived|
    ensures multiset(arrived)[arrived[i]] == 1
  {
    var last := |arrived| - 1;
    assert arrived == arrived[..last] + [arrived[last]];
    assert multiset(arrived) == multiset(arrived[..last]) + multiset{arrived[last]};
    if i == last {
      assert arrived[i] !in arrived[..last];
      assert arrived[i] !in multiset(arrived[..last]);
    } else {
      NumberedOnce(arrived[..last], i);
      assert arrived[..last][i] == arrived[i];
    }
  }

  /** Every packet received is in exactly one place, so it is enqueued at most once and freed at
      most once; a packet that was not received is nowhere. */
  lemma EveryPacketIsInOnePlace(s: State, p: Packet)
    requires Reachable(s)
    ensures Places(s, p) == if p in s.arrived then 1 else 0
  {
    hide WorkerOk, Accounted, VersionsOk, TotalOk, AllHave;
    ReachableInv(s);
    assert Places(s, p) == multiset(s.arrived)[p];
    if p in s.arrived {
      var i :| 0 <= i < |s.arrived| && s.arrived[i] == p;
      NumberedOnce(s.arrived, i);
    }
  }

  /** The load the dispatcher books for a worker: packets in its ring, busy coroutines, jobs
      finished since the last check-in, and all invalid packets so far, which are never taken off. */
  lemma RunningJobsAreAccounted(s: State, w: nat)
    requires Reachable(s) && w < |s.workers|
    ensures w < |s.infos| && s.infos[w].seen <= s.workers[w].finished
    ensures s.infos[w].running ==
            |s.workers[w].ring| + |s.workers[w].busy| + (s.workers[w].finished - s.infos[w].seen) +
            s.workers[w].discarded
    ensures !s.dispatcher.CheckingIn? ==> s.total == AllRunning(s.infos)
  {
    ReachableInv(s);
    assert Accounted(s.workers[w], s.infos[w]);
  }

  /** Every check-in visits every worker exactly once: the worker on top of the queue is one of the
      current version that has not been visited, and in the end all have been. */
  lemma CheckInVisitsEachWorkerOnce(s: State, step: Step)
    requires Reachable(s) && Enabled(s, step)
    ensures step.StepCheckIn? ==> s.infos[step.w].version == s.version && step.w !in s.dispatcher.visited
    ensures step.StepCheckedIn? ==> forall w :: 0 <= w < |s.workers| <==> w in s.dispatcher.visited
    ensures step.StepCheckedIn? ==> forall w :: 0 <= w < |s.workers| ==> s.infos[w].version == s.version + 1
  {
    ReachableInv(s);
    if step.StepCheckIn? {
      TopIsNotVisited(s, step.w);
    } else if step.StepCheckedIn? {
      NoneLeft(s.dispatcher.visited, |s.infos|);
    }
  }

  /** A chunk goes to a worker with the least load on the books, and to any such worker it may. */
  lemma LeastLoadedGetsTheChunk(s: State, w: nat)
    requires Reachable(s) && s.dispatcher.Sending? && s.dispatcher.left != [] && w < |s.workers|
    ensures Enabled(s, StepSend(w)) <==>
            |s.infos| == |s.workers| && forall v :: 0 <= v < |s.infos| ==> s.infos[w].running <= s.infos[v].running
    ensures s.dispatcher.chunk <= DISPATCH_UNIT
  {
    hide Accounted, Conserved, TotalOk, Partitions, BuffersOk;
    ReachableInv(s);
    assert WorkerOk(s.workers[w]);
    if |s.infos| == |s.workers| && forall v :: 0 <= v < |s.infos| ==> s.infos[w].running <= s.infos[v].running {
      forall v | 0 <= v < |s.infos|
        ensures !Less(s.infos[w], s.infos[v])
      {
      }
    }
    if Enabled(s, StepSend(w)) {
      forall v | 0 <= v < |s.infos|
        ensures s.infos[w].running <= s.infos[v].running
      {
        assert !Less(s.infos[w], s.infos[v]);
      }
    }
  }

  /** The queue always has a top. */
  lemma {:induction false} SomeoneIsOnTop(infos: seq<Info>) returns (w: nat)
    requires infos != []
    ensures IsTop(infos, w)
    decreases |infos|
  {
    var last := |infos| - 1;
    w := last;
    if last > 0 {
      var v := SomeoneIsOnTop(infos[..last]);
      if Less(infos[last], infos[v]) {
        w := v;
      }
      forall u | 0 <= u < |infos|
        ensures !Less(infos[w], infos[u])
      {
        if u < last {
          assert !Less(infos[..last][v], infos[..last][u]);
        }
      }
    }
  }

  /** When a ring does not take a whole chunk, what it refuses is freed and nothing else happens because of
      it: the part taken does not count towards the next check-in, the next chunk can be sent, and after
      the last one the dispatcher goes on receiving unless a check-in was due before. */
  lemma RefusalForcesNothing(s: State, w: nat)
    requires Inv(s) && Enabled(s, StepSend(w))
    requires RING_CAPACITY - |s.workers[w].ring| < Min(s.dispatcher.chunk, |s.dispatcher.left|)
    ensures var s', size := Send(s, w), Min(s.dispatcher.chunk, |s.dispatcher.left|);
            && s'.checkin == s.checkin && s'.dispatcher == Sending(s.dispatcher.left[size..], s.dispatcher.chunk)
            && |s'.freed| > |s.freed|
            && (s'.dispatcher.left != [] ==> exists v :: Enabled(s', StepSend(v)))
            && (s'.dispatcher.left == [] && s.checkin < CHECKIN_PERIOD ==> Apply(s', StepSent).dispatcher == Receiving)
  {
    hide Accounted, Conserved, Numbered, VersionsOk, TotalOk;
    SendKeepsInv(s, w);
    var s' := Send(s, w);
    var v := SomeoneIsOnTop(s'.infos);
    assert WorkerOk(s'.workers[v]);
    assert s'.dispatcher.left != [] ==> Enabled(s', StepSend(v));
  }

  /** Idle and busy coroutines are always the whole pool, each once; a job that finishes finds room
      in both buffers; a burst from the ring is no larger than the number of idle coroutines. */
  lemma WorkersNeverOverflow(s: State, w: nat, c: nat)
    requires Reachable(s) && w < |s.workers|
    ensures var x := s.workers[w];
            && multiset(x.idle)[c] + Coroutines(x.busy)[c] == (if c < COROUTINES then 1 else 0)
            && |x.idle| + |x.busy| == COROUTINES
            && x.transmit <= TRANSMIT_BURST && |x.returning| <= RETURN_BURST && |x.ring| <= RING_CAPACITY
            && (x.stage == Resume ==> x.transmit < TRANSMIT_BURST && |x.returning| < RETURN_BURST)
            && (x.stage.Dequeue? && x.stage.force ==> |x.idle| == COROUTINES)
  {
    hide Accounted, Conserved, TotalOk, VersionsOk, Partitions;
    ReachableInv(s);
    var x := s.workers[w];
    assert WorkerOk(x);
    PartitionSize(x.idle, x.busy);
    PartitionCount(x.idle, x.busy, c);
  }

  lemma PartitionCount(idle: seq<nat>, busy: seq<Job>, c: nat)
    requires Partitions(idle, busy)
    ensures multiset(idle)[c] + Coroutines(busy)[c] == if c < COROUTINES then 1 else 0
  {
    hide Coroutines, FirstCoroutines;
    PoolCount(COROUTINES, c);
    assert (multiset(idle) + Coroutines(busy))[c] == Pool()[c];
  }

  /** Only an invalid packet can be lost. */
  lemma LostPacketsAreInvalid(s: State, w: nat, p: Packet)
    requires Reachable(s) && w < |s.workers| && p in s.workers[w].lost
    ensures !p.valid
  {
    hide Accounted, Conserved, TotalOk, VersionsOk;
    ReachableInv(s);
    assert WorkerOk(s.workers[w]);
  }
}
