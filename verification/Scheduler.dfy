/** The TinyQuanta server: a dispatcher that hands packets to the least loaded worker, and workers
    that run each packet as a job in a coroutine, one quantum at a time.

    Rings are bounded first-in first-out queues and resuming a coroutine either finishes its job or
    does not.  This is the NEW_DISPATCHER build with the plain deque of busy coroutines. */
module Scheduler {
  import opened Arithmetic

  const COROUTINES: nat := 8            // NUM_WORKER_COROS
  const DISPATCH_UNIT: nat := 4         // MAX_DISPATCH_UNIT
  const RING_CAPACITY: nat := 4095      // DISPATCH_RING_SIZE - 1
  const DISPATCH_PERIOD: nat := 4       // DISPATCH_RING_DEQUEUE_PERIOD
  const TRANSMIT_BURST: nat := 2        // TX_QUEUE_BURST_SIZE
  const TRANSMIT_PERIOD: nat := 4       // TX_DEQUEUE_PERIOD
  const RETURN_BURST: nat := 64         // RETURN_RING_BURST_SIZE
  const CHECKIN_PERIOD: nat := 1        // RETURN_RING_CHECKIN_PERIOD

  datatype Packet = Packet(id: nat, valid: bool)

  datatype Job = Job(coroutine: nat, packet: Packet)

  /** The four parts of a worker's loop. */
  datatype Stage = Resume | Dequeue(force: bool, flush: bool) | Transmit(flush: bool) | Return(flush: bool)

  datatype Worker = Worker(
    ring: seq<Packet>,
    idle: seq<nat>, busy: seq<Job>,
    returning: seq<Packet>,             // return_rx_bufs
    transmit: nat,                      // tx_buf_idx
    finished: nat,                      // curr_sizes, the only thing the dispatcher reads
    dispatchIndex: nat, flushIndex: nat,
    stage: Stage,
    lost: seq<Packet>, discarded: nat)  // history: packets never freed, invalid packets seen

  /** The dispatcher's view of a worker. */
  datatype Info = Info(version: nat, running: int, seen: nat)

  datatype Dispatcher =
    | Receiving
    | Sending(left: seq<Packet>, chunk: nat)
    | CheckingIn(visited: set<nat>, count: nat, returned: int)

  datatype State = State(
    workers: seq<Worker>, infos: seq<Info>, dispatcher: Dispatcher,
    version: nat, total: int, checkin: nat,
    freed: seq<Packet>,
    arrived: seq<Packet>)               // history: everything received so far

  /** The coroutines 0 to n - 1, in the order in which the idle list is filled. */
  function FirstCoroutines(n: nat): seq<nat> {
    if n == 0 then [] else FirstCoroutines(n - 1) + [n - 1]
  }

  function NewWorker(): Worker {
    Worker([], FirstCoroutines(COROUTINES), [], [], 0, 0, 0, 0, Resume, [], 0)
  }

  function Init(n: nat): State {
    State(seq(n, i => NewWorker()), seq(n, i => Info(0, 0, 0)), Receiving, 0, 0, 0, [], [])
  }

  // ----- The dispatcher

  /** The order of the priority queue: a worker not yet checked in, then the one with fewer jobs, is greater. */
  predicate Less(a: Info, b: Info) {
    if a.version != b.version then a.version > b.version else a.running > b.running
  }

  /** A worker that the queue may have on top. */
  predicate IsTop(infos: seq<Info>, w: nat) {
    w < |infos| && forall v :: 0 <= v < |infos| ==> !Less(infos[w], infos[v])
  }

  function Chunk(packets: nat, workers: nat): nat
    requires workers > 0
  {
    (packets + workers - 1) / workers
  }

  /** The next chunk goes to worker `w`; what its ring does not take is freed. */
  function Send(s: State, w: nat): State
    requires s.dispatcher.Sending? && w < |s.workers| == |s.infos| && |s.workers[w].ring| <= RING_CAPACITY
  {
    var Sending(left, chunk) := s.dispatcher;
    var size := Min(chunk, |left|);
    var taken := Min(size, RING_CAPACITY - |s.workers[w].ring|);
    s.(workers := s.workers[w := s.workers[w].(ring := s.workers[w].ring + left[..taken])],
       infos := s.infos[w := s.infos[w].(running := s.infos[w].running + taken)],
       freed := s.freed + left[taken..size],
       total := s.total + taken,
       checkin := if taken == size then s.checkin + taken else s.checkin,
       dispatcher := Sending(left[size..], chunk))
  }

  /** What worker `w` has finished since the last time is taken off its load. */
  function CheckIn(s: State, w: nat): State
    requires s.dispatcher.CheckingIn? && w < |s.workers| == |s.infos|
  {
    var CheckingIn(visited, count, returned) := s.dispatcher;
    var info := s.infos[w];
    var done := s.workers[w].finished - info.seen;
    s.(infos := s.infos[w := Info(info.version + 1, info.running - done, s.workers[w].finished)],
       dispatcher := CheckingIn(visited + {w}, count + 1, returned + done))
  }

  // ----- A worker

  function ResumeFront(w: Worker, finishes: bool): Worker
    requires w.busy != []
  {
    var job := w.busy[0];
    var v := w.(dispatchIndex := w.dispatchIndex + 1, flushIndex := w.flushIndex + 1);
    if finishes then
      v.(busy := w.busy[1..], idle := w.idle + [job.coroutine], returning := w.returning + [job.packet],
         transmit := w.transmit + 1, finished := w.finished + 1)
    else v.(busy := w.busy[1..] + [job])
  }

  function RunQuantum(w: Worker, finishes: bool): Worker {
    var v := if w.busy != [] then ResumeFront(w, finishes) else w;
    v.(stage := Dequeue(v.busy == [], v.busy == [] && v.transmit > 0))
  }

  /** A packet gets a coroutine, in front of all others; an invalid one is to be freed, but is
      forgotten if the return buffer is full. */
  function Admit(w: Worker, p: Packet): Worker {
    if !p.valid then
      if |w.returning| < RETURN_BURST then w.(returning := w.returning + [p], discarded := w.discarded + 1)
      else w.(lost := w.lost + [p], discarded := w.discarded + 1)
    else if w.idle == [] then w
    else w.(idle := w.idle[..|w.idle| - 1], busy := [Job(w.idle[|w.idle| - 1], p)] + w.busy)
  }

  /** The packets of a burst are admitted last to first. */
  function AdmitAll(w: Worker, ps: seq<Packet>): Worker
    decreases |ps|
  {
    if ps == [] then w else AdmitAll(Admit(w, ps[|ps| - 1]), ps[..|ps| - 1])
  }

  function DequeueBurst(w: Worker): Worker
    requires w.stage.Dequeue?
  {
    var v := w.(stage := Transmit(w.stage.flush));
    if w.stage.force || (w.dispatchIndex >= DISPATCH_PERIOD && w.idle != []) then
      var n := Min(|w.ring|, |w.idle|);
      AdmitAll(v.(ring := w.ring[n..], dispatchIndex := 0), w.ring[..n])
    else v
  }

  function TransmitBurst(w: Worker): Worker
    requires w.stage.Transmit?
  {
    var v := w.(stage := Return(w.stage.flush));
    if w.stage.flush || (w.flushIndex >= TRANSMIT_PERIOD && w.transmit != 0) || w.transmit == TRANSMIT_BURST
    then v.(transmit := 0, flushIndex := 0) else v
  }

  predicate Flushes(w: Worker)
    requires w.stage.Return?
  {
    w.stage.flush || |w.returning| == RETURN_BURST
  }

  function Work(s: State, w: nat, finishes: bool): State
    requires w < |s.workers|
  {
    var x := s.workers[w];
    match x.stage
    case Resume => s.(workers := s.workers[w := RunQuantum(x, finishes)])
    case Dequeue(_, _) => s.(workers := s.workers[w := DequeueBurst(x)])
    case Transmit(_) => s.(workers := s.workers[w := TransmitBurst(x)])
    case Return(_) =>
      if Flushes(x) then
        s.(workers := s.workers[w := x.(returning := [], stage := Resume)], freed := s.freed + x.returning)
      else s.(workers := s.workers[w := x.(stage := Resume)])
  }

  // ----- Steps

  datatype Step =
    | StepReceive(packets: seq<Packet>)
    | StepSend(w: nat)
    | StepSent
    | StepCheckIn(w: nat)
    | StepCheckedIn
    | StepWork(w: nat, finishes: bool)

  predicate Fresh(arrived: seq<Packet>, packets: seq<Packet>) {
    forall i :: 0 <= i < |packets| ==> packets[i].id == |arrived| + i
  }

  predicate Enabled(s: State, step: Step) {
    |s.infos| == |s.workers| &&
    match step
    case StepReceive(packets) =>
      s.dispatcher == Receiving && 0 < |packets| <= |s.workers| * DISPATCH_UNIT && Fresh(s.arrived, packets)
    case StepSend(w) =>
      && s.dispatcher.Sending? && s.dispatcher.left != [] && IsTop(s.infos, w)
      && |s.workers[w].ring| <= RING_CAPACITY
    case StepSent => s.dispatcher.Sending? && s.dispatcher.left == []
    case StepCheckIn(w) => s.dispatcher.CheckingIn? && s.dispatcher.count < |s.workers| && IsTop(s.infos, w)
    case StepCheckedIn => s.dispatcher.CheckingIn? && s.dispatcher.count == |s.workers|
    case StepWork(w, _) => w < |s.workers|
  }

  function Apply(s: State, step: Step): State
    requires Enabled(s, step)
  {
    match step
    case StepReceive(packets) =>
      s.(arrived := s.arrived + packets, dispatcher := Sending(packets, Chunk(|packets|, |s.workers|)))
    case StepSend(w) => Send(s, w)
    case StepSent => s.(dispatcher := if s.checkin >= CHECKIN_PERIOD then CheckingIn({}, 0, 0) else Receiving)
    case StepCheckIn(w) => CheckIn(s, w)
    case StepCheckedIn =>
      s.(dispatcher := Receiving, checkin := 0, version := s.version + 1, total := s.total - s.dispatcher.returned)
    case StepWork(w, finishes) => Work(s, w, finishes)
  }
}
