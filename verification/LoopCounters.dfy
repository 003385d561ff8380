/** The counter that insertLoopProbe generates for a loop with a usable induction variable.

    Instead of counting iterations, the generated code compares the induction variable with a
    threshold, moves the threshold on when it fires, and in a nested loop saves the remaining steps
    when the loop is left.  This is compared with the plain counter that the code generates for
    loops without such a variable.

    At run time all values wrap around at the width of the induction variable.  The constants in
    the generated code, however, are computed by the compiler pass as 32-bit integers. */
module LoopCounters {
  import opened Arithmetic

  /** The initial value of the induction variable: a constant, or different for every execution. */
  datatype Initial = Constant(value: int) | Variable

  /** A loop probe every `n` iterations, for a step per iteration and a modulus two to the width. */
  datatype Loop = Loop(n: int, step: int, modulus: int, nested: bool, initial: Initial)

  const INT_MODULUS: int := 0x1_0000_0000
  const INT_MAX: int := 0x7FFF_FFFF

  ghost predicate ValidLoop(l: Loop) {
    1 <= l.n <= INT_MAX && l.modulus in {0x100, 0x1_0000, 0x1_0000_0000, 0x1_0000_0000_0000_0000}
  }

  /** What most of the arithmetic needs of a loop. */
  predicate Proper(l: Loop) {
    l.n >= 1 && l.modulus >= 2
  }

  /** One execution of the loop: the initial value and how often the back edge is taken. */
  datatype Trip = Trip(init: int, rounds: nat)

  ghost predicate Possible(l: Loop, trips: seq<Trip>) {
    l.initial.Constant? ==> forall i :: 0 <= i < |trips| ==> trips[i].init == l.initial.value
  }

  function Wrap(l: Loop, x: int): int
    requires Proper(l)
  {
    x % l.modulus
  }

  // ----- Constants of the generated code

  /** Conversion to `int`. */
  function Int32(x: int): int {
    (x + INT_MAX + 1) % INT_MODULUS - INT_MAX - 1
  }

  /** NumIters * StepValue. */
  function Stride(l: Loop): int {
    Int32(l.n * Int32(l.step))
  }

  /** The threshold stored on entry: from the residual steps in a nested loop. */
  function EntryThreshold(l: Loop, residual: int, init: int): int
    requires Proper(l)
  {
    match l.initial
    case Constant(_) => if l.nested then Wrap(l, residual + Int32(init)) else Wrap(l, Int32(Int32(init) + Stride(l)))
    case Variable => if l.nested then Wrap(l, residual + init) else Wrap(l, init + Stride(l))
  }

  // ----- Plain counter

  /** Which back edges of a trip fire, starting from a count, and the count afterwards. */
  function Count(l: Loop, count: int, rounds: nat): (seq<bool>, int)
    decreases rounds
  {
    if rounds == 0 then ([], count)
    else
      var fires := count + 1 == l.n;
      var (rest, after) := Count(l, if fires then 0 else count + 1, rounds - 1);
      ([fires] + rest, after)
  }

  /** Outside a nest the count starts afresh with every trip. */
  function CountTrips(l: Loop, count: int, trips: seq<Trip>): seq<bool>
    decreases |trips|
  {
    if trips == [] then []
    else
      var (fires, after) := Count(l, if l.nested then count else 0, trips[0].rounds);
      fires + CountTrips(l, after, trips[1..])
  }

  // ----- Induction variable

  /** The back edges of a trip: compare the next value with the threshold. */
  function Watch(l: Loop, iv: int, threshold: int, rounds: nat): (seq<bool>, int, int)
    requires Proper(l)
    decreases rounds
  {
    if rounds == 0 then ([], iv, threshold)
    else
      var next := Wrap(l, iv + l.step);
      var fires := next == threshold;
      var (rest, iv', threshold') :=
        Watch(l, next, if fires then Wrap(l, threshold + Stride(l)) else threshold, rounds - 1);
      ([fires] + rest, iv', threshold')
  }

  /** On entry the threshold is set, on exit the residual steps are saved. */
  function WatchTrips(l: Loop, residual: int, trips: seq<Trip>): seq<bool>
    requires Proper(l)
    decreases |trips|
  {
    if trips == [] then []
    else
      var start := EntryThreshold(l, residual, trips[0].init);
      var (fires, iv, threshold) := Watch(l, Wrap(l, trips[0].init), start, trips[0].rounds);
      fires + WatchTrips(l, Wrap(l, threshold - iv), trips[1..])
  }

  // ----- Arithmetic with wrap-around

  lemma WrapShift(m: int, x: int, k: int)
    requires m > 0
    ensures (x + k * m) % m == x % m
    decreases if k >= 0 then k else -k
  {
    if k > 0 {
      WrapShift(m, x, k - 1);
      AddOnce(m, x + (k - 1) * m);
      assert x + k * m == x + (k - 1) * m + m;
    } else if k < 0 {
      WrapShift(m, x, k + 1);
      AddOnce(m, x + k * m);
      assert x + k * m + m == x + (k + 1) * m;
    }
  }

  lemma AddOnce(m: int, x: int)
    requires m > 0
    ensures (x + m) % m == x % m
  {
    var q, r := x / m, x % m;
    assert x + m == (q + 1) * m + r;
    RemainderIs(x + m, m, q + 1, r);
  }

  lemma WrapAdd(m: int, x: int, y: int)
    requires m > 0
    ensures (x % m + y) % m == (x + y) % m
  {
    WrapShift(m, x % m + y, x / m);
    assert x % m + y + (x / m) * m == x + y;
  }

  lemma WrapEqual(m: int, x: int, y: int)
    requires m > 0
    ensures x % m == y % m <==> (x - y) % m == 0
  {
    var d := x / m - y / m;
    WrapShift(m, x % m - y % m, d);
    assert x - y == x % m - y % m + d * m;
    assert -m < x % m - y % m < m;
    if x % m - y % m < 0 {
      AddOnce(m, x % m - y % m);
    }
  }

  // ----- When the generated code is right

  /** No fewer than `n` steps come back to the value they started from. */
  ghost predicate NoEarlyWrap(l: Loop)
    requires Proper(l)
  {
    forall r :: 0 < r < l.n ==> (r * l.step) % l.modulus != 0
  }

  /** How far the first threshold of a run is ahead of the initial value. */
  function Lead(l: Loop): int {
    match l.initial
    case Constant(c) => if l.nested then Stride(l) + Int32(c) - c else Int32(Int32(c) + Stride(l)) - c
    case Variable => Stride(l)
  }

  /** The constants that the pass computes stand for `n` steps at the width of the variable. */
  ghost predicate StrideFits(l: Loop)
    requires Proper(l)
  {
    (Stride(l) - l.n * l.step) % l.modulus == 0
  }

  ghost predicate LeadFits(l: Loop)
    requires Proper(l)
  {
    (Lead(l) - l.n * l.step) % l.modulus == 0
  }

  // ----- It is right then

  /** How far `k` iterations move the induction variable. */
  function Steps(l: Loop, k: int): int {
    k * l.step
  }

  lemma NoSteps(l: Loop)
    ensures Steps(l, 0) == 0 && Steps(l, l.n) == l.n * l.step
  {
  }

  lemma StepsMinusOne(l: Loop, k: int)
    ensures Steps(l, k) == l.step + Steps(l, k - 1)
  {
  }

  lemma WrapSum(l: Loop, x: int, y: int)
    requires Proper(l)
    ensures Wrap(l, Wrap(l, x) + y) == Wrap(l, x + y)
  {
    WrapAdd(l.modulus, x, y);
  }

  lemma WrapSame(l: Loop, x: int, y: int)
    requires Proper(l)
    ensures Wrap(l, x) == Wrap(l, y) <==> (x - y) % l.modulus == 0
  {
    WrapEqual(l.modulus, x, y);
  }

  /** Adding the stride is adding `n` steps. */
  lemma StrideIsSteps(l: Loop, x: int)
    requires Proper(l) && StrideFits(l)
    ensures Wrap(l, x + Stride(l)) == Wrap(l, x + Steps(l, l.n))
  {
    hide Wrap, Stride;
    WrapSame(l, x + Stride(l), x + Steps(l, l.n));
    assert x + Stride(l) - (x + Steps(l, l.n)) == Stride(l) - l.n * l.step;
  }

  lemma FiresTogether(l: Loop, x: int, count: int)
    requires Proper(l) && NoEarlyWrap(l) && 0 <= count < l.n
    ensures Wrap(l, x + l.step) == Wrap(l, x + Steps(l, l.n - count)) <==> count + 1 == l.n
  {
    var r := l.n - count - 1;
    WrapEqual(l.modulus, x + Steps(l, l.n - count), x + l.step);
    StepsMinusOne(l, l.n - count);
    assert Steps(l, l.n - count) - l.step == r * l.step;
    if r == 0 {
      NoSteps(l);
    }
  }

  /** One back edge: the value, whether the probe fires, and the threshold afterwards. */
  lemma OneRound(l: Loop, x: int, count: int, rounds: nat)
    requires Proper(l) && NoEarlyWrap(l) && StrideFits(l) && 0 <= count < l.n && rounds > 0
    ensures Wrap(l, Wrap(l, x) + l.step) == Wrap(l, x + l.step)
    ensures Wrap(l, x + l.step) == Wrap(l, x + Steps(l, l.n - count)) <==> count + 1 == l.n
    ensures count + 1 == l.n ==>
              Wrap(l, Wrap(l, x + Steps(l, l.n - count)) + Stride(l)) == Wrap(l, x + l.step + Steps(l, l.n - 0))
    ensures x + Steps(l, l.n - count) == x + l.step + Steps(l, l.n - (count + 1))
    ensures x + Steps(l, rounds) == x + l.step + Steps(l, rounds - 1)
  {
    hide Wrap, Steps, NoEarlyWrap, Stride, StrideFits;
    WrapSum(l, x, l.step);
    FiresTogether(l, x, count);
    StepsMinusOne(l, l.n - count);
    StepsMinusOne(l, rounds);
    if count + 1 == l.n {
      WrapSum(l, x + l.step, Stride(l));
      StrideIsSteps(l, x + l.step);
      NoSteps(l);
    }
  }

  /** Within a trip: if the threshold is ahead by the iterations that the plain counter still has to
      go, both fire on the same back edges and stay in this relation. */
  lemma {:induction false} WatchIsCount(l: Loop, x: int, count: int, rounds: nat)
    requires Proper(l) && NoEarlyWrap(l) && StrideFits(l) && 0 <= count < l.n
    ensures var (fires, iv, threshold) := Watch(l, Wrap(l, x), Wrap(l, x + Steps(l, l.n - count)), rounds);
            var (fires', count') := Count(l, count, rounds);
            && fires == fires' && 0 <= count' < l.n
            && iv == Wrap(l, x + Steps(l, rounds))
            && threshold == Wrap(l, x + Steps(l, rounds) + Steps(l, l.n - count'))
    decreases rounds
  {
    hide Wrap, Steps, NoEarlyWrap, Stride, StrideFits;
    if rounds == 0 {
      NoSteps(l);
    } else {
      OneRound(l, x, count, rounds);
      WatchIsCount(l, x + l.step, if count + 1 == l.n then 0 else count + 1, rounds - 1);
    }
  }

  /** The threshold on entry is as far ahead as the plain counter has to go. */
  lemma EntryIsAhead(l: Loop, init: int, count: int)
    requires Proper(l) && StrideFits(l) && LeadFits(l)
    requires l.initial.Constant? ==> init == l.initial.value
    ensures var c := if l.nested then count else 0;
            EntryThreshold(l, Wrap(l, Steps(l, l.n - count)), init) == Wrap(l, init + Steps(l, l.n - c))
  {
    hide Wrap, Int32, Stride, Steps, StrideFits, LeadFits;
    NoSteps(l);
    if l.nested {
      WrapSum(l, Steps(l, l.n - count), if l.initial.Constant? then Int32(init) else init);
      if l.initial.Constant? {
        ConstantIsKept(l);
        WrapSame(l, Steps(l, l.n - count) + Int32(init), init + Steps(l, l.n - count));
        assert Steps(l, l.n - count) + Int32(init) - (init + Steps(l, l.n - count)) == Int32(init) - init;
      }
    } else if l.initial.Constant? {
      LeadIsSteps(l, init);
    } else {
      StrideIsSteps(l, init);
    }
  }

  lemma LeadIsSteps(l: Loop, x: int)
    requires Proper(l) && LeadFits(l)
    ensures Wrap(l, x + Lead(l)) == Wrap(l, x + Steps(l, l.n))
  {
    hide Wrap, Lead;
    WrapSame(l, x + Lead(l), x + Steps(l, l.n));
    assert x + Lead(l) - (x + Steps(l, l.n)) == Lead(l) - l.n * l.step;
  }

  /** In a nested loop, both conditions together say that the constant survives the conversion. */
  lemma ConstantIsKept(l: Loop)
    requires Proper(l) && StrideFits(l) && LeadFits(l) && l.nested && l.initial.Constant?
    ensures (Int32(l.initial.value) - l.initial.value) % l.modulus == 0
  {
    hide Int32, Stride;
    WrapEqual(l.modulus, Lead(l) - l.n * l.step, Stride(l) - l.n * l.step);
  }

  /** Over any sequence of trips, if the residual stands for what the plain counter has to go. */
  lemma {:induction false} TripsAgree(l: Loop, count: int, trips: seq<Trip>)
    requires Proper(l) && NoEarlyWrap(l) && StrideFits(l) && LeadFits(l) && 0 <= count < l.n && Possible(l, trips)
    ensures WatchTrips(l, Wrap(l, Steps(l, l.n - count)), trips) == CountTrips(l, count, trips)
    decreases |trips|
  {
    hide Wrap, NoEarlyWrap, StrideFits, LeadFits, EntryThreshold;
    if trips != [] {
      var c, init, k := if l.nested then count else 0, trips[0].init, trips[0].rounds;
      EntryIsAhead(l, init, count);
      WatchIsCount(l, init, c, k);
      var (_, after) := Count(l, c, k);
      SavedResidual(l, init + Steps(l, k), after);
      TripsAgree(l, after, trips[1..]);
    }
  }

  /** What is saved on exit is one to `n` steps. */
  lemma SavedResidual(l: Loop, x: int, count: int)
    requires Proper(l)
    ensures Wrap(l, Wrap(l, x + Steps(l, l.n - count)) - Wrap(l, x)) == Wrap(l, Steps(l, l.n - count))
  {
    var m, d := l.modulus, Steps(l, l.n - count);
    WrapAdd(m, x + d, -(x % m));
    WrapShift(m, x + d - x % m, -(x / m));
    assert x + d - x % m + (-(x / m)) * m == d;
  }

  // ----- And only then

  lemma {:induction false} WatchLength(l: Loop, iv: int, threshold: int, rounds: nat)
    requires Proper(l)
    ensures |Watch(l, iv, threshold, rounds).0| == rounds
    decreases rounds
  {
    hide Wrap, Stride;
    if rounds > 0 {
      var next := Wrap(l, iv + l.step);
      WatchLength(l, next, if next == threshold then Wrap(l, threshold + Stride(l)) else threshold, rounds - 1);
    }
  }

  /** The first back edge that fires is the first one at which the variable meets the threshold. */
  lemma {:induction false} FireAt(l: Loop, x: int, threshold: int, rounds: nat, i: nat)
    requires Proper(l) && i < rounds && |Watch(l, Wrap(l, x), threshold, rounds).0| == rounds
    requires forall j :: 0 <= j < i ==> !Watch(l, Wrap(l, x), threshold, rounds).0[j]
    ensures Watch(l, Wrap(l, x), threshold, rounds).0[i] <==> Wrap(l, x + Steps(l, i + 1)) == threshold
    decreases i
  {
    hide Wrap, Stride, Steps;
    var fires := Watch(l, Wrap(l, x), threshold, rounds).0;
    WrapSum(l, x, l.step);
    StepsMinusOne(l, i + 1);
    if i == 0 {
      NoSteps(l);
    } else {
      assert !fires[0];
      var rest := Watch(l, Wrap(l, x + l.step), threshold, rounds - 1).0;
      assert fires == [false] + rest;
      assert forall j :: 0 <= j < i - 1 ==> rest[j] == fires[j + 1];
      FireAt(l, x + l.step, threshold, rounds - 1, i - 1);
    }
  }

  /** What a trip leaves behind that fires at its end and not before. */
  lemma {:induction false} AfterFire(l: Loop, x: int, threshold: int, rounds: nat)
    requires Proper(l) && rounds > 0 && |Watch(l, Wrap(l, x), threshold, rounds).0| == rounds
    requires forall j :: 0 <= j < rounds ==> (Watch(l, Wrap(l, x), threshold, rounds).0[j] <==> j == rounds - 1)
    ensures Watch(l, Wrap(l, x), threshold, rounds).1 == Wrap(l, x + Steps(l, rounds))
    ensures Watch(l, Wrap(l, x), threshold, rounds).2 == Wrap(l, threshold + Stride(l))
    decreases rounds
  {
    hide Wrap, Stride, Steps;
    var fires := Watch(l, Wrap(l, x), threshold, rounds).0;
    WrapSum(l, x, l.step);
    StepsMinusOne(l, rounds);
    assert fires[0] <==> rounds == 1;
    if rounds == 1 {
      NoSteps(l);
    } else {
      var rest := Watch(l, Wrap(l, x + l.step), threshold, rounds - 1).0;
      assert fires == [false] + rest;
      assert forall j :: 0 <= j < rounds - 1 ==> rest[j] == fires[j + 1];
      AfterFire(l, x + l.step, threshold, rounds - 1);
    }
  }

  lemma {:induction false} WatchSplit(l: Loop, iv: int, threshold: int, a: nat, b: nat)
    requires Proper(l)
    ensures var first := Watch(l, iv, threshold, a);
            Watch(l, iv, threshold, a + b).0 == first.0 + Watch(l, first.1, first.2, b).0
    decreases a
  {
    hide Wrap, Stride;
    if a > 0 {
      var next := Wrap(l, iv + l.step);
      WatchSplit(l, next, if next == threshold then Wrap(l, threshold + Stride(l)) else threshold, a - 1, b);
    }
  }

  /** The plain counter fires at the `n`-th back edge and starts afresh. */
  lemma {:induction false} CountFires(l: Loop, count: int, more: nat)
    requires 0 <= count < l.n
    ensures var togo := l.n - count;
            && |Count(l, count, togo).0| == togo && Count(l, count, togo).1 == 0
            && (forall i :: 0 <= i < togo ==> (Count(l, count, togo).0[i] <==> i == togo - 1))
            && Count(l, count, togo + more).0 == Count(l, count, togo).0 + Count(l, 0, more).0
    decreases l.n - count
  {
    if count + 1 < l.n {
      CountFires(l, count + 1, more);
    }
  }

  /** One trip of the generated code and of the plain counter. */
  function OneTrip(l: Loop, init: int, rounds: nat): seq<bool>
    requires Proper(l)
  {
    WatchTrips(l, Wrap(l, Stride(l)), [Trip(init, rounds)])
  }

  ghost predicate IsStart(l: Loop, init: int) {
    l.initial.Constant? ==> init == l.initial.value
  }

  lemma OneTripIs(l: Loop, init: int, rounds: nat)
    requires Proper(l) && IsStart(l, init)
    ensures OneTrip(l, init, rounds) == Watch(l, Wrap(l, init), Wrap(l, init + Lead(l)), rounds).0
    ensures CountTrips(l, 0, [Trip(init, rounds)]) == Count(l, 0, rounds).0
  {
    hide Wrap, Int32, Stride, Watch, Count;
    var trips := [Trip(init, rounds)];
    assert trips[1..] == [];
    WrapSum(l, Stride(l), if l.initial.Constant? then Int32(init) else init);
    assert EntryThreshold(l, Wrap(l, Stride(l)), init) == Wrap(l, init + Lead(l));
    var (fires, iv, threshold) := Watch(l, Wrap(l, init), Wrap(l, init + Lead(l)), rounds);
    assert fires + WatchTrips(l, Wrap(l, threshold - iv), []) == fires;
    var (fires', after) := Count(l, 0, rounds);
    assert fires' + CountTrips(l, after, []) == fires';
  }

  /** If the first threshold is not `n` steps ahead, the first `n` back edges go wrong. */
  lemma WrongLead(l: Loop, init: int)
    requires Proper(l) && IsStart(l, init) && !LeadFits(l)
    ensures OneTrip(l, init, l.n) != CountTrips(l, 0, [Trip(init, l.n)])
  {
    hide Wrap, Lead, Stride, OneTrip, CountTrips, Count, Watch;
    var threshold := Wrap(l, init + Lead(l));
    var fires := Watch(l, Wrap(l, init), threshold, l.n).0;
    OneTripIs(l, init, l.n);
    CountFires(l, 0, 0);
    WatchLength(l, Wrap(l, init), threshold, l.n);
    WrapSame(l, init + Lead(l), init + Steps(l, l.n));
    assert init + Lead(l) - (init + Steps(l, l.n)) == Lead(l) - l.n * l.step;
    if forall j :: 0 <= j < l.n - 1 ==> !fires[j] {
      FireAt(l, init, threshold, l.n, l.n - 1);
      assert !fires[l.n - 1];
    }
  }

  /** If fewer than `n` steps wrap around to zero, the probe fires among the first `n - 1` back edges. */
  lemma EarlyFire(l: Loop, init: int, r: int)
    requires Proper(l) && IsStart(l, init) && LeadFits(l) && 0 < r < l.n && (r * l.step) % l.modulus == 0
    ensures OneTrip(l, init, l.n) != CountTrips(l, 0, [Trip(init, l.n)])
  {
    hide Wrap, Lead, Stride, OneTrip, CountTrips, Count, Watch;
    var threshold, k := Wrap(l, init + Lead(l)), l.n - r;
    var fires := Watch(l, Wrap(l, init), threshold, l.n).0;
    OneTripIs(l, init, l.n);
    CountFires(l, 0, 0);
    WatchLength(l, Wrap(l, init), threshold, l.n);
    LeadIsSteps(l, init);
    WrapSame(l, init + Steps(l, l.n), init + Steps(l, k));
    assert init + Steps(l, l.n) - (init + Steps(l, k)) == r * l.step;
    if forall j :: 0 <= j < k - 1 ==> !fires[j] {
      FireAt(l, init, threshold, l.n, k - 1);
      assert fires[k - 1];
    }
  }

  /** If the threshold is not moved by `n` steps, the second `n` back edges go wrong. */
  lemma WrongStride(l: Loop, init: int)
    requires Proper(l) && IsStart(l, init) && LeadFits(l) && !StrideFits(l)
    ensures OneTrip(l, init, 2 * l.n) != CountTrips(l, 0, [Trip(init, 2 * l.n)])
  {
    hide Wrap, Lead, Stride, OneTrip, CountTrips, Count, Watch, Steps;
    var threshold := Wrap(l, init + Lead(l));
    var first := Watch(l, Wrap(l, init), threshold, l.n);
    OneTripIs(l, init, 2 * l.n);
    CountFires(l, 0, l.n);
    WatchLength(l, Wrap(l, init), threshold, l.n);
    WatchSplit(l, Wrap(l, init), threshold, l.n, l.n);
    PartsAgree(first.0, Count(l, 0, l.n).0, Watch(l, first.1, first.2, l.n).0, Count(l, 0, l.n).0);
    if first.0 == Count(l, 0, l.n).0 {
      AfterFire(l, init, threshold, l.n);
      SecondRound(l, init, first.1, first.2);
    }
  }

  lemma PartsAgree(a: seq<bool>, b: seq<bool>, x: seq<bool>, y: seq<bool>)
    requires |a| == |b|
    ensures a + x == b + y <==> a == b && x == y
  {
    assert (a + x)[..|a|] == a && (a + x)[|a|..] == x;
    assert (b + y)[..|b|] == b && (b + y)[|b|..] == y;
  }

  lemma SecondRound(l: Loop, init: int, iv: int, threshold: int)
    requires Proper(l) && LeadFits(l) && !StrideFits(l)
    requires iv == Wrap(l, init + Steps(l, l.n)) && threshold == Wrap(l, Wrap(l, init + Lead(l)) + Stride(l))
    ensures Watch(l, iv, threshold, l.n).0 != Count(l, 0, l.n).0
  {
    hide Wrap, Lead, Stride, Count, Watch;
    var fires := Watch(l, iv, threshold, l.n).0;
    var x := init + Steps(l, l.n);
    CountFires(l, 0, 0);
    WatchLength(l, iv, threshold, l.n);
    LeadIsSteps(l, init);
    WrapSum(l, x, Stride(l));
    WrapSame(l, x + Stride(l), x + Steps(l, l.n));
    assert x + Stride(l) - (x + Steps(l, l.n)) == Stride(l) - l.n * l.step;
    if forall j :: 0 <= j < l.n - 1 ==> !fires[j] {
      FireAt(l, x, threshold, l.n, l.n - 1);
      assert !fires[l.n - 1];
    }
  }

  /** The generated code fires on exactly the back edges the plain counter would, counted across all
      trips of a nested loop, for every possible sequence of trips, if and only if the constants
      computed by the pass stand for `n` steps at the width of the variable and no smaller number
      of steps wraps around to zero. */
  lemma ThresholdRefinesCounter(l: Loop)
    requires ValidLoop(l)
    ensures StrideFits(l) && LeadFits(l) && NoEarlyWrap(l) <==>
            forall trips :: Possible(l, trips) ==> WatchTrips(l, Wrap(l, Stride(l)), trips) == CountTrips(l, 0, trips)
  {
    hide Wrap, Stride, Lead, WatchTrips, CountTrips;
    if StrideFits(l) && LeadFits(l) && NoEarlyWrap(l) {
      forall trips | Possible(l, trips)
        ensures WatchTrips(l, Wrap(l, Stride(l)), trips) == CountTrips(l, 0, trips)
      {
        FirstResidual(l);
        TripsAgree(l, 0, trips);
      }
    } else {
      var init := if l.initial.Constant? then l.initial.value else 0;
      assert Possible(l, [Trip(init, l.n)]) && Possible(l, [Trip(init, 2 * l.n)]);
      if !LeadFits(l) {
        WrongLead(l, init);
      } else if !StrideFits(l) {
        WrongStride(l, init);
      } else {
        var r :| 0 < r < l.n && (r * l.step) % l.modulus == 0;
        EarlyFire(l, init, r);
      }
    }
  }

  lemma FirstResidual(l: Loop)
    requires Proper(l) && StrideFits(l)
    ensures Wrap(l, Stride(l)) == Wrap(l, Steps(l, l.n - 0))
  {
    hide Wrap, Stride;
    StrideIsSteps(l, 0);
  }

  // ----- Which loops meet the condition

  /** No early wrap-around when all the steps between two probes fit the width. */
  lemma FittingStepsDoNotWrap(l: Loop)
    requires Proper(l) && l.step != 0
    requires (l.n - 1) * l.step < l.modulus && -l.modulus < (l.n - 1) * l.step
    ensures NoEarlyWrap(l)
  {
    forall r | 0 < r < l.n
      ensures (r * l.step) % l.modulus != 0
    {
      var d := r * l.step;
      SmallerMultiple(r, l.n - 1, l.step);
      if d < 0 {
        AddOnce(l.modulus, d);
        RemainderIs(d + l.modulus, l.modulus, 0, d + l.modulus);
      } else {
        RemainderIs(d, l.modulus, 0, d);
      }
    }
  }

  lemma SmallerMultiple(r: int, n: int, step: int)
    requires 0 < r <= n && step != 0
    ensures step > 0 ==> 0 < r * step <= n * step
    ensures step < 0 ==> n * step <= r * step < 0
  {
    assert n * step - r * step == (n - r) * step;
    if step > 0 {
      assert (n - r) * step >= 0;
      assert r * step >= step;
    } else {
      assert (n - r) * step <= 0;
      assert r * step <= step;
    }
  }

  /** Conversion to `int` changes a number by a multiple of its modulus. */
  lemma ConversionShift(x: int) returns (q: int)
    ensures Int32(x) == x + q * INT_MODULUS && -INT_MAX - 1 <= Int32(x) <= INT_MAX
  {
    q := -((x + INT_MAX + 1) / INT_MODULUS);
  }

  lemma ConversionKeeps(x: int)
    requires -INT_MAX - 1 <= x <= INT_MAX
    ensures Int32(x) == x
  {
  }

  lemma IntMultiple(m: int, q: int)
    requires m in {0x100, 0x1_0000, 0x1_0000_0000}
    ensures (q * INT_MODULUS) % m == 0
  {
    var k := if m == 0x100 then 0x100_0000 else if m == 0x1_0000 then 0x1_0000 else 1;
    WrapShift(m, 0, q * k);
    assert q * INT_MODULUS == 0 + (q * k) * m;
  }

  /** For variables of up to 32 bits the conversions do no harm, whatever the step and the initial value. */
  lemma NarrowVariablesFit(l: Loop)
    requires ValidLoop(l) && l.modulus <= INT_MODULUS
    ensures StrideFits(l) && LeadFits(l)
  {
    hide Int32;
    var q := ConversionShift(l.step);
    var p := ConversionShift(l.n * Int32(l.step));
    assert Stride(l) - l.n * l.step == (l.n * q + p) * INT_MODULUS by {
      assert l.n * (l.step + q * INT_MODULUS) == l.n * l.step + l.n * q * INT_MODULUS;
    }
    IntMultiple(l.modulus, l.n * q + p);
    match l.initial
    case Variable =>
    case Constant(c) =>
      var u := ConversionShift(c);
      var v := ConversionShift(Int32(c) + Stride(l));
      if l.nested {
        IntMultiple(l.modulus, l.n * q + p + u);
        assert Lead(l) - l.n * l.step == (l.n * q + p + u) * INT_MODULUS;
      } else {
        IntMultiple(l.modulus, l.n * q + p + u + v);
        assert Lead(l) - l.n * l.step == (l.n * q + p + u + v) * INT_MODULUS;
      }
  }

  predicate IsInt(x: int) {
    -INT_MAX - 1 <= x <= INT_MAX
  }

  /** Nor for 64-bit variables when step, stride, a constant initial value and, outside a nest, the
      first threshold are all within the range of `int`. */
  lemma SmallConstantsFit(l: Loop)
    requires Proper(l) && IsInt(l.step) && IsInt(l.n * l.step)
    requires l.initial.Constant? ==> IsInt(l.initial.value) && (l.nested || IsInt(l.initial.value + l.n * l.step))
    ensures StrideFits(l) && LeadFits(l)
  {
    ConversionKeeps(l.step);
    ConversionKeeps(l.n * l.step);
    if l.initial.Constant? {
      ConversionKeeps(l.initial.value);
      if !l.nested {
        ConversionKeeps(l.initial.value + l.n * l.step);
      }
    }
  }

  // ----- Loops over 64-bit variables that do not

  /** A constant initial value of 2^40: the threshold is lost far below it. */
  lemma LargeInitialValue(nested: bool)
    ensures var l := Loop(100, 1, 0x1_0000_0000_0000_0000, nested, Constant(0x100_0000_0000));
            && ValidLoop(l) && NoEarlyWrap(l) && StrideFits(l) && !LeadFits(l)
            && OneTrip(l, 0x100_0000_0000, 100) != CountTrips(l, 0, [Trip(0x100_0000_0000, 100)])
  {
    var l := Loop(100, 1, 0x1_0000_0000_0000_0000, nested, Constant(0x100_0000_0000));
    hide OneTrip, CountTrips;
    FittingStepsDoNotWrap(l);
    WrongLead(l, 0x100_0000_0000);
  }

  /** A step of 2^40: the stride becomes zero and the threshold stays where it is. */
  lemma LargeStep(nested: bool)
    ensures var l := Loop(100, 0x100_0000_0000, 0x1_0000_0000_0000_0000, nested, Variable);
            && ValidLoop(l) && NoEarlyWrap(l) && !StrideFits(l) && !LeadFits(l)
            && OneTrip(l, 0, 100) != CountTrips(l, 0, [Trip(0, 100)])
  {
    var l := Loop(100, 0x100_0000_0000, 0x1_0000_0000_0000_0000, nested, Variable);
    hide OneTrip, CountTrips;
    FittingStepsDoNotWrap(l);
    WrongLead(l, 0);
  }

  /** An initial value ten below 2^31: the first threshold overflows to a negative number. */
  lemma OverflowingThreshold()
    ensures var l := Loop(100, 1, 0x1_0000_0000_0000_0000, false, Constant(0x7FFF_FFF6));
            && ValidLoop(l) && NoEarlyWrap(l) && StrideFits(l) && !LeadFits(l)
            && OneTrip(l, 0x7FFF_FFF6, 100) != CountTrips(l, 0, [Trip(0x7FFF_FFF6, 100)])
  {
    var l := Loop(100, 1, 0x1_0000_0000_0000_0000, false, Constant(0x7FFF_FFF6));
    hide OneTrip, CountTrips;
    FittingStepsDoNotWrap(l);
    WrongLead(l, 0x7FFF_FFF6);
  }

  /** A stride of 2^32 behind an initial value of -2^32: the first threshold happens to be right, but
      it is never moved. */
  lemma UnmovedThreshold()
    ensures var l := Loop(0x10_0000, 0x1000, 0x1_0000_0000_0000_0000, false, Constant(-0x1_0000_0000));
            && ValidLoop(l) && NoEarlyWrap(l) && !StrideFits(l) && LeadFits(l)
            && OneTrip(l, -0x1_0000_0000, 0x20_0000) != CountTrips(l, 0, [Trip(-0x1_0000_0000, 0x20_0000)])
  {
    var l := Loop(0x10_0000, 0x1000, 0x1_0000_0000_0000_0000, false, Constant(-0x1_0000_0000));
    hide OneTrip, CountTrips;
    FittingStepsDoNotWrap(l);
    WrongStride(l, -0x1_0000_0000);
  }
}
