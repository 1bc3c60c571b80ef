/** How raid-graphics.py sets up its requests and its goal, and the state a run starts from. */
module SimSetup {
  import opened Arithmetic
  import opened Sums
  import opened SimRequest
  import opened SimState
  import opened SimProofs

  /** One entry of the hand-passed request list. */
  datatype Ask = Ask(logical: nat, op: Op)

  // ---------- full-stripe marking (level 4) ----------

  /** The t-th three queue entries have consecutive addresses. */
  predicate Marked(asks: seq<Ask>, t: nat) {
    && 3 * t + 2 < |asks|
    && asks[3 * t + 1].logical == asks[3 * t].logical + 1
    && asks[3 * t + 2].logical == asks[3 * t].logical + 2
  }

  function InitReq(m: Mapping, asks: seq<Ask>, i: nat): Req
    requires i < |asks|
  {
    var full := m.Parity4? && Marked(asks, i / 3);
    NewReq(m, asks[i].logical, asks[i].op, full, full && i % 3 == 2)
  }

  function InitReqs(m: Mapping, asks: seq<Ask>): seq<Req> {
    seq(|asks|, i requires 0 <= i < |asks| => InitReq(m, asks, i))
  }

  // ---------- request_count_needed ----------

  /** What the set-up adds to the goal for one request beyond the one it counts for every request. */
  function Extra(m: Mapping, op: Op): nat {
    if op == OpRead then 0
    else match m
      case Striped => 0
      case Mirrored => 1
      case Parity4 => 3
      case Parity5 => 3
  }

  function BaseGoal(m: Mapping, asks: seq<Ask>, n: nat): nat
    requires n <= |asks|
  {
    if n == 0 then 0 else BaseGoal(m, asks, n - 1) + 1 + Extra(m, asks[n - 1].op)
  }

  /** Marked triples among the first t. */
  function Marks(asks: seq<Ask>, t: nat): nat {
    if t == 0 then 0 else Marks(asks, t - 1) + Flag(Marked(asks, t - 1))
  }

  /** request_count_needed: every marked triple takes eight off, whatever its operations are. */
  function Goal(m: Mapping, asks: seq<Ask>): int {
    BaseGoal(m, asks, |asks|) - (if m.Parity4? then 8 * Marks(asks, (|asks| + 2) / 3) else 0)
  }

  /** The physical I/Os the first n requests really need. */
  ghost function Work(m: Mapping, asks: seq<Ask>, n: nat): nat
    requires n <= |asks|
  {
    if n == 0 then 0 else Work(m, asks, n - 1) + Needs(m, InitReq(m, asks, n - 1))
  }

  lemma {:induction false} WorkIsTotal(m: Mapping, asks: seq<Ask>, n: nat)
    requires n <= |asks|
    ensures Total(InitReqs(m, asks)[..n], NeedsIn(m)) == Work(m, asks, n)
  {
    if n > 0 {
      assert InitReqs(m, asks)[..n][..n - 1] == InitReqs(m, asks)[..n - 1];
      WorkIsTotal(m, asks, n - 1);
    }
  }

  /** Every marked triple consists of three writes. */
  ghost predicate MarkedAreWrites(asks: seq<Ask>) {
    forall t: nat :: Marked(asks, t) ==> TripleWrites(asks, t)
  }

  ghost predicate TripleWrites(asks: seq<Ask>, t: nat)
    requires 3 * t + 2 < |asks|
  {
    asks[3 * t].op == OpWrite && asks[3 * t + 1].op == OpWrite && asks[3 * t + 2].op == OpWrite
  }

  ghost predicate WritesBelow(asks: seq<Ask>, t: nat) {
    forall u: nat :: u < t && Marked(asks, u) ==> TripleWrites(asks, u)
  }

  /** What the goal counts for a request before marking, beyond the I/Os it really needs. */
  ghost function Saving(m: Mapping, asks: seq<Ask>, i: nat): int
    requires i < |asks|
  {
    1 + Extra(m, asks[i].op) - Needs(m, InitReq(m, asks, i))
  }

  lemma SavingStep(m: Mapping, asks: seq<Ask>, i: nat)
    requires i < |asks|
    ensures BaseGoal(m, asks, i + 1) - Work(m, asks, i + 1) ==
            BaseGoal(m, asks, i) - Work(m, asks, i) + Saving(m, asks, i)
  {
  }

  lemma SavingThree(m: Mapping, asks: seq<Ask>, i: nat)
    requires i + 2 < |asks|
    ensures BaseGoal(m, asks, i + 3) - Work(m, asks, i + 3) == BaseGoal(m, asks, i) - Work(m, asks, i)
            + Saving(m, asks, i) + Saving(m, asks, i + 1) + Saving(m, asks, i + 2)
  {
    SavingStep(m, asks, i);
    SavingStep(m, asks, i + 1);
    SavingStep(m, asks, i + 2);
  }

  /** Marking saves three I/Os per data write and two for the write that also writes parity; never on a read. */
  lemma SavingValue(asks: seq<Ask>, t: nat, k: nat)
    requires k < 3 && 3 * t + k < |asks|
    ensures Saving(Parity4, asks, 3 * t + k) ==
            if Marked(asks, t) && asks[3 * t + k].op == OpWrite then (if k == 2 then 2 else 3) else 0
  {
    assert (3 * t + k) / 3 == t && (3 * t + k) % 3 == k;
  }

  /** What a triple saves: nothing unmarked, eight I/Os as three marked writes, less otherwise. */
  lemma TripleSaving(asks: seq<Ask>, t: nat)
    requires 3 * t + 2 < |asks|
    ensures var i := 3 * t;
            var saved := Saving(Parity4, asks, i) + Saving(Parity4, asks, i + 1) + Saving(Parity4, asks, i + 2);
            if Marked(asks, t) then saved <= 8 && (saved == 8 <==> TripleWrites(asks, t)) else saved == 0
  {
    SavingValue(asks, t, 0);
    SavingValue(asks, t, 1);
    SavingValue(asks, t, 2);
  }

  lemma WritesBelowStep(asks: seq<Ask>, t: nat)
    ensures WritesBelow(asks, t + 1) <==> WritesBelow(asks, t) && (Marked(asks, t) ==> TripleWrites(asks, t))
  {
  }

  /** What the goal counts for the first t triples beyond the I/Os they really need. */
  ghost function Surplus(asks: seq<Ask>, t: nat): int
    requires 3 * t <= |asks|
  {
    BaseGoal(Parity4, asks, 3 * t) - 8 * Marks(asks, t) - Work(Parity4, asks, 3 * t)
  }

  lemma SurplusStep(asks: seq<Ask>, t: nat)
    requires 3 * t + 2 < |asks|
    ensures Surplus(asks, t + 1) <= Surplus(asks, t)
    ensures Surplus(asks, t + 1) == Surplus(asks, t) <==> (Marked(asks, t) ==> TripleWrites(asks, t))
  {
    TripleSaving(asks, t);
    SavingThree(Parity4, asks, 3 * t);
  }

  lemma {:induction false} GoalUpTo(asks: seq<Ask>, t: nat)
    requires 3 * t <= |asks|
    ensures Surplus(asks, t) <= 0
    ensures Surplus(asks, t) == 0 <==> WritesBelow(asks, t)
  {
    if t > 0 {
      GoalUpTo(asks, t - 1);
      SurplusStep(asks, t - 1);
      WritesBelowStep(asks, t - 1);
    }
  }

  /** Requests outside the marked triples need exactly what the goal counts for them. */
  lemma {:induction false} GoalTail(m: Mapping, asks: seq<Ask>, from: nat, n: nat)
    requires from <= n <= |asks|
    requires forall i :: from <= i < n ==> !(m.Parity4? && Marked(asks, i / 3))
    ensures BaseGoal(m, asks, n) - Work(m, asks, n) == BaseGoal(m, asks, from) - Work(m, asks, from)
  {
    if from < n {
      GoalTail(m, asks, from, n - 1);
    }
  }

  /** An incomplete last triple is not marked. */
  lemma MarksTail(asks: seq<Ask>)
    ensures Marks(asks, (|asks| + 2) / 3) == Marks(asks, |asks| / 3)
    ensures MarkedAreWrites(asks) <==> WritesBelow(asks, |asks| / 3)
  {
  }

  /** The goal is the number of I/Os needed exactly when, at level 4, every marked triple is three writes. */
  lemma GoalExact(m: Mapping, asks: seq<Ask>)
    ensures Goal(m, asks) == Work(m, asks, |asks|) <==> (m.Parity4? ==> MarkedAreWrites(asks))
  {
    var n := |asks|;
    if m.Parity4? {
      var t := n / 3;
      GoalUpTo(asks, t);
      GoalTail(m, asks, 3 * t, n);
      MarksTail(asks);
    } else {
      GoalTail(m, asks, 0, n);
    }
  }

  /** Three consecutive reads at level 4: three I/Os are needed, but the goal is minus five. */
  lemma GoalFails()
    ensures var asks := [Ask(0, OpRead), Ask(1, OpRead), Ask(2, OpRead)];
            Goal(Parity4, asks) == -5 && Work(Parity4, asks, 3) == 3
  {
    var asks := [Ask(0, OpRead), Ask(1, OpRead), Ask(2, OpRead)];
    assert Marked(asks, 0) && Marks(asks, 1) == 1;
    assert BaseGoal(Parity4, asks, 1) == 1 && BaseGoal(Parity4, asks, 2) == 2;
    assert Work(Parity4, asks, 1) == 1 && Work(Parity4, asks, 2) == 2;
  }

  // ---------- the start of a run ----------

  /** What the simulator is run with. */
  ghost predicate Legal(m: Mapping, speed: int, asks: seq<Ask>, window: int) {
    && speed >= 1 && (window == -1 || window > 0)
    && forall i :: 0 <= i < |asks| ==> asks[i].logical < m.BlockCount()
  }

  ghost function InitSim(m: Mapping, speed: int, asks: seq<Ask>, window: int): Sim {
    Sim(m, speed, seq(DISK_COUNT, _ => NEW_DISK), InitReqs(m, asks), window, 0,
        Goal(m, asks), Work(m, asks, |asks|), 0, true)
  }

  lemma InitOk(m: Mapping, speed: int, asks: seq<Ask>, window: int)
    requires Legal(m, speed, asks, window)
    ensures Inv(InitSim(m, speed, asks, window))
    ensures Measure(InitSim(m, speed, asks, window)) == 400 * Work(m, asks, |asks|)
  {
    var s := InitSim(m, speed, asks, window);
    assert InitReqs(m, asks)[..|asks|] == InitReqs(m, asks);
    WorkIsTotal(m, asks, |asks|);
    forall i: nat | i < |asks|
      ensures ReqOk(m, s.reqs[i]) && s.reqs[i].offset == RowOf(m, s.reqs[i].logical)
      ensures Pending(m, s.reqs[i]) == Left(m, s.reqs[i]) == Needs(m, s.reqs[i]) && s.reqs[i].reports == 0
      ensures !Active(m, s.reqs[i], true) && !Active(m, s.reqs[i], false)
    {
      var r := InitReq(m, asks, i);
      NewReqOk(m, r.logical, r.op, r.fullStripe, r.fullParity);
    }
    TotalUniform(s.reqs, Reported, 0);
    TotalSame(s.reqs, PendingIn(m), NeedsIn(m));
    TotalSame(s.reqs, LeftIn(m), NeedsIn(m));
    DivModUnique(0, speed, 0, 0);
  }

  lemma {:induction false} TotalSame<T>(xs: seq<T>, f: T -> nat, g: T -> nat)
    requires forall i :: 0 <= i < |xs| ==> f(xs[i]) == g(xs[i])
    ensures Total(xs, f) == Total(xs, g)
  {
    if xs != [] {
      TotalSame(xs[..|xs| - 1], f, g);
    }
  }

  /** The state after the key "s" is pressed: Start calls GetNextIOs once. */
  ghost function StartedRun(m: Mapping, speed: int, asks: seq<Ask>, window: int): Sim
    requires Legal(m, speed, asks, window)
  {
    GetNextIOs(InitSim(m, speed, asks, window))
  }

  lemma StartedOk(m: Mapping, speed: int, asks: seq<Ask>, window: int)
    requires Legal(m, speed, asks, window)
    ensures var s := StartedRun(m, speed, asks, window);
            && Inv(s) && s.needed == Goal(m, asks) && s.work == Work(m, asks, |asks|)
            && Measure(s) <= 400 * Work(m, asks, |asks|)
            && s == InitSim(m, speed, asks, window).(disks := s.disks, reqs := s.reqs, running := s.running)
            && Later(InitSim(m, speed, asks, window), s)
            && (s.needed == s.work ==> Live(s))
  {
    InitOk(m, speed, asks, window);
    GetNextIOsOk(InitSim(m, speed, asks, window));
  }
}
