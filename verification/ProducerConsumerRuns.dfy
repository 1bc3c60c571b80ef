/** What holds over whole schedules of the producer/consumer program. */
module ProducerConsumerRuns {
  import opened RingBuffer
  import opened Sums
  import opened ProducerConsumer

  // ---------- schedules ----------

  /** acts can be scheduled one after another from s. */
  ghost predicate Possible(cfg: Config, s: State, acts: seq<Action>)
    requires Shape(cfg, s)
    decreases |acts|
  {
    acts == [] || (Enabled(cfg, s, acts[0]) && Possible(cfg, Apply(cfg, s, acts[0]), acts[1..]))
  }

  ghost function After(cfg: Config, s: State, acts: seq<Action>): (t: State)
    requires Shape(cfg, s) && Possible(cfg, s, acts)
    ensures Shape(cfg, t)
    decreases |acts|
  {
    if acts == [] then s else After(cfg, Apply(cfg, s, acts[0]), acts[1..])
  }

  lemma {:induction false} RunPreserves(cfg: Config, s: State, acts: seq<Action>)
    requires Inv(cfg, s) && Possible(cfg, s, acts)
    ensures Inv(cfg, After(cfg, s, acts))
    decreases |acts|
  {
    if acts != [] {
      StepPreserves(cfg, s, acts[0]);
      RunPreserves(cfg, Apply(cfg, s, acts[0]), acts[1..]);
    }
  }

  ghost predicate Reachable(cfg: Config, s: State)
    requires cfg.Valid()
  {
    exists acts: seq<Action> :: Possible(cfg, Init(cfg), acts) && After(cfg, Init(cfg), acts) == s
  }

  lemma ReachableInv(cfg: Config, s: State)
    requires cfg.Valid() && Reachable(cfg, s)
    ensures Inv(cfg, s)
  {
    var acts :| Possible(cfg, Init(cfg), acts) && After(cfg, Init(cfg), acts) == s;
    InitHolds(cfg);
    RunPreserves(cfg, Init(cfg), acts);
  }

  // ---------- safety ----------

  /** Only the lock owner is between Mutex_lock and Mutex_unlock, so only it touches the buffer. */
  lemma MutualExclusion(cfg: Config, s: State, c: nat, d: nat)
    requires cfg.Valid() && Reachable(cfg, s)
    requires c < |s.cs| && d < |s.cs| && ConsumerInside(s.cs[c])
    ensures !ProducerInside(s.p)
    ensures c != d ==> !ConsumerInside(s.cs[d])
  {
    ReachableInv(cfg, s);
  }

  /** do_fill never overwrites an unread cell and do_get never reads an empty buffer. */
  lemma NoOverrun(cfg: Config, s: State)
    requires cfg.Valid() && Reachable(cfg, s)
    ensures 0 <= s.ring.full <= cfg.max
    ensures s.ring.fill == (s.ring.use + s.ring.full) % cfg.max
    ensures s.p.PFill? ==> s.ring.full < cfg.max
    ensures forall c :: 0 <= c < |s.cs| && s.cs[c].CGet? ==> s.ring.full > 0
  {
    ReachableInv(cfg, s);
    WrapIsMod(s.ring.use + s.ring.full, cfg.max);
  }

  /** First in, first out: what was taken, followed by what is queued, is what was produced so far. */
  lemma TakesInOrder(cfg: Config, s: State)
    requires cfg.Valid() && Reachable(cfg, s)
    ensures |s.taken| <= cfg.Items()
    ensures forall i :: 0 <= i < |s.taken| ==> s.taken[i].value == (if i < cfg.loops then i else MARKER)
    ensures s.ring.Valid() && |s.taken| + |s.ring.Contents()| == Filled(cfg, s.p)
    ensures forall j {:trigger s.ring.Contents()[j]} :: 0 <= j < |s.ring.Contents()| ==>
              s.ring.Contents()[j] == (if |s.taken| + j < cfg.loops then |s.taken| + j else MARKER)
  {
    ReachableInv(cfg, s);
    var all := Values(s.taken) + s.ring.Contents();
    assert |all| == Filled(cfg, s.p);
    forall i | 0 <= i < |s.taken|
      ensures s.taken[i].value == Item(cfg, i)
    {
      assert all[i] == s.taken[i].value;
    }
    forall j | 0 <= j < |s.ring.Contents()|
      ensures s.ring.Contents()[j] == Item(cfg, |s.taken| + j)
    {
      assert all[|s.taken| + j] == s.ring.Contents()[j];
    }
  }

  // ---------- deadlock freedom ----------

  ghost predicate AllDone(s: State) {
    s.p.PDone? && forall c :: 0 <= c < |s.cs| ==> s.cs[c].CDone?
  }

  ghost predicate CanStep(cfg: Config, s: State, a: Action)
    requires Shape(cfg, s)
  {
    !a.Spurious() && Enabled(cfg, s, a)
  }

  /** Whoever holds the lock can take its next step. */
  lemma OwnerSteps(cfg: Config, s: State) returns (a: Action)
    requires Inv(cfg, s) && !s.owner.Free?
    ensures CanStep(cfg, s, a)
  {
    if s.owner.Consumer? {
      return StepConsumer(s.owner.c);
    }
    if s.p.PSignal? && exists c: nat :: c < |s.cs| && s.cs[c].CWait? {
      var c: nat :| c < |s.cs| && s.cs[c].CWait?;
      return StepProducer(Some(c));
    }
    return StepProducer(None);
  }

  /** With the lock free and nobody able to take it, everybody has returned. */
  lemma NobodySleeps(cfg: Config, s: State)
    requires Inv(cfg, s) && s.owner.Free?
    requires !s.p.PLock? && !s.p.PWoken?
    requires forall c :: 0 <= c < |s.cs| ==> s.cs[c].CWait? || s.cs[c].CDone?
    ensures AllDone(s)
  {
    assert |Values(s.taken) + s.ring.Contents()| == |s.taken| + s.ring.full == Filled(cfg, s.p);
    TotalUniform(s.cs, Awake, 0);
    if c: nat :| c < |s.cs| && s.cs[c].CWait? {
      TotalAtLeast(s.cs, c, Waiting);
      TotalComplement(s.cs);
    } else {
      TotalUniform(s.cs, Finishing, 1);
    }
  }

  lemma {:induction false} TotalComplement(cs: seq<ConsumerPc>)
    ensures Total(cs, Waiting) + Total(cs, Awake) + Total(cs, Finishing) == |cs|
  {
    if cs != [] {
      TotalComplement(cs[..|cs| - 1]);
    }
  }

  lemma StepExists(cfg: Config, s: State) returns (a: Action)
    requires Inv(cfg, s) && !AllDone(s)
    ensures CanStep(cfg, s, a)
  {
    if !s.owner.Free? {
      a := OwnerSteps(cfg, s);
    } else if s.p.PLock? || s.p.PWoken? {
      a := StepProducer(None);
    } else if c: nat :| c < |s.cs| && !s.cs[c].CWait? && !s.cs[c].CDone? {
      a := StepConsumer(c);
    } else {
      NobodySleeps(cfg, s);
    }
  }

  /** In every reachable state some thread can step without a spurious wakeup, unless all have returned. */
  lemma NoDeadlock(cfg: Config, s: State)
    requires cfg.Valid() && Reachable(cfg, s)
    ensures Shape(cfg, s)
    ensures AllDone(s) <==> !exists a :: CanStep(cfg, s, a)
  {
    ReachableInv(cfg, s);
    if !AllDone(s) {
      var a := StepExists(cfg, s);
    }
  }

  // ---------- termination ----------

  function ProducerWeight(p: ProducerPc): nat {
    match p
    case PLock(_) => 3
    case PWoken(_) => 3
    case PTest(_) => 2
    case PFill(_) => 1
    case PSignal(_) => 8
    case PUnlock(_) => 4
    case PWait(_) => 0
    case PDone => 0
  }

  function ConsumerWeight(pc: ConsumerPc): nat {
    match pc
    case CLock => 3
    case CWoken => 3
    case CTest => 2
    case CGet => 1
    case CSignal(_) => 8
    case CUnlock(_) => 4
    case CWait => 0
    case CDone => 0
  }

  ghost function Measure(cfg: Config, s: State): int {
    8 * (cfg.Items() - Filled(cfg, s.p)) + 8 * (cfg.Items() - |s.taken|)
    + ProducerWeight(s.p) + Total(s.cs, ConsumerWeight)
  }

  lemma MeasureNonNegative(cfg: Config, s: State)
    requires Inv(cfg, s)
    ensures Measure(cfg, s) >= 0
  {
    assert |Values(s.taken) + s.ring.Contents()| == |s.taken| + s.ring.full == Filled(cfg, s.p);
  }

  lemma ProducerUsesMeasure(cfg: Config, s: State, wake: Option<nat>)
    requires Inv(cfg, s) && Enabled(cfg, s, StepProducer(wake))
    ensures Measure(cfg, ApplyProducer(cfg, s, wake)) < Measure(cfg, s)
  {
    if wake.Some? {
      TotalUpdate(s.cs, wake.value, CWoken, ConsumerWeight);
    }
  }

  lemma ConsumerUsesMeasure(cfg: Config, s: State, c: nat)
    requires Inv(cfg, s) && Enabled(cfg, s, StepConsumer(c))
    ensures Measure(cfg, ApplyConsumer(cfg, s, c)) < Measure(cfg, s)
  {
    var t := ApplyConsumer(cfg, s, c);
    TotalUpdate(s.cs, c, t.cs[c], ConsumerWeight);
    assert t.cs == s.cs[c := t.cs[c]];
  }

  /** Each real step uses the measure up; a spurious wakeup adds at most three. */
  lemma MeasureDecreases(cfg: Config, s: State, a: Action)
    requires Inv(cfg, s) && Enabled(cfg, s, a)
    ensures Measure(cfg, Apply(cfg, s, a)) <= Measure(cfg, s) + (if a.Spurious() then 3 else -1)
  {
    match a
    case StepProducer(wake) => ProducerUsesMeasure(cfg, s, wake);
    case StepConsumer(c) => ConsumerUsesMeasure(cfg, s, c);
    case SpuriousProducer =>
    case SpuriousConsumer(c) => TotalUpdate(s.cs, c, CWoken, ConsumerWeight);
  }

  ghost function SpuriousCount(acts: seq<Action>): nat {
    if acts == [] then 0 else (if acts[0].Spurious() then 1 else 0) + SpuriousCount(acts[1..])
  }

  lemma {:induction false} RunLength(cfg: Config, s: State, acts: seq<Action>)
    requires Inv(cfg, s) && Possible(cfg, s, acts)
    ensures |acts| <= Measure(cfg, s) + 4 * SpuriousCount(acts)
    decreases |acts|
  {
    if acts == [] {
      MeasureNonNegative(cfg, s);
    } else {
      StepPreserves(cfg, s, acts[0]);
      MeasureDecreases(cfg, s, acts[0]);
      RunLength(cfg, Apply(cfg, s, acts[0]), acts[1..]);
    }
  }

  /** Every schedule is finite: at most this many steps, plus four for each spurious wakeup. */
  lemma ScheduleBound(cfg: Config, acts: seq<Action>)
    requires cfg.Valid() && Possible(cfg, Init(cfg), acts)
    ensures |acts| <= 16 * (cfg.loops + cfg.consumers) + 3 * (cfg.consumers + 1) + 4 * SpuriousCount(acts)
  {
    InitHolds(cfg);
    TotalUniform(Init(cfg).cs, ConsumerWeight, 3);
    RunLength(cfg, Init(cfg), acts);
  }

  /** From any state that satisfies the invariant the program can run to the end. */
  lemma {:induction false} RunToEnd(cfg: Config, s: State) returns (acts: seq<Action>)
    requires Inv(cfg, s)
    ensures Possible(cfg, s, acts) && SpuriousCount(acts) == 0
    ensures AllDone(After(cfg, s, acts))
    decreases Measure(cfg, s)
  {
    if AllDone(s) {
      acts := [];
    } else {
      var a := StepExists(cfg, s);
      StepPreserves(cfg, s, a);
      MeasureDecreases(cfg, s, a);
      MeasureNonNegative(cfg, Apply(cfg, s, a));
      var rest := RunToEnd(cfg, Apply(cfg, s, a));
      acts := [a] + rest;
    }
  }

  /**
   A schedule that nobody can extend by a real step has delivered everything: the buffer is empty,
   0..loops-1 were taken once each and in order, and each consumer took exactly one end marker.
   */
  lemma Outcome(cfg: Config, s: State)
    requires cfg.Valid() && Reachable(cfg, s)
    requires Shape(cfg, s) && !exists a :: CanStep(cfg, s, a)
    ensures AllDone(s)
    ensures s.ring.full == 0 && |s.taken| == cfg.loops + cfg.consumers
    ensures forall i :: 0 <= i < cfg.loops ==> s.taken[i].value == i
    ensures forall i :: cfg.loops <= i < |s.taken| ==> s.taken[i].value == MARKER
    ensures forall c :: 0 <= c < cfg.consumers ==> MarkersOf(s.taken, c) == 1
  {
    NoDeadlock(cfg, s);
    ReachableInv(cfg, s);
    TakesInOrder(cfg, s);
    TotalUniform(s.cs, Finishing, 1);
  }
}
