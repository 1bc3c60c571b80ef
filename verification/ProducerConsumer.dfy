/**
 One producer and any number of consumers around the ring buffer, with one mutex
 and the condition variables empty (the producer waits) and fill (consumers wait).
 A thread step is one pthread call, one loop test, or one do_fill / do_get.
 */
module ProducerConsumer {
  import opened RingBuffer
  import opened Sums

  datatype Config = Config(max: nat, loops: nat, consumers: nat) {
    ghost predicate Valid() { max >= 1 && consumers >= 1 }

    /** Items the producer fills: loops values, then one end marker per consumer. */
    function Items(): nat { loops + consumers }
  }

  const MARKER: int := -1

  /** The k-th value the producer fills. Its two for loops run k over 0..loops and loops..Items(). */
  function Item(cfg: Config, k: nat): int { if k < cfg.loops then k else MARKER }

  /** Program points of the producer while it handles item k. Wait and Woken are inside Cond_wait. */
  datatype ProducerPc =
    | PLock(k: nat) | PTest(k: nat) | PWait(k: nat) | PWoken(k: nat)
    | PFill(k: nat) | PSignal(k: nat) | PUnlock(k: nat) | PDone

  /** Program points of a consumer; tmp is the value it just took. */
  datatype ConsumerPc =
    | CLock | CTest | CWait | CWoken | CGet | CSignal(tmp: int) | CUnlock(tmp: int) | CDone

  datatype Owner = Free | Producer | Consumer(c: nat)

  /** One do_get: which consumer took which value. */
  datatype Take = Take(taker: nat, value: int)

  /** taken is the history of all do_get calls; the wait sets are the threads at PWait and CWait. */
  datatype State = State(ring: Ring, owner: Owner, p: ProducerPc, cs: seq<ConsumerPc>, taken: seq<Take>)

  datatype Option<T> = None | Some(value: T)

  /** A scheduling choice; wake names the consumer that Cond_signal(&fill) releases, if one waits. */
  datatype Action =
    | StepProducer(wake: Option<nat>)
    | StepConsumer(c: nat)
    | SpuriousProducer
    | SpuriousConsumer(c: nat)
  {
    predicate Spurious() { SpuriousProducer? || SpuriousConsumer? }
  }

  function Init(cfg: Config): State {
    State(Ring(seq(cfg.max, _ => 0), 0, 0, 0), Free, PLock(0), seq(cfg.consumers, _ => CLock), [])
  }

  ghost predicate Shape(cfg: Config, s: State) {
    s.ring.InBounds() && |s.ring.cells| == cfg.max && |s.cs| == cfg.consumers
  }

  ghost predicate Enabled(cfg: Config, s: State, a: Action)
    requires Shape(cfg, s)
  {
    match a
    case StepProducer(wake) =>
      (match s.p
       case PLock(_) | PWoken(_) => wake.None? && s.owner.Free?
       case PTest(_) | PFill(_) | PUnlock(_) => wake.None?
       case PSignal(_) =>
         if wake.Some? then wake.value < |s.cs| && s.cs[wake.value].CWait?
         else forall c :: 0 <= c < |s.cs| ==> !s.cs[c].CWait?
       case PWait(_) | PDone => false)
    case StepConsumer(c) =>
      c < |s.cs| &&
      (match s.cs[c]
       case CLock | CWoken => s.owner.Free?
       case CTest | CGet | CSignal(_) | CUnlock(_) => true
       case CWait | CDone => false)
    case SpuriousProducer => s.p.PWait?
    case SpuriousConsumer(c) => c < |s.cs| && s.cs[c].CWait?
  }

  ghost function Apply(cfg: Config, s: State, a: Action): (t: State)
    requires Shape(cfg, s) && Enabled(cfg, s, a)
    ensures Shape(cfg, t)
  {
    match a
    case StepProducer(wake) => ApplyProducer(cfg, s, wake)
    case StepConsumer(c) => ApplyConsumer(cfg, s, c)
    case SpuriousProducer => s.(p := PWoken(s.p.k))
    case SpuriousConsumer(c) => s.(cs := s.cs[c := CWoken])
  }

  ghost function ApplyProducer(cfg: Config, s: State, wake: Option<nat>): (t: State)
    requires Shape(cfg, s) && Enabled(cfg, s, StepProducer(wake))
    ensures Shape(cfg, t)
  {
    match s.p
    case PLock(k) => s.(p := PTest(k), owner := Producer)
    case PWoken(k) => s.(p := PTest(k), owner := Producer)
    case PTest(k) =>
      if s.ring.full == cfg.max then s.(p := PWait(k), owner := Free) else s.(p := PFill(k))
    case PFill(k) => s.(p := PSignal(k), ring := s.ring.Fill(Item(cfg, k)))
    case PSignal(k) =>
      s.(p := PUnlock(k), cs := if wake.Some? then s.cs[wake.value := CWoken] else s.cs)
    case PUnlock(k) =>
      s.(p := if k + 1 < cfg.Items() then PLock(k + 1) else PDone, owner := Free)
  }

  ghost function ApplyConsumer(cfg: Config, s: State, c: nat): (t: State)
    requires Shape(cfg, s) && Enabled(cfg, s, StepConsumer(c))
    ensures Shape(cfg, t)
  {
    match s.cs[c]
    case CLock => s.(cs := s.cs[c := CTest], owner := Consumer(c))
    case CWoken => s.(cs := s.cs[c := CTest], owner := Consumer(c))
    case CTest =>
      if s.ring.full == 0 then s.(cs := s.cs[c := CWait], owner := Free) else s.(cs := s.cs[c := CGet])
    case CGet =>
      s.(cs := s.cs[c := CSignal(s.ring.Front())], ring := s.ring.Drop(),
         taken := s.taken + [Take(c, s.ring.Front())])
    case CSignal(tmp) =>
      s.(cs := s.cs[c := CUnlock(tmp)], p := if s.p.PWait? then PWoken(s.p.k) else s.p)
    case CUnlock(tmp) =>
      s.(cs := s.cs[c := if tmp == MARKER then CDone else CLock], owner := Free)
  }

  // ---------- counting consumers ----------

  function Waiting(pc: ConsumerPc): nat { if pc.CWait? then 1 else 0 }

  /** Has taken its end marker. */
  function Finishing(pc: ConsumerPc): nat {
    match pc
    case CSignal(tmp) => if tmp == MARKER then 1 else 0
    case CUnlock(tmp) => if tmp == MARKER then 1 else 0
    case CDone => 1
    case _ => 0
  }

  /** Neither waiting nor past its end marker: will test num_full again. */
  function Awake(pc: ConsumerPc): nat { 1 - Waiting(pc) - Finishing(pc) }

  // ---------- the invariant ----------

  ghost predicate ProducerInside(p: ProducerPc) { p.PTest? || p.PFill? || p.PSignal? || p.PUnlock? }

  ghost predicate ConsumerInside(pc: ConsumerPc) { pc.CTest? || pc.CGet? || pc.CSignal? || pc.CUnlock? }

  /** Number of do_fill calls completed. */
  function Filled(cfg: Config, p: ProducerPc): nat {
    match p
    case PSignal(k) => k + 1
    case PUnlock(k) => k + 1
    case PDone => cfg.Items()
    case _ => p.k
  }

  ghost function Produced(cfg: Config, n: nat): seq<int> { seq(n, k requires 0 <= k < n => Item(cfg, k)) }

  ghost function Values(taken: seq<Take>): seq<int> {
    seq(|taken|, i requires 0 <= i < |taken| => taken[i].value)
  }

  /** How many end markers consumer c has taken. */
  ghost function MarkersOf(taken: seq<Take>, c: nat): nat {
    if taken == [] then 0
    else MarkersOf(taken[..|taken| - 1], c) +
         (if taken[|taken| - 1] == Take(c, MARKER) then 1 else 0)
  }

  ghost predicate Locking(cfg: Config, s: State) {
    && (s.owner.Producer? <==> ProducerInside(s.p))
    && (s.owner.Consumer? ==> s.owner.c < |s.cs|)
    && (forall c :: 0 <= c < |s.cs| ==> (ConsumerInside(s.cs[c]) <==> s.owner == Consumer(c)))
  }

  ghost predicate Queueing(cfg: Config, s: State) {
    && s.ring.Valid()
    && (!s.p.PDone? ==> s.p.k < cfg.Items())
    && (s.p.PFill? ==> s.ring.full < cfg.max)
    && (forall c :: 0 <= c < |s.cs| && s.cs[c].CGet? ==> s.ring.full > 0)
    && Values(s.taken) + s.ring.Contents() == Produced(cfg, Filled(cfg, s.p))
  }

  ghost predicate MarkersTotal(cfg: Config, s: State) {
    Total(s.cs, Finishing) == (if |s.taken| > cfg.loops then |s.taken| - cfg.loops else 0)
  }

  ghost predicate Ending(cfg: Config, s: State) {
    && MarkersTotal(cfg, s)
    && (forall c :: 0 <= c < |s.cs| ==> MarkersOf(s.taken, c) == Finishing(s.cs[c]))
  }

  /** No wakeup is lost, in either direction. */
  ghost predicate Signalling(cfg: Config, s: State) {
    && (s.p.PWait? ==> s.ring.full == cfg.max || (s.owner.Consumer? && s.owner.c < |s.cs| && s.cs[s.owner.c].CSignal?))
    && (Total(s.cs, Waiting) > 0 ==> s.ring.full <= Total(s.cs, Awake) + (if s.p.PSignal? then 1 else 0))
  }

  ghost predicate Inv(cfg: Config, s: State) {
    && cfg.Valid() && Shape(cfg, s)
    && Locking(cfg, s) && Queueing(cfg, s) && Ending(cfg, s) && Signalling(cfg, s)
  }

  lemma InitHolds(cfg: Config)
    requires cfg.Valid()
    ensures Shape(cfg, Init(cfg)) && Inv(cfg, Init(cfg))
  {
    var s := Init(cfg);
    TotalUniform(s.cs, Finishing, 0);
    TotalUniform(s.cs, Waiting, 0);
    assert Values(s.taken) + s.ring.Contents() == [];
  }

  /** What a do_fill does to the queue: the next item goes to the back. */
  lemma FillStep(cfg: Config, s: State)
    requires Inv(cfg, s) && s.p.PFill?
    ensures Queueing(cfg, Apply(cfg, s, StepProducer(None)))
  {
    var k := s.p.k;
    FillEnqueues(s.ring, Item(cfg, k));
    var t := Apply(cfg, s, StepProducer(None));
    calc {
      Values(t.taken) + t.ring.Contents();
      Values(s.taken) + (s.ring.Contents() + [Item(cfg, k)]);
      (Values(s.taken) + s.ring.Contents()) + [Item(cfg, k)];
      Produced(cfg, k) + [Item(cfg, k)];
      Produced(cfg, k + 1);
    }
  }

  /** What a do_get takes: the item numbered by how many were taken before. */
  lemma GetStep(cfg: Config, s: State, c: nat)
    requires Inv(cfg, s) && c < |s.cs| && s.cs[c].CGet?
    ensures s.ring.Front() == Item(cfg, |s.taken|)
    ensures Queueing(cfg, Apply(cfg, s, StepConsumer(c)))
  {
    DropDequeues(s.ring);
    var t := Apply(cfg, s, StepConsumer(c));
    var all := Values(s.taken) + s.ring.Contents();
    assert all[|s.taken|] == s.ring.Front();
    assert Values(t.taken) == Values(s.taken) + [s.ring.Front()];
    assert Values(t.taken) + t.ring.Contents() == all;
  }

  lemma TakeCounts(taken: seq<Take>, take: Take, c: nat)
    ensures MarkersOf(taken + [take], c) == MarkersOf(taken, c) + (if take == Take(c, MARKER) then 1 else 0)
  {
    assert (taken + [take])[..|taken|] == taken;
  }

  lemma ProducerKeepsCounts(cfg: Config, s: State, wake: Option<nat>)
    requires Inv(cfg, s) && Enabled(cfg, s, StepProducer(wake))
    ensures Ending(cfg, ApplyProducer(cfg, s, wake)) && Signalling(cfg, ApplyProducer(cfg, s, wake))
  {
    if s.p.PSignal? && wake.Some? {
      TotalUpdate(s.cs, wake.value, CWoken, Waiting);
      TotalUpdate(s.cs, wake.value, CWoken, Awake);
      TotalUpdate(s.cs, wake.value, CWoken, Finishing);
    } else if s.p.PSignal? {
      TotalUniform(s.cs, Waiting, 0);
    }
  }

  lemma ProducerKeepsQueue(cfg: Config, s: State, wake: Option<nat>)
    requires Inv(cfg, s) && Enabled(cfg, s, StepProducer(wake))
    ensures Queueing(cfg, ApplyProducer(cfg, s, wake))
  {
    if s.p.PFill? {
      FillStep(cfg, s);
    }
  }

  lemma ProducerKeepsLock(cfg: Config, s: State, wake: Option<nat>)
    requires Inv(cfg, s) && Enabled(cfg, s, StepProducer(wake))
    ensures Locking(cfg, ApplyProducer(cfg, s, wake))
  {
  }

  lemma ConsumerKeepsTotal(cfg: Config, s: State, c: nat)
    requires Inv(cfg, s) && Enabled(cfg, s, StepConsumer(c))
    ensures MarkersTotal(cfg, ApplyConsumer(cfg, s, c))
  {
    TotalUpdate(s.cs, c, ApplyConsumer(cfg, s, c).cs[c], Finishing);
    if s.cs[c].CGet? {
      GetStep(cfg, s, c);
    }
  }

  lemma ConsumerKeepsEach(cfg: Config, s: State, c: nat, d: nat)
    requires Inv(cfg, s) && Enabled(cfg, s, StepConsumer(c)) && d < |s.cs|
    ensures MarkersOf(ApplyConsumer(cfg, s, c).taken, d) == Finishing(ApplyConsumer(cfg, s, c).cs[d])
  {
    if s.cs[c].CGet? {
      TakeCounts(s.taken, Take(c, s.ring.Front()), d);
    }
  }

  lemma ConsumerKeepsSignals(cfg: Config, s: State, c: nat)
    requires Inv(cfg, s) && Enabled(cfg, s, StepConsumer(c))
    ensures Signalling(cfg, ApplyConsumer(cfg, s, c))
  {
    var t := ApplyConsumer(cfg, s, c);
    TotalUpdate(s.cs, c, t.cs[c], Waiting);
    TotalUpdate(s.cs, c, t.cs[c], Awake);
  }

  lemma ConsumerKeepsQueue(cfg: Config, s: State, c: nat)
    requires Inv(cfg, s) && Enabled(cfg, s, StepConsumer(c))
    ensures Queueing(cfg, ApplyConsumer(cfg, s, c))
  {
    if s.cs[c].CGet? {
      GetStep(cfg, s, c);
    }
  }

  lemma ConsumerKeepsLock(cfg: Config, s: State, c: nat)
    requires Inv(cfg, s) && Enabled(cfg, s, StepConsumer(c))
    ensures Locking(cfg, ApplyConsumer(cfg, s, c))
  {
  }

  lemma SpuriousPreserves(cfg: Config, s: State, a: Action)
    requires Inv(cfg, s) && Enabled(cfg, s, a) && a.Spurious()
    ensures Inv(cfg, Apply(cfg, s, a))
  {
    if a.SpuriousConsumer? {
      TotalUpdate(s.cs, a.c, CWoken, Waiting);
      TotalUpdate(s.cs, a.c, CWoken, Awake);
      TotalUpdate(s.cs, a.c, CWoken, Finishing);
    }
  }

  /** Every step keeps the invariant, spurious wakeups included. */
  lemma StepPreserves(cfg: Config, s: State, a: Action)
    requires Inv(cfg, s) && Enabled(cfg, s, a)
    ensures Inv(cfg, Apply(cfg, s, a))
  {
    match a
    case StepProducer(wake) =>
      ProducerKeepsLock(cfg, s, wake);
      ProducerKeepsQueue(cfg, s, wake);
      ProducerKeepsCounts(cfg, s, wake);
    case StepConsumer(c) =>
      ConsumerKeepsLock(cfg, s, c);
      ConsumerKeepsQueue(cfg, s, c);
      ConsumerKeepsTotal(cfg, s, c);
      forall d: nat | d < |s.cs| {
        ConsumerKeepsEach(cfg, s, c, d);
      }
      ConsumerKeepsSignals(cfg, s, c);
    case _ =>
      SpuriousPreserves(cfg, s, a);
  }
}
