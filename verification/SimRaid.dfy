/** The Request and Raid objects of raid-graphics.py, updated in place. */
module SimRaid {
  import opened Arithmetic
  import opened SimRequest
  import opened SimState
  import opened SimProofs
  import opened SimTicks
  import opened SimSetup
  import opened SimRuns

  class Request {
    const logicalAddress: nat
    const opType: Op
    var physDiskList: seq<int>
    var physOffset: int
    var status: seq<Status>
    var fullStripeWrite: bool
    var fullStripeWriteParity: bool
    ghost var history: Log
    ghost var reports: nat

    ghost predicate Valid()
      reads this
    {
      1 <= |physDiskList| == |status| <= 2 && NO_DISK !in physDiskList
    }

    ghost function Value(): Req
      reads this
    {
      Req(logicalAddress, opType,
          if |physDiskList| >= 1 then physDiskList[0] else NO_DISK,
          if |physDiskList| >= 2 then physDiskList[1] else NO_DISK,
          physOffset, fullStripeWrite, fullStripeWriteParity,
          if |status| >= 1 then status[0] else NotStarted,
          if |status| >= 2 then status[1] else NotStarted, history, reports)
    }

    constructor (logicalAddress: nat, opType: Op)
      ensures this.logicalAddress == logicalAddress && this.opType == opType
      ensures !fullStripeWrite && !fullStripeWriteParity && history == Empty && reports == 0
    {
      this.logicalAddress := logicalAddress;
      this.opType := opType;
      physDiskList, status := [], [];
      fullStripeWrite, fullStripeWriteParity := false, false;
      history, reports := Empty, 0;
    }

    method SetPhysicalAddress(diskList: seq<int>, offset: int)
      requires 1 <= |diskList| <= 2
      modifies this
      ensures physDiskList == diskList && physOffset == offset && status == seq(|diskList|, _ => NotStarted)
      ensures fullStripeWrite == old(fullStripeWrite) && fullStripeWriteParity == old(fullStripeWriteParity)
      ensures history == old(history) && reports == old(reports)
    {
      physDiskList := diskList;
      physOffset := offset;
      status := [];
      for i := 0 to |diskList|
        invariant status == seq(i, _ => NotStarted)
        invariant physDiskList == diskList && physOffset == offset
        invariant fullStripeWrite == old(fullStripeWrite) && fullStripeWriteParity == old(fullStripeWriteParity)
        invariant history == old(history) && reports == old(reports)
      {
        status := status + [NotStarted];
      }
    }

    method MarkFullStripeWrite(parity: bool)
      requires Valid()
      modifies this
      ensures Valid() && Value() == old(Value()).(fullStripe := true, fullParity := parity)
    {
      fullStripeWrite := true;
      fullStripeWriteParity := parity;
    }

    /** The lookup in disk_to_index_map. */
    method Index(disk: int) returns (index: nat)
      requires Valid() && Value().On(disk) && disk != NO_DISK
      ensures index < |status| && (index == 0 <==> Value().IsFirst(disk))
    {
      index := if physDiskList[0] == disk then 0 else 1;
    }

    method RequestLevel0Done(disk: int) returns (done: bool)
      requires Valid() && Value().On(disk) && disk != NO_DISK
      modifies this`status
      ensures Valid() && (Value(), done) == Level0Done(old(Value()), disk)
    {
      var index := Index(disk);
      if status[index] == DoRead || status[index] == DoWrite {
        status := status[index := Done];
      }
      done := true;
    }

    method RequestLevel1Done(disk: int) returns (done: bool)
      requires Valid() && Value().On(disk) && disk != NO_DISK && |status| == 2
      requires InFlight(Value().Get(Value().IsFirst(disk)))
      modifies this`status
      ensures Valid() && (Value(), done) == Level1Done(old(Value()), disk)
    {
      var index := Index(disk);
      if status[index] == DoRead {
        status := status[index := Done];
        return true;
      }
      assert status[index] == DoWrite;
      status := status[index := Done];
      done := status[1 - index] == Done;
    }

    method RequestLevel4Done(disk: int) returns (done: bool)
      requires Valid() && Value().On(disk) && disk != NO_DISK && |status| == 2
      modifies this`status
      ensures Valid() && (Value(), done) == Level4Done(old(Value()), disk)
    {
      var index := Index(disk);
      if opType == OpRead {
        return true;
      }
      if status[index] == DoRead {
        status := status[index := ReadPhaseDone];
      } else if status[index] == DoWrite {
        status := status[index := Done];
      }
      if status[index] == ReadPhaseDone && status[1 - index] == ReadPhaseDone {
        status := [WritePhaseBegin, WritePhaseBegin];
      }
      done := status[index] == Done && status[1 - index] == Done;
    }
  }

  /** The values of a queue of requests. */
  ghost function Values(rs: seq<Request>): (vs: seq<Req>)
    reads rs
    ensures |vs| == |rs| && forall i {:trigger vs[i]} :: 0 <= i < |rs| ==> vs[i] == rs[i].Value()
  {
    if rs == [] then [] else Values(rs[..|rs| - 1]) + [rs[|rs| - 1].Value()]
  }

  ghost predicate Distinct(rs: seq<Request>) {
    forall i, j :: 0 <= i < j < |rs| ==> rs[i] != rs[j]
  }

  /** A queue entry with its full-stripe flags once the marking loop has made these findings. */
  ghost function Flagged(r: Req, found: seq<bool>, i: nat): Req {
    var full := i / 3 < |found| && found[i / 3];
    r.(fullStripe := full, fullParity := full && i % 3 == 2)
  }

  ghost function Plain(m: Mapping, ask: Ask): Req { NewReq(m, ask.logical, ask.op, false, false) }

  ghost function PlainQueue(m: Mapping, asks: seq<Ask>): seq<Req> {
    seq(|asks|, k requires 0 <= k < |asks| => Plain(m, asks[k]))
  }

  /** Set the disks and offset of a new request. */
  method SetPlace(m: Mapping, request: Request)
    requires request.logicalAddress < m.BlockCount()
    requires request.history == Empty && request.reports == 0
    requires !request.fullStripeWrite && !request.fullStripeWriteParity
    modifies request
    ensures request.Valid()
    ensures request.Value() == NewReq(m, request.logicalAddress, request.opType, false, false)
  {
    var logical := request.logicalAddress;
    match m
    case Striped =>
      request.SetPhysicalAddress([logical % DISK_COUNT], logical / DISK_COUNT);
    case Mirrored =>
      var effectiveDisks := DISK_COUNT / 2;
      var disk1 := 2 * (logical % effectiveDisks);
      request.SetPhysicalAddress([disk1, disk1 + 1], logical / effectiveDisks);
    case Parity4 =>
      request.SetPhysicalAddress([logical % (DISK_COUNT - 1), 3], logical / (DISK_COUNT - 1));
    case Parity5 =>
      var disk := logical % (DISK_COUNT - 1);
      var offset := logical / (DISK_COUNT - 1);
      var parityDisk;
      if offset % 4 == 0 {
        parityDisk := 3;
      } else if offset % 4 == 1 {
        parityDisk := 2;
        if disk >= 2 {
          disk := disk + 1;
        }
      } else if offset % 4 == 2 {
        parityDisk := 1;
        if disk >= 1 {
          disk := disk + 1;
        }
      } else {
        parityDisk := 0;
        disk := disk + 1;
      }
      request.SetPhysicalAddress([disk, parityDisk], offset);
  }

  method PlaceRequest(m: Mapping, ask: Ask) returns (request: Request)
    requires ask.logical < m.BlockCount()
    ensures fresh(request) && request.Valid() && request.Value() == Plain(m, ask)
  {
    request := new Request(ask.logical, ask.op);
    SetPlace(m, request);
  }

  /** Create the requests, place them, and count the I/Os to wait for. */
  method PlaceRequests(m: Mapping, asks: seq<Ask>) returns (rs: seq<Request>, needed: int)
    requires forall i :: 0 <= i < |asks| ==> asks[i].logical < m.BlockCount()
    ensures |rs| == |asks| && fresh(rs) && Distinct(rs) && needed == BaseGoal(m, asks, |asks|)
    ensures forall k :: 0 <= k < |rs| ==> rs[k].Valid()
    ensures forall k {:trigger rs[k].logicalAddress} :: 0 <= k < |rs| ==> rs[k].logicalAddress == asks[k].logical
    ensures Values(rs) == PlainQueue(m, asks)
  {
    rs, needed := [], 0;
    for i := 0 to |asks|
      invariant |rs| == i && fresh(rs) && Distinct(rs) && needed == BaseGoal(m, asks, i)
      invariant forall k :: 0 <= k < i ==> rs[k].Valid() && rs[k].Value() == Plain(m, asks[k])
    {
      var request := PlaceRequest(m, asks[i]);
      needed := needed + 1;
      if asks[i].op == OpWrite {
        match m
        case Striped =>
        case Mirrored => needed := needed + 1;
        case Parity4 => needed := needed + 3;
        case Parity5 => needed := needed + 3;
      }
      rs := rs + [request];
    }
    assert forall k :: 0 <= k < |rs| ==> Values(rs)[k] == PlainQueue(m, asks)[k];
  }

  /** Mark three consecutive entries: the first two write data only, the third also parity. */
  method MarkTriple(rs: seq<Request>, i: nat)
    requires i + 2 < |rs| && Distinct(rs) && forall k :: 0 <= k < |rs| ==> rs[k].Valid()
    modifies rs[i..i + 3]
    ensures forall k :: 0 <= k < |rs| ==> rs[k].Valid()
    ensures forall k :: 0 <= k < |rs| ==>
              rs[k].Value() == if i <= k < i + 3 then old(rs[k].Value()).(fullStripe := true, fullParity := k == i + 2)
                               else old(rs[k].Value())
  {
    assert rs[i] in rs[i..i + 3] && rs[i + 1] in rs[i..i + 3] && rs[i + 2] in rs[i..i + 3];
    rs[i].MarkFullStripeWrite(false);
    rs[i + 1].MarkFullStripeWrite(false);
    rs[i + 2].MarkFullStripeWrite(true);
  }

  /** One round of the marking loop changes the next three entries exactly if they are marked. */
  lemma FlaggedStep(r: Req, found: seq<bool>, f: bool, k: nat)
    ensures var i := 3 * |found|;
            Flagged(r, found + [f], k) ==
            if f && i <= k < i + 3 then Flagged(r, found, k).(fullStripe := true, fullParity := k == i + 2)
            else Flagged(r, found, k)
  {
    assert k == 3 * (k / 3) + k % 3;
  }

  /** The queue after the marking loop's findings so far, from the values it had. */
  ghost function FlaggedBy(was: seq<Req>, found: seq<bool>): seq<Req> {
    seq(|was|, k requires 0 <= k < |was| => Flagged(was[k], found, k))
  }

  /** What the marking loop finds in t rounds. */
  ghost function Findings(asks: seq<Ask>, t: nat): (found: seq<bool>)
    ensures |found| == t
  {
    if t == 0 then [] else Findings(asks, t - 1) + [Marked(asks, t - 1)]
  }

  lemma {:induction false} FindingsAt(asks: seq<Ask>, t: nat, u: nat)
    requires u < t
    ensures Findings(asks, t)[u] == Marked(asks, u)
  {
    if u < t - 1 {
      FindingsAt(asks, t - 1, u);
    }
  }

  /** One round of the level-4 marking loop: test three entries, and mark them if their addresses are consecutive. */
  method MarkRound(asks: seq<Ask>, rs: seq<Request>, i: nat, ghost was: seq<Req>, ghost found: seq<bool>)
    returns (f: bool)
    requires i == 3 * |found| && |rs| == |asks| == |was| && Distinct(rs)
    requires forall k {:trigger rs[k].logicalAddress} :: 0 <= k < |rs| ==> rs[k].logicalAddress == asks[k].logical
    requires forall k :: 0 <= k < |rs| ==> rs[k].Valid()
    requires Values(rs) == FlaggedBy(was, found)
    modifies rs
    ensures forall k :: 0 <= k < |rs| ==> rs[k].Valid()
    ensures Values(rs) == FlaggedBy(was, found + [f])
    ensures f == Marked(asks, |found|)
  {
    f := i + 2 < |rs| && rs[i + 1].logicalAddress == rs[i].logicalAddress + 1
         && rs[i + 2].logicalAddress == rs[i].logicalAddress + 2;
    if f {
      MarkTriple(rs, i);
    }
    forall k: nat | k < |rs|
      ensures Values(rs)[k] == FlaggedBy(was, found + [f])[k]
    {
      FlaggedStep(was[k], found, f, k);
      assert old(Values(rs))[k] == old(rs[k].Value()) == Flagged(was[k], found, k);
    }
  }

  ghost function TrueCount(found: seq<bool>): nat {
    if found == [] then 0 else TrueCount(found[..|found| - 1]) + Flag(found[|found| - 1])
  }

  lemma {:induction false} TrueCountIsMarks(asks: seq<Ask>, t: nat)
    ensures TrueCount(Findings(asks, t)) == Marks(asks, t)
  {
    if t > 0 {
      assert Findings(asks, t)[..t - 1] == Findings(asks, t - 1) && Findings(asks, t)[t - 1] == Marked(asks, t - 1);
      TrueCountIsMarks(asks, t - 1);
    }
  }

  /** The level-4 loop that looks for three consecutive addresses. */
  method MarkFullStripes(asks: seq<Ask>, rs: seq<Request>, ghost was: seq<Req>, goal: int)
    returns (needed: int, ghost found: seq<bool>)
    requires |rs| == |asks| == |was| && Distinct(rs)
    requires forall k {:trigger rs[k].logicalAddress} :: 0 <= k < |rs| ==> rs[k].logicalAddress == asks[k].logical
    requires forall k :: 0 <= k < |rs| ==> rs[k].Valid()
    requires Values(rs) == FlaggedBy(was, [])
    modifies rs
    ensures forall k :: 0 <= k < |rs| ==> rs[k].Valid()
    ensures Values(rs) == FlaggedBy(was, found)
    ensures |found| == (|rs| + 2) / 3 && found == Findings(asks, |found|)
    ensures needed == goal - 8 * TrueCount(found)
  {
    needed := goal;
    var i := 0;
    found := [];
    while i < |rs|
      invariant i == 3 * |found| && 0 <= i <= |rs| + 2
      invariant forall k :: 0 <= k < |rs| ==> rs[k].Valid()
      invariant Values(rs) == FlaggedBy(was, found)
      invariant found == Findings(asks, |found|)
      invariant needed == goal - 8 * TrueCount(found)
    {
      var f := MarkRound(asks, rs, i, was, found);
      if f {
        needed := needed - 8;
      }
      assert (found + [f])[..|found|] == found;
      i, found := i + 3, found + [f];
    }
  }

  /** Entries placed and, at level 4, marked are the initial request queue. */
  lemma QueueReady(m: Mapping, asks: seq<Ask>)
    ensures InitReqs(m, asks) ==
            if m.Parity4? then FlaggedBy(PlainQueue(m, asks), Findings(asks, (|asks| + 2) / 3)) else PlainQueue(m, asks)
  {
    forall k: nat | k < |asks|
      ensures InitReq(m, asks, k) == if m.Parity4? then Flagged(Plain(m, asks[k]), Findings(asks, (|asks| + 2) / 3), k)
                                     else Plain(m, asks[k])
    {
      FindingsAt(asks, (|asks| + 2) / 3, k / 3);
    }
  }

  /** A queue that has just been placed carries no marks. */
  lemma PlainUnflagged(m: Mapping, asks: seq<Ask>)
    ensures FlaggedBy(PlainQueue(m, asks), []) == PlainQueue(m, asks)
  {
  }

  /** Create, place and mark the request queue. */
  method SetUp(m: Mapping, asks: seq<Ask>) returns (rs: seq<Request>, needed: int)
    requires forall i :: 0 <= i < |asks| ==> asks[i].logical < m.BlockCount()
    ensures fresh(rs) && Distinct(rs) && forall k :: 0 <= k < |rs| ==> rs[k].Valid()
    ensures Values(rs) == InitReqs(m, asks) && needed == Goal(m, asks)
    ensures |rs| == |asks| && forall k :: 0 <= k < |rs| ==> rs[k].Value().logical == asks[k].logical
    ensures forall k :: 0 <= k < |rs| ==> AtHome(m, rs[k].Value())
  {
    rs, needed := PlaceRequests(m, asks);
    if m.Parity4? {
      PlainUnflagged(m, asks);
      ghost var found;
      needed, found := MarkFullStripes(asks, rs, PlainQueue(m, asks), needed);
      TrueCountIsMarks(asks, |found|);
    }
    QueueReady(m, asks);
    forall k: nat | k < |rs|
      ensures rs[k].Value().logical == asks[k].logical && AtHome(m, rs[k].Value())
    {
      assert Values(rs)[k] == InitReq(m, asks, k);
      NewReqOk(m, asks[k].logical, asks[k].op, InitReq(m, asks, k).fullStripe, InitReq(m, asks, k).fullParity);
    }
  }

  /** What scheduling an idle disk for one request makes of the request and of the disk. */
  ghost function Outcome(m: Mapping, speed: int, r: Req, k: Disk, disk: int, index: int): (Req, Disk) {
    match Offer(m, r, disk)
    case None => (r, k)
    case Some((r', op)) => (r', Depart(k, speed, YPos(RowOf(m, r'.logical)), index, op))
  }

  lemma TryStartOutcome(s: Sim, disk: int, index: nat, out: (Req, Disk), t: Sim)
    requires |s.disks| == DISK_COUNT && 0 <= disk < DISK_COUNT && index < |s.reqs|
    requires (s.window == -1 || index < s.window) && s.disks[disk].state.Idle?
    requires out == Outcome(s.m, s.speed, s.reqs[index], s.disks[disk], disk, index)
    requires t == s.(reqs := s.reqs[index := out.0], disks := s.disks[disk := out.1])
    ensures t == TryStart(s, disk, index)
  {
    assert s.reqs[index := s.reqs[index]] == s.reqs && s.disks[disk := s.disks[disk]] == s.disks;
  }

  lemma ScheduleDiskStep(s: Sim, disk: int, index: nat, t: Sim)
    requires |s.disks| == DISK_COUNT && 0 <= disk < DISK_COUNT && index < |s.reqs|
    requires t == ScheduleDisk(s, disk, index)
    ensures ScheduleDisk(s, disk, index + 1) == TryStart(t, disk, index) && TryStart(t, disk, index).window == t.window
  {
  }

  lemma ScheduledSoFar(s: Sim, disk: nat)
    requires Inv(s) && disk < DISK_COUNT
    ensures var t := ScheduleDisks(s, disk);
            && Inv(t) && t.window == s.window && |t.reqs| == |s.reqs|
            && ScheduleDisks(s, disk + 1) == ScheduleDisk(t, disk, |t.reqs|)
  {
    ScheduleDisksOk(s, disk);
  }

  /** The scheduler's count after looking at the first index requests. */
  ghost function Seen(s: Sim, index: int): int { if s.window == -1 then index else Min(index, s.window) }

  lemma WindowPositive(s: Sim)
    requires Inv(s)
    ensures s.window == -1 || s.window > 0
  {
  }

  /** While a disk is being scheduled every request stays in a legal state and the window stays put. */
  lemma ScheduledRequest(s: Sim, disk: int, index: nat)
    requires Inv(s) && 0 <= disk < DISK_COUNT && index < |s.reqs|
    ensures var t := ScheduleDisk(s, disk, index);
            && ReqOk(t.m, t.reqs[index]) && t.window == s.window && t.m == s.m
            && (s.window != -1 && index >= s.window ==> ScheduleDisk(s, disk, index + 1) == t)
  {
    ScheduleDiskOk(s, disk, index);
  }

  /** A disk whose I/O can be marked done. */
  ghost predicate CanFinish(u: Sim, disk: int) {
    && Shape(u) && 0 <= disk < DISK_COUNT && !u.disks[disk].state.Idle? && u.disks[disk].op.Some?
    && var r := u.reqs[u.disks[disk].target];
       r.On(disk) && (u.m.Mirrored? ==> InFlight(r.Get(r.IsFirst(disk))))
  }

  /** The state after an I/O finishes, spelled out. */
  lemma FinishedIs(u: Sim, disk: int, r': Req, done: bool, v: Sim)
    requires CanFinish(u, disk)
    requires var k := u.disks[disk];
             && (r', done) == Complete(u.m, u.reqs[k.target], disk, k.op.value)
             && v == u.(reqs := u.reqs[k.target := r'],
                        disks := u.disks[disk := k.(state := Idle,
                                                    readCount := k.readCount + Flag(k.op.value == OpRead),
                                                    writeCount := k.writeCount + Flag(k.op.value == OpWrite))],
                        logical := if done then u.logical + 1 else u.logical,
                        window := if done && u.window > 0 then u.window + 1 else u.window,
                        count := u.count + 1)
    ensures v == FinishIO(u, disk)
  {
  }

  lemma FinishingCanFinish(t: Sim, disk: int)
    requires Finishing(t, disk)
    ensures CanFinish(CountDown(t, disk), disk)
    ensures FinishIO(CountDown(t, disk), disk) == FinishedSim(t, disk)
  {
    FinishRequest(t, disk);
  }

  class Raid {
    const m: Mapping
    const seekSpeed: int
    const requestQueue: seq<Request>
    var disks: seq<Disk>
    var window: int
    var requestCount: int
    var requestCountNeeded: int
    var logicalRequests: int
    var doAnimate: bool
    ghost const work: int

    ghost predicate Valid()
      reads this, requestQueue
    {
      && |disks| == DISK_COUNT && Distinct(requestQueue)
      && forall i :: 0 <= i < |requestQueue| ==> ValidRequest(i)
    }

    ghost predicate ValidRequest(i: nat)
      requires i < |requestQueue|
      reads this, requestQueue
    {
      requestQueue[i].Valid() && (requestQueue[i].Value().disk1 == NO_DISK <==> m.Striped?)
    }

    ghost function Value(): Sim
      reads this, requestQueue
    {
      Sim(m, seekSpeed, disks, Values(requestQueue), window, requestCount, requestCountNeeded, work,
          logicalRequests, doAnimate)
    }

    /** Set up the request queue, the goal and the disks. */
    constructor (m: Mapping, seekSpeed: int, asks: seq<Ask>, window: int)
      requires Legal(m, seekSpeed, asks, window)
      ensures Valid() && fresh(requestQueue) && Value() == InitSim(m, seekSpeed, asks, window)
    {
      var rs, needed := SetUp(m, asks);
      this.m := m;
      this.seekSpeed := seekSpeed;
      this.window := window;
      requestQueue := rs;
      disks := seq(DISK_COUNT, _ => NEW_DISK);
      requestCount, requestCountNeeded, logicalRequests := 0, needed, 0;
      doAnimate := true;
      work := Work(m, asks, |asks|);
      new;
      forall i: nat | i < |asks|
        ensures ValidRequest(i)
      {
        assert requestQueue[i].Value() == InitReqs(m, asks)[i];
      }
    }

    // ---------- starting an I/O ----------

    /** StartRead and StartWrite with StartRequest and SetSeekDirection. */
    method StartRequest(disk: int, index: nat, op: Op)
      requires |disks| == DISK_COUNT && 0 <= disk < DISK_COUNT && index < |requestQueue|
      modifies this`disks
      ensures disks == old(disks)[disk := Depart(old(disks[disk]), seekSpeed,
                                                 YPos(RowOf(m, requestQueue[index].logicalAddress)), index, op)]
    {
      var k := disks[disk];
      var dest := YPos(RowOf(m, requestQueue[index].logicalAddress));
      var delta := if k.y < dest then seekSpeed else -seekSpeed;
      disks := disks[disk := k.(state := Seek, delta := delta, last := k.target, target := index, op := Some(op),
                                served := k.served + [index])];
    }

    /** Set one status of a request, log the I/O, and start it. */
    method Launch(disk: int, index: nat, entry: nat, st: Status, op: Op)
      requires |disks| == DISK_COUNT && 0 <= disk < DISK_COUNT && index < |requestQueue| && ValidRequest(index)
      requires entry < |requestQueue[index].status|
      requires entry == 0 <==> requestQueue[index].Value().IsFirst(disk)
      modifies this`disks, requestQueue[index]
      ensures ValidRequest(index)
      ensures var r := old(requestQueue[index].Value());
              requestQueue[index].Value() ==
              r.Put(r.IsFirst(disk), st).(history := Snoc(r.history, Begin(disk, op)))
      ensures disks == old(disks)[disk := Depart(old(disks[disk]), seekSpeed,
                                                 YPos(RowOf(m, requestQueue[index].logicalAddress)), index, op)]
    {
      var request := requestQueue[index];
      request.status := request.status[entry := st];
      request.history := Snoc(request.history, Begin(disk, op));
      StartRequest(disk, index, op);
    }

    // ---------- the schedulers ----------

    method DoStripeScheduling(disk: int, index: nat)
      requires |disks| == DISK_COUNT && 0 <= disk < DISK_COUNT && index < |requestQueue| && ValidRequest(index)
      requires m.Striped? && ReqOk(m, requestQueue[index].Value())
      modifies this`disks, requestQueue[index]
      ensures ValidRequest(index) && |disks| == DISK_COUNT
      ensures (requestQueue[index].Value(), disks[disk]) ==
              old(Outcome(m, seekSpeed, requestQueue[index].Value(), disks[disk], disk, index))
      ensures disks == old(disks)[disk := disks[disk]]
    {
      var request := requestQueue[index];
      if request.status[0] == NotStarted && request.logicalAddress % DISK_COUNT == disk {
        if request.opType == OpRead {
          Launch(disk, index, 0, DoRead, OpRead);
        } else {
          Launch(disk, index, 0, DoWrite, OpWrite);
        }
      }
    }

    method DoMirrorScheduling(disk: int, index: nat)
      requires |disks| == DISK_COUNT && 0 <= disk < DISK_COUNT && index < |requestQueue| && ValidRequest(index)
      requires m.Mirrored?
      modifies this`disks, requestQueue[index]
      ensures ValidRequest(index) && |disks| == DISK_COUNT
      ensures (requestQueue[index].Value(), disks[disk]) ==
              old(Outcome(m, seekSpeed, requestQueue[index].Value(), disks[disk], disk, index))
      ensures disks == old(disks)[disk := disks[disk]]
    {
      var request := requestQueue[index];
      var list := request.physDiskList;
      var entry: nat;
      if list[0] == disk {
        entry := 0;
      } else if list[1] == disk {
        entry := 1;
      } else {
        return;
      }
      if request.status[entry] == NotStarted {
        if request.opType == OpRead {
          request.status := request.status[1 - entry := Done];
          Launch(disk, index, entry, DoRead, OpRead);
        } else {
          Launch(disk, index, entry, DoWrite, OpWrite);
        }
      }
    }

    /** The subtractive-parity end shared by the level 4 and level 5 schedulers. */
    method DoParityWrite(disk: int, index: nat, entry: nat)
      requires |disks| == DISK_COUNT && 0 <= disk < DISK_COUNT && index < |requestQueue| && ValidRequest(index)
      requires !m.Striped? && entry < 2 && (entry == 0 <==> requestQueue[index].Value().IsFirst(disk))
      modifies this`disks, requestQueue[index]
      ensures ValidRequest(index) && |disks| == DISK_COUNT
      ensures (requestQueue[index].Value(), disks[disk]) ==
              match OfferParityWrite(old(requestQueue[index].Value()), disk)
              case None => old((requestQueue[index].Value(), disks[disk]))
              case Some((r', op)) => (r', Depart(old(disks[disk]), seekSpeed, YPos(RowOf(m, r'.logical)), index, op))
      ensures disks == old(disks)[disk := disks[disk]]
    {
      var request := requestQueue[index];
      if request.status[entry] == NotStarted {
        Launch(disk, index, entry, DoRead, OpRead);
        return;
      }
      if request.status[entry] == WritePhaseBegin {
        Launch(disk, index, entry, DoWrite, OpWrite);
      }
    }

    method DoRaid4Scheduling(disk: int, index: nat)
      requires |disks| == DISK_COUNT && 0 <= disk < DISK_COUNT && index < |requestQueue| && ValidRequest(index)
      requires m.Parity4? && ReqOk(m, requestQueue[index].Value())
      modifies this`disks, requestQueue[index]
      ensures ValidRequest(index) && |disks| == DISK_COUNT
      ensures (requestQueue[index].Value(), disks[disk]) ==
              old(Outcome(m, seekSpeed, requestQueue[index].Value(), disks[disk], disk, index))
      ensures disks == old(disks)[disk := disks[disk]]
    {
      var request := requestQueue[index];
      if request.opType == OpRead && request.status[0] == NotStarted
         && request.logicalAddress % (DISK_COUNT - 1) == disk {
        Launch(disk, index, 0, DoRead, OpRead);
        return;
      }
      if request.opType != OpWrite {
        return;
      }
      var list := request.physDiskList;
      if list[0] != disk && list[1] != disk {
        return;
      }
      var entry: nat := if list[0] == disk then 0 else 1;
      if request.fullStripeWrite {
        if !request.fullStripeWriteParity && request.status[entry] == NotStarted {
          request.status := request.status[1 - entry := Done];
          Launch(disk, index, entry, DoWrite, OpWrite);
          return;
        }
        if request.fullStripeWriteParity && request.status[entry] == NotStarted {
          Launch(disk, index, entry, DoWrite, OpWrite);
        }
        return;
      }
      DoParityWrite(disk, index, entry);
    }

    method DoRaid5Scheduling(disk: int, index: nat)
      requires |disks| == DISK_COUNT && 0 <= disk < DISK_COUNT && index < |requestQueue| && ValidRequest(index)
      requires m.Parity5?
      modifies this`disks, requestQueue[index]
      ensures ValidRequest(index) && |disks| == DISK_COUNT
      ensures (requestQueue[index].Value(), disks[disk]) ==
              old(Outcome(m, seekSpeed, requestQueue[index].Value(), disks[disk], disk, index))
      ensures disks == old(disks)[disk := disks[disk]]
    {
      var request := requestQueue[index];
      var list := request.physDiskList;
      if request.opType == OpRead && request.status[0] == NotStarted && list[0] == disk {
        Launch(disk, index, 0, DoRead, OpRead);
        return;
      }
      if request.opType != OpWrite || (list[0] != disk && list[1] != disk) {
        return;
      }
      DoParityWrite(disk, index, if list[0] == disk then 0 else 1);
    }

    /** The scheduler of the mapping. */
    method DoScheduling(disk: int, index: nat)
      requires |disks| == DISK_COUNT && 0 <= disk < DISK_COUNT && index < |requestQueue| && ValidRequest(index)
      requires ReqOk(m, requestQueue[index].Value())
      modifies this`disks, requestQueue[index]
      ensures ValidRequest(index) && |disks| == DISK_COUNT
      ensures (requestQueue[index].Value(), disks[disk]) ==
              old(Outcome(m, seekSpeed, requestQueue[index].Value(), disks[disk], disk, index))
      ensures disks == old(disks)[disk := disks[disk]]
    {
      match m
      case Striped => DoStripeScheduling(disk, index);
      case Mirrored => DoMirrorScheduling(disk, index);
      case Parity4 => DoRaid4Scheduling(disk, index);
      case Parity5 => DoRaid5Scheduling(disk, index);
    }

    /** One request of the window is offered to a disk that is idle. */
    method TryRequest(disk: int, index: nat)
      requires Valid() && 0 <= disk < DISK_COUNT && index < |requestQueue| && (window == -1 || index < window)
      requires ReqOk(m, requestQueue[index].Value())
      modifies this`disks, requestQueue[index]
      ensures Valid() && Value() == TryStart(old(Value()), disk, index)
    {
      if !disks[disk].state.Idle? {
        return;
      }
      ghost var was := Value();
      assert was.reqs[index] == requestQueue[index].Value();
      ghost var out := Outcome(m, seekSpeed, requestQueue[index].Value(), disks[disk], disk, index);
      DoScheduling(disk, index);
      QueueUpdated(index);
      TryStartOutcome(was, disk, index, out, Value());
    }

    /** Only one request of the queue has changed. */
    twostate lemma QueueUpdated(index: nat)
      requires old(Valid()) && index < |requestQueue| && ValidRequest(index) && |disks| == DISK_COUNT
      requires forall i :: 0 <= i < |requestQueue| && i != index ==> unchanged(requestQueue[i])
      ensures Valid()
      ensures Values(requestQueue) == old(Values(requestQueue))[index := requestQueue[index].Value()]
    {
      forall i: nat | i < |requestQueue|
        ensures requestQueue[i].Valid() && ValidRequest(i)
        ensures i != index ==> requestQueue[i].Value() == old(requestQueue[i].Value())
      {
        assert old(ValidRequest(i));
      }
      assert forall i :: 0 <= i < |requestQueue| ==>
               Values(requestQueue)[i] == old(Values(requestQueue))[index := requestQueue[index].Value()][i];
    }

    /** The queue has not changed. */
    twostate lemma QueueSame()
      requires old(Valid()) && |disks| == DISK_COUNT
      requires forall i :: 0 <= i < |requestQueue| ==> unchanged(requestQueue[i])
      ensures Valid() && Values(requestQueue) == old(Values(requestQueue))
    {
      forall i: nat | i < |requestQueue|
        ensures requestQueue[i].Valid() && ValidRequest(i)
        ensures Values(requestQueue)[i] == old(Values(requestQueue))[i]
      {
        assert old(ValidRequest(i));
      }
    }

    /** One round of the inner loop of GetNextIOs; count stops at the window. */
    method ScheduleIndex(disk: int, index: nat, count: int, ghost s: Sim) returns (count': int)
      requires Valid() && 0 <= disk < DISK_COUNT && index < |requestQueue| == |s.reqs|
      requires Inv(s) && count == Seen(s, index)
      requires Value() == ScheduleDisk(s, disk, index)
      modifies this`disks, requestQueue
      ensures Valid() && Value() == ScheduleDisk(s, disk, index + 1)
      ensures count' == Seen(s, index + 1)
    {
      ScheduledRequest(s, disk, index);
      if window != -1 && count >= window {
        return count;
      }
      ghost var t := Value();
      assert t.reqs[index] == requestQueue[index].Value();
      TryRequest(disk, index);
      ScheduleDiskStep(s, disk, index, t);
      count' := count + 1;
    }

    /** The inner loop of GetNextIOs. */
    method ScheduleOneDisk(disk: int, ghost s: Sim)
      requires Valid() && 0 <= disk < DISK_COUNT && Value() == s && Inv(s)
      modifies this`disks, requestQueue
      ensures Valid() && Value() == ScheduleDisk(s, disk, |s.reqs|)
    {
      var count := 0;
      WindowPositive(s);
      for index := 0 to |requestQueue|
        invariant Valid() && Value() == ScheduleDisk(s, disk, index) && count == Seen(s, index)
      {
        count := ScheduleIndex(disk, index, count, s);
      }
    }

    method GetNextIOs(ghost s: Sim)
      requires Valid() && Value() == s && Inv(s)
      modifies this`disks, this`doAnimate, requestQueue
      ensures Valid() && Value() == SimState.GetNextIOs(s)
    {
      if requestCount == requestCountNeeded {
        doAnimate := false;
        QueueSame();
      } else {
        ScheduleAll(s);
      }
    }

    method ScheduleAll(ghost s: Sim)
      requires Valid() && Value() == s && Inv(s)
      modifies this`disks, requestQueue
      ensures Valid() && Value() == ScheduleDisks(s, DISK_COUNT)
    {
      for disk := 0 to DISK_COUNT
        invariant Valid() && Value() == ScheduleDisks(s, disk)
      {
        ScheduledSoFar(s, disk);
        ScheduleOneDisk(disk, ScheduleDisks(s, disk));
      }
    }

    // ---------- a tick ----------

    method MoveHead(disk: int)
      requires |disks| == DISK_COUNT && 0 <= disk < DISK_COUNT
      modifies this`disks
      ensures disks == old(disks)[disk := old(disks[disk]).(y := old(disks[disk]).y + old(disks[disk]).delta)]
    {
      disks := disks[disk := disks[disk].(y := disks[disk].y + disks[disk].delta)];
    }

    method DoneWithSeek(disk: int) returns (done: bool)
      requires |disks| == DISK_COUNT && 0 <= disk < DISK_COUNT && 0 <= disks[disk].target < |requestQueue|
      ensures done == (disks[disk].y == YPos(requestQueue[disks[disk].target].physOffset))
    {
      done := disks[disk].y == YPos(requestQueue[disks[disk].target].physOffset);
    }

    /** StartTransfer: how many ticks the transfer takes. */
    method StartTransfer(disk: int) returns (ticks: int)
      requires Valid() && Shape(Value()) && 0 <= disk < DISK_COUNT && !disks[disk].state.Idle?
      ensures ticks == TransferTime(Value(), disk)
    {
      var offsetCurrent := requestQueue[disks[disk].target].physOffset;
      var offsetLast := -1;
      assert Value().reqs[disks[disk].target].offset == offsetCurrent;
      if 0 <= disks[disk].last < |requestQueue| {
        offsetLast := requestQueue[disks[disk].last].physOffset;
        assert Value().reqs[disks[disk].last].offset == offsetLast;
      }
      if offsetCurrent == offsetLast + 1 {
        ticks := 1;
      } else {
        ticks := 10;
      }
    }

    /** The seeking part of a tick. */
    method SeekTick(disk: int, ghost s: Sim)
      requires Valid() && Value() == s && Shape(s) && 0 <= disk < DISK_COUNT
      modifies this`disks
      ensures Valid() && Value() == SeekPart(s, disk)
    {
      if disks[disk].state.Seek? {
        assert s.reqs[disks[disk].target] == requestQueue[disks[disk].target].Value();
        var done := DoneWithSeek(disk);
        if done {
          var ticks := StartTransfer(disk);
          disks := disks[disk := disks[disk].(state := Xfer, xfer := ticks)];
        } else {
          MoveHead(disk);
        }
        QueueSame();
      }
    }

    /** RequestLevel0Done, RequestLevel1Done or RequestLevel4Done, by mapping. */
    method RequestLevelDone(index: nat, disk: int) returns (done: bool)
      requires index < |requestQueue| && ValidRequest(index) && 0 <= disk && requestQueue[index].Value().On(disk)
      requires m.Mirrored? ==> InFlight(requestQueue[index].Value().Get(requestQueue[index].Value().IsFirst(disk)))
      modifies requestQueue[index]
      ensures ValidRequest(index)
      ensures (requestQueue[index].Value(), done) == LevelDone(m, old(requestQueue[index].Value()), disk)
    {
      match m
      case Striped => done := requestQueue[index].RequestLevel0Done(disk);
      case Mirrored => done := requestQueue[index].RequestLevel1Done(disk);
      case Parity4 => done := requestQueue[index].RequestLevel4Done(disk);
      case Parity5 => done := requestQueue[index].RequestLevel4Done(disk);
    }

    /** The same, with the request's history and reports brought up to date. */
    method RequestDone(index: nat, disk: int, op: Op) returns (done: bool)
      requires index < |requestQueue| && ValidRequest(index) && 0 <= disk && requestQueue[index].Value().On(disk)
      requires m.Mirrored? ==> InFlight(requestQueue[index].Value().Get(requestQueue[index].Value().IsFirst(disk)))
      modifies requestQueue[index]
      ensures ValidRequest(index)
      ensures (requestQueue[index].Value(), done) == Complete(m, old(requestQueue[index].Value()), disk, op)
    {
      var request := requestQueue[index];
      ghost var r := request.Value();
      done := RequestLevelDone(index, disk);
      ghost var r' := request.Value();
      request.history := Snoc(request.history, End(disk, op));
      if done {
        request.reports := request.reports + 1;
      }
      assert request.Value() == r'.(history := Snoc(r.history, End(disk, op)),
                                    reports := if done then r.reports + 1 else r.reports);
    }

    /** The counters after an I/O, and the disk becoming idle. */
    method CountIO(disk: int, op: Op, done: bool)
      requires Valid() && 0 <= disk < DISK_COUNT
      modifies this`disks, this`logicalRequests, this`window, this`requestCount
      ensures Valid()
      ensures var s := old(Value());
              var k := s.disks[disk];
              Value() == s.(disks := s.disks[disk := k.(state := Idle,
                                                        readCount := k.readCount + Flag(op == OpRead),
                                                        writeCount := k.writeCount + Flag(op == OpWrite))],
                            logical := if done then s.logical + 1 else s.logical,
                            window := if done && s.window > 0 then s.window + 1 else s.window,
                            count := s.count + 1)
    {
      var k := disks[disk];
      if op == OpWrite {
        k := k.(writeCount := k.writeCount + 1);
      } else {
        k := k.(readCount := k.readCount + 1);
      }
      if done {
        logicalRequests := logicalRequests + 1;
        if window > 0 {
          window := window + 1;
        }
      }
      requestCount := requestCount + 1;
      disks := disks[disk := k.(state := Idle)];
      QueueSame();
    }

    /** MarkDone and the bookkeeping that follows it when a transfer ends. */
    method MarkDone(disk: int, ghost u: Sim)
      requires Valid() && Value() == u && CanFinish(u, disk)
      modifies this`disks, this`logicalRequests, this`window, this`requestCount, requestQueue
      ensures Valid() && Value() == FinishIO(u, disk)
    {
      var index := disks[disk].target;
      var op := disks[disk].op.value;
      assert u.reqs[index] == requestQueue[index].Value();
      var done := RequestDone(index, disk, op);
      QueueUpdated(index);
      ghost var r' := requestQueue[index].Value();
      CountIO(disk, op, done);
      FinishedIs(u, disk, r', done, Value());
    }

    /** The last tick of a transfer. */
    method FinishTransfer(disk: int, ghost t: Sim)
      requires Valid() && Finishing(t, disk) && Value() == CountDown(t, disk)
      modifies this`disks, this`logicalRequests, this`window, this`requestCount, this`doAnimate, requestQueue
      ensures Valid() && Value() == SimState.GetNextIOs(FinishedSim(t, disk))
    {
      FinishingCanFinish(t, disk);
      FinishOk(t, disk);
      MarkDone(disk, CountDown(t, disk));
      GetNextIOs(FinishedSim(t, disk));
    }

    /** A tick of a transferring disk. */
    method TransferTick(disk: int, ghost t: Sim)
      requires Valid() && Value() == t && Ready(t, disk) && disks[disk].state.Xfer? && disks[disk].xfer >= 1
      modifies this`disks, this`logicalRequests, this`window, this`requestCount, this`doAnimate, requestQueue
      ensures Valid()
      ensures Value() == if old(disks[disk].xfer) == 1 then SimState.GetNextIOs(FinishedSim(t, disk))
                         else CountDown(t, disk)
    {
      disks := disks[disk := disks[disk].(xfer := disks[disk].xfer - 1)];
      QueueSame();
      if disks[disk].xfer == 0 {
        FinishTransfer(disk, t);
      }
    }

    /** What Animate does for one disk. */
    method AnimateDisk(disk: int, ghost s: Sim)
      requires Valid() && Value() == s && Ready(s, disk)
      modifies this`disks, this`logicalRequests, this`window, this`requestCount, this`doAnimate, requestQueue
      ensures Valid() && Value() == TickDisk(s, disk)
    {
      SeekPartOk(s, disk);
      ghost var t := SeekPart(s, disk);
      SeekTick(disk, s);
      if disks[disk].state.Xfer? {
        assert DiskOk(t, disk);
        TransferTick(disk, t);
      }
    }

    /** One call of Animate: nothing once the animation is stopped. */
    method Animate(ghost s: Sim)
      requires Valid() && Value() == s && Inv(s)
      modifies this`disks, this`logicalRequests, this`window, this`requestCount, this`doAnimate, requestQueue
      ensures Valid() && Value() == SimTicks.Animate(s)
    {
      if doAnimate {
        AnimateDisks(s);
      }
    }

    /** The disk loop of Animate. */
    method AnimateDisks(ghost s: Sim)
      requires Valid() && Value() == s && Inv(s)
      modifies this`disks, this`logicalRequests, this`window, this`requestCount, this`doAnimate, requestQueue
      ensures Valid() && Value() == AnimateFrom(s, 0)
    {
      ghost var t := s;
      for disk := 0 to DISK_COUNT
        invariant Valid() && Value() == t && Inv(t) && AnimateFrom(t, disk) == AnimateFrom(s, 0)
      {
        AnimateFromStep(t, disk);
        AnimateDisk(disk, t);
        t := TickDisk(t, disk);
      }
    }

    /** The key binding that starts the simulation. */
    method Start(ghost s: Sim)
      requires Valid() && Value() == s && Inv(s)
      modifies this`disks, this`doAnimate, requestQueue
      ensures Valid() && Value() == SimState.GetNextIOs(s)
    {
      GetNextIOs(s);
    }
  }

  lemma AnimateFromStep(s: Sim, disk: nat)
    requires Inv(s) && disk < DISK_COUNT
    ensures Inv(TickDisk(s, disk)) && AnimateFrom(s, disk) == AnimateFrom(TickDisk(s, disk), disk + 1)
  {
    TickDiskOk(s, disk);
  }

  /** Tick a started simulator until the animation stops. */
  method AnimateAll(raid: Raid, m: Mapping, seekSpeed: int, asks: seq<Ask>, window: int) returns (ticks: nat)
    requires Legal(m, seekSpeed, asks, window) && OnRows(m, seekSpeed, asks) && GoalRight(m, asks)
    requires raid.Valid() && raid.Value() == RunState(m, seekSpeed, asks, window, 0)
    modifies raid, raid.requestQueue
    ensures raid.Valid() && raid.Value() == RunState(m, seekSpeed, asks, window, ticks)
    ensures !raid.doAnimate && ticks <= 400 * Goal(m, asks)
  {
    RunBegins(m, seekSpeed, asks, window);
    ghost var s := RunState(m, seekSpeed, asks, window, 0);
    ticks := 0;
    while raid.doAnimate
      invariant raid.Valid()
      invariant raid.Value() == s == RunState(m, seekSpeed, asks, window, ticks)
      invariant ticks + Measure(s) <= 400 * Goal(m, asks)
      decreases Measure(s)
    {
      RunAdvances(m, seekSpeed, asks, window, ticks);
      raid.Animate(s);
      ticks := ticks + 1;
      s := RunState(m, seekSpeed, asks, window, ticks);
    }
    MeasureNonNegative(s);
  }

  /**
   A whole run, for every mapping, seek speed, request list and window: set up, start, and tick until the
   animation stops. If the heads can stop on every requested row and, at level 4, every marked triple is three
   writes, it stops within 400 ticks per physical I/O, with every request reported done once and the I/Os
   counted for it made; and with every write on its data disk if the list and the window are safe.
   */
  method Simulate(m: Mapping, seekSpeed: int, asks: seq<Ask>, window: int) returns (raid: Raid, ticks: nat)
    requires Legal(m, seekSpeed, asks, window) && OnRows(m, seekSpeed, asks) && GoalRight(m, asks)
    ensures raid.Valid() && raid.Value() == RunState(m, seekSpeed, asks, window, ticks)
    ensures Finished(raid.Value()) && raid.requestCount == Goal(m, asks) && ticks <= 400 * Goal(m, asks)
    ensures DataSafe(m, asks, window) ==> Completed(raid.Value())
    ensures forall i :: 0 <= i < |raid.requestQueue| ==>
              raid.requestQueue[i].reports == 1 && IOsOver(m, raid.requestQueue[i].Value())
  {
    raid := new Raid(m, seekSpeed, asks, window);
    InitOk(m, seekSpeed, asks, window);
    raid.Start(InitSim(m, seekSpeed, asks, window));
    RunBegins(m, seekSpeed, asks, window);
    ticks := AnimateAll(raid, m, seekSpeed, asks, window);
    RunStops(m, seekSpeed, asks, window, ticks);
    forall i | 0 <= i < |raid.requestQueue|
      ensures raid.requestQueue[i].reports == 1 && IOsOver(m, raid.requestQueue[i].Value())
    {
      assert raid.Value().reqs[i] == raid.requestQueue[i].Value();
    }
  }
}
