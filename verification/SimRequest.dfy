/** A request of raid-graphics.py: its status machine and what each completion does to it. */
module SimRequest {

  const DISK_COUNT: int := 4

  datatype Mapping = Striped | Mirrored | Parity4 | Parity5 {
    function BlockCount(): int {
      match this
      case Striped => 80
      case Mirrored => 40
      case Parity4 => 60
      case Parity5 => 60
    }
  }

  datatype Op = OpRead | OpWrite

  datatype Status = NotStarted | DoRead | DoWrite | ReadPhaseDone | WritePhaseBegin | Done

  /** One physical I/O of a request starting or finishing. */
  datatype Event = Begin(disk: int, op: Op) | End(disk: int, op: Op)

  /** A history, latest event outermost. */
  datatype Log = Empty | Snoc(prev: Log, last: Event) {
    function Length(): nat { if Empty? then 0 else prev.Length() + 1 }

    function Count(e: Event): nat { if Empty? then 0 else prev.Count(e) + (if last == e then 1 else 0) }

    predicate Has(e: Event) { Snoc? && (last == e || prev.Has(e)) }

    /** The part that concerns one disk. */
    function Lane(disk: int): Log {
      if Empty? then Empty
      else if last.disk == disk then Snoc(prev.Lane(disk), last)
      else prev.Lane(disk)
    }

    /** No write begins before both reads have ended. */
    predicate Barrier(disk0: int, disk1: int) {
      Empty? ||
      (prev.Barrier(disk0, disk1) &&
       (last.Begin? && last.op == OpWrite ==> prev.Has(End(disk0, OpRead)) && prev.Has(End(disk1, OpRead))))
    }
  }

  const NO_DISK: int := -1

  /** The parity disk of level 4. */
  const PARITY_DISK: int := 3

  /**
   The two entries of phys_disk_list and status are the pairs (disk0, first) and (disk1, second); a striped
   request has only the first. history and reports record the I/Os done and how often it was reported done.
   */
  datatype Req = Req(logical: nat, op: Op, disk0: int, disk1: int, offset: int, fullStripe: bool, fullParity: bool,
                     first: Status, second: Status, history: Log, reports: nat)
  {
    predicate On(disk: int) { disk == disk0 || disk == disk1 }

    /** The entry that disk_to_index_map gives: the first one or not. */
    predicate IsFirst(disk: int) { disk == disk0 }

    function Get(isFirst: bool): Status { if isFirst then first else second }

    function Put(isFirst: bool, st: Status): Req { if isFirst then this.(first := st) else this.(second := st) }

    function DiskOf(isFirst: bool): int { if isFirst then disk0 else disk1 }
  }

  datatype Option<T> = None | Some(value: T)

  // ---------- where a request goes ----------

  /** The disks and offset set up for a logical address. */
  function Place(m: Mapping, logical: nat): (int, int, int) {
    match m
    case Striped => (logical % DISK_COUNT, NO_DISK, logical / DISK_COUNT)
    case Mirrored =>
      var effective := DISK_COUNT / 2;
      var disk1 := 2 * (logical % effective);
      (disk1, disk1 + 1, logical / effective)
    case Parity4 => (logical % (DISK_COUNT - 1), PARITY_DISK, logical / (DISK_COUNT - 1))
    case Parity5 =>
      var disk := logical % (DISK_COUNT - 1);
      var offset := logical / (DISK_COUNT - 1);
      if offset % 4 == 0 then (disk, 3, offset)
      else if offset % 4 == 1 then (if disk >= 2 then disk + 1 else disk, 2, offset)
      else if offset % 4 == 2 then (if disk >= 1 then disk + 1 else disk, 1, offset)
      else (disk + 1, 0, offset)
  }

  function NewReq(m: Mapping, logical: nat, op: Op, fullStripe: bool, fullParity: bool): Req {
    var (disk0, disk1, offset) := Place(m, logical);
    Req(logical, op, disk0, disk1, offset, fullStripe, fullParity, NotStarted, NotStarted, Empty, 0)
  }

  // ---------- completions ----------

  predicate InFlight(st: Status) { st == DoRead || st == DoWrite }

  /** RequestLevel0Done */
  function Level0Done(r: Req, disk: int): (Req, bool) {
    var e := r.IsFirst(disk);
    (if InFlight(r.Get(e)) then r.Put(e, Done) else r, true)
  }

  /** RequestLevel1Done, whose assertion is the precondition. */
  function Level1Done(r: Req, disk: int): (Req, bool)
    requires InFlight(r.Get(r.IsFirst(disk)))
  {
    var e := r.IsFirst(disk);
    (r.Put(e, Done), r.Get(e) == DoRead || r.Get(!e) == Done)
  }

  /** RequestLevel4Done, used at levels 4 and 5. */
  function Level4Done(r: Req, disk: int): (Req, bool) {
    var e := r.IsFirst(disk);
    if r.op == OpRead then (r, true)
    else
      var a := if r.Get(e) == DoRead then r.Put(e, ReadPhaseDone)
               else if r.Get(e) == DoWrite then r.Put(e, Done)
               else r;
      var b := if a.Get(e) == ReadPhaseDone && a.Get(!e) == ReadPhaseDone
               then a.(first := WritePhaseBegin, second := WritePhaseBegin)
               else a;
      (b, b.Get(e) == Done && b.Get(!e) == Done)
  }

  /** The completion routine of the mapping. */
  function LevelDone(m: Mapping, r: Req, disk: int): (Req, bool)
    requires m.Mirrored? ==> InFlight(r.Get(r.IsFirst(disk)))
  {
    match m
    case Striped => Level0Done(r, disk)
    case Mirrored => Level1Done(r, disk)
    case Parity4 => Level4Done(r, disk)
    case Parity5 => Level4Done(r, disk)
  }

  /** A physical I/O of the request on this disk finishes. */
  function Complete(m: Mapping, r: Req, disk: int, op: Op): (Req, bool)
    requires m.Mirrored? ==> InFlight(r.Get(r.IsFirst(disk)))
  {
    var (r', done) := LevelDone(m, r, disk);
    (r'.(history := Snoc(r.history, End(disk, op)), reports := if done then r.reports + 1 else r.reports), done)
  }

  // ---------- scheduling decisions ----------

  /** Start an I/O on this disk, leaving its entry in the given status. */
  function Start(r: Req, disk: int, st: Status, op: Op): Option<(Req, Op)> {
    Some((r.Put(r.IsFirst(disk), st).(history := Snoc(r.history, Begin(disk, op))), op))
  }

  /** DoStripeScheduling */
  function OfferStriped(r: Req, disk: int): Option<(Req, Op)> {
    if r.first == NotStarted && r.logical % DISK_COUNT == disk then
      if r.op == OpRead then Start(r, disk, DoRead, OpRead) else Start(r, disk, DoWrite, OpWrite)
    else None
  }

  /** DoMirrorScheduling */
  function OfferMirrored(r: Req, disk: int): Option<(Req, Op)> {
    if !r.On(disk) || r.Get(r.IsFirst(disk)) != NotStarted then None
    else if r.op == OpRead then Start(r.Put(!r.IsFirst(disk), Done), disk, DoRead, OpRead)
    else Start(r, disk, DoWrite, OpWrite)
  }

  /** The subtractive-parity part of DoRaid4Scheduling and DoRaid5Scheduling. */
  function OfferParityWrite(r: Req, disk: int): Option<(Req, Op)> {
    if r.Get(r.IsFirst(disk)) == NotStarted then Start(r, disk, DoRead, OpRead)
    else if r.Get(r.IsFirst(disk)) == WritePhaseBegin then Start(r, disk, DoWrite, OpWrite)
    else None
  }

  /** DoRaid4Scheduling */
  function OfferParity4(r: Req, disk: int): Option<(Req, Op)> {
    if r.op == OpRead && r.first == NotStarted && r.logical % (DISK_COUNT - 1) == disk then
      Start(r, disk, DoRead, OpRead)
    else if r.op != OpWrite || !r.On(disk) then None
    else if r.fullStripe then
      if r.Get(r.IsFirst(disk)) != NotStarted then None
      else if !r.fullParity then Start(r.Put(!r.IsFirst(disk), Done), disk, DoWrite, OpWrite)
      else Start(r, disk, DoWrite, OpWrite)
    else OfferParityWrite(r, disk)
  }

  /** DoRaid5Scheduling */
  function OfferParity5(r: Req, disk: int): Option<(Req, Op)> {
    if r.op == OpRead && r.first == NotStarted && r.disk0 == disk then Start(r, disk, DoRead, OpRead)
    else if r.op != OpWrite || !r.On(disk) then None
    else OfferParityWrite(r, disk)
  }

  /** What scheduling an idle disk for a request does: nothing, or start one physical I/O. */
  function Offer(m: Mapping, r: Req, disk: int): Option<(Req, Op)> {
    match m
    case Striped => OfferStriped(r, disk)
    case Mirrored => OfferMirrored(r, disk)
    case Parity4 => OfferParity4(r, disk)
    case Parity5 => OfferParity5(r, disk)
  }

  // ---------- what a request still has to do ----------

  datatype Kind =
    | Single       // striped: one I/O on one disk
    | OneOfTwo     // mirrored read: one I/O, on either disk
    | DataWrite    // full-stripe data write: one write, meant for the data disk
    | BothWrite    // mirrored write, or full-stripe write with parity: one write on each disk
    | ParityRead   // one read of the data disk
    | ParityWrite  // read both disks, then write both

  function KindOf(m: Mapping, r: Req): Kind {
    match m
    case Striped => Single
    case Mirrored => if r.op == OpRead then OneOfTwo else BothWrite
    case Parity4 =>
      if r.op == OpRead then ParityRead
      else if r.fullStripe then (if r.fullParity then BothWrite else DataWrite)
      else ParityWrite
    case Parity5 => if r.op == OpRead then ParityRead else ParityWrite
  }

  /** Physical I/Os the request needs in all. */
  function Needs(m: Mapping, r: Req): nat {
    match KindOf(m, r)
    case Single => 1
    case OneOfTwo => 1
    case DataWrite => 1
    case BothWrite => 2
    case ParityRead => 1
    case ParityWrite => 4
  }

  function Flag(b: bool): nat { if b then 1 else 0 }

  /** An I/O for this entry is in flight. A finished parity read keeps status DoRead. */
  predicate Active(m: Mapping, r: Req, isFirst: bool) {
    InFlight(r.Get(isFirst)) && !(KindOf(m, r).ParityRead? && r.history.Snoc? && r.history.last.End?)
  }

  /** I/Os still to be started, for one entry. */
  function Unstarted(k: Kind, st: Status): nat {
    match st
    case NotStarted => if k.ParityWrite? then 2 else 1
    case DoRead => if k.ParityWrite? then 1 else 0
    case ReadPhaseDone => 1
    case WritePhaseBegin => 1
    case DoWrite => 0
    case Done => 0
  }

  /** I/Os of the request still to be started. */
  function Left(m: Mapping, r: Req): nat {
    var k := KindOf(m, r);
    Unstarted(k, r.first) + (if k.BothWrite? || k.ParityWrite? then Unstarted(k, r.second) else 0)
  }

  /** I/Os of the request still to be finished. */
  function Pending(m: Mapping, r: Req): nat {
    Left(m, r) + Flag(Active(m, r, true)) + Flag(Active(m, r, false))
  }

  // ---------- the states a request can be in ----------

  /** The disks and offset are as set up: on the array, distinct, and data on the home disk. */
  ghost predicate Placed(m: Mapping, r: Req) {
    && r.logical < m.BlockCount()
    && 0 <= r.offset < 20
    && 0 <= r.disk0 < DISK_COUNT
    && (if m.Striped? then r.disk1 == NO_DISK else 0 <= r.disk1 < DISK_COUNT)
    && r.disk0 != r.disk1
    && (m.Striped? ==> r.disk0 == r.logical % DISK_COUNT)
    && (m.Parity4? ==> r.disk0 == r.logical % (DISK_COUNT - 1) && r.disk1 == PARITY_DISK)
  }

  function Began(disk: int, op: Op): Log { Snoc(Empty, Begin(disk, op)) }

  function Ended(disk: int, op: Op): Log { Snoc(Began(disk, op), End(disk, op)) }

  /** What one disk has done for a mirrored write, by status. */
  function WriteScript(st: Status, disk: int): Log {
    match st
    case NotStarted => Empty
    case DoWrite => Began(disk, OpWrite)
    case _ => Ended(disk, OpWrite)
  }

  /** What one disk has done for a parity write, by status. */
  function ParityScript(st: Status, disk: int): Log {
    match st
    case NotStarted => Empty
    case DoRead => Began(disk, OpRead)
    case ReadPhaseDone => Ended(disk, OpRead)
    case WritePhaseBegin => Ended(disk, OpRead)
    case DoWrite => Snoc(Ended(disk, OpRead), Begin(disk, OpWrite))
    case Done => Snoc(Snoc(Ended(disk, OpRead), Begin(disk, OpWrite)), End(disk, OpWrite))
  }

  /** The history consists of these two lanes and nothing else. */
  ghost predicate Lanes(h: Log, disk0: int, lane0: Log, disk1: int, lane1: Log) {
    h.Lane(disk0) == lane0 && h.Lane(disk1) == lane1 && h.Length() == lane0.Length() + lane1.Length()
  }

  predicate CanWrite(st: Status) { st == NotStarted || st == DoWrite || st == Done }

  /** Each disk is written once. */
  ghost predicate BothWritten(r: Req) {
    && CanWrite(r.first) && CanWrite(r.second)
    && Lanes(r.history, r.disk0, WriteScript(r.first, r.disk0), r.disk1, WriteScript(r.second, r.disk1))
  }

  predicate WritePhase(st: Status) { st == WritePhaseBegin || st == DoWrite || st == Done }

  /** Each disk is read once and then written once, with the barrier in between. */
  ghost predicate ReadThenWritten(r: Req) {
    && Lanes(r.history, r.disk0, ParityScript(r.first, r.disk0), r.disk1, ParityScript(r.second, r.disk1))
    && r.history.Barrier(r.disk0, r.disk1)
    && WritePhase(r.first) == WritePhase(r.second)
    && !(r.first == r.second == ReadPhaseDone)
  }

  /** One I/O of the request on the given entry's disk, in flight or finished. */
  ghost predicate OneIO(r: Req, isFirst: bool) {
    var d := r.DiskOf(isFirst);
    || (r.Get(isFirst) == (if r.op == OpRead then DoRead else DoWrite) && r.history == Began(d, r.op))
    || (r.Get(isFirst) == Done && r.history == Ended(d, r.op))
  }

  /** One I/O, taken by whichever disk was scheduled first; the other entry is then Done. */
  ghost predicate EitherIO(r: Req) {
    || (r.first == NotStarted && r.second == NotStarted && r.history == Empty)
    || (r.second == Done && OneIO(r, true))
    || (r.first == Done && OneIO(r, false))
  }

  /** The states of a request of each kind, with the I/Os it has behind it in each. */
  ghost predicate KindOk(k: Kind, r: Req) {
    match k
    case Single => r.second == NotStarted && ((r.first == NotStarted && r.history == Empty) || OneIO(r, true))
    case OneOfTwo => EitherIO(r)
    case DataWrite => EitherIO(r)
    case BothWrite => BothWritten(r)
    case ParityRead =>
      && r.second == NotStarted && r.op == OpRead
      && if r.first == NotStarted then r.history == Empty
         else r.first == DoRead &&
              (r.history == Began(r.disk0, OpRead) || r.history == Ended(r.disk0, OpRead))
    case ParityWrite => ReadThenWritten(r)
  }

  ghost predicate ReqOk(m: Mapping, r: Req) {
    Placed(m, r) && r.reports == Flag(Pending(m, r) == 0) && KindOk(KindOf(m, r), r)
  }

  /**
   Where the design puts a block: rows are filled from the left; mirrored blocks on disk pairs; the parity of
   level 5 moves one disk to the left with each row, and the data of a row skips it.
   */
  ghost predicate AtHome(m: Mapping, r: Req) {
    match m
    case Striped => r.logical == 4 * r.offset + r.disk0 && 0 <= r.disk0 < 4 && r.disk1 == NO_DISK
    case Mirrored =>
      && 2 * r.logical == 4 * r.offset + r.disk0 && 0 <= r.disk0 < 4
      && r.disk0 % 2 == 0 && r.disk1 == r.disk0 + 1
    case Parity4 => r.logical == 3 * r.offset + r.disk0 && 0 <= r.disk0 < 3 && r.disk1 == 3
    case Parity5 =>
      && r.disk1 == 3 - r.offset % 4 && 0 <= r.disk0 < 4 && r.disk0 != r.disk1
      && r.logical == 3 * r.offset + if r.disk0 < r.disk1 then r.disk0 else r.disk0 - 1
  }

  /** A new request is where the design puts its block, and in its legal initial state. */
  lemma NewReqOk(m: Mapping, logical: nat, op: Op, fullStripe: bool, fullParity: bool)
    requires logical < m.BlockCount()
    ensures var r := NewReq(m, logical, op, fullStripe, fullParity);
            ReqOk(m, r) && AtHome(m, r) && Left(m, r) == Pending(m, r) == Needs(m, r)
  {
  }

  // ---------- histories grow by one event ----------

  lemma {:induction false} LaneMember(h: Log, disk: int, e: Event)
    requires h.Lane(disk).Has(e)
    ensures h.Has(e)
  {
    if h.last != e {
      LaneMember(h.prev, disk, e);
    }
  }

  /** The request after one more event on one of its disks. */
  ghost function Logged(r: Req, isFirst: bool, st: Status, e: Event): Req {
    r.Put(isFirst, st).(history := Snoc(r.history, e))
  }

  /** The legal moves of one entry of a mirrored write. */
  ghost predicate WriteMove(st: Status, st': Status, e: Event, disk: int) {
    || (st == NotStarted && st' == DoWrite && e == Begin(disk, OpWrite))
    || (st == DoWrite && st' == Done && e == End(disk, OpWrite))
  }

  lemma BothWrittenStep(r: Req, isFirst: bool, st: Status, e: Event)
    requires r.disk0 != r.disk1 && BothWritten(r)
    requires WriteMove(r.Get(isFirst), st, e, r.DiskOf(isFirst))
    ensures BothWritten(Logged(r, isFirst, st, e))
  {
  }

  /** The legal moves of one entry of a parity write. */
  ghost predicate ParityMove(st: Status, st': Status, e: Event, disk: int) {
    || (st == NotStarted && st' == DoRead && e == Begin(disk, OpRead))
    || (st == DoRead && st' == ReadPhaseDone && e == End(disk, OpRead))
    || (st == WritePhaseBegin && st' == DoWrite && e == Begin(disk, OpWrite))
    || (st == DoWrite && st' == Done && e == End(disk, OpWrite))
  }

  /** In the write phase both reads are behind. */
  lemma ReadsEnded(r: Req)
    requires ReadThenWritten(r) && WritePhase(r.first)
    ensures r.history.Has(End(r.disk0, OpRead)) && r.history.Has(End(r.disk1, OpRead))
  {
    assert Ended(r.disk0, OpRead).Has(End(r.disk0, OpRead)) && Ended(r.disk1, OpRead).Has(End(r.disk1, OpRead));
    LaneMember(r.history, r.disk0, End(r.disk0, OpRead));
    LaneMember(r.history, r.disk1, End(r.disk1, OpRead));
  }

  /** The second read to end opens the write phase for both entries. */
  ghost function Reopened(r: Req): Req {
    if r.first == r.second == ReadPhaseDone then r.(first := WritePhaseBegin, second := WritePhaseBegin) else r
  }

  lemma ReadThenWrittenStep(r: Req, isFirst: bool, st: Status, e: Event)
    requires r.disk0 != r.disk1 && ReadThenWritten(r)
    requires ParityMove(r.Get(isFirst), st, e, r.DiskOf(isFirst))
    ensures ReadThenWritten(Reopened(Logged(r, isFirst, st, e)))
  {
    if e.Begin? && e.op == OpWrite {
      ReadsEnded(r);
    }
  }

  // ---------- one I/O starts, one I/O finishes ----------

  ghost predicate SameRequest(r: Req, r': Req) {
    && r'.logical == r.logical && r'.op == r.op && r'.disk0 == r.disk0 && r'.disk1 == r.disk1
    && r'.offset == r.offset && r'.fullStripe == r.fullStripe && r'.fullParity == r.fullParity
  }

  ghost predicate OtherEntry(m: Mapping, r: Req, r': Req, isFirst: bool) {
    && Active(m, r', isFirst) == Active(m, r, isFirst)
    && (Active(m, r, isFirst) ==> r'.Get(isFirst) == r.Get(isFirst))
  }

  /** One I/O of the request started on a disk it was not using. */
  ghost predicate OneStarted(m: Mapping, r: Req, r': Req, disk: int, op: Op) {
    && ReqOk(m, r') && SameRequest(r, r') && r.On(disk)
    && Left(m, r') == Left(m, r) - 1 && Pending(m, r') == Pending(m, r)
    && var e := r.IsFirst(disk);
       && !Active(m, r, e) && Active(m, r', e)
       && r'.Get(e) == (if op == OpRead then DoRead else DoWrite)
       && OtherEntry(m, r, r', !e)
  }

  /** One I/O of the request finished; it is reported done exactly when none is left. */
  ghost predicate OneFinished(m: Mapping, r: Req, r': Req, disk: int, done: bool) {
    && ReqOk(m, r') && SameRequest(r, r')
    && Left(m, r') == Left(m, r) && Pending(m, r') == Pending(m, r) - 1
    && done == (Pending(m, r') == 0) && r'.reports == r.reports + Flag(done)
    && var e := r.IsFirst(disk);
       && !Active(m, r', e)
       && OtherEntry(m, r, r', !e)
  }

  lemma OfferSingle(m: Mapping, r: Req, disk: int)
    requires ReqOk(m, r) && Offer(m, r, disk).Some? && KindOf(m, r).Single?
    ensures OneStarted(m, r, Offer(m, r, disk).value.0, disk, Offer(m, r, disk).value.1)
  {
  }

  lemma OfferEither(m: Mapping, r: Req, disk: int)
    requires ReqOk(m, r) && Offer(m, r, disk).Some? && (KindOf(m, r).OneOfTwo? || KindOf(m, r).DataWrite?)
    ensures OneStarted(m, r, Offer(m, r, disk).value.0, disk, Offer(m, r, disk).value.1)
  {
  }

  lemma OfferPlainRead(m: Mapping, r: Req, disk: int)
    requires ReqOk(m, r) && Offer(m, r, disk).Some? && KindOf(m, r).ParityRead?
    ensures OneStarted(m, r, Offer(m, r, disk).value.0, disk, Offer(m, r, disk).value.1)
  {
  }

  lemma OfferBothWrite(m: Mapping, r: Req, disk: int)
    requires ReqOk(m, r) && Offer(m, r, disk).Some? && KindOf(m, r).BothWrite?
    ensures OneStarted(m, r, Offer(m, r, disk).value.0, disk, Offer(m, r, disk).value.1)
  {
    BothWrittenStep(r, r.IsFirst(disk), DoWrite, Begin(disk, OpWrite));
  }

  lemma OfferParityRead(m: Mapping, r: Req, disk: int)
    requires ReqOk(m, r) && KindOf(m, r).ParityWrite? && r.On(disk) && r.Get(r.IsFirst(disk)) == NotStarted
    ensures OneStarted(m, r, Logged(r, r.IsFirst(disk), DoRead, Begin(disk, OpRead)), disk, OpRead)
  {
    ReadThenWrittenStep(r, r.IsFirst(disk), DoRead, Begin(disk, OpRead));
  }

  lemma OfferParityWriteOk(m: Mapping, r: Req, disk: int)
    requires ReqOk(m, r) && KindOf(m, r).ParityWrite? && r.On(disk) && r.Get(r.IsFirst(disk)) == WritePhaseBegin
    ensures OneStarted(m, r, Logged(r, r.IsFirst(disk), DoWrite, Begin(disk, OpWrite)), disk, OpWrite)
  {
    ReadThenWrittenStep(r, r.IsFirst(disk), DoWrite, Begin(disk, OpWrite));
  }

  /** A scheduled I/O is one the request still needs, on a disk of its list that it was not using. */
  lemma OfferOk(m: Mapping, r: Req, disk: int)
    requires ReqOk(m, r) && Offer(m, r, disk).Some?
    ensures OneStarted(m, r, Offer(m, r, disk).value.0, disk, Offer(m, r, disk).value.1)
  {
    match KindOf(m, r)
    case BothWrite => OfferBothWrite(m, r, disk);
    case ParityWrite =>
      if r.Get(r.IsFirst(disk)) == NotStarted {
        OfferParityRead(m, r, disk);
      } else {
        OfferParityWriteOk(m, r, disk);
      }
    case Single => OfferSingle(m, r, disk);
    case OneOfTwo => OfferEither(m, r, disk);
    case DataWrite => OfferEither(m, r, disk);
    case ParityRead => OfferPlainRead(m, r, disk);
  }

  /** A request with nothing in flight and something left to do is offered by one of its disks. */
  lemma OfferComplete(m: Mapping, r: Req)
    requires ReqOk(m, r) && !Active(m, r, true) && !Active(m, r, false) && Pending(m, r) > 0
    ensures Offer(m, r, r.disk0).Some? || (0 <= r.disk1 < DISK_COUNT && Offer(m, r, r.disk1).Some?)
  {
  }

  /** The I/Os that the history of a request allows a disk to begin. */
  ghost predicate MayBegin(m: Mapping, r: Req, disk: int, op: Op) {
    r.On(disk) &&
    match KindOf(m, r)
    case Single => op == r.op && r.history == Empty
    case OneOfTwo => op == OpRead && r.history == Empty
    case DataWrite => op == OpWrite && r.history == Empty
    case BothWrite => op == OpWrite && r.history.Lane(disk) == Empty
    case ParityRead => op == OpRead && disk == r.disk0 && r.history == Empty
    case ParityWrite =>
      if op == OpRead then r.history.Lane(disk) == Empty
      else r.history.Lane(disk) == Ended(disk, OpRead)
           && r.history.Has(End(r.disk0, OpRead)) && r.history.Has(End(r.disk1, OpRead))
  }

  lemma {:induction false} MemberInLane(h: Log, e: Event)
    requires h.Has(e)
    ensures h.Lane(e.disk).Has(e)
  {
    if h.last != e {
      MemberInLane(h.prev, e);
    }
  }

  /** A parity write whose reads have both ended is in its write phase. */
  lemma BothReadsEnded(r: Req)
    requires ReadThenWritten(r) && r.history.Has(End(r.disk0, OpRead)) && r.history.Has(End(r.disk1, OpRead))
    ensures WritePhase(r.first) && WritePhase(r.second)
  {
    MemberInLane(r.history, End(r.disk0, OpRead));
    MemberInLane(r.history, End(r.disk1, OpRead));
    assert !Began(r.disk0, OpRead).Has(End(r.disk0, OpRead)) && !Began(r.disk1, OpRead).Has(End(r.disk1, OpRead));
    assert !Empty.Has(End(r.disk0, OpRead)) && !Empty.Has(End(r.disk1, OpRead));
  }

  lemma ParityOffer(m: Mapping, r: Req, disk: int)
    requires ReqOk(m, r) && KindOf(m, r).ParityWrite? && r.On(disk)
    ensures MayBegin(m, r, disk, OpRead) <==> r.Get(r.IsFirst(disk)) == NotStarted
    ensures MayBegin(m, r, disk, OpWrite) <==> r.Get(r.IsFirst(disk)) == WritePhaseBegin
  {
    if MayBegin(m, r, disk, OpWrite) {
      BothReadsEnded(r);
    }
    if r.Get(r.IsFirst(disk)) == WritePhaseBegin {
      ReadsEnded(r);
    }
  }

  /** A disk that asks is given an I/O exactly if the request's history allows it to begin one, and that one. */
  lemma OfferExactly(m: Mapping, r: Req, disk: int)
    requires ReqOk(m, r) && 0 <= disk < DISK_COUNT
    ensures Offer(m, r, disk).Some? ==> MayBegin(m, r, disk, Offer(m, r, disk).value.1)
    ensures Offer(m, r, disk).None? ==> !MayBegin(m, r, disk, OpRead) && !MayBegin(m, r, disk, OpWrite)
  {
    if KindOf(m, r).ParityWrite? && r.On(disk) {
      ParityOffer(m, r, disk);
    }
  }

  lemma CompleteOnce(m: Mapping, r: Req, disk: int, op: Op)
    requires ReqOk(m, r) && r.On(disk) && Active(m, r, r.IsFirst(disk))
    requires r.Get(r.IsFirst(disk)) == if op == OpRead then DoRead else DoWrite
    requires !KindOf(m, r).BothWrite? && !KindOf(m, r).ParityWrite?
    ensures OneFinished(m, r, Complete(m, r, disk, op).0, disk, Complete(m, r, disk, op).1)
  {
  }

  /** A request with two entries after the write of one of them has ended. */
  ghost function Written(r: Req, disk: int): Req { Logged(r, r.IsFirst(disk), Done, End(disk, OpWrite)) }

  /** The write that ends is one I/O less to finish and the other entry is as it was. */
  lemma WrittenCounts(m: Mapping, r: Req, disk: int)
    requires r.On(disk) && (KindOf(m, r).BothWrite? || KindOf(m, r).ParityWrite?) && r.Get(r.IsFirst(disk)) == DoWrite
    ensures var r' := Written(r, disk);
            && Left(m, r') == Left(m, r) && Pending(m, r') == Pending(m, r) - 1
            && !Active(m, r', r.IsFirst(disk)) && OtherEntry(m, r, r', !r.IsFirst(disk))
  {
  }

  /** What the completion routine makes of a write that ends: reported done when both entries are Done. */
  lemma CompleteIsWritten(m: Mapping, r: Req, disk: int)
    requires r.On(disk) && (KindOf(m, r).BothWrite? || KindOf(m, r).ParityWrite?) && r.Get(r.IsFirst(disk)) == DoWrite
    ensures var done := Written(r, disk).first == Done && Written(r, disk).second == Done;
            Complete(m, r, disk, OpWrite) == (Written(r, disk).(reports := r.reports + Flag(done)), done)
  {
  }

  lemma CompleteBothWrite(m: Mapping, r: Req, disk: int)
    requires ReqOk(m, r) && r.On(disk) && KindOf(m, r).BothWrite? && r.Get(r.IsFirst(disk)) == DoWrite
    ensures OneFinished(m, r, Complete(m, r, disk, OpWrite).0, disk, Complete(m, r, disk, OpWrite).1)
  {
    BothWrittenStep(r, r.IsFirst(disk), Done, End(disk, OpWrite));
    CompleteIsWritten(m, r, disk);
    WrittenCounts(m, r, disk);
  }

  /** A parity write after the read of one entry has ended. */
  ghost function ReadBack(r: Req, disk: int): Req {
    Reopened(Logged(r, r.IsFirst(disk), ReadPhaseDone, End(disk, OpRead)))
  }

  /** The read that ends is one I/O less to finish; the writes are still to come. */
  lemma ReadBackCounts(m: Mapping, r: Req, disk: int)
    requires r.On(disk) && KindOf(m, r).ParityWrite? && r.Get(r.IsFirst(disk)) == DoRead
    ensures var r' := ReadBack(r, disk);
            && Left(m, r') == Left(m, r) > 0 && Pending(m, r') == Pending(m, r) - 1
            && !Active(m, r', r.IsFirst(disk)) && OtherEntry(m, r, r', !r.IsFirst(disk))
  {
  }

  lemma CompleteParityRead(m: Mapping, r: Req, disk: int)
    requires ReqOk(m, r) && r.On(disk) && KindOf(m, r).ParityWrite? && r.Get(r.IsFirst(disk)) == DoRead
    ensures OneFinished(m, r, Complete(m, r, disk, OpRead).0, disk, Complete(m, r, disk, OpRead).1)
  {
    ReadThenWrittenStep(r, r.IsFirst(disk), ReadPhaseDone, End(disk, OpRead));
    assert Complete(m, r, disk, OpRead) == (ReadBack(r, disk), false);
    ReadBackCounts(m, r, disk);
  }

  lemma CompleteParityWrite(m: Mapping, r: Req, disk: int)
    requires ReqOk(m, r) && r.On(disk) && KindOf(m, r).ParityWrite? && r.Get(r.IsFirst(disk)) == DoWrite
    ensures OneFinished(m, r, Complete(m, r, disk, OpWrite).0, disk, Complete(m, r, disk, OpWrite).1)
  {
    ReadThenWrittenStep(r, r.IsFirst(disk), Done, End(disk, OpWrite));
    CompleteIsWritten(m, r, disk);
    WrittenCounts(m, r, disk);
  }

  /** A finished I/O leaves one less to finish, and the request is reported done exactly when none is left. */
  lemma CompleteOk(m: Mapping, r: Req, disk: int, op: Op)
    requires ReqOk(m, r) && r.On(disk) && Active(m, r, r.IsFirst(disk))
    requires r.Get(r.IsFirst(disk)) == if op == OpRead then DoRead else DoWrite
    ensures OneFinished(m, r, Complete(m, r, disk, op).0, disk, Complete(m, r, disk, op).1)
  {
    match KindOf(m, r)
    case BothWrite => CompleteBothWrite(m, r, disk);
    case ParityWrite =>
      if op == OpRead {
        CompleteParityRead(m, r, disk);
      } else {
        CompleteParityWrite(m, r, disk);
      }
    case _ => CompleteOnce(m, r, disk, op);
  }
}
