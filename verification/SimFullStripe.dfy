/**
 Which disk a level-4 full-stripe data write goes to. The scheduler lets whichever disk of its list is idle
 first take it, so it reaches its data disk only if that disk is free when the write comes into the window.
 */
module SimFullStripe {
  import opened Arithmetic
  import opened Sums
  import opened SimRequest
  import opened SimState
  import opened SimProofs
  import opened SimTicks

  ghost predicate DataWriteAt(s: Sim, i: int) {
    s.m.Parity4? && 0 <= i < |s.reqs| && KindOf(s.m, s.reqs[i]).DataWrite?
  }

  ghost predicate Waiting(r: Req) { r.first == NotStarted && r.second == NotStarted }

  ghost predicate InWindow(s: Sim, i: int) { s.window == -1 || i < s.window }

  /** No request queued earlier wants the data disk: it is on another one, or reported already. */
  ghost predicate Clear(s: Sim, i: int)
    requires 0 <= i < |s.reqs|
  {
    forall j :: 0 <= j < i ==> s.reqs[j].disk0 != s.reqs[i].disk0 || Pending(s.m, s.reqs[j]) == 0
  }

  ghost predicate HomeIdle(s: Sim, i: int)
    requires |s.disks| == DISK_COUNT && 0 <= i < |s.reqs|
  {
    0 <= s.reqs[i].disk0 < DISK_COUNT && s.disks[s.reqs[i].disk0].state.Idle?
  }

  /** When the scheduler starts, the data disk is free for the write, if the write can be taken at all. */
  ghost predicate Prepared(s: Sim, i: int) {
    Inv(s) && DataWriteAt(s, i) && (Waiting(s.reqs[i]) && InWindow(s, i) ==> Clear(s, i) && HomeIdle(s, i))
  }

  // ---------- what a request is offered ----------

  lemma HomeOnArray(s: Sim, i: int)
    requires Inv(s) && s.m.Parity4? && 0 <= i < |s.reqs|
    ensures 0 <= s.reqs[i].disk0 < PARITY_DISK == s.reqs[i].disk1
  {
    assert ReqOk(s.m, s.reqs[i]);
  }

  lemma OfferedToItsDisks(s: Sim, i: int, disk: int)
    requires Inv(s) && 0 <= i < |s.reqs| && (!s.reqs[i].On(disk) || Pending(s.m, s.reqs[i]) == 0)
    ensures Offer(s.m, s.reqs[i], disk).None?
  {
    assert ReqOk(s.m, s.reqs[i]);
    if Offer(s.m, s.reqs[i], disk).Some? {
      OfferOk(s.m, s.reqs[i], disk);
    }
  }

  /** A data write is offered until it has been taken, and then no more. */
  lemma DataWriteOffer(s: Sim, i: int, disk: int)
    requires Inv(s) && DataWriteAt(s, i) && s.reqs[i].On(disk)
    ensures Offer(s.m, s.reqs[i], disk).Some? <==> Waiting(s.reqs[i])
    ensures Waiting(s.reqs[i]) ==>
              var r' := Offer(s.m, s.reqs[i], disk).value.0;
              !Waiting(r') && (OffHome(r') <==> disk == PARITY_DISK)
  {
    assert ReqOk(s.m, s.reqs[i]);
    HomeOnArray(s, i);
    EndedBegan(disk, OpWrite, PARITY_DISK);
    assert !Empty.Has(Begin(PARITY_DISK, OpWrite));
  }

  /** A read is taken by its data disk, and by no other. */
  lemma ReadOffer(s: Sim, j: int, disk: int)
    requires Inv(s) && s.m.Parity4? && 0 <= j < |s.reqs| && s.reqs[j].op == OpRead
    ensures Offer(s.m, s.reqs[j], disk).Some? <==> Waiting(s.reqs[j]) && disk == s.reqs[j].disk0
  {
    assert ReqOk(s.m, s.reqs[j]);
  }

  // ---------- what scheduling one disk leaves alone ----------

  /** A state scheduling leads to, in which the request and the disk are as given. */
  ghost predicate Unmoved(s: Sim, t: Sim, i: int, d: int) {
    && |s.disks| == |t.disks| == DISK_COUNT && 0 <= d < DISK_COUNT && t.disks[d] == s.disks[d]
    && |t.reqs| == |s.reqs| && 0 <= i < |s.reqs| && t.reqs[i] == s.reqs[i]
    && t.m == s.m && t.window == s.window
  }

  ghost function UnmovedFrom(s: Sim, i: int, d: int): Sim -> bool { (t: Sim) => Unmoved(s, t, i, d) }

  /** A disk that the request is not offered to, or that it is beyond the window of. */
  ghost predicate PassedOver(s: Sim, i: int, disk: int)
    requires 0 <= i < |s.reqs|
  {
    !InWindow(s, i) || Offer(s.m, s.reqs[i], disk).None?
  }

  lemma UnmovedKept(s: Sim, disk: int, i: int, d: int)
    requires |s.disks| == DISK_COUNT && 0 <= disk < DISK_COUNT && 0 <= i < |s.reqs| && 0 <= d < DISK_COUNT && d != disk
    requires PassedOver(s, i, disk)
    ensures KeptByTries(UnmovedFrom(s, i, d), disk)
  {
    forall t, index | TryApplies(t, disk, index) && Unmoved(s, t, i, d)
      ensures Unmoved(s, TryStart(t, disk, index), i, d)
    {
    }
  }

  /** Scheduling a disk moves neither other disks nor a request it passes over. */
  lemma OtherUnmoved(s: Sim, disk: int, n: nat, i: int, d: int)
    requires |s.disks| == DISK_COUNT && 0 <= disk < DISK_COUNT && n <= |s.reqs|
    requires 0 <= i < |s.reqs| && 0 <= d < DISK_COUNT && d != disk && PassedOver(s, i, disk)
    ensures Unmoved(s, ScheduleDisk(s, disk, n), i, d)
  {
    UnmovedKept(s, disk, i, d);
    ScheduleDiskKeeps(UnmovedFrom(s, i, d), s, disk, n);
  }

  ghost predicate StillClear(s: Sim, t: Sim, i: int) {
    Inv(s) && 0 <= i < |s.reqs| && Advances(s, t) && Clear(t, i)
  }

  ghost function StillClearFrom(s: Sim, i: int): Sim -> bool { (t: Sim) => StillClear(s, t, i) }

  lemma TryKeepsClear(s: Sim, disk: int, index: int, i: int)
    requires Inv(s) && TryApplies(s, disk, index) && 0 <= i < |s.reqs| && Clear(s, i)
    ensures |TryStart(s, disk, index).reqs| == |s.reqs| && Clear(TryStart(s, disk, index), i)
  {
    var t := TryStart(s, disk, index);
    assert ReqOk(s.m, s.reqs[index]);
    if Offer(s.m, s.reqs[index], disk).Some? {
      OfferOk(s.m, s.reqs[index], disk);
    }
    assert forall j :: 0 <= j < |s.reqs| ==>
             t.reqs[j].disk0 == s.reqs[j].disk0 && Pending(s.m, t.reqs[j]) == Pending(s.m, s.reqs[j]);
  }

  lemma ScheduleKeepsClear(s: Sim, disk: int, n: nat, i: int)
    requires Inv(s) && 0 <= disk < DISK_COUNT && n <= |s.reqs| && 0 <= i < |s.reqs| && Clear(s, i)
    ensures Clear(ScheduleDisk(s, disk, n), i)
  {
    forall t, index | TryApplies(t, disk, index) && StillClear(s, t, i)
      ensures StillClear(s, TryStart(t, disk, index), i)
    {
      AdvancesOneMore(s, t, disk, index);
      TryKeepsClear(t, disk, index, i);
    }
    AdvancesReflexive(s);
    ScheduleDiskKeeps(StillClearFrom(s, i), s, disk, n);
  }

  // ---------- the turn of the data disk ----------

  /** If nothing queued earlier wants it, the data disk passes over all those requests. */
  lemma HomePasses(s: Sim, i: int, n: nat)
    requires Inv(s) && s.m.Parity4? && 0 <= i < |s.reqs| && Clear(s, i) && n <= i
    ensures 0 <= s.reqs[i].disk0 < DISK_COUNT && ScheduleDisk(s, s.reqs[i].disk0, n) == s
  {
    HomeOnArray(s, i);
    forall j | 0 <= j < n
      ensures Offer(s.m, s.reqs[j], s.reqs[i].disk0).None?
    {
      HomeOnArray(s, j);
      OfferedToItsDisks(s, j, s.reqs[i].disk0);
    }
    NothingOffered(s, s.reqs[i].disk0, n);
  }

  lemma TryElsewhere(t: Sim, disk: int, index: int, i: int)
    requires TryApplies(t, disk, index) && 0 <= i < |t.reqs| && i != index
    ensures |TryStart(t, disk, index).reqs| == |t.reqs| && TryStart(t, disk, index).reqs[i] == t.reqs[i]
  {
  }

  /** A write under way, or outside the window: the parity disk will not take it now. */
  ghost predicate Settled(r: Req, inWindow: bool) { !Waiting(r) || !inWindow }

  /** Once its data disk has had its turn, a prepared write is settled, and not on the parity disk. */
  lemma {:induction false} HomeTurn(s: Sim, i: int, n: nat)
    requires Prepared(s, i) && n <= |s.reqs| && 0 <= s.reqs[i].disk0 < DISK_COUNT
    ensures var r := ScheduleDisk(s, s.reqs[i].disk0, n).reqs[i];
            && (n <= i ==> r == s.reqs[i])
            && (n > i ==> Settled(r, InWindow(s, i)))
            && (OffHome(r) ==> OffHome(s.reqs[i]))
  {
    if n > 0 {
      HomeTurn(s, i, n - 1);
      if n - 1 == i {
        HomeTakes(s, i);
      } else {
        TryElsewhere(ScheduleDisk(s, s.reqs[i].disk0, n - 1), s.reqs[i].disk0, n - 1, i);
      }
    }
  }

  lemma HomeTakes(s: Sim, i: int)
    requires Prepared(s, i) && 0 <= s.reqs[i].disk0 < DISK_COUNT
    requires ScheduleDisk(s, s.reqs[i].disk0, i).reqs[i] == s.reqs[i]
    ensures var r := ScheduleDisk(s, s.reqs[i].disk0, i + 1).reqs[i];
            Settled(r, InWindow(s, i)) && (OffHome(r) ==> OffHome(s.reqs[i]))
  {
    var t := ScheduleDisk(s, s.reqs[i].disk0, i);
    ScheduleDiskOk(s, s.reqs[i].disk0, i);
    HomeOnArray(s, i);
    DataWriteOffer(t, i, s.reqs[i].disk0);
    if Waiting(s.reqs[i]) && InWindow(s, i) {
      HomePasses(s, i, i);
    }
  }

  // ---------- the turns of all disks ----------

  /** What is known of a prepared write after the first n disks have been scheduled. */
  ghost predicate AfterTurns(s: Sim, t: Sim, i: int, n: nat)
    requires Prepared(s, i)
  {
    && |t.reqs| == |s.reqs|
    && (n <= s.reqs[i].disk0 ==> t.reqs[i] == s.reqs[i] && Prepared(t, i))
    && (n > s.reqs[i].disk0 ==> Settled(t.reqs[i], InWindow(s, i)))
    && (OffHome(t.reqs[i]) ==> OffHome(s.reqs[i]))
  }

  /** A disk before the data disk is not offered the write, and leaves it prepared. */
  lemma EarlierDisk(t: Sim, i: int, e: int)
    requires Prepared(t, i) && 0 <= e < t.reqs[i].disk0
    ensures var u := ScheduleDisk(t, e, |t.reqs|);
            Advances(t, u) && u.reqs[i] == t.reqs[i] && Prepared(u, i)
  {
    HomeOnArray(t, i);
    OfferedToItsDisks(t, i, e);
    ScheduleDiskOk(t, e, |t.reqs|);
    OtherUnmoved(t, e, |t.reqs|, i, t.reqs[i].disk0);
    if Waiting(t.reqs[i]) && InWindow(t, i) {
      ScheduleKeepsClear(t, e, |t.reqs|, i);
    }
  }

  /** A disk after it, the parity disk included, passes over a settled write. */
  lemma LaterDisk(t: Sim, i: int, e: int)
    requires Inv(t) && DataWriteAt(t, i) && t.reqs[i].disk0 < e < DISK_COUNT && Settled(t.reqs[i], InWindow(t, i))
    ensures var u := ScheduleDisk(t, e, |t.reqs|);
            Advances(t, u) && u.reqs[i] == t.reqs[i]
  {
    HomeOnArray(t, i);
    if t.reqs[i].On(e) {
      DataWriteOffer(t, i, e);
    } else {
      OfferedToItsDisks(t, i, e);
    }
    ScheduleDiskOk(t, e, |t.reqs|);
    OtherUnmoved(t, e, |t.reqs|, i, t.reqs[i].disk0);
  }

  lemma OneTurn(s: Sim, i: int, n: nat)
    requires Prepared(s, i) && n < DISK_COUNT && AfterTurns(s, ScheduleDisks(s, n), i, n)
    ensures AfterTurns(s, ScheduleDisks(s, n + 1), i, n + 1)
  {
    var t := ScheduleDisks(s, n);
    HomeOnArray(s, i);
    ScheduleDisksOk(s, n);
    if n < s.reqs[i].disk0 {
      EarlierDisk(t, i, n);
    } else if n == s.reqs[i].disk0 {
      HomeTurn(t, i, |t.reqs|);
    } else {
      LaterDisk(t, i, n);
    }
  }

  lemma {:induction false} AllTurns(s: Sim, i: int, n: nat)
    requires Prepared(s, i) && n <= DISK_COUNT
    ensures AfterTurns(s, ScheduleDisks(s, n), i, n)
  {
    if n == 0 {
      HomeOnArray(s, i);
    } else {
      AllTurns(s, i, n - 1);
      OneTurn(s, i, n - 1);
    }
  }

  /** GetNextIOs does not start a prepared data write on the parity disk; it leaves it waiting only outside the window. */
  lemma NextAtHome(s: Sim, i: int)
    requires Prepared(s, i) && s.count != s.needed
    ensures var t := GetNextIOs(s);
            && |t.reqs| == |s.reqs| && Settled(t.reqs[i], InWindow(s, i)) && (OffHome(t.reqs[i]) ==> OffHome(s.reqs[i]))
  {
    HomeOnArray(s, i);
    AllTurns(s, i, DISK_COUNT);
  }

  // ---------- a write whose data disk no earlier request uses ----------

  /** Every request queued earlier is on another data disk. */
  ghost predicate Apart(s: Sim, i: int)
    requires 0 <= i < |s.reqs|
  {
    forall j :: 0 <= j < i ==> s.reqs[j].disk0 != s.reqs[i].disk0
  }

  /** Such a write keeps its data disk free until it has been taken there. */
  ghost predicate KeepsHome(s: Sim, i: int) {
    && |s.disks| == DISK_COUNT && DataWriteAt(s, i) && Apart(s, i) && !OffHome(s.reqs[i])
    && (Waiting(s.reqs[i]) ==> HomeIdle(s, i))
  }

  ghost predicate HomeUntouched(s: Sim, t: Sim, i: int) {
    && Inv(s) && 0 <= i < |s.reqs| && 0 <= s.reqs[i].disk0 < DISK_COUNT && Advances(s, t)
    && t.disks[s.reqs[i].disk0] == s.disks[s.reqs[i].disk0] && t.reqs[i] == s.reqs[i]
  }

  ghost function HomeUntouchedFrom(s: Sim, i: int): Sim -> bool { (t: Sim) => HomeUntouched(s, t, i) }

  lemma HomeWaitsTry(s: Sim, t: Sim, disk: int, index: int, i: int)
    requires HomeUntouched(s, t, i) && DataWriteAt(s, i) && Apart(s, i) && !InWindow(s, i) && TryApplies(t, disk, index)
    ensures HomeUntouched(s, TryStart(t, disk, index), i)
  {
    AdvancesOneMore(s, t, disk, index);
    if disk == s.reqs[i].disk0 && index < i {
      HomeOnArray(t, index);
      OfferedToItsDisks(t, index, disk);
    }
  }

  /** While the write is outside the window, no scheduling touches it or its data disk. */
  lemma HomeWaits(s: Sim, i: int)
    requires Inv(s) && DataWriteAt(s, i) && Apart(s, i) && !InWindow(s, i)
    ensures HomeUntouched(s, ScheduleDisks(s, DISK_COUNT), i)
  {
    HomeOnArray(s, i);
    AdvancesReflexive(s);
    forall d | 0 <= d < DISK_COUNT
      ensures KeptByTries(HomeUntouchedFrom(s, i), d)
    {
      forall t, index | TryApplies(t, d, index) && HomeUntouched(s, t, i)
        ensures HomeUntouched(s, TryStart(t, d, index), i)
      {
        HomeWaitsTry(s, t, d, index, i);
      }
    }
    ScheduleDisksKeep(HomeUntouchedFrom(s, i), s, DISK_COUNT);
  }

  lemma HomeNext(s: Sim, i: int)
    requires Inv(s) && KeepsHome(s, i)
    ensures KeepsHome(GetNextIOs(s), i)
  {
    var t := GetNextIOs(s);
    GetNextIOsOk(s);
    HomeOnArray(s, i);
    if s.count != s.needed {
      NextAtHome(s, i);
      if Waiting(t.reqs[i]) {
        HomeWaits(s, i);
      }
    }
  }

  /** A completion neither begins a write nor makes a request wait again. */
  lemma CompletionAtHome(m: Mapping, r: Req, disk: int, op: Op)
    requires m.Parity4? && KindOf(m, r).DataWrite? && InFlight(r.Get(r.IsFirst(disk)))
    ensures var r' := Complete(m, r, disk, op).0;
            !Waiting(r') && OffHome(r') == OffHome(r)
  {
    var r' := Complete(m, r, disk, op).0;
    assert r'.history == Snoc(r.history, End(disk, op)) && r'.disk1 == r.disk1;
  }

  lemma HomeFinish(s: Sim, d: int, i: int)
    requires Finishing(s, d) && KeepsHome(s, i)
    ensures KeepsHome(FinishedSim(s, d), i)
  {
    FinishRequest(s, d);
    FinishIsLater(s, d);
    if s.disks[d].target == i {
      CompletionAtHome(s.m, s.reqs[i], d, s.disks[d].op.value);
    }
  }

  lemma HomeTick(s: Sim, d: int, i: int)
    requires Ready(s, d) && KeepsHome(s, i)
    ensures KeepsHome(TickDisk(s, d), i)
  {
    TickDiskOk(s, d);
    if EndsNow(s, d) {
      TickEnds(s, d);
      SeekPartOk(s, d);
      HomeFinish(SeekPart(s, d), d, i);
      FinishOk(SeekPart(s, d), d);
      HomeNext(FinishedSim(SeekPart(s, d), d), i);
    } else {
      TickOnly(s, d);
    }
  }

  ghost function KeepsHomeOf(i: int): Sim -> bool { (s: Sim) => KeepsHome(s, i) }

  /** A data write that no earlier request shares its data disk with is never begun on the parity disk. */
  lemma ApartStaysHome(s: Sim, i: int, n: nat)
    requires Inv(s) && KeepsHome(s, i)
    ensures KeepsHome(Ticks(s, n), i)
  {
    forall t, d | Ready(t, d) && KeepsHome(t, i)
      ensures KeepsHome(TickDisk(t, d), i)
    {
      HomeTick(t, d, i);
    }
    TicksKeepAll(KeepsHomeOf(i), s, n);
  }

  // ---------- the smallest window ----------

  /** With window 1 there is one unreported request in the window, and nothing has begun outside it. */
  ghost predicate Narrow(s: Sim) {
    && s.window == s.logical + 1
    && (forall j :: 0 <= j < |s.reqs| && !InWindow(s, j) ==> Waiting(s.reqs[j]))
    && (forall i :: DataWriteAt(s, i) ==> !OffHome(s.reqs[i]))
  }

  /** If reports fall short of the requests by at most one, all but one are reported. */
  lemma {:induction false} OthersReported(rs: seq<Req>, i: nat, j: nat)
    requires i < |rs| && j < |rs| && i != j && rs[i].reports == 0 && Total(rs, Reported) >= |rs| - 1
    requires forall k :: 0 <= k < |rs| ==> rs[k].reports <= 1
    ensures rs[j].reports == 1
  {
    var both := rs[i := rs[i].(reports := 1)];
    TotalUpdate(rs, i, rs[i].(reports := 1), Reported);
    if rs[j].reports == 0 {
      TotalUpdate(both, j, rs[j].(reports := 1), Reported);
      AtMostOneEach(both[j := rs[j].(reports := 1)]);
    }
  }

  lemma {:induction false} AtMostOneEach(rs: seq<Req>)
    requires forall k :: 0 <= k < |rs| ==> rs[k].reports <= 1
    ensures Total(rs, Reported) <= |rs|
  {
    if rs != [] {
      AtMostOneEach(rs[..|rs| - 1]);
    }
  }

  lemma {:induction false} NothingOutside(s: Sim, n: nat)
    requires Inv(s) && Narrow(s) && Min(s.window, |s.reqs|) <= n <= |s.reqs|
    ensures Total(s.reqs[..n], Reported) == s.logical
    decreases |s.reqs| - n
  {
    if n == |s.reqs| {
      assert s.reqs[..n] == s.reqs;
    } else {
      NothingOutside(s, n + 1);
      assert s.reqs[..n + 1][..n] == s.reqs[..n];
      assert ReqOk(s.m, s.reqs[n]) && Waiting(s.reqs[n]);
    }
  }

  /** So a write waiting in the window has everything else reported, and every disk idle. */
  lemma NarrowPrepared(s: Sim, i: int)
    requires Inv(s) && Narrow(s) && DataWriteAt(s, i)
    ensures Prepared(s, i)
  {
    if Waiting(s.reqs[i]) && InWindow(s, i) {
      HomeOnArray(s, i);
      assert ReqOk(s.m, s.reqs[i]) && s.reqs[i].reports == 0;
      var n := Min(s.window, |s.reqs|);
      NothingOutside(s, n);
      forall j: nat | j < n && j != i
        ensures Pending(s.m, s.reqs[j]) == 0
      {
        assert ReqOk(s.m, s.reqs[j]);
        EachAtMostOnce(s, n);
        OthersReported(s.reqs[..n], i, j);
      }
      NarrowIdle(s, i);
    }
  }

  lemma EachAtMostOnce(s: Sim, n: nat)
    requires Inv(s) && n <= |s.reqs|
    ensures forall k :: 0 <= k < n ==> s.reqs[..n][k].reports <= 1
  {
    forall k | 0 <= k < n
      ensures s.reqs[..n][k].reports <= 1
    {
      assert ReqOk(s.m, s.reqs[k]);
    }
  }

  lemma NarrowIdle(s: Sim, i: int)
    requires Inv(s) && Narrow(s) && DataWriteAt(s, i) && Waiting(s.reqs[i]) && 0 <= s.reqs[i].disk0 < DISK_COUNT
    requires forall j :: 0 <= j < |s.reqs| && InWindow(s, j) && j != i ==> Pending(s.m, s.reqs[j]) == 0
    ensures HomeIdle(s, i)
  {
    assert DiskOk(s, s.reqs[i].disk0);
  }

  lemma OutsideSame(s: Sim, i: int, n: nat)
    requires |s.disks| == DISK_COUNT && 0 <= i < |s.reqs| && !InWindow(s, i) && n <= DISK_COUNT
    ensures ScheduleDisks(s, n).reqs[i] == s.reqs[i]
  {
    var P := (t: Sim) => |t.reqs| == |s.reqs| && t.reqs[i] == s.reqs[i] && t.window == s.window;
    ScheduleDisksKeep(P, s, n);
  }

  /** Scheduling starts nothing outside the window. */
  lemma OutsideWaits(s: Sim, j: int)
    requires Inv(s) && Narrow(s) && s.count != s.needed && 0 <= j < |s.reqs| && !InWindow(s, j)
    ensures |GetNextIOs(s).reqs| == |s.reqs| && Waiting(GetNextIOs(s).reqs[j])
  {
    OutsideSame(s, j, DISK_COUNT);
  }

  lemma InsideAtHome(s: Sim, i: int)
    requires Inv(s) && Narrow(s) && s.count != s.needed && DataWriteAt(GetNextIOs(s), i) && DataWriteAt(s, i)
    ensures |GetNextIOs(s).reqs| == |s.reqs| && !OffHome(GetNextIOs(s).reqs[i])
  {
    NarrowPrepared(s, i);
    NextAtHome(s, i);
  }

  lemma NarrowNext(s: Sim)
    requires Inv(s) && Narrow(s)
    ensures Narrow(GetNextIOs(s))
  {
    var t := GetNextIOs(s);
    GetNextIOsOk(s);
    if s.count != s.needed {
      forall j | 0 <= j < |s.reqs| && !InWindow(s, j) {
        OutsideWaits(s, j);
      }
      forall i | DataWriteAt(t, i)
        ensures !OffHome(t.reqs[i])
      {
        assert LaterReq(s.speed, s.reqs[i], t.reqs[i]);
        InsideAtHome(s, i);
      }
    }
  }

  lemma NarrowFinish(s: Sim, d: int)
    requires Finishing(s, d) && Narrow(s)
    ensures Narrow(FinishedSim(s, d))
  {
    var t := FinishedSim(s, d);
    FinishRequest(s, d);
    FinishIsLater(s, d);
    forall i | DataWriteAt(t, i)
      ensures !OffHome(t.reqs[i])
    {
      if s.disks[d].target == i {
        CompletionAtHome(s.m, s.reqs[i], d, s.disks[d].op.value);
      }
    }
  }

  lemma NarrowTick(s: Sim, d: int)
    requires Ready(s, d) && Narrow(s)
    ensures Narrow(TickDisk(s, d))
  {
    if EndsNow(s, d) {
      TickEnds(s, d);
      NarrowFinish(SeekPart(s, d), d);
      FinishOk(SeekPart(s, d), d);
      NarrowNext(FinishedSim(SeekPart(s, d), d));
    } else {
      TickOnly(s, d);
    }
  }

  /** With window 1 no data write is ever begun on the parity disk. */
  lemma NarrowStays(s: Sim, n: nat)
    requires Inv(s) && Narrow(s)
    ensures Narrow(Ticks(s, n))
  {
    forall t, d | Ready(t, d) && Narrow(t)
      ensures Narrow(TickDisk(t, d))
    {
      NarrowTick(t, d);
    }
    TicksKeepAll(Narrow, s, n);
  }

  // ---------- a data write that does not reach its data disk ----------

  lemma OtherDisksSame(s: Sim, disk: int, n: nat, d: int)
    requires |s.disks| == DISK_COUNT && 0 <= disk < DISK_COUNT && n <= |s.reqs| && 0 <= d < DISK_COUNT && d != disk
    ensures ScheduleDisk(s, disk, n).disks[d] == s.disks[d]
  {
    var P := (t: Sim) => |t.disks| == DISK_COUNT && t.disks[d] == s.disks[d];
    ScheduleDiskKeeps(P, s, disk, n);
  }

  /** Request j is a read queued before data write i, for the same data disk; neither has begun. */
  ghost predicate Shadows(s: Sim, j: int, i: int) {
    && DataWriteAt(s, i) && 0 <= j < i && s.reqs[j].disk0 == s.reqs[i].disk0
    && s.reqs[j].op == OpRead && Waiting(s.reqs[j]) && InWindow(s, i)
  }

  /** Then the data disk takes a request before it comes to the write. */
  lemma {:induction false} HomeTaken(s: Sim, j: int, i: int, n: nat)
    requires Inv(s) && Shadows(s, j, i) && 0 <= s.reqs[i].disk0 < DISK_COUNT && n <= |s.reqs|
    ensures ScheduleDisk(s, s.reqs[i].disk0, n).reqs[i] == s.reqs[i]
  {
    if n > 0 {
      HomeTaken(s, j, i, n - 1);
      if n - 1 == i {
        HomeBusyBy(s, j, i);
      }
    }
  }

  lemma HomeBusyBy(s: Sim, j: int, i: int)
    requires Inv(s) && Shadows(s, j, i) && 0 <= s.reqs[i].disk0 < DISK_COUNT
    ensures !ScheduleDisk(s, s.reqs[i].disk0, i).disks[s.reqs[i].disk0].state.Idle?
  {
    ReadOffer(s, j, s.reqs[i].disk0);
    if ScheduleDisk(s, s.reqs[i].disk0, i).disks[s.reqs[i].disk0].state.Idle? {
      IdleAfterDisk(s, s.reqs[i].disk0, i);
    }
  }

  /** After n data disks have been scheduled the write is still waiting, and the parity disk is as it was. */
  ghost predicate StillWaits(s: Sim, t: Sim, j: int, i: int, n: nat)
    requires |s.disks| == DISK_COUNT && Shadows(s, j, i)
  {
    && |t.disks| == DISK_COUNT && t.disks[PARITY_DISK] == s.disks[PARITY_DISK]
    && |t.reqs| == |s.reqs| && t.reqs[i] == s.reqs[i]
    && (n <= s.reqs[i].disk0 ==> t.reqs[j] == s.reqs[j])
  }

  lemma WaitsOneMore(s: Sim, j: int, i: int, n: nat)
    requires Inv(s) && Shadows(s, j, i) && n < PARITY_DISK && StillWaits(s, ScheduleDisks(s, n), j, i, n)
    ensures StillWaits(s, ScheduleDisks(s, n + 1), j, i, n + 1)
  {
    var t := ScheduleDisks(s, n);
    HomeOnArray(s, i);
    HomeOnArray(s, j);
    ScheduleDisksOk(s, n);
    OtherDisksSame(t, n, |t.reqs|, PARITY_DISK);
    if n == s.reqs[i].disk0 {
      HomeTaken(t, j, i, |t.reqs|);
    } else {
      OfferedToItsDisks(t, i, n);
      OtherUnmoved(t, n, |t.reqs|, i, PARITY_DISK);
      if n < s.reqs[i].disk0 {
        OfferedToItsDisks(t, j, n);
        OtherUnmoved(t, n, |t.reqs|, j, PARITY_DISK);
      }
    }
  }

  lemma {:induction false} WaitsFor(s: Sim, j: int, i: int, n: nat)
    requires Inv(s) && Shadows(s, j, i) && n <= PARITY_DISK
    ensures StillWaits(s, ScheduleDisks(s, n), j, i, n)
  {
    if n > 0 {
      WaitsFor(s, j, i, n - 1);
      WaitsOneMore(s, j, i, n - 1);
    }
  }

  lemma OffHomeOneMore(s: Sim, disk: int, n: nat, i: int)
    requires Inv(s) && 0 <= disk < DISK_COUNT && n < |s.reqs| && 0 <= i < |s.reqs|
    requires OffHome(ScheduleDisk(s, disk, n).reqs[i])
    ensures OffHome(ScheduleDisk(s, disk, n + 1).reqs[i])
  {
    ScheduleDiskOk(s, disk, n);
    TryStartOk(ScheduleDisk(s, disk, n), disk, n);
  }

  lemma {:induction false} OffHomeStays(s: Sim, disk: int, a: nat, n: nat, i: int)
    requires Inv(s) && 0 <= disk < DISK_COUNT && a <= n <= |s.reqs| && 0 <= i < |s.reqs|
    requires OffHome(ScheduleDisk(s, disk, a).reqs[i])
    ensures OffHome(ScheduleDisk(s, disk, n).reqs[i])
  {
    if a < n {
      OffHomeStays(s, disk, a, n - 1, i);
      OffHomeOneMore(s, disk, n - 1, i);
    }
  }

  /** A parity disk that is still idle when it comes to a waiting data write takes it. */
  lemma ParityTakes(u: Sim, i: int)
    requires Inv(u) && u.disks[PARITY_DISK].state.Idle? && DataWriteAt(u, i) && InWindow(u, i) && Waiting(u.reqs[i])
    requires ScheduleDisk(u, PARITY_DISK, i) == u
    ensures OffHome(ScheduleDisk(u, PARITY_DISK, |u.reqs|).reqs[i])
  {
    HomeOnArray(u, i);
    DataWriteOffer(u, i, PARITY_DISK);
    assert ScheduleDisk(u, PARITY_DISK, i + 1) == TryStart(u, PARITY_DISK, i);
    OffHomeStays(u, PARITY_DISK, i + 1, |u.reqs|, i);
  }

  /** The parity disk finds nothing to do among reads, nor in a data write that is under way. */
  lemma ParityPasses(u: Sim, a: int)
    requires Inv(u) && DataWriteAt(u, a) && forall x :: 0 <= x < a ==> u.reqs[x].op == OpRead
    ensures ScheduleDisk(u, PARITY_DISK, a) == u
    ensures !Waiting(u.reqs[a]) ==> ScheduleDisk(u, PARITY_DISK, a + 1) == u
  {
    forall x | 0 <= x < a
      ensures Offer(u.m, u.reqs[x], PARITY_DISK).None?
    {
      HomeOnArray(u, x);
      ReadOffer(u, x, PARITY_DISK);
    }
    NothingOffered(u, PARITY_DISK, a);
    HomeOnArray(u, a);
    DataWriteOffer(u, a, PARITY_DISK);
  }

  /** An idle parity disk with only reads before the two data writes takes the first of them that still waits. */
  lemma ParityTakesOne(u: Sim, a: int, k: int)
    requires Inv(u) && u.disks[PARITY_DISK].state.Idle? && DataWriteAt(u, a) && DataWriteAt(u, a + 1)
    requires InWindow(u, a + 1) && forall x :: 0 <= x < a ==> u.reqs[x].op == OpRead
    requires (k == a || k == a + 1) && Waiting(u.reqs[k])
    ensures var t := ScheduleDisk(u, PARITY_DISK, |u.reqs|);
            OffHome(t.reqs[a]) || OffHome(t.reqs[a + 1])
  {
    ParityPasses(u, a);
    if Waiting(u.reqs[a]) {
      ParityTakes(u, a);
    } else {
      ParityTakes(u, a + 1);
    }
  }

  /** Two data writes with only reads before them, an idle parity disk, and one of the writes not begun. */
  ghost predicate StealReady(s: Sim, a: int, k: int) {
    && Inv(s) && s.count != s.needed && s.disks[PARITY_DISK].state.Idle?
    && DataWriteAt(s, a) && DataWriteAt(s, a + 1) && InWindow(s, a + 1)
    && (forall x :: 0 <= x < a ==> s.reqs[x].op == OpRead)
    && (k == a || k == a + 1) && Waiting(s.reqs[k])
  }

  /** The key "s" pressed with only reads queued before the two writes, one of them for a data disk of theirs. */
  lemma StolenAtStart(s: Sim, a: int, j: int, k: int)
    requires StealReady(s, a, k) && Shadows(s, j, k)
    ensures var t := GetNextIOs(s);
            |t.reqs| == |s.reqs| && (OffHome(t.reqs[a]) || OffHome(t.reqs[a + 1]))
  {
    var u := ScheduleDisks(s, PARITY_DISK);
    WaitsFor(s, j, k, PARITY_DISK);
    ScheduleDisksOk(s, PARITY_DISK);
    ParityTakesOne(u, a, k);
    assert GetNextIOs(s) == ScheduleDisk(u, PARITY_DISK, |s.reqs|);
  }
}
