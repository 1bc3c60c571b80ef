/** How long a seek takes in the running simulation, for any seek speed. */
module SimSeek {
  import opened Arithmetic
  import opened SimRequest
  import opened SimState
  import opened SimTicks

  ghost predicate Seeking(s: Sim, d: int) {
    Inv(s) && Live(s) && 0 <= d < DISK_COUNT && s.disks[d].state.Seek?
  }

  /** The y position a seeking disk heads for. */
  ghost function GoalOf(s: Sim, d: int): int
    requires Seeking(s, d)
  {
    YPos(s.reqs[s.disks[d].target].offset)
  }

  /** The disk after n moves of its head. */
  ghost function MovedBy(k: Disk, n: nat): Disk { k.(y := k.y + n * k.delta) }

  // ---------- one tick ----------

  /** The rest of the disk loop leaves a busy disk alone. */
  lemma {:induction false} PassedDisk(s: Sim, from: nat, d: nat)
    requires Inv(s) && d < from <= DISK_COUNT && !s.disks[d].state.Idle?
    ensures AnimateFrom(s, from).disks[d] == s.disks[d]
    decreases DISK_COUNT - from
  {
    if from < DISK_COUNT {
      TickDiskOk(s, from);
      TickDiskIsLater(s, from);
      PassedDisk(TickDisk(s, from), from + 1, d);
    }
  }

  /** The disk loop moves a seeking head by one step, whatever the other disks do before and after. */
  lemma {:induction false} LoopMoves(s: Sim, from: nat, d: nat)
    requires Inv(s) && from <= d < DISK_COUNT && s.disks[d].state.Seek?
    requires s.disks[d].y != YPos(s.reqs[s.disks[d].target].offset)
    ensures AnimateFrom(s, from).disks[d] == MovedBy(s.disks[d], 1)
    decreases d - from
  {
    var t := TickDisk(s, from);
    TickDiskOk(s, from);
    if from < d {
      TickDiskIsLater(s, from);
      LoopMoves(t, from + 1, d);
    } else {
      assert t.disks[d] == MovedBy(s.disks[d], 1);
      PassedDisk(t, from + 1, d);
    }
  }

  lemma TickMoves(s: Sim, d: nat)
    requires Seeking(s, d) && s.disks[d].y != GoalOf(s, d)
    ensures var t := Animate(s);
            Seeking(t, d) && t.disks[d] == MovedBy(s.disks[d], 1) && GoalOf(t, d) == GoalOf(s, d)
  {
    BusyRuns(s, d);
    TickOk(s);
    TickKeeps(s);
    LoopMoves(s, 0, d);
  }

  // ---------- many ticks ----------

  ghost predicate NotThereBy(k: Disk, goal: int, n: nat) { forall j: nat :: j < n ==> MovedBy(k, j).y != goal }

  lemma NotThereLater(k: Disk, goal: int, n: nat)
    requires NotThereBy(k, goal, n + 1)
    ensures k.y != goal && NotThereBy(MovedBy(k, 1), goal, n)
  {
    assert MovedBy(k, 0).y == k.y;
    forall j: nat | j < n
      ensures MovedBy(MovedBy(k, 1), j).y != goal
    {
      MoveOnceMore(k, j);
    }
  }

  lemma MoveOnceMore(k: Disk, n: nat)
    ensures MovedBy(MovedBy(k, 1), n) == MovedBy(k, n + 1)
  {
    assert (n + 1) * k.delta == n * k.delta + k.delta;
  }

  /** Until the head meets its target, n ticks move it by n steps and change nothing else about the disk. */
  lemma {:induction false} SeekGoesOn(s: Sim, d: nat, n: nat)
    requires Seeking(s, d) && NotThereBy(s.disks[d], GoalOf(s, d), n)
    ensures var t := Ticks(s, n);
            Seeking(t, d) && t.disks[d] == MovedBy(s.disks[d], n) && GoalOf(t, d) == GoalOf(s, d)
    decreases n
  {
    if n > 0 {
      NotThereLater(s.disks[d], GoalOf(s, d), n - 1);
      TickMoves(s, d);
      SeekGoesOn(Animate(s), d, n - 1);
      MoveOnceMore(s.disks[d], n - 1);
    }
  }

  // ---------- when the head meets its target ----------

  /** The direction SetSeekDirection chooses. */
  ghost predicate Towards(k: Disk, speed: int, goal: int) {
    (k.y < goal ==> k.delta == speed) && (k.y > goal ==> k.delta == -speed)
  }

  /** n moves towards the goal meet it exactly if they cover the distance, and leave the rest of it before that. */
  lemma MovesCover(k: Disk, speed: int, goal: int, n: nat)
    requires speed >= 1 && Towards(k, speed, goal) && k.y != goal
    ensures MovedBy(k, n).y == goal <==> n * speed == Abs(goal - k.y)
    ensures n * speed <= Abs(goal - k.y) ==> Abs(goal - MovedBy(k, n).y) == Abs(goal - k.y) - n * speed
  {
    assert n * -speed == -(n * speed);
  }

  /** Moves that together do not exceed the distance do not meet the target one earlier. */
  lemma NotThereYet(k: Disk, speed: int, goal: int, n: nat)
    requires speed >= 1 && Towards(k, speed, goal) && k.y != goal && n * speed <= Abs(goal - k.y)
    ensures NotThereBy(k, goal, n)
  {
    forall j: nat | j < n
      ensures MovedBy(k, j).y != goal
    {
      MovesCover(k, speed, goal, j);
      MulMonotone(j + 1, n, speed);
      assert (j + 1) * speed == j * speed + speed;
    }
  }

  /** A speed that does not divide the distance never covers it. */
  lemma NeverThere(k: Disk, speed: int, goal: int, n: nat)
    requires speed >= 1 && Towards(k, speed, goal) && Abs(goal - k.y) % speed != 0
    ensures NotThereBy(k, goal, n)
  {
    DivModUnique(0, speed, 0, 0);
    forall j: nat | j < n
      ensures MovedBy(k, j).y != goal
    {
      MovesCover(k, speed, goal, j);
      if j * speed == Abs(goal - k.y) {
        DivModUnique(j * speed, speed, j, 0);
      }
    }
  }

  /** How far the head is from its target. */
  ghost function Distance(s: Sim, d: int): nat
    requires Seeking(s, d)
  {
    Abs(GoalOf(s, d) - s.disks[d].y)
  }

  /**
   While n moves do not exceed the distance, n ticks leave the disk seeking the same target, n steps nearer;
   other disks, requests finishing and scheduling in between make no difference.
   */
  lemma SeekProgress(s: Sim, d: nat, n: nat)
    requires Seeking(s, d) && Towards(s.disks[d], s.speed, GoalOf(s, d)) && n * s.speed <= Distance(s, d)
    ensures var t := Ticks(s, n);
            && Seeking(t, d) && t.disks[d] == MovedBy(s.disks[d], n) && GoalOf(t, d) == GoalOf(s, d)
            && Distance(t, d) == Distance(s, d) - n * s.speed
  {
    if s.disks[d].y == GoalOf(s, d) {
      NoMoves(n, s.speed);
    } else {
      MovesCover(s.disks[d], s.speed, GoalOf(s, d), n);
      NotThereYet(s.disks[d], s.speed, GoalOf(s, d), n);
    }
    SeekGoesOn(s, d, n);
  }

  lemma NoMoves(n: nat, speed: int)
    requires speed >= 1 && n * speed <= 0
    ensures n == 0
  {
    if n > 0 {
      MulMonotone(1, n, speed);
    }
  }

  /** A speed that does not divide the distance never meets the target: the disk seeks forever. */
  lemma SeekMisses(s: Sim, d: nat, n: nat)
    requires Seeking(s, d) && Towards(s.disks[d], s.speed, GoalOf(s, d)) && Distance(s, d) % s.speed != 0
    ensures var t := Ticks(s, n);
            && Seeking(t, d) && t.disks[d] == MovedBy(s.disks[d], n) && GoalOf(t, d) == GoalOf(s, d)
            && t.disks[d].y != GoalOf(s, d)
  {
    NeverThere(s.disks[d], s.speed, GoalOf(s, d), n + 1);
    SeekGoesOn(s, d, n);
  }

  ghost predicate ArrivedAt(s: Sim, d: nat, n: nat)
    requires Seeking(s, d)
  {
    Ticks(s, n).disks[d] == s.disks[d].(y := GoalOf(s, d))
  }

  lemma QuotientMoves(dist: nat, speed: int, n: nat)
    requires speed >= 1 && dist % speed == 0 && n <= dist / speed
    ensures n * speed <= dist && (n * speed == dist <==> n == dist / speed)
  {
    DivModParts(dist, speed);
    MulMonotone(n, dist / speed, speed);
    if n * speed == dist {
      DivModUnique(dist, speed, n, 0);
    }
  }

  /** A seek whose distance the speed divides is over, and not sooner, after distance / seek_speed ticks. */
  lemma SeekArrives(s: Sim, d: nat, n: nat)
    requires Seeking(s, d) && Towards(s.disks[d], s.speed, GoalOf(s, d)) && Distance(s, d) % s.speed == 0
    requires n <= Distance(s, d) / s.speed
    ensures ArrivedAt(s, d, n) <==> n == Distance(s, d) / s.speed
  {
    QuotientMoves(Distance(s, d), s.speed, n);
    SeekProgress(s, d, n);
  }

  /**
   A seek of the running simulation ends on its target exactly if the seek speed divides the distance; it
   does so after |target - head| / seek_speed ticks, and at no tick before.
   */
  lemma SeekEndsExactly(s: Sim, d: nat)
    requires Seeking(s, d) && Towards(s.disks[d], s.speed, GoalOf(s, d))
    ensures (exists n: nat :: ArrivedAt(s, d, n)) <==> Distance(s, d) % s.speed == 0
    ensures Distance(s, d) % s.speed == 0 ==>
              forall n: nat :: n <= Distance(s, d) / s.speed ==>
                (ArrivedAt(s, d, n) <==> n == Distance(s, d) / s.speed)
  {
    if Distance(s, d) % s.speed == 0 {
      forall n: nat | n <= Distance(s, d) / s.speed {
        SeekArrives(s, d, n);
      }
      DivModParts(Distance(s, d), s.speed);
      SeekArrives(s, d, Distance(s, d) / s.speed);
    } else {
      forall n: nat
        ensures !ArrivedAt(s, d, n)
      {
        SeekMisses(s, d, n);
      }
    }
  }

  lemma LatticeDistance(y: int, goal: int, speed: int)
    requires speed >= 1 && y % speed == 0 && goal % speed == 0
    ensures Abs(goal - y) % speed == 0
  {
    DivModParts(y, speed);
    DivModParts(goal, speed);
    var q := goal / speed - y / speed;
    assert goal - y == q * speed;
    DivModUnique(goal - y, speed, q, 0);
    assert y - goal == -q * speed;
    DivModUnique(y - goal, speed, -q, 0);
  }

  /** In every state of the invariant a disk seeking a row that heads can hit is on course, so its seek ends. */
  lemma OnCourse(s: Sim, d: nat)
    requires Seeking(s, d) && RowOk(s.speed, s.reqs[s.disks[d].target].offset)
    ensures Towards(s.disks[d], s.speed, GoalOf(s, d)) && Distance(s, d) % s.speed == 0
  {
    assert DiskOk(s, d);
    LatticeDistance(s.disks[d].y - 100, GoalOf(s, d) - 100, s.speed);
  }
}
