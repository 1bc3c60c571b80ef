/** The circular buffer of the producer/consumer program: do_fill and do_get. */
module RingBuffer {
  import opened Arithmetic

  /** The remainder of x by n, for x below 2 * n. */
  ghost function Wrap(x: int, n: int): int { if x < n then x else x - n }

  lemma WrapIsMod(x: int, n: int)
    requires 0 <= x < 2 * n
    ensures x % n == Wrap(x, n)
  {
    DivModUnique(x, n, if x < n then 0 else 1, Wrap(x, n));
  }

  /** The four shared variables, as a value. */
  datatype Ring = Ring(cells: seq<int>, use: nat, fill: nat, full: int) {

    /** Both cursors index the buffer; all that do_fill and do_get need to run. */
    ghost predicate InBounds() {
      use < |cells| && fill < |cells|
    }

    ghost predicate Valid() {
      && InBounds()
      && 0 <= full <= |cells|
      && fill == Wrap(use + full, |cells|)
    }

    /** Where the i-th queued element sits. */
    ghost function Cell(i: nat): (c: nat)
      requires InBounds() && i < |cells|
      ensures c < |cells|
    {
      Wrap(use + i, |cells|)
    }

    /** The queue the buffer stands for, oldest element first. */
    ghost function Contents(): seq<int>
      requires Valid()
    {
      seq(full, i requires 0 <= i < full => cells[Cell(i)])
    }

    function Fill(value: int): Ring
      requires InBounds()
    {
      Ring(cells[fill := value], use, (fill + 1) % |cells|, full + 1)
    }

    function Front(): int
      requires InBounds()
    {
      cells[use]
    }

    function Drop(): Ring
      requires InBounds()
    {
      Ring(cells, (use + 1) % |cells|, fill, full - 1)
    }
  }

  /** When there is room, do_fill enqueues at the back and disturbs nothing else. */
  lemma FillEnqueues(r: Ring, value: int)
    requires r.Valid() && r.full < |r.cells|
    ensures r.Fill(value).Valid()
    ensures r.Fill(value).Contents() == r.Contents() + [value]
  {
    WrapIsMod(r.fill + 1, |r.cells|);
    var f := r.Fill(value);
    assert f.Contents()[r.full] == value;
    assert forall i: nat :: i < r.full ==> f.Contents()[i] == r.Contents()[i];
  }

  /** When something is there, do_get dequeues from the front and disturbs nothing else. */
  lemma DropDequeues(r: Ring)
    requires r.Valid() && r.full > 0
    ensures r.Drop().Valid()
    ensures r.Contents() == [r.Front()] + r.Drop().Contents()
  {
    WrapIsMod(r.use + 1, |r.cells|);
    var d := r.Drop();
    assert r.Contents()[0] == r.Front();
    assert forall i: nat :: i < d.full ==> d.Contents()[i] == r.Contents()[i + 1];
  }

  /** The globals buffer, use_ptr, fill_ptr and num_full, updated in place. */
  class Buffer {
    const buffer: array<int>
    var usePtr: nat
    var fillPtr: nat
    var numFull: int

    function Value(): Ring
      reads this, buffer
    {
      Ring(buffer[..], usePtr, fillPtr, numFull)
    }

    constructor (max: nat)
      requires max >= 1
      ensures fresh(buffer)
      ensures Value().Valid() && |Value().cells| == max && Value().Contents() == []
      ensures Value() == Ring(seq(max, _ => 0), 0, 0, 0)
    {
      var cells := new int[max];
      usePtr, fillPtr, numFull := 0, 0, 0;
      buffer := cells;
      new;
      for i := 0 to max
        invariant forall j :: 0 <= j < i ==> cells[j] == 0
        invariant usePtr == 0 && fillPtr == 0 && numFull == 0
      {
        cells[i] := 0;
      }
      assert buffer[..] == seq(max, _ => 0);
    }

    method DoFill(value: int)
      requires Value().InBounds()
      modifies this, buffer
      ensures Value() == old(Value()).Fill(value)
      ensures old(Value().Valid() && numFull < buffer.Length) ==>
                Value().Valid() && Value().Contents() == old(Value().Contents()) + [value]
    {
      ghost var was := Value();
      buffer[fillPtr] := value;
      fillPtr := (fillPtr + 1) % buffer.Length;
      numFull := numFull + 1;
      if was.Valid() && was.full < buffer.Length {
        FillEnqueues(was, value);
      }
    }

    method DoGet() returns (tmp: int)
      requires Value().InBounds()
      modifies this
      ensures Value() == old(Value()).Drop() && tmp == old(Value()).Front()
      ensures old(Value().Valid() && numFull > 0) ==>
                Value().Valid() && old(Value().Contents()) == [tmp] + Value().Contents()
    {
      ghost var was := Value();
      tmp := buffer[usePtr];
      usePtr := (usePtr + 1) % buffer.Length;
      numFull := numFull - 1;
      if was.Valid() && was.full > 0 {
        DropDequeues(was);
      }
    }
  }
}
