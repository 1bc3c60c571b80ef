/** The sequential MapReduce: a growing list, a sort, and a cursor shared by the driver and the reducers. */
module MapReduce {

  /** C strings: bytes other than the terminator. */
  type Byte = b: int | 1 <= b < 256 witness 1

  type CString = seq<Byte>

  datatype Kv = Kv(key: CString, value: CString)

  datatype Option<T> = None | Some(value: T)

  // ---------- strcmp ----------

  /** The sign of strcmp: the first differing byte decides, the terminator being below every byte. */
  function Strcmp(a: CString, b: CString): int {
    if a == [] then (if b == [] then 0 else -1)
    else if b == [] then 1
    else if a[0] < b[0] then -1
    else if a[0] > b[0] then 1
    else Strcmp(a[1..], b[1..])
  }

  lemma {:induction false} StrcmpEqual(a: CString, b: CString)
    ensures Strcmp(a, b) == 0 <==> a == b
  {
    if a != [] && b != [] && a[0] == b[0] {
      StrcmpEqual(a[1..], b[1..]);
      assert a == [a[0]] + a[1..] && b == [b[0]] + b[1..];
    }
  }

  lemma {:induction false} StrcmpFlip(a: CString, b: CString)
    ensures Strcmp(a, b) == -Strcmp(b, a)
  {
    if a != [] && b != [] && a[0] == b[0] {
      StrcmpFlip(a[1..], b[1..]);
    }
  }

  lemma {:induction false} StrcmpTransitive(a: CString, b: CString, c: CString)
    requires Strcmp(a, b) <= 0 && Strcmp(b, c) <= 0
    ensures Strcmp(a, c) <= 0
    ensures Strcmp(a, b) < 0 || Strcmp(b, c) < 0 ==> Strcmp(a, c) < 0
  {
    if a != [] && b != [] && c != [] && a[0] == b[0] == c[0] {
      StrcmpTransitive(a[1..], b[1..], c[1..]);
    }
  }

  /**
   The order of strings that strcmp is for (section 7.24.4.2 of ISO C11), without computing it: a is a proper
   prefix of b, or has the smaller byte where they first differ.
   */
  ghost predicate Precedes(a: CString, b: CString) {
    exists i :: 0 <= i <= |a| && i < |b| && a[..i] == b[..i] && (i == |a| || a[i] < b[i])
  }

  /** Equal first bytes do not matter. */
  lemma PrecedesTail(a: CString, b: CString)
    requires a != [] && b != [] && a[0] == b[0]
    ensures Precedes(a, b) <==> Precedes(a[1..], b[1..])
  {
    if Precedes(a, b) {
      var i :| 0 <= i <= |a| && i < |b| && a[..i] == b[..i] && (i == |a| || a[i] < b[i]);
      assert a[..i][1..] == a[1..][..i - 1] && b[..i][1..] == b[1..][..i - 1];
    }
    if Precedes(a[1..], b[1..]) {
      var i :| 0 <= i < |a| && i < |b| - 1 && a[1..][..i] == b[1..][..i] && (i == |a| - 1 || a[1..][i] < b[1..][i]);
      assert a[..i + 1] == [a[0]] + a[1..][..i] && b[..i + 1] == [b[0]] + b[1..][..i];
    }
  }

  /** Different first bytes, or one string being empty, decide at once. */
  lemma PrecedesAtOnce(a: CString, b: CString)
    requires a == [] || b == [] || a[0] != b[0]
    ensures Precedes(a, b) <==> b != [] && (a == [] || a[0] < b[0])
  {
    assert a[..0] == b[..0];
  }

  /** strcmp is negative exactly if the first string precedes the second. */
  lemma {:induction false} StrcmpPrecedes(a: CString, b: CString)
    ensures Strcmp(a, b) < 0 <==> Precedes(a, b)
  {
    if a != [] && b != [] && a[0] == b[0] {
      StrcmpPrecedes(a[1..], b[1..]);
      PrecedesTail(a, b);
    } else {
      PrecedesAtOnce(a, b);
    }
  }

  /** Of two different strings exactly one precedes the other. */
  lemma PrecedesTotal(a: CString, b: CString)
    ensures !(Precedes(a, b) && Precedes(b, a))
    ensures a == b <==> !Precedes(a, b) && !Precedes(b, a)
  {
    StrcmpPrecedes(a, b);
    StrcmpPrecedes(b, a);
    StrcmpFlip(a, b);
    StrcmpEqual(a, b);
  }

  lemma PrecedesTransitive(a: CString, b: CString, c: CString)
    requires !Precedes(b, a) && !Precedes(c, b)
    ensures !Precedes(c, a)
    ensures Precedes(a, b) || Precedes(b, c) ==> Precedes(a, c)
  {
    StrcmpPrecedes(a, b);
    StrcmpPrecedes(b, a);
    StrcmpPrecedes(b, c);
    StrcmpPrecedes(c, b);
    StrcmpPrecedes(a, c);
    StrcmpPrecedes(c, a);
    StrcmpFlip(a, b);
    StrcmpFlip(b, c);
    StrcmpFlip(a, c);
    StrcmpTransitive(a, b, c);
  }

  /** cmp, the comparison passed to qsort. */
  function Cmp(a: Kv, b: Kv): int { Strcmp(a.key, b.key) }

  lemma CmpPrecedes(a: Kv, b: Kv)
    ensures Cmp(a, b) <= 0 <==> !Precedes(b.key, a.key)
  {
    StrcmpFlip(a.key, b.key);
    StrcmpPrecedes(b.key, a.key);
  }

  /** No key precedes one before it. */
  ghost predicate Sorted(s: seq<Kv>) {
    forall i, j :: 0 <= i < j < |s| ==> !Precedes(s[j].key, s[i].key)
  }

  // ---------- one way to sort, for qsort's contract ----------

  function Insert(x: Kv, s: seq<Kv>): (r: seq<Kv>)
    ensures multiset(r) == multiset(s) + multiset{x}
  {
    if s == [] then [x]
    else if Cmp(x, s[0]) <= 0 then [x] + s
    else
      assert s == [s[0]] + s[1..];
      [s[0]] + Insert(x, s[1..])
  }

  function InsertionSort(s: seq<Kv>): (r: seq<Kv>)
    ensures multiset(r) == multiset(s) && |r| == |s|
  {
    if s == [] then []
    else
      assert s == [s[0]] + s[1..];
      var r := Insert(s[0], InsertionSort(s[1..]));
      assert |multiset(r)| == |r| && |multiset(s)| == |s|;
      r
  }

  lemma {:induction false} InsertSorted(x: Kv, s: seq<Kv>)
    requires Sorted(s)
    ensures Sorted(Insert(x, s))
  {
    if s == [] {
    } else if Cmp(x, s[0]) <= 0 {
      CmpPrecedes(x, s[0]);
      forall j | 0 <= j < |s|
        ensures !Precedes(s[j].key, x.key)
      {
        if j > 0 {
          PrecedesTransitive(x.key, s[0].key, s[j].key);
        }
      }
    } else {
      var rest := Insert(x, s[1..]);
      InsertSorted(x, s[1..]);
      CmpPrecedes(x, s[0]);
      PrecedesTotal(x.key, s[0].key);
      forall j | 0 <= j < |rest|
        ensures !Precedes(rest[j].key, s[0].key)
      {
        assert rest[j] in multiset(rest);
        assert rest[j] == x || rest[j] in s[1..];
      }
    }
  }

  lemma {:induction false} InsertionSortSorts(s: seq<Kv>)
    ensures Sorted(InsertionSort(s))
  {
    if s != [] {
      InsertionSortSorts(s[1..]);
      InsertSorted(s[0], InsertionSort(s[1..]));
    }
  }

  // ---------- the growing list ----------

  ghost function Pow2(j: nat): nat { if j == 0 then 1 else 2 * Pow2(j - 1) }

  /** kvl and kvl_counter. */
  class KvList {
    var elements: array<Kv>
    var numElements: nat
    var size: nat
    var kvlCounter: nat
    ghost const initial: nat
    ghost var doublings: nat
    ghost var copied: nat

    /** copied counts the elements moved by all reallocations so far. */
    ghost predicate Valid()
      reads this
    {
      && initial >= 1
      && size == elements.Length == initial * Pow2(doublings)
      && numElements <= size
      && (doublings > 0 ==> 2 * numElements >= size)
      && copied == size - initial
    }

    ghost function Contents(): seq<Kv>
      requires Valid()
      reads this, elements
    {
      elements[..numElements]
    }

    /** init_kv_list */
    constructor (size: nat)
      requires size >= 1
      ensures Valid() && Contents() == [] && initial == size && fresh(elements) && kvlCounter == 0
    {
      elements := new Kv[size];
      numElements, kvlCounter := 0, 0;
      this.size := size;
      initial, doublings, copied := size, 0, 0;
    }

    /** realloc to twice the size: every element is moved. */
    method Grow()
      requires Valid() && numElements == size
      modifies this`elements, this`size, this`doublings, this`copied
      ensures Valid() && Contents() == old(Contents()) && size == 2 * old(size) && fresh(elements)
    {
      var cells, bigger := elements, new Kv[2 * size];
      for i := 0 to numElements
        invariant elements == cells && size == cells.Length
        invariant doublings == old(doublings) && copied == old(copied)
        invariant forall k :: 0 <= k < i ==> bigger[k] == cells[k]
      {
        bigger[i] := cells[i];
      }
      assert bigger[..numElements] == cells[..numElements];
      assert initial * Pow2(doublings + 1) == 2 * (initial * Pow2(doublings));
      copied := copied + numElements;
      doublings := doublings + 1;
      size := 2 * size;
      elements := bigger;
    }

    /**
     add_to_list. The capacity stays the initial one times a power of two, and all reallocations so far
     have moved fewer than two elements per element added.
     */
    method AddToList(elt: Kv)
      requires Valid()
      modifies this`elements, this`size, this`doublings, this`copied, this`numElements, elements
      ensures Valid() && Contents() == old(Contents()) + [elt]
      ensures size == elements.Length == initial * Pow2(doublings) && copied < 2 * numElements
      ensures elements == old(elements) || fresh(elements)
    {
      if numElements == size {
        Grow();
      }
      elements[numElements] := elt;
      numElements := numElements + 1;
    }

    method MREmit(key: CString, value: CString)
      requires Valid()
      modifies this`elements, this`size, this`doublings, this`copied, this`numElements, elements
      ensures Valid() && Contents() == old(Contents()) + [Kv(key, value)]
      ensures elements == old(elements) || fresh(elements)
    {
      AddToList(Kv(key, value));
    }

    /** qsort by cmp; callers know no more than its contract, which leaves the order of equal keys open. */
    method QSort()
      requires Valid()
      modifies elements
      ensures Valid() && Sorted(Contents()) && multiset(Contents()) == multiset(old(Contents()))
    {
      var s := elements[..numElements];
      var r := InsertionSort(s);
      InsertionSortSorts(s);
      for i := 0 to numElements
        invariant elements[..i] == r[..i]
      {
        elements[i] := r[i];
      }
      assert elements[..numElements] == r;
    }

    /** The getter handed to reducers: the next value if it belongs to this key. */
    method GetFunc(key: CString) returns (r: Option<CString>)
      requires Valid() && kvlCounter <= numElements
      modifies this`kvlCounter
      ensures Valid()
      ensures old(kvlCounter) < numElements && elements[old(kvlCounter)].key == key ==>
                r == Some(elements[old(kvlCounter)].value) && kvlCounter == old(kvlCounter) + 1
      ensures !(old(kvlCounter) < numElements && elements[old(kvlCounter)].key == key) ==>
                r == None && kvlCounter == old(kvlCounter)
    {
      if kvlCounter == numElements {
        return None;
      }
      var currElt := elements[kvlCounter];
      StrcmpEqual(currElt.key, key);
      if Strcmp(currElt.key, key) == 0 {
        kvlCounter := kvlCounter + 1;
        return Some(currElt.value);
      }
      return None;
    }

    /** Calling the getter with one key until it returns NULL. */
    method Drain(key: CString) returns (values: seq<CString>)
      requires Valid() && kvlCounter <= numElements
      modifies this`kvlCounter
      ensures Valid() && kvlCounter == RunEnd(Contents(), old(kvlCounter), key)
      ensures values == ValuesOf(Contents()[old(kvlCounter)..kvlCounter])
    {
      ghost var s, start := Contents(), kvlCounter;
      values := [];
      var next := GetFunc(key);
      while next.Some?
        invariant Valid() && Contents() == s
        invariant kvlCounter == start + |values| + (if next.Some? then 1 else 0) <= numElements
        invariant forall j :: 0 <= j < |values| ==> values[j] == s[start + j].value
        invariant next.Some? ==> s[kvlCounter - 1] == Kv(key, next.value)
        invariant forall i :: start <= i < kvlCounter ==> s[i].key == key
        invariant next.None? && kvlCounter < numElements ==> s[kvlCounter].key != key
        decreases numElements - kvlCounter, if next.Some? then 1 else 0
      {
        values := values + [next.value];
        next := GetFunc(key);
      }
      RunEndIs(s, start, kvlCounter, key);
      assert values == ValuesOf(s[start..kvlCounter]);
    }

    method Perform(act: Act) returns (values: seq<CString>)
      requires Valid() && kvlCounter <= numElements
      modifies this`kvlCounter
      ensures Valid() && kvlCounter == ActEnd(Contents(), old(kvlCounter), act)
      ensures values == ValuesOf(Contents()[old(kvlCounter)..kvlCounter])
    {
      match act {
        case UntilNull(key) =>
          values := Drain(key);
        case Once(key) =>
          var next := GetFunc(key);
          values := if next.Some? then [next.value] else [];
      }
    }

    /** A call of a reducer: it makes its calls of the getter, one after the other. */
    method Reduce(acts: seq<Act>) returns (values: seq<CString>)
      requires Valid() && kvlCounter <= numElements
      modifies this`kvlCounter
      ensures Valid() && kvlCounter == ServeEnd(Contents(), old(kvlCounter), acts)
      ensures values == ValuesOf(Contents()[old(kvlCounter)..kvlCounter])
    {
      ghost var s, start := Contents(), kvlCounter;
      values := [];
      for i := 0 to |acts|
        invariant Valid() && Contents() == s && start <= kvlCounter <= numElements
        invariant ServeEnd(s, kvlCounter, acts[i..]) == ServeEnd(s, start, acts)
        invariant values == ValuesOf(s[start..kvlCounter])
      {
        ghost var pos := kvlCounter;
        var more := Perform(acts[i]);
        ServeOneMore(s, pos, acts, i);
        ValuesConcat(s, start, pos, kvlCounter);
        values := values + more;
      }
    }
  }

  // ---------- reducers ----------

  /** What a reducer does with its getter: one call with some key, or calls with it until NULL. */
  datatype Act = Once(key: CString) | UntilNull(key: CString)

  /** A reducer, by the key it is called with; the keys it passes on to the getter are its own choice. */
  type Reducer = CString -> seq<Act>

  function ValuesOf(s: seq<Kv>): seq<CString> { seq(|s|, i requires 0 <= i < |s| => s[i].value) }

  lemma ValuesConcat(s: seq<Kv>, a: nat, b: nat, c: nat)
    requires a <= b <= c <= |s|
    ensures ValuesOf(s[a..c]) == ValuesOf(s[a..b]) + ValuesOf(s[b..c])
  {
    assert s[a..c] == s[a..b] + s[b..c];
  }

  /** Where the run of pairs with this key that starts at the cursor ends; at the cursor if it stands on another key. */
  function RunEnd(s: seq<Kv>, pos: nat, key: CString): (end: nat)
    requires pos <= |s|
    ensures pos <= end <= |s|
    ensures forall i :: pos <= i < end ==> s[i].key == key
    ensures end < |s| ==> s[end].key != key
    decreases |s| - pos
  {
    if pos < |s| && s[pos].key == key then RunEnd(s, pos + 1, key) else pos
  }

  lemma {:induction false} RunEndIs(s: seq<Kv>, pos: nat, end: nat, key: CString)
    requires pos <= end <= |s| && (forall i :: pos <= i < end ==> s[i].key == key) && (end < |s| ==> s[end].key != key)
    ensures RunEnd(s, pos, key) == end
    decreases end - pos
  {
    if pos < end {
      RunEndIs(s, pos + 1, end, key);
    }
  }

  function ActEnd(s: seq<Kv>, pos: nat, act: Act): (end: nat)
    requires pos <= |s|
    ensures pos <= end <= |s|
  {
    match act
    case Once(key) => if pos < |s| && s[pos].key == key then pos + 1 else pos
    case UntilNull(key) => RunEnd(s, pos, key)
  }

  /** Where the cursor stands after a reducer's calls. */
  function ServeEnd(s: seq<Kv>, pos: nat, acts: seq<Act>): (end: nat)
    requires pos <= |s|
    ensures pos <= end <= |s|
    decreases |acts|
  {
    if acts == [] then pos else ServeEnd(s, ActEnd(s, pos, acts[0]), acts[1..])
  }

  lemma ServeOneMore(s: seq<Kv>, pos: nat, acts: seq<Act>, i: nat)
    requires pos <= |s| && i < |acts|
    ensures ServeEnd(s, pos, acts[i..]) == ServeEnd(s, ActEnd(s, pos, acts[i]), acts[i + 1..])
  {
    assert acts[i..][1..] == acts[i + 1..];
  }

  // ---------- grouping ----------

  /** What reduce was called with, in order: each key and the values it got. */
  type Groups = seq<(CString, seq<CString>)>

  /** Keys in strictly ascending order, a proper prefix before what it is a prefix of. */
  ghost predicate Ascending(groups: Groups) {
    forall i, j :: 0 <= i < j < |groups| ==> Precedes(groups[i].0, groups[j].0)
  }

  ghost predicate HasKey(emitted: seq<Kv>, key: CString) { exists i :: 0 <= i < |emitted| && emitted[i].key == key }

  ghost predicate Called(groups: Groups, key: CString) { exists i :: 0 <= i < |groups| && groups[i].0 == key }

  /** A simple group-by: one call per distinct key, in order, with exactly the values emitted for it. */
  ghost predicate GroupedBy(emitted: seq<Kv>, groups: Groups) {
    && Ascending(groups)
    && (forall key :: Called(groups, key) <==> HasKey(emitted, key))
    && (forall i, v :: 0 <= i < |groups| ==> multiset(groups[i].1)[v] == multiset(emitted)[Kv(groups[i].0, v)])
  }

  /** Whatever order qsort left, grouping depends only on which pairs were emitted. */
  lemma GroupedByPermutation(s: seq<Kv>, t: seq<Kv>, groups: Groups)
    requires multiset(s) == multiset(t) && GroupedBy(s, groups)
    ensures GroupedBy(t, groups)
  {
    forall key
      ensures HasKey(s, key) <==> HasKey(t, key)
    {
      HasKeyPermutation(s, t, key);
    }
  }

  lemma HasKeyPermutation(s: seq<Kv>, t: seq<Kv>, key: CString)
    requires multiset(s) == multiset(t)
    ensures HasKey(s, key) <==> HasKey(t, key)
  {
    if i :| 0 <= i < |s| && s[i].key == key {
      assert s[i] in multiset(t);
    }
    if i :| 0 <= i < |t| && t[i].key == key {
      assert t[i] in multiset(s);
    }
  }

  /** A run of pairs with one key contributes its values to that key and to no other. */
  lemma {:induction false} RunCounts(run: seq<Kv>, key: CString, values: seq<CString>, k: CString, v: CString)
    requires |run| == |values| && forall j :: 0 <= j < |run| ==> run[j] == Kv(key, values[j])
    ensures multiset(run)[Kv(k, v)] == if k == key then multiset(values)[v] else 0
  {
    if run != [] {
      var n := |run| - 1;
      RunCounts(run[..n], key, values[..n], k, v);
      assert run == run[..n] + [run[n]] && values == values[..n] + [values[n]];
    }
  }

  /** Appending the next group keeps the grouping of the part of the sorted list consumed so far. */
  lemma GroupStep(done: seq<Kv>, run: seq<Kv>, groups: Groups, key: CString, values: seq<CString>)
    requires GroupedBy(done, groups)
    requires |run| == |values| > 0 && forall j :: 0 <= j < |run| ==> run[j] == Kv(key, values[j])
    requires forall i :: 0 <= i < |done| ==> Precedes(done[i].key, key)
    ensures GroupedBy(done + run, groups + [(key, values)])
  {
    var all := groups + [(key, values)];
    PrecedesTotal(key, key);
    forall i | 0 <= i < |groups|
      ensures Precedes(groups[i].0, key)
    {
      assert Called(groups, groups[i].0);
    }
    forall k
      ensures Called(all, k) <==> HasKey(done + run, k)
    {
      KeysAppend(done, run, groups, key, values, k);
    }
    forall i, v | 0 <= i < |all|
      ensures multiset(all[i].1)[v] == multiset(done + run)[Kv(all[i].0, v)]
    {
      RunCounts(run, key, values, all[i].0, v);
      assert i == |groups| ==> Kv(key, v) !in done && Kv(key, v) !in multiset(done);
    }
  }

  lemma KeysAppend(done: seq<Kv>, run: seq<Kv>, groups: Groups, key: CString, values: seq<CString>, k: CString)
    requires |run| == |values| > 0 && forall j :: 0 <= j < |run| ==> run[j] == Kv(key, values[j])
    requires Called(groups, k) <==> HasKey(done, k)
    ensures Called(groups + [(key, values)], k) <==> HasKey(done + run, k)
  {
    var all := groups + [(key, values)];
    if HasKey(done, k) {
      var i :| 0 <= i < |done| && done[i].key == k;
      assert (done + run)[i].key == k;
      var g :| 0 <= g < |groups| && groups[g].0 == k;
      assert all[g].0 == k;
    } else if k == key {
      assert (done + run)[|done|].key == k && all[|groups|].0 == k;
    }
  }

  /** Everything before a drained group's successor has a smaller key. */
  lemma NextKeyLarger(s: seq<Kv>, pos: nat)
    requires Sorted(s) && pos < |s| && (pos > 0 ==> s[pos - 1].key != s[pos].key)
    ensures forall i :: 0 <= i < pos ==> Precedes(s[i].key, s[pos].key)
  {
    if pos > 0 {
      PrecedesTotal(s[pos - 1].key, s[pos].key);
      forall i | 0 <= i < pos
        ensures Precedes(s[i].key, s[pos].key)
      {
        if i < pos - 1 {
          PrecedesTransitive(s[i].key, s[pos - 1].key, s[pos].key);
        }
      }
    }
  }

  /** All pairs the mapper emits for the arguments from the second on. */
  ghost function Emitted(args: seq<CString>, mapper: CString -> seq<Kv>, n: nat): seq<Kv>
    requires n <= |args|
  {
    if n <= 1 then [] else Emitted(args, mapper, n - 1) + mapper(args[n - 1])
  }

  /** The first argument, the program's name, is not mapped; every other one is. */
  lemma {:induction false} EmittedFrom(args: seq<CString>, mapper: CString -> seq<Kv>, n: nat, x: Kv)
    requires n <= |args|
    ensures x in Emitted(args, mapper, n) <==> exists i :: 1 <= i < n && x in mapper(args[i])
  {
    if n > 1 {
      EmittedFrom(args, mapper, n - 1, x);
    }
  }

  /** The map stage. */
  method MapAll(list: KvList, args: seq<CString>, mapper: CString -> seq<Kv>)
    requires list.Valid() && list.Contents() == []
    modifies list`elements, list`size, list`doublings, list`copied, list`numElements, list.elements
    ensures list.Valid() && list.Contents() == Emitted(args, mapper, |args|)
    ensures list.elements == old(list.elements) || fresh(list.elements)
    ensures list.numElements > 0 ==> list.copied < 2 * list.numElements
  {
    if |args| <= 1 {
      return;
    }
    for i := 1 to |args|
      invariant list.Valid() && list.Contents() == Emitted(args, mapper, i)
      invariant list.elements == old(list.elements) || fresh(list.elements)
    {
      var pairs := mapper(args[i]);
      for j := 0 to |pairs|
        invariant list.Valid() && list.Contents() == Emitted(args, mapper, i) + pairs[..j]
        invariant list.elements == old(list.elements) || fresh(list.elements)
      {
        list.MREmit(pairs[j].key, pairs[j].value);
        assert pairs[..j + 1] == pairs[..j] + [pairs[j]];
      }
      assert pairs[..|pairs|] == pairs;
    }
  }

  /** The first pos pairs of the sorted list have been grouped, and no key is split at pos. */
  ghost predicate ReducedTo(s: seq<Kv>, pos: nat, groups: Groups) {
    && pos <= |s| && GroupedBy(s[..pos], groups)
    && (0 < pos < |s| ==> s[pos - 1].key != s[pos].key)
  }

  /** A call that takes just the group under the cursor adds just that group. */
  lemma ReduceStep(s: seq<Kv>, pos: nat, end: nat, groups: Groups)
    requires Sorted(s) && pos < |s| && ReducedTo(s, pos, groups) && end == RunEnd(s, pos, s[pos].key)
    ensures ReducedTo(s, end, groups + [(s[pos].key, ValuesOf(s[pos..end]))])
  {
    var run := s[pos..end];
    NextKeyLarger(s, pos);
    assert forall j :: 0 <= j < |run| ==> run[j] == Kv(s[pos].key, ValuesOf(run)[j]);
    GroupStep(s[..pos], run, groups, s[pos].key, ValuesOf(run));
    assert s[..end] == s[..pos] + run;
    assert s[end - 1].key == s[pos].key;
  }

  lemma NothingReduced(s: seq<Kv>)
    ensures ReducedTo(s, 0, [])
  {
  }

  // ---------- the reduce loop ----------

  /** The cursor and the calls of reduce made so far. */
  datatype Stage = Stage(pos: nat, groups: Groups)

  /** One round of the loop: reduce is called with the key under the cursor. */
  function OneRound(s: seq<Kv>, reducer: Reducer, st: Stage): (st': Stage)
    requires st.pos <= |s|
    ensures st.pos <= st'.pos <= |s|
  {
    if st.pos == |s| then st
    else
      var key := s[st.pos].key;
      var end := ServeEnd(s, st.pos, reducer(key));
      Stage(end, st.groups + [(key, ValuesOf(s[st.pos..end]))])
  }

  /** After n rounds, or fewer if the loop ends before. */
  ghost function Rounds(s: seq<Kv>, reducer: Reducer, n: nat): (st: Stage)
    ensures st.pos <= |s| && |st.groups| <= n && (st.pos < |s| ==> |st.groups| == n)
  {
    if n == 0 then Stage(0, []) else OneRound(s, reducer, Rounds(s, reducer, n - 1))
  }

  lemma {:induction false} RoundsGoOn(s: seq<Kv>, reducer: Reducer, n: nat, k: nat)
    requires n <= k
    ensures Rounds(s, reducer, n).pos <= Rounds(s, reducer, k).pos
  {
    if n < k {
      RoundsGoOn(s, reducer, n, k - 1);
    }
  }

  /** A round in which the reducer takes nothing is repeated forever. */
  lemma {:induction false} StuckForever(s: seq<Kv>, reducer: Reducer, k: nat, n: nat)
    requires Rounds(s, reducer, k + 1).pos == Rounds(s, reducer, k).pos && k <= n
    ensures Rounds(s, reducer, n).pos == Rounds(s, reducer, k).pos
  {
    if k < n {
      StuckForever(s, reducer, k, n - 1);
    }
  }

  lemma NeverEnds(s: seq<Kv>, reducer: Reducer, k: nat)
    requires Rounds(s, reducer, k + 1).pos == Rounds(s, reducer, k).pos < |s|
    ensures forall n :: Rounds(s, reducer, n).pos < |s|
  {
    forall n: nat
      ensures Rounds(s, reducer, n).pos < |s|
    {
      if n <= k {
        RoundsGoOn(s, reducer, n, k);
      } else {
        StuckForever(s, reducer, k, n);
      }
    }
  }

  /** One round of the reduce loop. */
  method ReduceNext(list: KvList, reducer: Reducer, ghost s: seq<Kv>, groups: Groups) returns (groups': Groups)
    requires list.Valid() && list.Contents() == s && list.kvlCounter < |s|
    modifies list`kvlCounter
    ensures list.Valid() && list.Contents() == s && list.kvlCounter <= |s|
    ensures Stage(list.kvlCounter, groups') == OneRound(s, reducer, Stage(old(list.kvlCounter), groups))
  {
    var key := list.elements[list.kvlCounter].key;
    assert s[list.kvlCounter].key == key;
    var values := list.Reduce(reducer(key));
    groups' := groups + [(key, values)];
  }

  /**
   The reduce stage. A round that takes nothing leaves the loop as it was, so it never ends; ended tells
   whether it does.
   */
  method ReduceAll(list: KvList, reducer: Reducer, ghost s: seq<Kv>) returns (groups: Groups, ended: bool)
    requires list.Valid() && list.Contents() == s
    modifies list`kvlCounter
    ensures list.Valid()
    ensures ended ==> exists n :: Rounds(s, reducer, n) == Stage(|s|, groups)
    ensures !ended ==> forall n :: Rounds(s, reducer, n).pos < |s|
  {
    groups := [];
    list.kvlCounter := 0;
    ghost var n := 0;
    while list.kvlCounter < list.numElements
      invariant list.Valid() && list.Contents() == s && list.kvlCounter <= |s|
      invariant Rounds(s, reducer, n) == Stage(list.kvlCounter, groups)
      decreases |s| - list.kvlCounter
    {
      var start := list.kvlCounter;
      groups := ReduceNext(list, reducer, s, groups);
      assert Rounds(s, reducer, n + 1) == Stage(list.kvlCounter, groups);
      if list.kvlCounter == start {
        NeverEnds(s, reducer, n);
        return groups, false;
      }
      n := n + 1;
    }
    return groups, true;
  }

  // ---------- when reduce is called once per key ----------

  function CountKey(s: seq<Kv>, key: CString): nat {
    if s == [] then 0 else CountKey(s[..|s| - 1], key) + (if s[|s| - 1].key == key then 1 else 0)
  }

  /** The next key in order, among those emitted. */
  ghost predicate Follows(emitted: seq<Kv>, key: CString, next: CString) {
    && HasKey(emitted, next) && Precedes(key, next)
    && forall k :: HasKey(emitted, k) && Precedes(key, k) ==> !Precedes(k, next)
  }

  /** What a reducer still does once it has taken count values of its key; None if it takes fewer. */
  function Rest(acts: seq<Act>, key: CString, count: nat): Option<seq<Act>>
    decreases |acts|
  {
    if count == 0 then Some(acts)
    else if acts == [] then None
    else
      match acts[0]
      case Once(k) => Rest(acts[1..], key, if k == key then count - 1 else count)
      case UntilNull(k) => if k == key then Some(acts[1..]) else Rest(acts[1..], key, count)
  }

  predicate Asks(acts: seq<Act>, key: CString) { exists i :: 0 <= i < |acts| && acts[i].key == key }

  /** The reducer asks often enough for its own key, and not for the next one after that. */
  ghost predicate DrainsOnly(emitted: seq<Kv>, acts: seq<Act>, key: CString) {
    var rest := Rest(acts, key, CountKey(emitted, key));
    rest.Some? && forall next :: Follows(emitted, key, next) ==> !Asks(rest.value, next)
  }

  /** The condition on the reducer, for the keys that it will be called with. */
  ghost predicate DrainsEach(emitted: seq<Kv>, reducer: Reducer) {
    forall key :: HasKey(emitted, key) ==> DrainsOnly(emitted, reducer(key), key)
  }

  // ---------- one call ----------

  /** From the end of a group the cursor moves on exactly if the next key is asked for. */
  lemma {:induction false} ServeFromEnd(s: seq<Kv>, end: nat, acts: seq<Act>)
    requires end <= |s|
    ensures ServeEnd(s, end, acts) == end <==> end == |s| || !Asks(acts, s[end].key)
    decreases |acts|
  {
    if acts != [] {
      ServeFromEnd(s, end, acts[1..]);
      if end < |s| {
        AsksFirst(acts, s[end].key);
        if acts[0].key == s[end].key {
          assert ActEnd(s, end, acts[0]) > end;
        }
      }
    }
  }

  lemma AsksFirst(acts: seq<Act>, key: CString)
    requires acts != []
    ensures Asks(acts, key) <==> acts[0].key == key || Asks(acts[1..], key)
  {
    if Asks(acts[1..], key) {
      var i :| 0 <= i < |acts| - 1 && acts[1..][i].key == key;
      assert acts[i + 1].key == key;
    }
    if Asks(acts, key) && acts[0].key != key {
      var i :| 0 <= i < |acts| && acts[i].key == key;
      assert acts[1..][i - 1].key == key;
    }
  }

  /** Within a group the reducer's calls get as far as Rest says. */
  lemma {:induction false} RestServes(s: seq<Kv>, pos: nat, key: CString, acts: seq<Act>)
    requires pos <= |s|
    ensures var end := RunEnd(s, pos, key);
            match Rest(acts, key, end - pos)
            case None => ServeEnd(s, pos, acts) < end
            case Some(rest) => ServeEnd(s, pos, acts) == ServeEnd(s, end, rest)
    decreases |acts|
  {
    var end := RunEnd(s, pos, key);
    if pos < end && acts != [] {
      RestServes(s, ActEnd(s, pos, acts[0]), key, acts[1..]);
    }
  }

  /** No key is split at pos. */
  ghost predicate Boundary(s: seq<Kv>, pos: nat) { pos <= |s| && (0 < pos < |s| ==> s[pos - 1].key != s[pos].key) }

  lemma {:induction false} CountAppend(s: seq<Kv>, t: seq<Kv>, key: CString)
    ensures CountKey(s + t, key) == CountKey(s, key) + CountKey(t, key)
  {
    if t == [] {
      assert s + t == s;
    } else {
      CountAppend(s, t[..|t| - 1], key);
      assert (s + t)[..|s + t| - 1] == s + t[..|t| - 1];
    }
  }

  lemma {:induction false} CountAll(s: seq<Kv>, key: CString)
    requires forall i :: 0 <= i < |s| ==> s[i].key == key
    ensures CountKey(s, key) == |s|
  {
    if s != [] {
      CountAll(s[..|s| - 1], key);
    }
  }

  lemma {:induction false} CountNone(s: seq<Kv>, key: CString)
    requires forall i :: 0 <= i < |s| ==> s[i].key != key
    ensures CountKey(s, key) == 0
  {
    if s != [] {
      CountNone(s[..|s| - 1], key);
    }
  }

  lemma CountBetween(s: seq<Kv>, pos: nat, end: nat, key: CString)
    requires pos <= end <= |s| && forall i :: 0 <= i < |s| ==> (s[i].key == key <==> pos <= i < end)
    ensures CountKey(s, key) == end - pos
  {
    var a, b, c := s[..pos], s[pos..end], s[end..];
    assert s == a + b + c;
    CountAppend(a + b, c, key);
    CountAppend(a, b, key);
    CountNone(a, key);
    CountAll(b, key);
    CountNone(c, key);
  }

  /** A group of a sorted list is all there is of its key. */
  lemma GroupCount(s: seq<Kv>, pos: nat)
    requires Sorted(s) && pos < |s| && Boundary(s, pos)
    ensures RunEnd(s, pos, s[pos].key) == pos + CountKey(s, s[pos].key) > pos
    ensures Boundary(s, pos + CountKey(s, s[pos].key))
  {
    var key := s[pos].key;
    var end := RunEnd(s, pos, key);
    NextKeyLarger(s, pos);
    PrecedesTotal(key, key);
    forall i | 0 <= i < |s|
      ensures s[i].key == key <==> pos <= i < end
    {
      if i >= end {
        KeyNeverReturns(s, pos, end, i);
      }
    }
    CountBetween(s, pos, end, key);
  }

  /** In a sorted list, a key that differs from an earlier one never comes back. */
  lemma KeyNeverReturns(s: seq<Kv>, a: nat, b: nat, c: nat)
    requires Sorted(s) && a < b <= c < |s| && s[a].key != s[b].key
    ensures s[a].key != s[c].key && Precedes(s[a].key, s[c].key)
  {
    PrecedesTotal(s[a].key, s[b].key);
    PrecedesTotal(s[a].key, s[c].key);
    if b < c {
      PrecedesTransitive(s[a].key, s[b].key, s[c].key);
    }
  }

  /** The keys larger than a group's are those after it. */
  lemma LargerIsLater(s: seq<Kv>, pos: nat, i: nat)
    requires Sorted(s) && pos < |s| && Boundary(s, pos) && i < |s|
    ensures Precedes(s[pos].key, s[i].key) <==> i >= RunEnd(s, pos, s[pos].key)
  {
    var end := RunEnd(s, pos, s[pos].key);
    NextKeyLarger(s, pos);
    PrecedesTotal(s[pos].key, s[i].key);
    if i >= end {
      KeyNeverReturns(s, pos, end, i);
    }
  }

  lemma NextFollows(s: seq<Kv>, pos: nat)
    requires Sorted(s) && pos < |s| && Boundary(s, pos) && RunEnd(s, pos, s[pos].key) < |s|
    ensures Follows(s, s[pos].key, s[RunEnd(s, pos, s[pos].key)].key)
  {
    var end := RunEnd(s, pos, s[pos].key);
    LargerIsLater(s, pos, end);
    forall k | HasKey(s, k) && Precedes(s[pos].key, k)
      ensures !Precedes(k, s[end].key)
    {
      var i :| 0 <= i < |s| && s[i].key == k;
      LargerIsLater(s, pos, i);
      PrecedesTotal(k, k);
    }
  }

  /** The key after a group is the one that follows it, and the only one. */
  lemma FollowsGroup(s: seq<Kv>, pos: nat, next: CString)
    requires Sorted(s) && pos < |s| && Boundary(s, pos)
    ensures var end := RunEnd(s, pos, s[pos].key);
            Follows(s, s[pos].key, next) <==> end < |s| && next == s[end].key
  {
    var end := RunEnd(s, pos, s[pos].key);
    if end < |s| {
      NextFollows(s, pos);
    }
    if Follows(s, s[pos].key, next) {
      var i :| 0 <= i < |s| && s[i].key == next;
      LargerIsLater(s, pos, i);
      PrecedesTotal(next, s[end].key);
    }
  }

  /** A call on a group takes exactly that group if and only if the reducer meets the condition for its key. */
  lemma CallTakesGroup(s: seq<Kv>, pos: nat, acts: seq<Act>)
    requires Sorted(s) && pos < |s| && Boundary(s, pos)
    ensures ServeEnd(s, pos, acts) == pos + CountKey(s, s[pos].key) <==> DrainsOnly(s, acts, s[pos].key)
  {
    var key := s[pos].key;
    var end := RunEnd(s, pos, key);
    GroupCount(s, pos);
    RestServes(s, pos, key, acts);
    if Rest(acts, key, end - pos).Some? {
      var rest := Rest(acts, key, end - pos).value;
      ServeFromEnd(s, end, rest);
      forall next
        ensures Follows(s, key, next) <==> end < |s| && next == s[end].key
      {
        FollowsGroup(s, pos, next);
      }
    }
  }

  // ---------- all calls ----------

  /** A call that meets the condition moves on by one group. */
  lemma DrainingRound(s: seq<Kv>, reducer: Reducer, st: Stage)
    requires Sorted(s) && st.pos < |s| && ReducedTo(s, st.pos, st.groups)
    requires DrainsOnly(s, reducer(s[st.pos].key), s[st.pos].key)
    ensures var st' := OneRound(s, reducer, st);
            st'.pos > st.pos && ReducedTo(s, st'.pos, st'.groups)
  {
    CallTakesGroup(s, st.pos, reducer(s[st.pos].key));
    GroupCount(s, st.pos);
    ReduceStep(s, st.pos, OneRound(s, reducer, st).pos, st.groups);
  }

  /** If the reducer meets the condition for every key, so does every round. */
  lemma {:induction false} DrainingRounds(s: seq<Kv>, reducer: Reducer, n: nat)
    requires Sorted(s) && DrainsEach(s, reducer)
    ensures var st := Rounds(s, reducer, n);
            ReducedTo(s, st.pos, st.groups) && (st.pos == |s| || st.pos >= n)
  {
    if n == 0 {
      NothingReduced(s);
    } else {
      var st := Rounds(s, reducer, n - 1);
      DrainingRounds(s, reducer, n - 1);
      if st.pos < |s| {
        assert HasKey(s, s[st.pos].key);
        DrainingRound(s, reducer, st);
      }
    }
  }

  /** The call that a round of the loop makes. */
  ghost predicate MadeIn(s: seq<Kv>, reducer: Reducer, g: nat, call: (CString, seq<CString>)) {
    var pos, end := Rounds(s, reducer, g).pos, Rounds(s, reducer, g + 1).pos;
    pos < |s| && pos <= end && call == (s[pos].key, ValuesOf(s[pos..end]))
  }

  lemma LastCall(s: seq<Kv>, reducer: Reducer, g: nat)
    requires Rounds(s, reducer, g).pos < |s|
    ensures var groups := Rounds(s, reducer, g + 1).groups;
            |groups| == g + 1 && MadeIn(s, reducer, g, groups[g])
  {
  }

  lemma {:induction false} GroupsGrow(s: seq<Kv>, reducer: Reducer, a: nat, b: nat)
    requires a <= b
    ensures Rounds(s, reducer, a).groups <= Rounds(s, reducer, b).groups
  {
    if a < b {
      GroupsGrow(s, reducer, a, b - 1);
    }
  }

  /** Rounds after the end change nothing. */
  lemma {:induction false} EndedStays(s: seq<Kv>, reducer: Reducer, k: nat, n: nat)
    requires Rounds(s, reducer, k).pos == |s| && k <= n
    ensures Rounds(s, reducer, n) == Rounds(s, reducer, k)
  {
    if k < n {
      EndedStays(s, reducer, k, n - 1);
    }
  }

  /** Call g was made in round g, with the key then under the cursor, and got what the cursor moved over. */
  lemma CallOfRound(s: seq<Kv>, reducer: Reducer, n: nat, g: nat)
    requires g < |Rounds(s, reducer, n).groups|
    ensures MadeIn(s, reducer, g, Rounds(s, reducer, n).groups[g])
  {
    if Rounds(s, reducer, g).pos == |s| {
      EndedStays(s, reducer, g, n);
    }
    LastCall(s, reducer, g);
    GroupsGrow(s, reducer, g + 1, n);
  }

  /** A group of a group-by has as many values as its key has pairs. */
  lemma {:induction false} GroupSize(s: seq<Kv>, key: CString, values: seq<CString>)
    requires forall v :: multiset(values)[v] == multiset(s)[Kv(key, v)]
    ensures |values| == CountKey(s, key)
  {
    if s == [] {
      assert multiset(values) == multiset{} && |multiset(values)| == |values|;
    } else {
      var t, x := s[..|s| - 1], s[|s| - 1];
      assert s == t + [x];
      if x.key == key {
        assert x.value in multiset(values);
        var i :| 0 <= i < |values| && values[i] == x.value;
        var fewer := values[..i] + values[i + 1..];
        assert values == values[..i] + [values[i]] + values[i + 1..];
        assert multiset(values) == multiset(fewer) + multiset{x.value};
        GroupSize(t, key, fewer);
      } else {
        GroupSize(t, key, values);
      }
    }
  }

  /** Call g took as many values as its key has. */
  ghost predicate TakesItsKey(s: seq<Kv>, reducer: Reducer, g: nat) {
    var pos := Rounds(s, reducer, g).pos;
    pos < |s| && Rounds(s, reducer, g + 1).pos == pos + CountKey(s, s[pos].key)
  }

  lemma GroupedCall(s: seq<Kv>, reducer: Reducer, n: nat, g: nat)
    requires GroupedBy(s, Rounds(s, reducer, n).groups) && g < |Rounds(s, reducer, n).groups|
    ensures TakesItsKey(s, reducer, g)
  {
    var groups := Rounds(s, reducer, n).groups;
    CallOfRound(s, reducer, n, g);
    GroupSize(s, groups[g].0, groups[g].1);
  }

  /** Steps of a whole group each lead from the start of one group to the start of another. */
  lemma {:induction false} GroupStarts(s: seq<Kv>, starts: nat -> nat, g: nat)
    requires Sorted(s) && starts(0) == 0
    requires forall h: nat :: h < g ==> starts(h) < |s| && starts(h + 1) == starts(h) + CountKey(s, s[starts(h)].key)
    ensures Boundary(s, starts(g))
  {
    if g > 0 {
      GroupStarts(s, starts, g - 1);
      GroupCount(s, starts(g - 1));
    }
  }

  /** So the cursor is at the start of a group in each round, and the reducer meets the condition for its key. */
  lemma CallDrains(s: seq<Kv>, reducer: Reducer, g: nat)
    requires Sorted(s) && forall h: nat :: h <= g ==> TakesItsKey(s, reducer, h)
    ensures Rounds(s, reducer, g).pos < |s|
    ensures var key := s[Rounds(s, reducer, g).pos].key;
            DrainsOnly(s, reducer(key), key)
  {
    var starts := (h: nat) => Rounds(s, reducer, h).pos;
    assert forall h: nat :: h <= g ==>
             TakesItsKey(s, reducer, h) ==>
               starts(h) < |s| && starts(h + 1) == starts(h) + CountKey(s, s[starts(h)].key);
    GroupStarts(s, starts, g);
    assert TakesItsKey(s, reducer, g);
    CallTakesGroup(s, starts(g), reducer(s[starts(g)].key));
  }

  lemma GroupedMeansDrained(s: seq<Kv>, reducer: Reducer, n: nat)
    requires Sorted(s) && GroupedBy(s, Rounds(s, reducer, n).groups)
    ensures DrainsEach(s, reducer)
  {
    forall key | HasKey(s, key)
      ensures DrainsOnly(s, reducer(key), key)
    {
      KeyDrained(s, reducer, n, key);
    }
  }

  lemma KeyDrained(s: seq<Kv>, reducer: Reducer, n: nat, key: CString)
    requires Sorted(s) && GroupedBy(s, Rounds(s, reducer, n).groups) && HasKey(s, key)
    ensures DrainsOnly(s, reducer(key), key)
  {
    var groups := Rounds(s, reducer, n).groups;
    assert Called(groups, key);
    var g: nat :| g < |groups| && groups[g].0 == key;
    forall h: nat | h <= g
      ensures TakesItsKey(s, reducer, h)
    {
      GroupedCall(s, reducer, n, h);
    }
    CallDrains(s, reducer, g);
    CallOfRound(s, reducer, n, g);
  }

  /**
   For any reducer: the reduce loop ends with reduce called once per key, in order, with exactly the values of
   that key, if and only if for every key it asks its getter often enough for that key, and not for the next
   one after that.
   */
  lemma OncePerKeyExactly(s: seq<Kv>, reducer: Reducer)
    requires Sorted(s)
    ensures (exists n :: Rounds(s, reducer, n).pos == |s| && GroupedBy(s, Rounds(s, reducer, n).groups))
            <==> DrainsEach(s, reducer)
  {
    if DrainsEach(s, reducer) {
      DrainingRounds(s, reducer, |s|);
      assert s[..|s|] == s;
    }
    if n: nat :| Rounds(s, reducer, n).pos == |s| && GroupedBy(s, Rounds(s, reducer, n).groups) {
      GroupedMeansDrained(s, reducer, n);
    }
  }

  /** A reducer that calls its getter with its own key until NULL meets the condition, whatever was emitted. */
  lemma DrainersDrain(emitted: seq<Kv>, reducer: Reducer)
    requires forall key :: reducer(key) == [UntilNull(key)]
    ensures DrainsEach(emitted, reducer)
  {
    forall key | HasKey(emitted, key)
      ensures DrainsOnly(emitted, reducer(key), key)
    {
      forall next | Follows(emitted, key, next)
        ensures next != key
      {
        PrecedesTotal(key, next);
      }
    }
  }

  /** Two keys, and a reducer that asks for both: the loop ends after one call, and the second key is never reduced. */
  lemma OverrunningReducer()
    ensures var s := [Kv([97], [49]), Kv([98], [50])];
            var reducer: Reducer := (key: CString) => [Once([97]), Once([98])];
            && Sorted(s) && HasKey(s, [98])
            && Rounds(s, reducer, 1).pos == |s| && !Called(Rounds(s, reducer, 1).groups, [98])
  {
    var s := [Kv([97], [49]), Kv([98], [50])];
    var reducer: Reducer := (key: CString) => [Once([97]), Once([98])];
    assert s[1].key == [98];
    assert reducer([97])[1..] == [Once([98])] && [Once([98])][1..] == [];
    assert ServeEnd(s, 0, reducer([97])) == ServeEnd(s, 1, [Once([98])]) == 2;
    assert Rounds(s, reducer, 0) == Stage(0, []);
  }

  // ---------- the whole program ----------

  /** The condition depends only on which pairs were emitted, not on the order qsort left. */
  lemma DrainsEachPermutation(s: seq<Kv>, t: seq<Kv>, reducer: Reducer)
    requires multiset(s) == multiset(t) && DrainsEach(s, reducer)
    ensures DrainsEach(t, reducer)
  {
    forall key
      ensures HasKey(s, key) <==> HasKey(t, key)
      ensures CountKey(s, key) == CountKey(t, key)
    {
      HasKeyPermutation(s, t, key);
      CountPermutation(s, t, key);
    }
    forall key | HasKey(t, key)
      ensures DrainsOnly(t, reducer(key), key)
    {
      assert DrainsOnly(s, reducer(key), key);
      forall next | Follows(t, key, next)
        ensures Follows(s, key, next)
      {
      }
    }
  }

  lemma WithoutOne(s: seq<Kv>, before: seq<Kv>, after: seq<Kv>, x: Kv)
    requires multiset(s + [x]) == multiset(before + [x] + after)
    ensures multiset(s) == multiset(before + after)
  {
    assert multiset(s) == multiset(s + [x]) - multiset{x};
    assert multiset(before + after) == multiset(before + [x] + after) - multiset{x};
  }

  lemma {:induction false} CountPermutation(s: seq<Kv>, t: seq<Kv>, key: CString)
    requires multiset(s) == multiset(t)
    ensures CountKey(s, key) == CountKey(t, key)
  {
    if s == [] {
      assert |multiset(t)| == |t|;
    } else {
      var x := s[|s| - 1];
      assert s == s[..|s| - 1] + [x] && x in multiset(t);
      var i :| 0 <= i < |t| && t[i] == x;
      assert t == t[..i] + [x] + t[i + 1..];
      WithoutOne(s[..|s| - 1], t[..i], t[i + 1..], x);
      CountPermutation(s[..|s| - 1], t[..i] + t[i + 1..], key);
      CountAppend(t[..i] + [x], t[i + 1..], key);
      CountAppend(t[..i], [x], key);
      CountAppend(t[..i], t[i + 1..], key);
      assert CountKey([x], key) == if x.key == key then 1 else 0;
    }
  }

  /**
   MR_Run, with any mapper and any reducer. It ends with reduce called once for each distinct key, in ascending
   strcmp order, with exactly the multiset of values emitted for it, if and only if the reducer meets the
   condition; one that drains its getter does. s is the sorted list, of which nothing more is known.
   */
  method MRRun(args: seq<CString>, mapper: CString -> seq<Kv>, reducer: Reducer)
    returns (groups: Groups, ended: bool, ghost s: seq<Kv>)
    ensures ended && GroupedBy(Emitted(args, mapper, |args|), groups)
            <==> DrainsEach(Emitted(args, mapper, |args|), reducer)
    ensures (forall key :: reducer(key) == [UntilNull(key)]) ==>
              ended && GroupedBy(Emitted(args, mapper, |args|), groups)
    ensures Sorted(s) && multiset(s) == multiset(Emitted(args, mapper, |args|))
    ensures ended ==> exists n :: Rounds(s, reducer, n) == Stage(|s|, groups)
    ensures !ended ==> forall n :: Rounds(s, reducer, n).pos < |s|
  {
    var list := new KvList(10);
    MapAll(list, args, mapper);
    list.QSort();
    s := list.Contents();
    groups, ended := ReduceAll(list, reducer, s);
    RunExactly(Emitted(args, mapper, |args|), s, reducer, groups, ended);
    if forall key :: reducer(key) == [UntilNull(key)] {
      DrainersDrain(Emitted(args, mapper, |args|), reducer);
    }
  }

  lemma RunExactly(emitted: seq<Kv>, s: seq<Kv>, reducer: Reducer, groups: Groups, ended: bool)
    requires Sorted(s) && multiset(s) == multiset(emitted)
    requires ended ==> exists n :: Rounds(s, reducer, n) == Stage(|s|, groups)
    requires !ended ==> forall n :: Rounds(s, reducer, n).pos < |s|
    ensures ended && GroupedBy(emitted, groups) <==> DrainsEach(emitted, reducer)
  {
    OncePerKeyExactly(s, reducer);
    if ended && GroupedBy(emitted, groups) {
      GroupedByPermutation(emitted, s, groups);
      DrainsEachPermutation(s, emitted, reducer);
    }
    if DrainsEach(emitted, reducer) {
      DrainsEachPermutation(emitted, s, reducer);
      var n: nat :| Rounds(s, reducer, n).pos == |s| && GroupedBy(s, Rounds(s, reducer, n).groups);
      if ended {
        var k: nat :| Rounds(s, reducer, k) == Stage(|s|, groups);
        EndedStays(s, reducer, k, if k <= n then n else k);
        EndedStays(s, reducer, n, if k <= n then n else k);
      }
      GroupedByPermutation(s, emitted, Rounds(s, reducer, n).groups);
    }
  }
}
