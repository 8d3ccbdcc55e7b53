/**
 * The slot replay buffer of the core library: every added row becomes one
 * entry (one compressed row per key) stored in slot numAdd % capacity.
 *
 * An input map is modelled as the list of its (key, rows) pairs in the
 * map's iteration order; a compressed row is an opaque value of type T.
 */
module CoreReplayBuffer {
  import opened Wrappers
  import Modular
  import Decimal

  /**
   * The runtime errors add throws: the key-count check, input.at(key) on a
   * key the batch lacks, and indexing row i of a column that is too short.
   */
  datatype AddError = KeysMismatch | MissingKey(key: string) | RowMissing(key: string)

  /** The std::out_of_range sampleImpl lets escape on an empty buffer. */
  datatype SampleError = OutOfRange

  type Batch<T(==)> = seq<(string, seq<T>)>

  function Names<T(==)>(input: Batch<T>): (r: seq<string>)
    ensures |r| == |input|
  {
    seq(|input|, i requires 0 <= i < |input| => input[i].0)
  }

  predicate DistinctNames<T(==)>(input: Batch<T>)
  {
    forall i, j :: 0 <= i < j < |input| ==> input[i].0 != input[j].0
  }

  /**
   * The number of rows of the batch: that of the first tensor in the map's
   * iteration order. The other columns may be longer or shorter.
   */
  function RowCount<T(==)>(input: Batch<T>): nat
  {
    if |input| == 0 then 0 else |input[0].1|
  }

  /** Every column has as many rows as the first one. */
  predicate Uniform<T(==)>(input: Batch<T>)
  {
    forall j :: 0 <= j < |input| ==> |input[j].1| == RowCount(input)
  }

  /** input.at(key): the rows stored under a key, if any. */
  function Lookup<T(==)>(input: Batch<T>, key: string): (r: Option<seq<T>>)
    ensures r.Some? <==> key in Names(input)
    ensures r.Some? ==> exists j :: 0 <= j < |input| && input[j].0 == key && input[j].1 == r.value
  {
    if |input| == 0 then None
    else if input[0].0 == key then
      assert Names(input)[0] == key;
      Some(input[0].1)
    else
      var r := Lookup(input[1..], key);
      assert Names(input) == [input[0].0] + Names(input[1..]);
      if r.Some? then
        var j :| 0 <= j < |input[1..]| && input[1..][j].0 == key && input[1..][j].1 == r.value;
        assert input[j + 1].0 == key && input[j + 1].1 == r.value;
        r
      else r
  }

  /** Row i of the column stored under a key exists. */
  predicate HasRow<T(==)>(input: Batch<T>, key: string, i: nat)
  {
    Lookup(input, key).Some? && i < |Lookup(input, key).value|
  }

  /**
   * The entry row i of a batch makes: that row of every stored key, in the
   * stored key order, or the error of the first stored key the batch lacks
   * or whose column has no row i.
   */
  function EntryAt<T(==)>(input: Batch<T>, keys: seq<string>, i: nat): (r: Result<seq<T>, AddError>)
    ensures r.Ok? ==> |r.value| == |keys|
  {
    if |keys| == 0 then Ok([])
    else
      match Lookup(input, keys[0])
      case None => Err(MissingKey(keys[0]))
      case Some(rows) =>
        if i >= |rows| then Err(RowMissing(keys[0]))
        else
          var rest := EntryAt(input, keys[1..], i);
          if rest.Err? then rest else Ok([rows[i]] + rest.value)
  }

  /**
   * The entry of row i is built iff every stored key has a row i, and then
   * holds those rows in key order; otherwise the error names a stored key
   * that is missing (MissingKey) or whose column is too short (RowMissing).
   */
  lemma {:induction false} EntryAtSpec<T>(input: Batch<T>, keys: seq<string>, i: nat)
    ensures var r := EntryAt(input, keys, i);
      && (r.Ok? <==> forall k :: k in keys ==> HasRow(input, k, i))
      && (r.Ok? ==> forall t :: 0 <= t < |keys| ==>
            HasRow(input, keys[t], i) && r.value[t] == Lookup(input, keys[t]).value[i])
      && (r.Err? ==> !r.error.KeysMismatch? && r.error.key in keys && !HasRow(input, r.error.key, i))
      && (r.Err? ==> (r.error.MissingKey? <==> r.error.key !in Names(input)))
  {
    if |keys| > 0 {
      assert keys[0] in keys;
      if HasRow(input, keys[0], i) {
        EntryAtSpec(input, keys[1..], i);
        assert forall k :: k in keys <==> k == keys[0] || k in keys[1..];
        assert forall t :: 1 <= t < |keys| ==> keys[t] == keys[1..][t - 1];
      }
    }
  }

  /** One pass of the row loop: the key-count check, then the entry. */
  function RowResult<T(==)>(input: Batch<T>, keys: seq<string>, i: nat): Result<seq<T>, AddError>
  {
    if |input| != |keys| then Err(KeysMismatch) else EntryAt(input, keys, i)
  }

  /**
   * The number of rows the loop writes, from row i on: it stops at the first
   * row that throws, or after the last row of the first column.
   */
  function WrittenFrom<T(==)>(input: Batch<T>, keys: seq<string>, i: nat): (r: nat)
    requires i <= RowCount(input)
    ensures i <= r <= RowCount(input)
    ensures forall t :: i <= t < r ==> RowResult(input, keys, t).Ok?
    ensures r < RowCount(input) ==> RowResult(input, keys, r).Err?
    decreases RowCount(input) - i
  {
    if i == RowCount(input) || RowResult(input, keys, i).Err? then i
    else WrittenFrom(input, keys, i + 1)
  }

  /** The number of rows one add writes into the ring. */
  function Written<T(==)>(input: Batch<T>, keys: seq<string>): nat
  {
    WrittenFrom(input, keys, 0)
  }

  /** The first failing row fixes how many rows were written. */
  lemma {:induction false} WrittenStopsAt<T>(input: Batch<T>, keys: seq<string>, j: nat, i: nat)
    requires j <= i <= RowCount(input)
    requires forall t :: j <= t < i ==> RowResult(input, keys, t).Ok?
    requires i == RowCount(input) || RowResult(input, keys, i).Err?
    ensures WrittenFrom(input, keys, j) == i
    decreases i - j
  {
    if j < i {
      WrittenStopsAt(input, keys, j + 1, i);
    }
  }

  /** Whether a batch passes the key checks of add. */
  predicate Matches<T(==)>(input: Batch<T>, keys: seq<string>)
  {
    |input| == |keys| && forall k :: k in keys ==> k in Names(input)
  }

  /**
   * With distinct names on both sides, the checks of add pass exactly when
   * the batch carries the stored key set.
   */
  lemma MatchesIffSameKeys<T>(input: Batch<T>, keys: seq<string>)
    requires DistinctNames(input)
    requires forall i, j :: 0 <= i < j < |keys| ==> keys[i] != keys[j]
    ensures Matches(input, keys) <==> (set k | k in keys) == (set k | k in Names(input))
  {
    var ks := set k | k in keys;
    var ns := set k | k in Names(input);
    SeqSetCard(keys);
    SeqSetCard(Names(input));
    if ks == ns {
      forall k | k in keys ensures k in Names(input) {
        assert k in ks;
      }
    }
    if Matches(input, keys) {
      assert ks <= ns;
      assert |ns| == |ks| + |ns - ks|;
    }
  }

  /**
   * When every column has as many rows as the first, add writes either all
   * rows or none: none exactly when there are rows and the batch does not
   * carry the stored keys.
   */
  lemma UniformAllOrNothing<T>(input: Batch<T>, keys: seq<string>)
    requires Uniform(input)
    ensures Written(input, keys) == 0 || Written(input, keys) == RowCount(input)
    ensures Written(input, keys) < RowCount(input) <==> RowCount(input) > 0 && !Matches(input, keys)
  {
    forall i: nat | i < RowCount(input)
      ensures RowResult(input, keys, i).Ok? <==> Matches(input, keys)
    {
      EntryAtSpec(input, keys, i);
      forall k | k in keys && k in Names(input) ensures HasRow(input, k, i) {
        var r := Lookup(input, k);
        var j :| 0 <= j < |input| && input[j].0 == k && input[j].1 == r.value;
      }
    }
    if Matches(input, keys) {
      WrittenStopsAt(input, keys, 0, RowCount(input));
    } else {
      WrittenStopsAt(input, keys, 0, 0);
    }
  }

  /**
   * A stored key whose column is shorter than the first column stops the
   * loop at its length at the latest: that row throws.
   */
  lemma ShortColumnStops<T>(input: Batch<T>, keys: seq<string>, k: string)
    requires k in keys && k in Names(input)
    requires |Lookup(input, k).value| < RowCount(input)
    ensures Written(input, keys) <= |Lookup(input, k).value|
    ensures Written(input, keys) < RowCount(input)
  {
    var m := |Lookup(input, k).value|;
    EntryAtSpec(input, keys, m);
    assert !HasRow(input, k, m);
    assert RowResult(input, keys, m).Err?;
  }

  /**
   * A batch that carries the stored keys, each with at least as many rows
   * as the first column, is written in full: n rows, the extra rows of the
   * longer columns ignored.
   */
  lemma LongColumnsTruncated<T>(input: Batch<T>, keys: seq<string>)
    requires Matches(input, keys)
    requires forall k :: k in keys ==> |Lookup(input, k).value| >= RowCount(input)
    ensures Written(input, keys) == RowCount(input)
  {
    forall i: nat | i < RowCount(input) ensures RowResult(input, keys, i).Ok? {
      EntryAtSpec(input, keys, i);
    }
    WrittenStopsAt(input, keys, 0, RowCount(input));
  }

  /** A sequence without repeats has as many distinct elements as its length. */
  lemma {:induction false} SeqSetCard(s: seq<string>)
    requires forall i, j :: 0 <= i < j < |s| ==> s[i] != s[j]
    ensures |set k | k in s| == |s|
  {
    if |s| > 0 {
      var last := s[|s| - 1];
      var init := s[..|s| - 1];
      SeqSetCard(init);
      assert (set k | k in s) == (set k | k in init) + {last};
      assert last !in init;
    }
  }

  /** The slot the i-th write after `start` goes to. */
  function RingSlot(start: int, i: int, c: int): int
    requires c > 0
  {
    (start + i) % c
  }

  /**
   * The slots after writing the given entries one by one, entry i into
   * slot (start + i) % |slots|.
   */
  function Placed<T>(slots: seq<Option<seq<T>>>, start: int, entries: seq<seq<T>>): (r: seq<Option<seq<T>>>)
    requires |slots| > 0
    ensures |r| == |slots|
    decreases |entries|
  {
    if |entries| == 0 then slots
    else
      var m := |entries| - 1;
      Placed(slots, start, entries[..m])[RingSlot(start, m, |slots|) := Some(entries[m])]
  }

  lemma PlacedSnoc<T>(slots: seq<Option<seq<T>>>, start: int, done: seq<seq<T>>, e: seq<T>)
    requires |slots| > 0
    ensures Placed(slots, start, done + [e]) == Placed(slots, start, done)[RingSlot(start, |done|, |slots|) := Some(e)]
  {
    assert (done + [e])[..|done|] == done;
  }

  /** A slot none of the entries was aimed at keeps its content. */
  lemma {:induction false} PlacedUntouched<T>(slots: seq<Option<seq<T>>>, start: int, entries: seq<seq<T>>, j: int)
    requires |slots| > 0 && 0 <= j < |slots|
    requires forall i :: 0 <= i < |entries| ==> RingSlot(start, i, |slots|) != j
    ensures Placed(slots, start, entries)[j] == slots[j]
    decreases |entries|
  {
    if |entries| > 0 {
      PlacedUntouched(slots, start, entries[..|entries| - 1], j);
    }
  }

  /** Among the last |slots| entries, each is found in its own slot. */
  lemma {:induction false} PlacedLast<T>(slots: seq<Option<seq<T>>>, start: int, entries: seq<seq<T>>, i: int)
    requires |slots| > 0
    requires 0 <= i < |entries| && |entries| - i <= |slots|
    ensures Placed(slots, start, entries)[RingSlot(start, i, |slots|)] == Some(entries[i])
    decreases |entries|
  {
    var m := |entries| - 1;
    if i < m {
      Modular.ModDistinct(start, i, m, |slots|);
      PlacedLast(slots, start, entries[..m], i);
    }
  }

  /** The entries of the first n rows, each of which builds. */
  function Entries<T(==)>(input: Batch<T>, keys: seq<string>, n: nat): seq<seq<T>>
    requires forall i :: 0 <= i < n ==> RowResult(input, keys, i).Ok?
  {
    seq(n, i requires 0 <= i < n => RowResult(input, keys, i).value)
  }

  /**
   * The outcome of the row loop of add: the rows before the first one that
   * throws are written, one ring slot each from slot start on, and the
   * result is the error of that row, if any.
   */
  ghost predicate RowsAdded<T>(input: Batch<T>, keys: seq<string>, oldSlots: seq<Option<seq<T>>>, start: int,
                                   slots: seq<Option<seq<T>>>, numAdd: int, r: Result<(), AddError>)
    requires |oldSlots| > 0
  {
    var w := Written(input, keys);
    && numAdd == start + w
    && slots == Placed(oldSlots, start, Entries(input, keys, w))
    && (r.Err? <==> w < RowCount(input))
    && (r.Err? ==> r.error == RowResult(input, keys, w).error)
  }

  class ReplayBuffer<T(==)> {
    const capacity: int
    /** std::vector<std::atomic<BufferEntry*>>: a null pointer is None. */
    const slots: array<Option<seq<T>>>
    var keys: seq<string>
    var hasKeys: bool
    var numAdd: int
    var numSample: int
    var prevSampleNumAdd: int

    function Size(): (r: int)
      reads this
      ensures r <= capacity && r <= numAdd
      ensures r == capacity || r == numAdd
    {
      Min(numAdd, capacity)
    }

    function Full(): (r: bool)
      reads this
      ensures r <==> Size() == capacity
      ensures capacity > 0 && r ==> numAdd >= capacity
    {
      Size() == capacity
    }

    /** Exactly the first Size() slots hold entries, each one row per key. */
    ghost predicate Occupancy()
      reads this, slots
    {
      forall j :: 0 <= j < slots.Length ==>
        (slots[j].Some? <==> j < Size()) && (slots[j].Some? ==> |slots[j].value| == |keys|)
    }

    ghost predicate Valid()
      reads this, slots
    {
      && capacity > 0
      && slots.Length == capacity
      && numAdd >= 0
      && 0 <= prevSampleNumAdd <= numAdd
      && (hasKeys <==> |keys| > 0)
      && (|keys| == 0 ==> numAdd == 0)
      && (forall i, j :: 0 <= i < j < |keys| ==> keys[i] != keys[j])
      && Occupancy()
    }

    constructor(capacity: int)
      requires capacity > 0
      ensures Valid()
      ensures this.capacity == capacity && fresh(slots)
      ensures keys == [] && !hasKeys
      ensures numAdd == 0 && numSample == 0 && prevSampleNumAdd == 0
      ensures forall j :: 0 <= j < capacity ==> slots[j] == None
    {
      this.capacity := capacity;
      slots := new Option<seq<T>>[capacity](_ => None);
      keys, hasKeys := [], false;
      numAdd, numSample, prevSampleNumAdd := 0, 0, 0;
    }

    /** The entry of row i: that row of every stored key, in key order. */
    method BuildEntry(input: Batch<T>, i: nat) returns (r: Result<seq<T>, AddError>)
      ensures r == EntryAt(input, keys, i)
    {
      var entry: seq<T> := [];
      var idx := 0;
      assert keys[idx..] == keys;
      ghost var all := EntryAt(input, keys, i);
      assert all.Ok? ==> entry + all.value == all.value;
      while idx < |keys|
        invariant 0 <= idx <= |keys|
        invariant EntryAt(input, keys, i) ==
          (var rest := EntryAt(input, keys[idx..], i);
           if rest.Err? then rest else Ok(entry + rest.value))
      {
        var rows := Lookup(input, keys[idx]);
        assert keys[idx..][0] == keys[idx];
        assert keys[idx..][1..] == keys[idx + 1..];
        if rows.None? {
          return Err(MissingKey(keys[idx]));
        }
        if i >= |rows.value| {
          return Err(RowMissing(keys[idx]));
        }
        ghost var tail := EntryAt(input, keys[idx + 1..], i);
        assert tail.Ok? ==> entry + ([rows.value[i]] + tail.value) == (entry + [rows.value[i]]) + tail.value;
        entry := entry + [rows.value[i]];
        idx := idx + 1;
      }
      assert keys[idx..] == [];
      assert entry + [] == entry;
      r := Ok(entry);
    }

    /** One step of the row loop: the next entry goes to slot numAdd % capacity. */
    method PutEntry(entry: seq<T>)
      requires Valid() && |keys| > 0 && |entry| == |keys|
      modifies this, slots
      ensures Valid()
      ensures numAdd == old(numAdd) + 1
      ensures slots[..] == old(slots[..])[old(numAdd) % capacity := Some(entry)]
      ensures keys == old(keys) && hasKeys == old(hasKeys)
      ensures numSample == old(numSample) && prevSampleNumAdd == old(prevSampleNumAdd)
    {
      var slot := numAdd % capacity;
      if numAdd < capacity {
        Modular.DivModOf(numAdd, capacity, 0, numAdd);
      }
      numAdd := numAdd + 1;
      slots[slot] := Some(entry);
      forall j | 0 <= j < slots.Length
        ensures (slots[j].Some? <==> j < Size()) && (slots[j].Some? ==> |slots[j].value| == |keys|)
      {
        if j != slot {
          assert slots[j] == old(slots[j]);
        }
      }
    }

    /**
     * One pass of the row loop: the key checks, then the entry's write. A
     * row that throws leaves the buffer as it was before that row.
     */
    method AddRow(input: Batch<T>, i: nat, ghost start: int) returns (r: Result<seq<T>, AddError>)
      requires Valid() && |keys| > 0 && numAdd == start + i
      requires i < RowCount(input)
      modifies this, slots
      ensures Valid()
      ensures r == RowResult(input, keys, i)
      ensures keys == old(keys) && hasKeys == old(hasKeys)
      ensures numSample == old(numSample) && prevSampleNumAdd == old(prevSampleNumAdd)
      ensures r.Err? ==> numAdd == old(numAdd) && slots[..] == old(slots[..])
      ensures r.Ok? ==> numAdd == old(numAdd) + 1
      ensures r.Ok? ==> slots[..] == old(slots[..])[RingSlot(start, i, capacity) := Some(r.value)]
    {
      if |input| != |keys| {
        return Err(KeysMismatch);
      }
      r := BuildEntry(input, i);
      if r.Ok? {
        PutEntry(r.value);
      }
    }

    /**
     * The row loop of add, once the key list is fixed: the rows before the
     * first one that throws are written, one ring slot each, and the error
     * of that row is returned.
     */
    method AddRows(input: Batch<T>) returns (r: Result<(), AddError>)
      requires Valid() && |keys| > 0 && |input| > 0
      modifies this, slots
      ensures Valid()
      ensures keys == old(keys) && hasKeys == old(hasKeys)
      ensures RowsAdded(input, keys, old(slots[..]), old(numAdd), slots[..], numAdd, r)
      ensures numSample == old(numSample) && prevSampleNumAdd == old(prevSampleNumAdd)
    {
      var n := |input[0].1|;
      var i := 0;
      ghost var done: seq<seq<T>> := [];
      while i != n
        invariant 0 <= i <= n && |done| == i
        invariant Valid()
        invariant keys == old(keys) && hasKeys == old(hasKeys)
        invariant forall t :: 0 <= t < i ==> RowResult(input, keys, t).Ok? && done[t] == RowResult(input, keys, t).value
        invariant numAdd == old(numAdd) + i
        invariant slots[..] == Placed(old(slots[..]), old(numAdd), done)
        invariant numSample == old(numSample) && prevSampleNumAdd == old(prevSampleNumAdd)
      {
        var entry := AddRow(input, i, old(numAdd));
        if entry.Err? {
          WrittenStopsAt(input, keys, 0, i);
          assert done == Entries(input, keys, i);
          r := Err(entry.error);
          assert RowsAdded(input, keys, old(slots[..]), old(numAdd), slots[..], numAdd, r);
          return;
        }
        PlacedSnoc(old(slots[..]), old(numAdd), done, entry.value);
        done := done + [entry.value];
        i := i + 1;
      }
      WrittenStopsAt(input, keys, 0, i);
      assert done == Entries(input, keys, i);
      r := Ok(());
      assert RowsAdded(input, keys, old(slots[..]), old(numAdd), slots[..], numAdd, r);
    }

    /**
     * add: nothing happens for an empty map; the first non-empty batch
     * fixes the key list; then each row's entry is written into slot
     * numAdd % capacity, replacing what was there, unless the batch does
     * not carry the stored keys.
     */
    method Add(input: Batch<T>) returns (r: Result<(), AddError>)
      requires Valid()
      requires DistinctNames(input)
      modifies this, slots
      ensures Valid()
      ensures |input| == 0 ==> r.Ok? && keys == old(keys) && numAdd == old(numAdd) && slots[..] == old(slots[..])
      ensures keys == (if |input| > 0 && |old(keys)| == 0 then Names(input) else old(keys))
      ensures RowsAdded(input, keys, old(slots[..]), old(numAdd), slots[..], numAdd, r)
      ensures numSample == old(numSample) && prevSampleNumAdd == old(prevSampleNumAdd)
    {
      if |input| == 0 {
        r := Ok(());
        assert Entries(input, keys, 0) == [];
        assert RowsAdded(input, keys, old(slots[..]), old(numAdd), slots[..], numAdd, r);
        return;
      }
      if !hasKeys {
        if |keys| == 0 {
          keys := Names(input);
          assert forall i, j :: 0 <= i < j < |keys| ==> keys[i] != keys[j];
        }
        hasKeys := true;
      }
      r := AddRows(input);
    }

    /**
     * The bookkeeping of sampleImpl: before any add the result is empty
     * and nothing changes. Otherwise prevSampleNumAdd moves first; then,
     * when rows are asked of a buffer that holds none, the empty sample
     * order is read at index 0 and std::out_of_range escapes before
     * numSample moves; else every stored key gets a tensor of sampleSize
     * rows and numSample grows by sampleSize.
     */
    method SampleImpl(sampleSize: nat) returns (r: Result<map<string, nat>, SampleError>)
      requires Valid()
      modifies this
      ensures Valid()
      ensures r.Err? <==> old(hasKeys) && Size() == 0 && sampleSize > 0
      ensures !old(hasKeys) ==> r == Ok(map[]) && numSample == old(numSample) && prevSampleNumAdd == old(prevSampleNumAdd)
      ensures r.Ok? && old(hasKeys) ==> r.value.Keys == (set k | k in keys) && forall k :: k in r.value ==> r.value[k] == sampleSize
      ensures r.Ok? && old(hasKeys) ==> numSample == old(numSample) + sampleSize
      ensures r.Err? ==> numSample == old(numSample)
      ensures old(hasKeys) ==> prevSampleNumAdd == old(prevSampleNumAdd) + Min(numAdd - old(prevSampleNumAdd), sampleSize)
      ensures keys == old(keys) && hasKeys == old(hasKeys) && numAdd == old(numAdd)
    {
      if !hasKeys {
        return Ok(map[]);
      }
      var siz := Size();
      var m: map<string, nat> := map[];
      var idx := 0;
      while idx < |keys|
        invariant 0 <= idx <= |keys|
        invariant m.Keys == (set k | k in keys[..idx])
        invariant forall k :: k in m ==> m[k] == sampleSize
      {
        assert keys[..idx + 1] == keys[..idx] + [keys[idx]];
        m := m[keys[idx] := sampleSize];
        idx := idx + 1;
      }
      assert keys[..idx] == keys;
      var s := Min(numAdd - prevSampleNumAdd, sampleSize);
      prevSampleNumAdd := prevSampleNumAdd + s;
      if siz == 0 && sampleSize > 0 {
        return Err(OutOfRange);
      }
      numSample := numSample + sampleSize;
      r := Ok(m);
    }
  }

  /** The text of a size list: its decimal values joined by ", ". */
  function Joined(sizes: seq<int>): string
  {
    if |sizes| == 0 then ""
    else if |sizes| == 1 then Decimal.IntToString(sizes[0])
    else Joined(sizes[..|sizes| - 1]) + ", " + Decimal.IntToString(sizes[|sizes| - 1])
  }

  /**
   * ss: "[" followed by the values and "]"; the separator goes before every
   * value but the first, because a value's text is never empty.
   */
  method Ss(sizes: seq<int>) returns (r: string)
    ensures r == "[" + Joined(sizes) + "]"
  {
    r := "[";
    var i := 0;
    while i < |sizes|
      invariant 0 <= i <= |sizes|
      invariant r == "[" + Joined(sizes[..i])
    {
      assert sizes[..i + 1][..i] == sizes[..i];
      if r != "[" {
        r := r + ", ";
      } else {
        assert i == 0;
      }
      r := r + Decimal.IntToString(sizes[i]);
      i := i + 1;
    }
    assert sizes[..i] == sizes;
    r := r + "]";
  }
}
