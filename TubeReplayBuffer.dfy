/**
 * The dense replay buffer of the tube library: one column of `capacity`
 * rows per key, written as a ring at `nextIdx`, sampled without
 * replacement among the first `size` rows.
 *
 * A tensor is modelled as the sequence of its rows (its first dimension);
 * a row is an opaque value of type T.  The Mersenne-Twister generator is
 * modelled as the sequence of the outputs it will produce next.
 */
module TubeReplayBuffer {
  import opened Wrappers
  import Modular

  /** The checkpointed form of a buffer. */
  datatype SerializableState<T> = SerializableState(
    capacity: int,
    size: int,
    nextIdx: int,
    rngState: seq<nat>,
    buffer: map<string, seq<T>>)

  /** Why initFromState refused a snapshot. */
  datatype RestoreError = CapacityMismatch(ownCapacity: int, stateCapacity: int)

  predicate Distinct(s: seq<int>)
  {
    forall i, j :: 0 <= i < j < |s| ==> s[i] != s[j]
  }

  /** The slots a batch of n rows is copied into. */
  function RingIndices(nextIdx: int, n: nat, capacity: int): (r: seq<int>)
    requires capacity > 0
    ensures |r| == n
    ensures forall i :: 0 <= i < n ==> 0 <= r[i] < capacity
  {
    seq(n, i => (i + nextIdx) % capacity)
  }

  /** At most `capacity` consecutive ring slots are pairwise different. */
  lemma RingIndicesDistinct(nextIdx: int, n: nat, capacity: int)
    requires capacity > 0 && n <= capacity
    ensures Distinct(RingIndices(nextIdx, n, capacity))
  {
    var r := RingIndices(nextIdx, n, capacity);
    forall i, j | 0 <= i < j < n
      ensures r[i] != r[j]
    {
      Modular.ModDistinct(nextIdx, i, j, capacity);
    }
  }

  /** Before the ring wraps, advancing by n keeps the next slot at the fill level. */
  lemma RingStep(size: int, nextIdx: int, n: nat, capacity: int)
    requires capacity > 0 && 0 <= size < capacity && nextIdx == size
    ensures Min(size + n, capacity) < capacity ==> (nextIdx + n) % capacity == Min(size + n, capacity)
  {
  }

  /** torch's index_copy_ along the first dimension. */
  function IndexCopy<T>(col: seq<T>, idx: seq<int>, rows: seq<T>): (r: seq<T>)
    requires |idx| == |rows|
    requires forall i :: 0 <= i < |idx| ==> 0 <= idx[i] < |col|
    ensures |r| == |col|
    decreases |idx|
  {
    if |idx| == 0 then col
    else IndexCopy(col[idx[0] := rows[0]], idx[1..], rows[1..])
  }

  /** With distinct indices, row i lands at idx[i] and every other row is kept. */
  lemma {:induction false} IndexCopyAt<T>(col: seq<T>, idx: seq<int>, rows: seq<T>)
    requires |idx| == |rows|
    requires forall i :: 0 <= i < |idx| ==> 0 <= idx[i] < |col|
    requires Distinct(idx)
    ensures forall i :: 0 <= i < |idx| ==> IndexCopy(col, idx, rows)[idx[i]] == rows[i]
    ensures forall j :: 0 <= j < |col| && j !in idx ==> IndexCopy(col, idx, rows)[j] == col[j]
    decreases |idx|
  {
    if |idx| > 0 {
      var col' := col[idx[0] := rows[0]];
      IndexCopyAt(col', idx[1..], rows[1..]);
      forall i | 0 <= i < |idx|
        ensures IndexCopy(col, idx, rows)[idx[i]] == rows[i]
      {
        if i > 0 {
          assert idx[1..][i - 1] == idx[i];
        } else {
          assert idx[0] !in idx[1..] by {
            forall k | 0 <= k < |idx[1..]| ensures idx[1..][k] != idx[0] {
              assert idx[1..][k] == idx[k + 1];
            }
          }
        }
      }
      forall j | 0 <= j < |col| && j !in idx
        ensures IndexCopy(col, idx, rows)[j] == col[j]
      {
        assert j !in idx[1..] by {
          forall k | 0 <= k < |idx[1..]| ensures idx[1..][k] != j {
            assert idx[1..][k] == idx[k + 1];
          }
        }
        assert j != idx[0];
      }
    }
  }

  /** torch's index_select along the first dimension. */
  function IndexSelect<T>(col: seq<T>, idx: seq<int>): (r: seq<T>)
    requires forall i :: 0 <= i < |idx| ==> 0 <= idx[i] < |col|
  {
    seq(|idx|, i requires 0 <= i < |idx| => col[idx[i]])
  }

  /** index_copy_ applied to every column with the same indices. */
  function CopyBatch<T>(cols: map<string, seq<T>>, idx: seq<int>, input: map<string, seq<T>>): (r: map<string, seq<T>>)
    requires cols.Keys == input.Keys
    requires forall k :: k in input ==> |input[k]| == |idx|
    requires forall k, i :: k in cols && 0 <= i < |idx| ==> 0 <= idx[i] < |cols[k]|
    ensures r.Keys == input.Keys
    ensures forall k :: k in r ==> |r[k]| == |cols[k]|
  {
    map k | k in input :: IndexCopy(cols[k], idx, input[k])
  }

  /**
   * `after` holds, for every key of the batch, the column `cols[k]` with
   * row i of the batch in ring slot (i + start) % capacity and every slot
   * outside the batch's slots untouched.
   */
  ghost predicate RingWritten<T>(cols: map<string, seq<T>>, after: map<string, seq<T>>,
                                 input: map<string, seq<T>>, start: int, n: nat, capacity: int)
    requires capacity > 0
    requires cols.Keys == input.Keys
    requires forall k :: k in cols ==> |cols[k]| == capacity
    requires forall k :: k in input ==> |input[k]| == n
  {
    && after.Keys == input.Keys
    && (forall k :: k in after ==> |after[k]| == capacity)
    && (forall k, i :: k in input && 0 <= i < n ==> after[k][(i + start) % capacity] == input[k][i])
    && (forall k, j :: k in input && 0 <= j < capacity && j !in RingIndices(start, n, capacity) ==>
          after[k][j] == cols[k][j])
  }

  /** Copying a batch of n rows into the ring slots after `start`, key by key. */
  lemma RingCopy<T>(cols: map<string, seq<T>>, input: map<string, seq<T>>, n: nat, start: int, capacity: int)
    requires capacity > 0 && n <= capacity
    requires cols.Keys == input.Keys
    requires forall k :: k in cols ==> |cols[k]| == capacity
    requires forall k :: k in input ==> |input[k]| == n
    ensures RingWritten(cols, CopyBatch(cols, RingIndices(start, n, capacity), input), input, start, n, capacity)
  {
    var idx := RingIndices(start, n, capacity);
    var after := CopyBatch(cols, idx, input);
    RingIndicesDistinct(start, n, capacity);
    forall k | k in input
      ensures forall i :: 0 <= i < n ==> after[k][(i + start) % capacity] == input[k][i]
      ensures forall j :: 0 <= j < capacity && j !in idx ==> after[k][j] == cols[k][j]
    {
      IndexCopyAt(cols[k], idx, input[k]);
      forall i | 0 <= i < n
        ensures after[k][(i + start) % capacity] == input[k][i]
      {
        assert idx[i] == (i + start) % capacity;
      }
    }
  }

  /** The set of residues the first `used` generator outputs give modulo n. */
  ghost function Drawn(rng: seq<nat>, used: nat, n: int): set<int>
    requires used <= |rng|
    requires used > 0 ==> n > 0
  {
    set i | 0 <= i < used :: rng[i] % n
  }

  /**
   * sampleKfromN: draws generator outputs modulo n until min(k, n)
   * different values are held.  The order of the result is the order in
   * which values were first drawn (the source's hash set fixes none).
   * The model stops early when the given outputs run out.
   */
  method SampleKFromN(k: int, n: int, rng: seq<nat>) returns (samples: seq<int>, used: nat)
    ensures used <= |rng|
    ensures Distinct(samples)
    ensures forall i :: 0 <= i < |samples| ==> 0 <= samples[i] < n
    ensures |samples| <= Max(0, Min(k, n))
    ensures |samples| == Max(0, Min(k, n)) || used == |rng|
    ensures used > 0 ==> n > 0
    ensures forall v :: v in samples <==> v in Drawn(rng, used, n)
  {
    samples, used := [], 0;
    while |samples| < k && |samples| < n && used < |rng|
      invariant used <= |rng|
      invariant Distinct(samples)
      invariant forall i :: 0 <= i < |samples| ==> 0 <= samples[i] < n
      invariant |samples| <= Max(0, Min(k, n))
      invariant used > 0 ==> n > 0
      invariant forall v :: v in samples <==> v in Drawn(rng, used, n)
      decreases |rng| - used
    {
      var s := rng[used] % n;
      assert Drawn(rng, used + 1, n) == Drawn(rng, used, n) + {s};
      if s !in samples {
        samples := samples + [s];
      }
      used := used + 1;
    }
  }

  class ReplayBuffer<T> {
    const capacity: int
    /** The row torch::zeros fills a fresh column with. */
    const zero: T
    var size: int
    var nextIdx: int
    var numAdd: int
    var numSample: int
    var buffer: map<string, seq<T>>
    /** The outputs the generator will produce next. */
    var rng: seq<nat>

    ghost predicate Valid()
      reads this
    {
      && capacity > 0
      && 0 <= size <= capacity
      && 0 <= nextIdx < capacity
      && forall k :: k in buffer ==> |buffer[k]| == capacity
    }

    /** Until the ring wraps, the next free slot is the first unused one. */
    ghost predicate RingConsistent()
      reads this
    {
      size < capacity ==> nextIdx == size
    }

    constructor(capacity: int, generator: seq<nat>, zero: T)
      requires capacity > 0
      ensures Valid() && RingConsistent()
      ensures this.capacity == capacity && this.zero == zero
      ensures size == 0 && nextIdx == 0 && numAdd == 0 && numSample == 0
      ensures buffer == map[] && rng == generator
    {
      this.capacity := capacity;
      this.zero := zero;
      size, nextIdx, numAdd, numSample := 0, 0, 0, 0;
      buffer := map[];
      rng := generator;
    }

    function Full(): (r: bool)
      reads this
      ensures r <==> size == capacity
    {
      size == capacity
    }

    /**
     * The columns a batch is copied into: the stored ones, plus a column of
     * zeros for each new key when the buffer is empty.
     */
    ghost function Columns(stored: map<string, seq<T>>, input: map<string, seq<T>>, empty: bool): map<string, seq<T>>
      requires capacity > 0
    {
      if empty then (map k | k in input :: seq(capacity, _ => zero)) + stored else stored
    }

    /**
     * getNextIndices: for a non-empty batch of n rows, lists the slots
     * (i + nextIdx) % capacity and advances size and nextIdx.
     */
    method GetNextIndices(input: map<string, seq<T>>, n: nat) returns (indices: seq<int>)
      requires Valid()
      requires n <= capacity
      requires |input| == 0 ==> n == 0
      modifies this
      ensures Valid()
      ensures indices == RingIndices(old(nextIdx), n, capacity)
      ensures size == Min(old(size) + n, capacity)
      ensures nextIdx == (old(nextIdx) + n) % capacity
      ensures numAdd == old(numAdd) && numSample == old(numSample)
      ensures buffer == old(buffer) && rng == old(rng)
    {
      indices := [];
      if |input| > 0 {
        var i := 0;
        while i < n
          invariant 0 <= i <= n
          invariant indices == RingIndices(nextIdx, i, capacity)
        {
          indices := indices + [(i + nextIdx) % capacity];
          i := i + 1;
        }
        if size < capacity {
          size := if size + n > capacity then capacity else size + n;
        }
        nextIdx := (nextIdx + n) % capacity;
      }
    }

    /** The columns add creates when the buffer is empty. */
    method CreateColumns(input: map<string, seq<T>>)
      requires Valid()
      requires buffer.Keys <= input.Keys
      requires size > 0 ==> input.Keys == buffer.Keys
      modifies this
      ensures Valid()
      ensures buffer == Columns(old(buffer), input, old(size) == 0)
      ensures buffer.Keys == input.Keys
      ensures size == old(size) && nextIdx == old(nextIdx) && numAdd == old(numAdd)
      ensures numSample == old(numSample) && rng == old(rng)
    {
      if size == 0 {
        var zeros := map k | k in input :: seq(capacity, _ => zero);
        buffer := zeros + buffer;
      }
    }

    /**
     * The index_copy_ loop of add: every column receives the batch's rows
     * at the ring slots following `start`.
     */
    method CopyRows(indices: seq<int>, input: map<string, seq<T>>, ghost start: int, ghost n: nat)
      requires Valid()
      requires n <= capacity && indices == RingIndices(start, n, capacity)
      requires buffer.Keys == input.Keys
      requires forall k :: k in input ==> |input[k]| == n
      modifies this
      ensures Valid()
      ensures RingWritten(old(buffer), buffer, input, start, n, capacity)
      ensures size == old(size) && nextIdx == old(nextIdx) && numAdd == old(numAdd)
      ensures numSample == old(numSample) && rng == old(rng)
    {
      RingCopy(buffer, input, n, start, capacity);
      buffer := CopyBatch(buffer, indices, input);
    }

    /**
     * add: a batch of n rows per key.  The first add into an empty buffer
     * creates the columns; afterwards the batch must carry exactly the
     * stored keys.  The source asserts n <= capacity.
     */
    method Add(input: map<string, seq<T>>, n: nat)
      requires Valid()
      requires forall k :: k in input ==> |input[k]| == n
      requires |input| == 0 ==> n == 0
      requires n <= capacity
      requires buffer.Keys <= input.Keys
      requires size > 0 ==> input.Keys == buffer.Keys
      modifies this
      ensures Valid()
      ensures old(RingConsistent()) ==> RingConsistent()
      ensures size == Min(old(size) + n, capacity)
      ensures Full() <==> old(size) + n >= capacity
      ensures nextIdx == (old(nextIdx) + n) % capacity
      ensures numAdd == old(numAdd) + n
      ensures numSample == old(numSample) && rng == old(rng)
      ensures RingWritten(Columns(old(buffer), input, old(size) == 0), buffer, input, old(nextIdx), n, capacity)
    {
      ghost var start := nextIdx;
      CreateColumns(input);
      ghost var cols := buffer;
      var indices := GetNextIndices(input, n);
      numAdd := numAdd + |indices|;
      CopyRows(indices, input, start, n);
      if old(size) < capacity && old(nextIdx) == old(size) {
        RingStep(old(size), old(nextIdx), n, capacity);
      }
    }

    /**
     * sample: sampleSize distinct rows among the first size ones, the same
     * rows for every key.  The counter moves before the source asserts
     * sampleSize <= size.
     */
    method Sample(sampleSize: int) returns (result: map<string, seq<T>>, ghost indices: seq<int>)
      requires Valid()
      requires sampleSize <= size
      modifies this
      ensures Valid()
      ensures numSample == old(numSample) + sampleSize
      ensures size == old(size) && nextIdx == old(nextIdx) && numAdd == old(numAdd)
      ensures buffer == old(buffer)
      ensures Distinct(indices)
      ensures forall i :: 0 <= i < |indices| ==> 0 <= indices[i] < size
      ensures |indices| <= Max(0, sampleSize)
      ensures |indices| == Max(0, sampleSize) || rng == []
      ensures |rng| <= |old(rng)| && rng == old(rng)[|old(rng)| - |rng|..]
      ensures result.Keys == buffer.Keys
      ensures forall k :: k in result ==>
        result[k] == IndexSelect(buffer[k], indices)
    {
      numSample := numSample + sampleSize;
      var picked, used := SampleKFromN(sampleSize, size, rng);
      indices := picked;
      rng := rng[used..];
      result := map k | k in buffer :: IndexSelect(buffer[k], picked);
    }

    /** The state toState records. */
    ghost function State(): SerializableState<T>
      reads this
    {
      SerializableState(capacity, size, nextIdx, rng, buffer)
    }

    method ToState() returns (state: SerializableState<T>)
      ensures state == State()
      ensures state.capacity == capacity && state.size == size && state.nextIdx == nextIdx
      ensures state.rngState == rng && state.buffer == buffer
    {
      state := SerializableState(capacity, size, nextIdx, rng, buffer);
    }

    /**
     * initFromState: refuses a snapshot of another capacity, else restores
     * size, nextIdx, the generator and the columns.  The counters are kept.
     */
    method InitFromState(state: SerializableState<T>) returns (result: Result<(), RestoreError>)
      requires capacity > 0
      modifies this
      ensures result.Err? <==> state.capacity != capacity
      ensures result.Err? ==> result.error == CapacityMismatch(capacity, state.capacity)
      ensures result.Err? ==> State() == old(State())
      ensures result.Ok? ==> State() == state
      ensures numAdd == old(numAdd) && numSample == old(numSample)
      ensures result.Ok? ==> (Valid() <==> WellFormed(state))
    {
      if state.capacity != capacity {
        return Err(CapacityMismatch(capacity, state.capacity));
      }
      size := state.size;
      nextIdx := state.nextIdx;
      rng := state.rngState;
      buffer := state.buffer;
      return Ok(());
    }
  }

  /** What Valid() demands of a buffer, read off a snapshot. */
  ghost predicate WellFormed<T>(state: SerializableState<T>)
  {
    && state.capacity > 0
    && 0 <= state.size <= state.capacity
    && 0 <= state.nextIdx < state.capacity
    && forall k :: k in state.buffer ==> |state.buffer[k]| == state.capacity
  }

  /** Restoring what toState wrote gives back the same buffer. */
  method RestoreRoundTrip<T>(b: ReplayBuffer<T>)
    requires b.Valid()
    modifies b
    ensures b.Valid() && b.State() == old(b.State())
  {
    var st := b.ToState();
    var r := b.InitFromState(st);
    assert r.Ok?;
  }
}
