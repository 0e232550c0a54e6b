/** The cadence filter (`adjustCadence` with its static buffer): each nonzero
    crank reading is calibrated, pushed as the newest mark of a small buffer,
    and averaged with the marks in the next `size - 1` slots, the newest
    counting `weight` times.

    The filter reads the slots 1..size-1 whatever `count` says: a slot never
    written makes Java throw a `NullPointerException` (here
    `Err(NullCadenceMark)`, after the buffer has been updated, as in Java),
    and after a stale reset the marks taken before the gap are averaged in. */
module CadenceFilter {
  import opened Results

  const BufferSizeMax: nat := 10
  const BufferSizeDefault: nat := 3
  const BufferWeightDefault: nat := 2

  /** A calibrated cadence and the time, in seconds, it was taken. */
  datatype Mark = Mark(timestamp: real, cadenceRPM: real)

  /** The filter's changing part: the slots, newest first, and how many of
      them belong to the current run of readings. */
  datatype FilterState = FilterState(slots: seq<Option<Mark>>, count: nat)

  /** What the filter keeps true between readings: the current run is at
      most `size` marks long and all of them are present. */
  predicate Invariant(s: FilterState, size: nat, weight: nat)
  {
    && |s.slots| == BufferSizeMax
    && 1 <= size < BufferSizeMax && 1 <= weight
    && s.count <= size
    && forall i :: 0 <= i < s.count ==> s.slots[i].Some?
  }

  /** No slot written yet. */
  function EmptySlots(): (slots: seq<Option<Mark>>)
    ensures |slots| == BufferSizeMax && forall i :: 0 <= i < BufferSizeMax ==> slots[i] == None
  {
    seq(BufferSizeMax, i => None)
  }

  /** The linear calibration of a crank reading. */
  function Calibrated(crankRPM: int): (rpm: real)
    ensures rpm > 5.2617 <==> crankRPM > 0
  {
    0.8652 * crankRPM as real + 5.2617
  }

  /** The calibration keeps the order of the readings. */
  lemma CalibrationIsIncreasing(lower: int, higher: int)
    requires lower < higher
    ensures Calibrated(lower) < Calibrated(higher)
  {
  }

  /** More than two seconds have passed since the newest mark of the run. */
  predicate Stale(s: FilterState, timestamp: real)
    requires |s.slots| > 0 && (s.count > 0 ==> s.slots[0].Some?)
    ensures Stale(s, timestamp) ==> s.count > 0
  {
    s.count > 0 && timestamp - s.slots[0].value.timestamp > 2.0
  }

  /** A run that is stale at some time is stale at every later time. */
  lemma StalenessPersists(s: FilterState, earlier: real, later: real)
    requires |s.slots| > 0 && (s.count > 0 ==> s.slots[0].Some?)
    requires earlier <= later
    ensures Stale(s, earlier) ==> Stale(s, later)
  {
  }

  /** The shift-down loop and the store into slot 0: the first `kept` marks
      move one slot down and `m` becomes the newest; the rest stay. */
  function Inserted(slots: seq<Option<Mark>>, kept: nat, m: Mark): (shifted: seq<Option<Mark>>)
    requires kept < |slots|
    ensures |shifted| == |slots|
    ensures shifted[0] == Some(m)
    ensures forall i :: 1 <= i <= kept ==> shifted[i] == slots[i - 1]
    ensures forall i :: kept < i < |slots| ==> shifted[i] == slots[i]
  {
    [Some(m)] + slots[..kept] + slots[kept + 1..]
  }

  /** Every slot in lo..hi-1 holds a mark. */
  predicate Filled(slots: seq<Option<Mark>>, lo: nat, hi: nat)
    requires lo <= hi <= |slots|
  {
    forall i :: lo <= i < hi ==> slots[i].Some?
  }

  /** The sum of the cadences in slots lo..hi-1. */
  function SumRPM(slots: seq<Option<Mark>>, lo: nat, hi: nat): real
    requires lo <= hi <= |slots| && Filled(slots, lo, hi)
    decreases hi - lo
  {
    if lo == hi then 0.0 else SumRPM(slots, lo, hi - 1) + slots[hi - 1].value.cadenceRPM
  }

  /** The weighted average the filter returns, or the failure of reading an
      empty slot. */
  function Rolling(slots: seq<Option<Mark>>, size: nat, weight: nat, adjusted: real): (r: Result<real>)
    requires 1 <= size <= |slots| && 1 <= weight
    ensures r.Err? <==> exists i :: 1 <= i < size && slots[i] == None
    ensures r.Ok? ==> r.value * (size + weight - 1) as real == adjusted * weight as real + SumRPM(slots, 1, size)
  {
    if Filled(slots, 1, size) then
      Ok((adjusted * weight as real + SumRPM(slots, 1, size)) / (size + weight - 1) as real)
    else Err(NullCadenceMark)
  }

  datatype Outcome = Outcome(next: FilterState, rpm: Result<real>)

  /** One call of `adjustCadence`.  A zero reading returns 0 and changes
      nothing; any other reading leaves a run of 1..size marks, the newest
      being the calibrated reading. */
  function Step(s: FilterState, size: nat, weight: nat, crankRPM: int, timestamp: real): (o: Outcome)
    requires Invariant(s, size, weight)
    ensures Invariant(o.next, size, weight)
    ensures crankRPM == 0 ==> o == Outcome(s, Ok(0.0))
    ensures o.rpm.Err? ==> o.rpm.failure == NullCadenceMark
    ensures crankRPM != 0 ==>
      && 1 <= o.next.count <= size
      && o.next.slots[0] == Some(Mark(timestamp, Calibrated(crankRPM)))
  {
    if crankRPM == 0 then Outcome(s, Ok(0.0))
    else
      var kept := if Stale(s, timestamp) then 0 else s.count;
      var adjusted := Calibrated(crankRPM);
      var slots := Inserted(s.slots, kept, Mark(timestamp, adjusted));
      Outcome(FilterState(slots, if size < kept + 1 then size else kept + 1),
              Rolling(slots, size, weight, adjusted))
  }

  /** The outcome of a nonzero reading, named part by part. */
  lemma StepNonZero(s: FilterState, size: nat, weight: nat, crankRPM: int, timestamp: real)
    requires Invariant(s, size, weight) && crankRPM != 0
    ensures var kept := if Stale(s, timestamp) then 0 else s.count;
      var slots := Inserted(s.slots, kept, Mark(timestamp, Calibrated(crankRPM)));
      Step(s, size, weight, crankRPM, timestamp)
        == Outcome(FilterState(slots, if size < kept + 1 then size else kept + 1),
                   Rolling(slots, size, weight, Calibrated(crankRPM)))
  {
  }

  /** A nonzero reading in detail: the run restarts when the newest mark is
      stale; the kept marks move one slot down, the others stay where they
      were (so stale marks remain in place to be read), and the count grows
      by one up to `size`. */
  lemma StepShifts(s: FilterState, size: nat, weight: nat, crankRPM: int, timestamp: real)
    requires Invariant(s, size, weight) && crankRPM != 0
    ensures var o := Step(s, size, weight, crankRPM, timestamp);
      var kept := if s.count > 0 && timestamp - s.slots[0].value.timestamp > 2.0 then 0 else s.count;
      && o.next.count == (if kept + 1 < size then kept + 1 else size)
      && (forall i :: 1 <= i <= kept ==> o.next.slots[i] == s.slots[i - 1])
      && (forall i :: kept < i < BufferSizeMax ==> o.next.slots[i] == s.slots[i])
  {
  }

  /** Once the slots the average reads are all filled they stay filled, and
      then no reading fails. */
  lemma WarmFilterNeverFails(s: FilterState, size: nat, weight: nat, crankRPM: int, timestamp: real)
    requires Invariant(s, size, weight) && Filled(s.slots, 1, size)
    ensures var o := Step(s, size, weight, crankRPM, timestamp);
      Filled(o.next.slots, 1, size) && o.rpm.Ok?
  {
    if crankRPM != 0 {
      var o := Step(s, size, weight, crankRPM, timestamp);
      var kept := if Stale(s, timestamp) then 0 else s.count;
      forall i | 1 <= i < size ensures o.next.slots[i].Some? {
        if i <= kept {
          assert o.next.slots[i] == s.slots[i - 1];
        } else {
          assert o.next.slots[i] == s.slots[i];
        }
      }
    }
  }

  /** A run of `size` readings never fails, filled or not before. */
  lemma FullRunNeverFails(s: FilterState, size: nat, weight: nat, crankRPM: int, timestamp: real)
    requires Invariant(s, size, weight) && crankRPM != 0
    requires !Stale(s, timestamp) && s.count + 1 >= size
    ensures Step(s, size, weight, crankRPM, timestamp).rpm.Ok?
  {
    var o := Step(s, size, weight, crankRPM, timestamp);
    forall i | 1 <= i < size ensures o.next.slots[i].Some? {
      assert o.next.slots[i] == s.slots[i - 1];
    }
  }

  /** The sum of cadences that all lie in [lo, hi]. */
  lemma {:induction false} SumBounds(slots: seq<Option<Mark>>, first: nat, last: nat, lo: real, hi: real)
    requires first <= last <= |slots| && Filled(slots, first, last)
    requires forall i :: first <= i < last ==> lo <= slots[i].value.cadenceRPM <= hi
    ensures (last - first) as real * lo <= SumRPM(slots, first, last) <= (last - first) as real * hi
  {
    if first < last {
      SumBounds(slots, first, last - 1, lo, hi);
      var m := (last - 1 - first) as real;
      assert (last - first) as real == m + 1.0;
      assert (m + 1.0) * lo == m * lo + lo && (m + 1.0) * hi == m * hi + hi;
    }
  }

  lemma NonNegativeQuotient(a: real, n: real)
    requires 0.0 <= a && 0.0 < n
    ensures 0.0 <= a / n
  {
  }

  /** A weighted average of values in [lo, hi] lies in [lo, hi]. */
  lemma MeanBounds(adjusted: real, weight: real, sum: real, others: real, n: real, x: real, lo: real, hi: real)
    requires 1.0 <= weight && 0.0 <= others && n == weight + others
    requires lo <= adjusted <= hi && others * lo <= sum <= others * hi
    requires x * n == adjusted * weight + sum
    ensures lo <= x <= hi
  {
    var total := adjusted * weight + sum;
    assert (adjusted - lo) * weight >= 0.0 && (hi - adjusted) * weight >= 0.0;
    assert 0.0 <= total - n * lo && 0.0 <= n * hi - total;
    assert x == total / n;
    NonNegativeQuotient(total - n * lo, n);
    NonNegativeQuotient(n * hi - total, n);
    assert (total - n * lo) / n == x - lo;
    assert (n * hi - total) / n == hi - x;
  }

  /** The filter's output is an average: it lies between the least and the
      greatest of the cadences it reads; in particular a steady cadence is
      returned unchanged. */
  lemma AverageWithinBounds(slots: seq<Option<Mark>>, size: nat, weight: nat, adjusted: real, lo: real, hi: real)
    requires 1 <= size <= |slots| && 1 <= weight && Filled(slots, 1, size)
    requires lo <= adjusted <= hi
    requires forall i :: 1 <= i < size ==> lo <= slots[i].value.cadenceRPM <= hi
    ensures var r := Rolling(slots, size, weight, adjusted);
      r.Ok? && lo <= r.value <= hi
  {
    var r := Rolling(slots, size, weight, adjusted);
    assert r.Ok?;
    SumBounds(slots, 1, size, lo, hi);
    MeanBounds(adjusted, weight as real, SumRPM(slots, 1, size), (size - 1) as real,
               (size + weight - 1) as real, r.value, lo, hi);
  }

  /** The filter from its first reading on: the first two nonzero readings
      read a slot never written and fail, the third, less than two seconds
      later, succeeds. */
  lemma FreshFilterStartup(c1: int, c2: int, c3: int, t1: real, t2: real, t3: real)
    requires c1 != 0 && c2 != 0 && c3 != 0
    requires t2 - t1 <= 2.0 && t3 - t2 <= 2.0
    ensures var s0 := FilterState(EmptySlots(), 0);
      var o1 := Step(s0, BufferSizeDefault, BufferWeightDefault, c1, t1);
      var o2 := Step(o1.next, BufferSizeDefault, BufferWeightDefault, c2, t2);
      var o3 := Step(o2.next, BufferSizeDefault, BufferWeightDefault, c3, t3);
      o1.rpm == Err(NullCadenceMark) && o2.rpm == Err(NullCadenceMark) && o3.rpm.Ok?
  {
    var s0 := FilterState(EmptySlots(), 0);
    var o1 := Step(s0, BufferSizeDefault, BufferWeightDefault, c1, t1);
    assert o1.next.slots[1] == None;
    var o2 := Step(o1.next, BufferSizeDefault, BufferWeightDefault, c2, t2);
    StepShifts(o1.next, BufferSizeDefault, BufferWeightDefault, c2, t2);
    assert o2.next.slots[2] == None;
    FullRunNeverFails(o2.next, BufferSizeDefault, BufferWeightDefault, c3, t3);
  }

  /** The static buffer of `DataProcessor` and the operation on it. */
  class CadenceBuffer {
    var buffer: array<Option<Mark>>
    var count: nat
    var size: nat
    var weight: nat

    function State(): FilterState
      reads this, buffer
    {
      FilterState(buffer[..], count)
    }

    ghost predicate Valid()
      reads this, buffer
    {
      buffer.Length == BufferSizeMax && Invariant(State(), size, weight)
    }

    /** The buffer as the class initialiser leaves it. */
    constructor ()
      ensures Valid() && fresh(buffer)
      ensures State() == FilterState(EmptySlots(), 0)
      ensures size == BufferSizeDefault && weight == BufferWeightDefault
    {
      buffer := new Option<Mark>[BufferSizeMax](i => None);
      count := 0;
      size := BufferSizeDefault;
      weight := BufferWeightDefault;
    }

    /** `adjustCadence` */
    method Adjust(crankRPM: int, timestamp: real) returns (rpm: Result<real>)
      requires Valid()
      modifies this`count, buffer
      ensures Valid()
      ensures Outcome(State(), rpm) == Step(old(State()), size, weight, crankRPM, timestamp)
    {
      ghost var before := State();
      if crankRPM == 0 {
        return Ok(0.0);
      }
      if count > 0 && timestamp - buffer[0].value.timestamp > 2.0 {
        count := 0;
      }
      ghost var kept := count;
      assert kept == if Stale(before, timestamp) then 0 else before.count;
      assert buffer[..] == before.slots;
      var adjustedRPM := 0.8652 * crankRPM as real + 5.2617;
      assert adjustedRPM == Calibrated(crankRPM);
      ShiftIn(Mark(timestamp, adjustedRPM));
      assert buffer[..] == Inserted(before.slots, kept, Mark(timestamp, Calibrated(crankRPM)));
      count := if size < count + 1 then size else count + 1;
      StepNonZero(before, size, weight, crankRPM, timestamp);
      assert State() == Step(before, size, weight, crankRPM, timestamp).next;
      rpm := WeightedAverage(adjustedRPM);
    }

    /** The shift-down loop and the store of the new mark into slot 0. */
    method ShiftIn(m: Mark)
      requires buffer.Length == BufferSizeMax && count < BufferSizeMax
      modifies buffer
      ensures buffer[..] == Inserted(old(buffer[..]), count, m)
    {
      ghost var before := buffer[..];
      var i := count;
      while i > 0
        invariant 0 <= i <= count
        invariant forall k :: 0 <= k <= i ==> buffer[k] == before[k]
        invariant forall k :: i < k <= count ==> buffer[k] == before[k - 1]
        invariant forall k :: count < k < BufferSizeMax ==> buffer[k] == before[k]
      {
        buffer[i] := buffer[i - 1];
        i := i - 1;
      }
      buffer[0] := Some(m);
    }

    /** The accumulation loop and the division: the newest mark `adjustedRPM`
        counts `weight` times, the marks in slots 1..size-1 once each. */
    method WeightedAverage(adjustedRPM: real) returns (rpm: Result<real>)
      requires buffer.Length == BufferSizeMax && 1 <= size < BufferSizeMax && 1 <= weight
      ensures rpm == Rolling(buffer[..], size, weight, adjustedRPM)
    {
      var rollingRPM := adjustedRPM * weight as real;
      var j := 1;
      while j < size
        invariant 1 <= j <= size
        invariant Filled(buffer[..], 1, j)
        invariant rollingRPM == adjustedRPM * weight as real + SumRPM(buffer[..], 1, j)
      {
        if buffer[j].None? {
          return Err(NullCadenceMark);
        }
        rollingRPM := rollingRPM + buffer[j].value.cadenceRPM;
        j := j + 1;
      }
      rollingRPM := rollingRPM / (size + weight - 1) as real;
      return Ok(rollingRPM);
    }
  }
}
