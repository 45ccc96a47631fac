/**
 * The strong-counter test stage (`org.radargun.stages.StrongCounterTestStage`). Each stressor
 * records the values its counter requests return; the coordinator concatenates every worker's
 * values, rejects a value returned twice and demands that the values, in counter order, step by
 * exactly `delta`: no duplicates and no gaps.
 */
module StrongCounter {
  import opened Wrappers
  import opened JavaNumbers

  /** The `operationName` property. */
  datatype OperationName = IncrementAndGetName | DecrementAndGetName | AddAndGetName

  /** The operation a stressor is asked to run: one of the three counter operations, or another one. */
  datatype Operation = IncrementAndGet | DecrementAndGet | AddAndGet | OtherOperation(name: string)

  /** `Comparator.naturalOrder()` and `Comparator.reverseOrder()` on `Long`. */
  datatype Order = NaturalOrder | ReverseOrder

  /** The exceptions the stage and its logic throw. */
  datatype CounterError =
    | Duplicate(value: Long)                 // "The value v already returned by different thread!"
    | Skipped(expected: Long, actual: Long)  // "The value expected skipped by the counter!"
    | NoSuchElement                          // `TreeSet.first()` on an empty set
    | Unchanged(previous: Long)              // "The value should be different from previous"
    | IllegalArgument(name: string)          // an operation that is not a counter operation
    | RequestFailed                          // the request itself threw

  /** What a counter request gave back; the counter is outside the model, so this is an input. */
  datatype Reply = Returned(value: Long) | Threw

  /** The result of the inherited `processAckOnMaster`, of which only `isError` matters. */
  datatype StageResult = StageResult(isError: bool)

  /** An acknowledgement from a worker: a `ClusteredCounterAck` with its values, or another kind. */
  datatype DistStageAck = ClusteredCounterAck(values: seq<Long>) | OtherAck

  // ---------------------------------------------------------------------------------------------
  // Orders, sorted sets and progressions

  /** `a` comes strictly before `b` under the comparator. */
  predicate Precedes(order: Order, a: int, b: int)
  {
    match order
    case NaturalOrder => a < b
    case ReverseOrder => a > b
  }

  /** The comparator `init` picks for a delta: reverse order exactly when the delta is negative. */
  function OrderFor(delta: int): Order
  {
    if delta < 0 then ReverseOrder else NaturalOrder
  }

  /** The iteration order of a `TreeSet` under `order`. */
  predicate StrictlySorted(order: Order, s: seq<int>)
  {
    forall i, j :: 0 <= i < j < |s| ==> Precedes(order, s[i], s[j])
  }

  predicate Distinct(s: seq<int>)
  {
    forall i, j :: 0 <= i < j < |s| ==> s[i] != s[j]
  }

  /** Each element after the first is its predecessor plus `delta`, in `long` arithmetic. */
  predicate Steps(s: seq<int>, delta: int)
  {
    forall k :: 1 <= k < |s| ==> s[k] == WrapLong(s[k - 1] + delta)
  }

  /** The `k`-th term of the progression that starts at `first` and steps by `delta`. */
  function Term(first: int, delta: int, k: int): int
  {
    first + k * delta
  }

  /** `TreeSet.add`: puts `v` in its place under `order`, or leaves the set alone when `v` is in it. */
  function InsertSorted(order: Order, s: seq<Long>, v: Long): seq<Long>
  {
    if s == [] then [v]
    else if v == s[0] then s
    else if Precedes(order, v, s[0]) then [v] + s
    else [s[0]] + InsertSorted(order, s[1..], v)
  }

  /** The `TreeSet` that adding `values` one by one to an empty set builds. */
  function InsertAll(order: Order, values: seq<Long>): seq<Long>
  {
    if values == [] then []
    else InsertSorted(order, InsertAll(order, values[..|values| - 1]), values[|values| - 1])
  }

  /** `TreeSet.add` adds `v` once, unless it was already there, and nothing else. */
  lemma {:induction false} InsertSortedMembers(order: Order, s: seq<Long>, v: Long)
    requires StrictlySorted(order, s)
    ensures v in s ==> InsertSorted(order, s, v) == s
    ensures v !in s ==> multiset(InsertSorted(order, s, v)) == multiset(s) + multiset{v}
  {
    if s != [] && v != s[0] && !Precedes(order, v, s[0]) {
      SortedTail(order, s);
      InsertSortedMembers(order, s[1..], v);
      assert s == [s[0]] + s[1..];
      assert v in s <==> v in s[1..];
    }
  }

  /** A sorted sequence is its head before a sorted tail that the head precedes. */
  lemma SortedCons(order: Order, x: Long, t: seq<Long>)
    requires StrictlySorted(order, t)
    requires forall y :: y in t ==> Precedes(order, x, y)
    ensures StrictlySorted(order, [x] + t)
  {
    var s := [x] + t;
    forall i, j | 0 <= i < j < |s| ensures Precedes(order, s[i], s[j]) {
      assert s[j] == t[j - 1];
      if i > 0 { assert s[i] == t[i - 1]; }
    }
  }

  /** `TreeSet.add` keeps the set sorted. */
  lemma {:induction false} InsertSortedSorted(order: Order, s: seq<Long>, v: Long)
    requires StrictlySorted(order, s)
    ensures StrictlySorted(order, InsertSorted(order, s, v))
  {
    if s == [] {
    } else if v == s[0] {
    } else if Precedes(order, v, s[0]) {
      forall y | y in s ensures Precedes(order, v, y) {
        var j :| 0 <= j < |s| && s[j] == y;
        if j > 0 { assert Precedes(order, s[0], s[j]); }
      }
      SortedCons(order, v, s);
    } else {
      var t := s[1..];
      SortedTail(order, s);
      InsertSortedSorted(order, t, v);
      InsertSortedMembers(order, t, v);
      var u := InsertSorted(order, t, v);
      forall y | y in u ensures Precedes(order, s[0], y) {
        assert y in multiset(u);
        if y != v {
          assert y in t;
          var j :| 0 <= j < |t| && t[j] == y;
          assert s[j + 1] == y;
        }
      }
      SortedCons(order, s[0], u);
    }
  }

  /** Adding distinct values one by one gives the sorted set of exactly those values. */
  lemma {:induction false} InsertAllContents(order: Order, values: seq<Long>)
    requires Distinct(values)
    ensures StrictlySorted(order, InsertAll(order, values))
    ensures multiset(InsertAll(order, values)) == multiset(values)
  {
    if values != [] {
      var init := values[..|values| - 1];
      var v := values[|values| - 1];
      assert Distinct(init);
      InsertAllContents(order, init);
      assert v !in multiset(init);
      InsertSortedSorted(order, InsertAll(order, init), v);
      InsertSortedMembers(order, InsertAll(order, init), v);
      assert values == init + [v];
    }
  }

  /** If the sorted values step by `delta`, they are the progression `first + k * delta`. */
  lemma {:induction false} StepsGiveProgression(delta: Int, s: seq<Long>)
    requires StrictlySorted(OrderFor(delta), s) && Steps(s, delta)
    ensures forall k :: 0 <= k < |s| ==> s[k] == Term(s[0], delta, k)
  {
    if |s| > 1 {
      var init := s[..|s| - 1];
      StepsGiveProgression(delta, init);
      var n := |s| - 1;
      assert s[n - 1] == init[n - 1];
      assert Precedes(OrderFor(delta), s[n - 1], s[n]);
      StepDoesNotWrap(delta, s[n - 1], s[n]);
      TermStep(s[0], delta, n);
      forall k | 0 <= k < |s| - 1 ensures s[k] == Term(s[0], delta, k) {
        assert s[k] == init[k];
      }
    }
  }

  /** A `long` step by `delta` that keeps the order `delta` picks did not wrap around. */
  lemma StepDoesNotWrap(delta: Int, x: Long, y: Long)
    requires y == WrapLong(x + delta) && Precedes(OrderFor(delta), x, y)
    ensures y == x + delta
  {
  }

  lemma TermStep(first: int, delta: int, n: int)
    ensures Term(first, delta, n) == Term(first, delta, n - 1) + delta
  {
    assert n * delta == (n - 1) * delta + delta;
  }

  lemma ProgressionOrdered(delta: Int, first: int, i: nat, j: nat)
    requires i < j
    ensures delta > 0 ==> Term(first, delta, i) < Term(first, delta, j)
    ensures delta < 0 ==> Term(first, delta, i) > Term(first, delta, j)
  {
    assert Term(first, delta, j) - Term(first, delta, i) == (j - i) * delta;
    if delta > 0 {
      assert (j - i) * delta > 0;
    } else if delta < 0 {
      var d := 0 - delta as int;
      assert (j - i) * d > 0;
    }
  }

  lemma SortedTail(order: Order, s: seq<int>)
    requires StrictlySorted(order, s) && s != []
    ensures StrictlySorted(order, s[1..])
  {
    forall i, j | 0 <= i < j < |s| - 1 ensures Precedes(order, s[1..][i], s[1..][j]) {
      assert s[1..][i] == s[i + 1] && s[1..][j] == s[j + 1];
    }
  }

  /** Sequences with the same members are empty together. */
  lemma SameMembersEmpty(a: seq<int>, b: seq<int>)
    requires forall x :: x in a ==> x in b
    requires forall x :: x in b ==> x in a
    ensures a == [] <==> b == []
  {
    if a != [] { var x := a[0]; assert x in a; assert x in b; }
    if b != [] { var x := b[0]; assert x in b; assert x in a; }
  }

  /** Two sorted sequences with the same members start alike, and their tails have the same members. */
  lemma SortedSameHead(order: Order, a: seq<int>, b: seq<int>)
    requires StrictlySorted(order, a) && StrictlySorted(order, b) && a != [] && b != []
    requires forall x :: x in a ==> x in b
    requires forall x :: x in b ==> x in a
    ensures a[0] == b[0]
    ensures forall x :: x in a[1..] ==> x in b[1..]
    ensures forall x :: x in b[1..] ==> x in a[1..]
  {
    assert a[0] in a && b[0] in b;
    var i :| 0 <= i < |b| && b[i] == a[0];
    var j :| 0 <= j < |a| && a[j] == b[0];
    forall x | x in a[1..] ensures x in b[1..] {
      var j :| 0 <= j < |a[1..]| && a[1..][j] == x;
      assert a[j + 1] == x && Precedes(order, a[0], x);
      assert x in a;
      var i :| 0 <= i < |b| && b[i] == x;
      assert b[1..][i - 1] == x;
    }
    forall x | x in b[1..] ensures x in a[1..] {
      var j :| 0 <= j < |b[1..]| && b[1..][j] == x;
      assert b[j + 1] == x && Precedes(order, b[0], x);
      assert x in b;
      var i :| 0 <= i < |a| && a[i] == x;
      assert a[1..][i - 1] == x;
    }
  }

  /** Two sorted sets with the same elements are the same sequence. */
  lemma {:induction false} SortedUnique(order: Order, a: seq<int>, b: seq<int>)
    requires StrictlySorted(order, a) && StrictlySorted(order, b)
    requires forall x :: x in a ==> x in b
    requires forall x :: x in b ==> x in a
    ensures a == b
  {
    SameMembersEmpty(a, b);
    if a != [] {
      SortedSameHead(order, a, b);
      SortedTail(order, a);
      SortedTail(order, b);
      SortedUnique(order, a[1..], b[1..]);
      assert a == [a[0]] + a[1..] && b == [b[0]] + b[1..];
    }
  }

  /** The first `n` terms of the progression from `first` by `delta`. */
  function Progression(first: int, delta: int, n: nat): (p: seq<int>)
    ensures |p| == n && forall k :: 0 <= k < n ==> p[k] == Term(first, delta, k)
  {
    seq(n, k requires 0 <= k < n => Term(first, delta, k))
  }

  /** A progression with a non-zero step is strictly sorted in the order `init` picks for the step. */
  lemma ProgressionSorted(delta: Int, first: int, n: nat)
    requires delta != 0 || n <= 1
    ensures StrictlySorted(OrderFor(delta), Progression(first, delta, n))
  {
    var p := Progression(first, delta, n);
    forall i, j | 0 <= i < j < n ensures Precedes(OrderFor(delta), p[i], p[j]) {
      ProgressionOrdered(delta, first, i, j);
    }
  }

  /** A progression that stays within `long` steps by `delta` in `long` arithmetic. */
  lemma ProgressionSteps(delta: Int, first: int, n: nat)
    requires forall k :: 0 <= k < n ==> LONG_MIN <= Term(first, delta, k) <= LONG_MAX
    ensures Steps(Progression(first, delta, n), delta)
  {
    var p := Progression(first, delta, n);
    forall k | 1 <= k < n ensures p[k] == WrapLong(p[k - 1] + delta) {
      assert Term(first, delta, k) == Term(first, delta, k - 1) + delta;
    }
  }

  /**
   * The converse: distinct values that make up a progression `first + k * delta` (non-zero delta,
   * or a single value) pass the step check once sorted, and the sorted set starts at `first`.
   */
  lemma ProgressionPasses(delta: Int, first: Long, values: seq<Long>)
    requires Distinct(values) && values != []
    requires delta != 0 || |values| == 1
    requires forall x :: x in values <==> exists k :: 0 <= k < |values| && x == Term(first, delta, k)
    ensures Steps(InsertAll(OrderFor(delta), values), delta)
    ensures InsertAll(OrderFor(delta), values)[0] == first
  {
    var order := OrderFor(delta);
    var n := |values|;
    InsertAllContents(order, values);
    var s := InsertAll(order, values);
    assert |s| == n by { assert |multiset(s)| == |multiset(values)|; }
    var p := Progression(first, delta, n);
    forall k | 0 <= k < n ensures LONG_MIN <= Term(first, delta, k) <= LONG_MAX {
      assert Term(first, delta, k) in values;
    }
    forall x ensures x in s <==> x in p {
      assert x in s <==> x in multiset(values);
      if x in values {
        var k :| 0 <= k < n && x == Term(first, delta, k);
        assert p[k] == x;
      }
    }
    ProgressionSorted(delta, first, n);
    SortedUnique(order, s, p);
    ProgressionSteps(delta, first, n);
    assert Term(first, delta, 0) == first;
  }

  // ---------------------------------------------------------------------------------------------
  // The coordinator's checks

  /** Java's `stream().flatMap(...)`: the lists one after the other. */
  function Concat(xss: seq<seq<Long>>): seq<Long>
  {
    if xss == [] then [] else xss[0] + Concat(xss[1..])
  }

  /** Appending a list to the input appends its elements to the concatenation. */
  lemma {:induction false} ConcatAppend(xss: seq<seq<Long>>, ys: seq<Long>)
    ensures Concat(xss + [ys]) == Concat(xss) + ys
  {
    if xss != [] {
      assert (xss + [ys])[1..] == xss[1..] + [ys];
      ConcatAppend(xss[1..], ys);
    } else {
      assert [ys][1..] == [];
    }
  }

  /** A value is in the concatenation exactly when it is in one of the lists. */
  lemma {:induction false} ConcatMembers(xss: seq<seq<Long>>, v: Long)
    ensures v in Concat(xss) <==> exists i :: 0 <= i < |xss| && v in xss[i]
  {
    if xss != [] {
      ConcatMembers(xss[1..], v);
      if v in Concat(xss[1..]) {
        var i :| 0 <= i < |xss[1..]| && v in xss[1..][i];
        assert v in xss[i + 1];
      }
      if exists i :: 0 <= i < |xss| && v in xss[i] {
        var i :| 0 <= i < |xss| && v in xss[i];
        if i > 0 { assert v in xss[1..][i - 1]; }
      }
    }
  }

  /** `instancesOf(acks, ClusteredCounterAck.class)`, mapped to their values. */
  function CounterAckValues(acks: seq<DistStageAck>): seq<seq<Long>>
  {
    if acks == [] then []
    else
      var rest := CounterAckValues(acks[1..]);
      if acks[0].ClusteredCounterAck? then [acks[0].values] + rest else rest
  }

  /** A value repeated inside one list is repeated in the concatenation. */
  lemma {:induction false} DuplicateInOneList(xss: seq<seq<Long>>, k: int)
    requires 0 <= k < |xss| && !Distinct(xss[k])
    ensures !Distinct(Concat(xss))
  {
    var c := Concat(xss);
    var r := Concat(xss[1..]);
    assert c == xss[0] + r;
    if k == 0 {
      var p, q :| 0 <= p < q < |xss[0]| && xss[0][p] == xss[0][q];
      assert c[p] == c[q];
    } else {
      assert xss[1..][k - 1] == xss[k];
      DuplicateInOneList(xss[1..], k - 1);
      var p, q :| 0 <= p < q < |r| && r[p] == r[q];
      assert c[|xss[0]| + p] == c[|xss[0]| + q];
    }
  }

  /** A value found in two different lists is repeated in the concatenation. */
  lemma {:induction false} SharedValueIsDuplicate(xss: seq<seq<Long>>, i: int, j: int, v: Long)
    requires 0 <= i < j < |xss| && v in xss[i] && v in xss[j]
    ensures !Distinct(Concat(xss))
  {
    var c := Concat(xss);
    var r := Concat(xss[1..]);
    assert c == xss[0] + r;
    if i == 0 {
      assert v in xss[1..][j - 1];
      ConcatMembers(xss[1..], v);
      var p :| 0 <= p < |xss[0]| && xss[0][p] == v;
      var q :| 0 <= q < |r| && r[q] == v;
      assert c[p] == c[|xss[0]| + q];
    } else {
      assert xss[1..][i - 1] == xss[i] && xss[1..][j - 1] == xss[j];
      SharedValueIsDuplicate(xss[1..], i - 1, j - 1, v);
      var p, q :| 0 <= p < q < |r| && r[p] == r[q];
      assert c[|xss[0]| + p] == c[|xss[0]| + q];
    }
  }

  /** The values of every counter acknowledgement are among the lists the coordinator concatenates. */
  lemma {:induction false} CounterAckValuesHas(acks: seq<DistStageAck>, k: int)
    requires 0 <= k < |acks| && acks[k].ClusteredCounterAck?
    ensures exists m :: 0 <= m < |CounterAckValues(acks)| && CounterAckValues(acks)[m] == acks[k].values
  {
    var rest := CounterAckValues(acks[1..]);
    if k == 0 {
      assert CounterAckValues(acks)[0] == acks[0].values;
    } else {
      assert acks[1..][k - 1] == acks[k];
      CounterAckValuesHas(acks[1..], k - 1);
      var m :| 0 <= m < |rest| && rest[m] == acks[k].values;
      if acks[0].ClusteredCounterAck? {
        assert CounterAckValues(acks)[m + 1] == acks[k].values;
      } else {
        assert CounterAckValues(acks)[m] == acks[k].values;
      }
    }
  }

  /**
   * Two stressors of one worker that recorded the same value put it twice into the values the
   * coordinator checks, so `getSortedValues` (and with it `processAckOnMaster`) rejects the run.
   */
  lemma SharedValueIsRejected(logics: seq<StrongCounterLogic>, i: int, j: int, v: Long, acks: seq<DistStageAck>, k: int)
    requires 0 <= i < j < |logics| && v in logics[i].valueSequence && v in logics[j].valueSequence
    requires 0 <= k < |acks| && acks[k] == NewStatisticsAck(logics)
    ensures !Distinct(Concat(CounterAckValues(acks)))
  {
    var sequences := seq(|logics|, n requires 0 <= n < |logics| reads logics => logics[n].valueSequence);
    assert sequences[i] == logics[i].valueSequence && sequences[j] == logics[j].valueSequence;
    SharedValueIsDuplicate(sequences, i, j, v);
    CounterAckValuesHas(acks, k);
    var m :| 0 <= m < |CounterAckValues(acks)| && CounterAckValues(acks)[m] == acks[k].values;
    DuplicateInOneList(CounterAckValues(acks), m);
  }

  /** One step of `getSortedValues`: the set holds `values[i]` exactly when an earlier value equals it. */
  lemma SeenBefore(order: Order, values: seq<Long>, i: nat)
    requires i < |values| && Distinct(values[..i])
    ensures values[i] in InsertAll(order, values[..i]) <==> values[i] in values[..i]
    ensures values[i] !in values[..i] ==> Distinct(values[..i + 1])
    ensures values[..i + 1] == values[..i] + [values[i]]
  {
    InsertAllContents(order, values[..i]);
    assert values[i] in InsertAll(order, values[..i]) <==> values[i] in multiset(values[..i]);
    assert values[..i + 1] == values[..i] + [values[i]];
  }

  /** `e` names the first value of `values` that an earlier one repeats. */
  predicate FirstRepeat(values: seq<Long>, e: CounterError)
  {
    exists k :: 0 <= k < |values| && Distinct(values[..k]) && values[k] in values[..k] && e == Duplicate(values[k])
  }

  /** `e` names the first value of `sorted` that is not its predecessor plus `delta`, and what was expected. */
  predicate FirstSkip(delta: int, sorted: seq<Long>, e: CounterError)
  {
    exists k :: 1 <= k < |sorted| && Steps(sorted[..k], delta)
      && sorted[k] != WrapLong(sorted[k - 1] + delta)
      && e == Skipped(WrapLong(sorted[k - 1] + delta), sorted[k])
  }

  /**
   * `getSortedValues`: adds the concatenated values to a `TreeSet` under `order`, throwing on the
   * first value already in the set.
   */
  method GetSortedValues(order: Order, counterAcks: seq<seq<Long>>) returns (r: Result<seq<Long>, CounterError>)
    ensures r.Success? <==> Distinct(Concat(counterAcks))
    ensures r.Success? ==> r.value == InsertAll(order, Concat(counterAcks))
    ensures r.Success? ==> StrictlySorted(order, r.value) && multiset(r.value) == multiset(Concat(counterAcks))
    ensures r.Failure? ==> FirstRepeat(Concat(counterAcks), r.error)
  {
    var values := Concat(counterAcks);
    var allValues: seq<Long> := [];
    var i := 0;
    while i < |values|
      invariant 0 <= i <= |values|
      invariant Distinct(values[..i])
      invariant allValues == InsertAll(order, values[..i])
    {
      SeenBefore(order, values, i);
      if values[i] in allValues {
        return Failure(Duplicate(values[i]));
      }
      allValues := InsertSorted(order, allValues, values[i]);
      i := i + 1;
    }
    assert values[..i] == values;
    InsertAllContents(order, values);
    return Success(allValues);
  }

  /**
   * `assertNoSkipped`: fails on an empty set; otherwise walks the values after the first and fails
   * at the first one that is not its predecessor plus `delta`.
   */
  method AssertNoSkipped(delta: Int, values: seq<Long>) returns (r: Outcome<CounterError>)
    ensures r.Pass? <==> values != [] && Steps(values, delta)
    ensures values == [] ==> r == Fail(NoSuchElement)
    ensures r.Fail? && values != [] ==> FirstSkip(delta, values, r.error)
  {
    if values == [] {
      return Fail(NoSuchElement);
    }
    var first := values[0];
    var previous := first;
    var i := 1;
    while i < |values|
      invariant 1 <= i <= |values|
      invariant previous == values[i - 1]
      invariant Steps(values[..i], delta)
    {
      var expected := WrapLong(previous + delta);
      if values[i] != expected {
        return Fail(Skipped(expected, values[i]));
      }
      previous := values[i];
      i := i + 1;
    }
    assert values[..i] == values;
    return Pass;
  }

  /**
   * The master's check of the collected value lists: no value twice, then no gap in the values
   * sorted in counter order. A failure names the first repeat, or the first gap.
   */
  method CheckValues(order: Order, delta: Int, lists: seq<seq<Long>>) returns (r: Outcome<CounterError>)
    ensures var values := Concat(lists);
      r.Pass? <==> Distinct(values) && values != [] && Steps(InsertAll(order, values), delta)
    ensures r.Fail? ==>
      var values := Concat(lists);
      if !Distinct(values) then FirstRepeat(values, r.error)
      else if values == [] then r.error == NoSuchElement
      else FirstSkip(delta, InsertAll(order, values), r.error)
  {
    var allValues := GetSortedValues(order, lists);
    if allValues.Failure? {
      return Fail(allValues.error);
    }
    InsertAllContents(order, Concat(lists));
    assert allValues.value == [] <==> Concat(lists) == [] by {
      assert |allValues.value| == |multiset(allValues.value)|;
    }
    r := AssertNoSkipped(delta, allValues.value);
  }

  /** The stage's configuration as `init` leaves it. */
  class StrongCounterTestStage {
    const initialValue: Int
    const operationName: OperationName
    var delta: Int
    var comparator: Order

    constructor (initialValue: Int, operationName: OperationName, delta: Int)
      ensures this.initialValue == initialValue && this.operationName == operationName
      ensures this.delta == delta && comparator == NaturalOrder
    {
      this.initialValue := initialValue;
      this.operationName := operationName;
      this.delta := delta;
      comparator := NaturalOrder;
    }

    /**
     * `init`: increment and decrement force a delta of 1 and -1, add-and-get keeps the configured
     * one; the comparator is reverse order exactly when the delta is negative.
     */
    method Init()
      modifies this
      ensures operationName == IncrementAndGetName ==> delta == 1
      ensures operationName == DecrementAndGetName ==> delta == -1
      ensures operationName == AddAndGetName ==> delta == old(delta)
      ensures comparator == ReverseOrder <==> delta < 0
      ensures comparator == OrderFor(delta)
    {
      if operationName == IncrementAndGetName {
        delta := 1;
      } else if operationName == DecrementAndGetName {
        delta := -1;
      }
      if delta < 0 {
        comparator := ReverseOrder;
      } else {
        comparator := NaturalOrder;
      }
    }

    /**
     * `processAckOnMaster`: an error from the inherited processing is returned as it is; otherwise
     * the values of all counter acknowledgements must be distinct and, sorted, step by `delta`.
     */
    method ProcessAckOnMaster(parent: StageResult, acks: seq<DistStageAck>) returns (r: Result<StageResult, CounterError>)
      ensures parent.isError ==> r == Success(parent)
      ensures r.Success? ==> r.value == parent
      ensures !parent.isError ==>
        var values := Concat(CounterAckValues(acks));
        (r.Success? <==> Distinct(values) && values != [] && Steps(InsertAll(comparator, values), delta))
      ensures !parent.isError && r.Failure? ==>
        var values := Concat(CounterAckValues(acks));
        if !Distinct(values) then FirstRepeat(values, r.error)
        else if values == [] then r.error == NoSuchElement
        else FirstSkip(delta, InsertAll(comparator, values), r.error)
    {
      if parent.isError {
        return Success(parent);
      }
      var check := CheckValues(comparator, delta, CounterAckValues(acks));
      if check.Fail? {
        return Failure(check.error);
      }
      return Success(parent);
    }
  }

  /**
   * Once `init` has run, a passing check means the reported values are exactly a progression from
   * the first value in counter order.
   */
  lemma PassedCheckMeansProgression(delta: Int, values: seq<Long>)
    requires Distinct(values) && Steps(InsertAll(OrderFor(delta), values), delta)
    ensures var s := InsertAll(OrderFor(delta), values);
      |s| == |values| && forall x :: x in values <==> exists k :: 0 <= k < |s| && x == Term(s[0], delta, k)
  {
    var s := InsertAll(OrderFor(delta), values);
    InsertAllContents(OrderFor(delta), values);
    assert |s| == |values| by { assert |multiset(s)| == |multiset(values)|; }
    StepsGiveProgression(delta, s);
    forall x ensures x in values <==> exists k :: 0 <= k < |s| && x == Term(s[0], delta, k) {
      assert x in values <==> x in multiset(s);
      if x in s {
        var k :| 0 <= k < |s| && s[k] == x;
        assert x == Term(s[0], delta, k);
      }
    }
  }

  // ---------------------------------------------------------------------------------------------
  // The per-stressor logic

  /** `assertNotEqual`: a request must change the counter. */
  function AssertNotEqual(previous: Long, current: Long): (r: Outcome<CounterError>)
    ensures r.Pass? <==> previous != current
    ensures r.Fail? ==> r.error == Unchanged(previous)
  {
    if previous == current then Fail(Unchanged(previous)) else Pass
  }

  /** The values one stressor saw, starting from `initialValue`. */
  class StrongCounterLogic {
    const initialValue: Int
    var previousValue: Long
    var valueSequence: seq<Long>

    /** The counter never returned the same value twice in a row, starting from the initial value. */
    ghost predicate Valid()
      reads this
    {
      && (valueSequence == [] ==> previousValue == initialValue)
      && (valueSequence != [] ==> previousValue == valueSequence[|valueSequence| - 1] && valueSequence[0] != initialValue)
      && forall k :: 1 <= k < |valueSequence| ==> valueSequence[k] != valueSequence[k - 1]
    }

    constructor (initialValue: Int)
      ensures Valid() && this.initialValue == initialValue
      ensures previousValue == initialValue && valueSequence == []
    {
      this.initialValue := initialValue;
      previousValue := initialValue;
      valueSequence := [];
    }

    /**
     * `run`: for a counter operation, the reply must differ from the previous value; it then becomes
     * the previous value and is appended to the sequence. Any failure leaves both alone.
     */
    method Run(operation: Operation, reply: Reply) returns (r: Outcome<CounterError>)
      requires Valid()
      modifies this
      ensures Valid()
      ensures r.Pass? <==> !operation.OtherOperation? && reply.Returned? && reply.value != old(previousValue)
      ensures r.Pass? ==> previousValue == reply.value && valueSequence == old(valueSequence) + [reply.value]
      ensures r.Fail? ==> previousValue == old(previousValue) && valueSequence == old(valueSequence)
      ensures operation.OtherOperation? ==> r == Fail(IllegalArgument(operation.name))
      ensures !operation.OtherOperation? && reply.Threw? ==> r == Fail(RequestFailed)
    {
      var currentValue: Long;
      if operation.OtherOperation? {
        return Fail(IllegalArgument(operation.name));
      }
      if reply.Threw? {
        return Fail(RequestFailed);
      }
      currentValue := reply.value;
      var check := AssertNotEqual(previousValue, currentValue);
      if check.Fail? {
        return check;
      }
      previousValue := currentValue;
      valueSequence := valueSequence + [currentValue];
      return Pass;
    }
  }

  /**
   * `newStatisticsAck`: the values of all stressors, stressor after stressor, each in its own
   * order, repeats included.
   */
  function NewStatisticsAck(logics: seq<StrongCounterLogic>): (r: DistStageAck)
    reads logics
    ensures r.ClusteredCounterAck?
    ensures r.values == Concat(seq(|logics|, i requires 0 <= i < |logics| reads logics => logics[i].valueSequence))
    ensures forall v :: v in r.values <==> exists i :: 0 <= i < |logics| && v in logics[i].valueSequence
  {
    var sequences := seq(|logics|, i requires 0 <= i < |logics| reads logics => logics[i].valueSequence);
    forall v ensures v in Concat(sequences) <==> exists i :: 0 <= i < |logics| && v in logics[i].valueSequence {
      ConcatMembers(sequences, v);
      assert forall i :: 0 <= i < |logics| ==> sequences[i] == logics[i].valueSequence;
    }
    ClusteredCounterAck(Concat(sequences))
  }

  /** Sorting the values 1, 3, 2, 4 in natural order. */
  lemma ExampleInsertAll()
    ensures InsertAll(NaturalOrder, [1, 3, 2, 4]) == [1, 2, 3, 4]
  {
    assert [1, 3, 2, 4][..3] == [1, 3, 2];
    assert [1, 3, 2][..2] == [1, 3];
    assert [1, 3][..1] == [1];
    assert [1][..0] == [];
    assert InsertAll(NaturalOrder, [1]) == [1];
    assert InsertAll(NaturalOrder, [1, 3]) == [1, 3];
    assert InsertAll(NaturalOrder, [1, 3, 2]) == [1, 2, 3] by {
      assert [1, 3][1..] == [3];
      assert InsertSorted(NaturalOrder, [3], 2) == [2, 3];
    }
    assert InsertSorted(NaturalOrder, [1, 2, 3], 4) == [1, 2, 3, 4] by {
      assert [1, 2, 3][1..] == [2, 3];
      assert [2, 3][1..] == [3];
      assert [3][1..] == [];
      assert InsertSorted(NaturalOrder, [3], 4) == [3, 4];
      assert InsertSorted(NaturalOrder, [2, 3], 4) == [2, 3, 4];
    }
  }

  /** Two workers that both report the value 2: the coordinator rejects the run naming 2. */
  method DuplicateRunExample() returns (r: Result<StageResult, CounterError>)
    ensures r == Failure(Duplicate(2))
  {
    var stage := new StrongCounterTestStage(0, IncrementAndGetName, 1);
    stage.Init();
    var acks := [ClusteredCounterAck([1, 2]), ClusteredCounterAck([2, 3])];
    assert acks[1..] == [ClusteredCounterAck([2, 3])] && acks[1..][1..] == [];
    assert CounterAckValues(acks) == [[1, 2], [2, 3]];
    var values := Concat(CounterAckValues(acks));
    assert [[1, 2], [2, 3]][1..] == [[2, 3]] && [[2, 3]][1..] == [];
    assert values == [1, 2, 2, 3];
    assert values[..2] == [1, 2];
    assert !Distinct(values) by { assert values[1] == values[2]; }
    assert !Distinct(values[..3]) by { assert values[..3][1] == values[..3][2]; }
    r := stage.ProcessAckOnMaster(StageResult(false), acks);
  }

  /** Two stressors that saw 1, 3 and 2, 4: the coordinator accepts the run. */
  method ConsistentRunExample() returns (r: Result<StageResult, CounterError>)
    ensures r == Success(StageResult(false))
  {
    var stage := new StrongCounterTestStage(0, IncrementAndGetName, 7);
    stage.Init();
    var acks := [ClusteredCounterAck([1, 3]), OtherAck, ClusteredCounterAck([2, 4])];
    assert Concat(CounterAckValues(acks)) == [1, 3, 2, 4];
    assert Distinct([1, 3, 2, 4]);
    ExampleInsertAll();
    r := stage.ProcessAckOnMaster(StageResult(false), acks);
  }
}
