/**
 * The bookkeeping of the HTML timeline report (`org.radargun.reporting.html.TimelineDocument`):
 * the constructor sorts the workers' timelines, takes the overall first and last timestamp, gives
 * every category name a dense id in first-seen order and records the range of values of each
 * category; `range` widens a category's range to include 0. Chart drawing is not part of this
 * model.
 */
module TimelineReport {
  import opened Wrappers
  import opened JavaNumbers
  import JavaStrings
  import opened Timelines

  // ---------------------------------------------------------------------------------------------
  // Category ids: a `TreeMap<Category, Integer>`, whose keys are told apart by name only

  /** The entry a `TreeMap` keeps for one name: the first category put under it, and its id. */
  datatype Entry = Entry(key: Category, id: int)

  /** A `TreeMap<Category, Integer>` ordered by `Category.compareTo`, indexed by category name. */
  type CategoryIds = map<string, Entry>

  /** `if (!ids.containsKey(c)) ids.put(c, ids.size())`. */
  function PutIfAbsent(ids: CategoryIds, c: Category): CategoryIds
  {
    if c.name in ids then ids else ids[c.name := Entry(c, |ids|)]
  }

  /** The map after `PutIfAbsent` of each category of `cs` in order. */
  function AssignIds(ids: CategoryIds, cs: seq<Category>): CategoryIds
  {
    if cs == [] then ids else PutIfAbsent(AssignIds(ids, cs[..|cs| - 1]), cs[|cs| - 1])
  }

  /** Every entry is filed under its own category's name, and the ids are exactly 0 .. size-1. */
  predicate Dense(ids: CategoryIds)
  {
    && (forall n :: n in ids ==> ids[n].key.name == n && 0 <= ids[n].id < |ids|)
    && (forall n, m :: n in ids && m in ids && n != m ==> ids[n].id != ids[m].id)
  }

  function Names(cs: seq<Category>): set<string>
  {
    set k | 0 <= k < |cs| :: cs[k].name
  }

  /** `cs[k]` is the first category of `cs` with its name. */
  predicate FirstSeenAt(cs: seq<Category>, k: int)
    requires 0 <= k < |cs|
  {
    forall j :: 0 <= j < k ==> cs[j].name != cs[k].name
  }

  lemma {:induction false} AssignIdsAppend(ids: CategoryIds, a: seq<Category>, b: seq<Category>)
    ensures AssignIds(ids, a + b) == AssignIds(AssignIds(ids, a), b)
  {
    if b != [] {
      assert (a + b)[..|a + b| - 1] == a + b[..|b| - 1];
      AssignIdsAppend(ids, a, b[..|b| - 1]);
    } else {
      assert a + b == a;
    }
  }

  /** Putting a category keeps the ids dense; a new name gets the next id. */
  lemma PutIfAbsentDense(ids: CategoryIds, c: Category)
    requires Dense(ids)
    ensures Dense(PutIfAbsent(ids, c))
    ensures c.name !in ids ==> |PutIfAbsent(ids, c)| == |ids| + 1
  {
    if c.name !in ids {
      var r := PutIfAbsent(ids, c);
      assert r.Keys == ids.Keys + {c.name};
    }
  }

  lemma NamesAppend(cs: seq<Category>)
    requires cs != []
    ensures Names(cs) == Names(cs[..|cs| - 1]) + {cs[|cs| - 1].name}
  {
    var init := cs[..|cs| - 1];
    forall n | n in Names(cs) ensures n in Names(init) + {cs[|cs| - 1].name} {
      var k :| 0 <= k < |cs| && cs[k].name == n;
      if k < |cs| - 1 { assert init[k] == cs[k]; }
    }
    forall n | n in Names(init) ensures n in Names(cs) {
      var k :| 0 <= k < |init| && init[k].name == n;
      assert cs[k] == init[k];
    }
  }

  /** From an empty map, the ids are dense and filed under exactly the names seen. */
  lemma {:induction false} AssignIdsDense(cs: seq<Category>)
    ensures Dense(AssignIds(map[], cs))
    ensures AssignIds(map[], cs).Keys == Names(cs)
  {
    if cs != [] {
      var init := cs[..|cs| - 1];
      AssignIdsDense(init);
      PutIfAbsentDense(AssignIds(map[], init), cs[|cs| - 1]);
      NamesAppend(cs);
    }
  }

  /** A category that is the first of its name in `cs` is a first one in every longer prefix too. */
  lemma FirstSeenInPrefix(cs: seq<Category>, k: int)
    requires 0 <= k < |cs| - 1 && FirstSeenAt(cs, k)
    ensures FirstSeenAt(cs[..|cs| - 1], k) && cs[..|cs| - 1][k] == cs[k]
  {
  }

  /** The last category is a first one exactly when its name was not seen before it. */
  lemma LastFirstSeen(cs: seq<Category>)
    requires cs != []
    ensures FirstSeenAt(cs, |cs| - 1) <==> cs[|cs| - 1].name !in Names(cs[..|cs| - 1])
  {
    var init := cs[..|cs| - 1];
    if cs[|cs| - 1].name in Names(init) {
      var j :| 0 <= j < |init| && init[j].name == cs[|cs| - 1].name;
      assert cs[j] == init[j];
    }
  }

  /**
   * From an empty map, each name's entry holds the first category seen with that name, and its id
   * is the number of different names seen before it.
   */
  lemma {:induction false} AssignIdsFirstKey(cs: seq<Category>)
    ensures forall k :: 0 <= k < |cs| && FirstSeenAt(cs, k) ==>
      cs[k].name in AssignIds(map[], cs) && AssignIds(map[], cs)[cs[k].name] == Entry(cs[k], |Names(cs[..k])|)
  {
    if cs != [] {
      var init := cs[..|cs| - 1];
      AssignIdsFirstKey(init);
      AssignIdsDense(init);
      LastFirstSeen(cs);
      var ids := AssignIds(map[], init);
      var r := AssignIds(map[], cs);
      forall k | 0 <= k < |cs| && FirstSeenAt(cs, k)
        ensures cs[k].name in r && r[cs[k].name] == Entry(cs[k], |Names(cs[..k])|)
      {
        if k < |cs| - 1 {
          FirstSeenInPrefix(cs, k);
          assert cs[k].name in Names(init);
          assert init[..k] == cs[..k];
        } else {
          assert cs[..k] == init;
          assert |ids| == |ids.Keys|;
        }
      }
    }
  }

  /** Names seen for the first time later get larger ids. */
  lemma FirstSeenOrder(cs: seq<Category>, k: int, l: int)
    requires 0 <= k < l < |cs| && FirstSeenAt(cs, k) && FirstSeenAt(cs, l)
    ensures |Names(cs[..k])| < |Names(cs[..l])|
  {
    var a, b := Names(cs[..k]), Names(cs[..l]);
    forall n | n in a ensures n in b {
      var j :| 0 <= j < k && cs[..k][j].name == n;
      assert cs[..l][j] == cs[j];
    }
    assert cs[..l][k] == cs[k];
    assert cs[k].name in b;
    assert cs[k].name !in a;
    var d := b - a;
    assert cs[k].name in d;
    assert b == a + d && a * d == {};
    assert |d| >= 1;
  }

  /** `getValueCategoriesOfType`/`getEventCategoriesOfType`: the entries whose category type prints as `categoryType`. */
  function CategoriesOfType(ids: CategoryIds, categoryType: string): (r: map<Category, int>)
    requires Dense(ids)
    ensures forall c :: c in r <==> c.name in ids && ids[c.name].key == c && CategoryTypeName(c.categoryType) == categoryType
    ensures forall c :: c in r ==> r[c] == ids[c.name].id
  {
    map n | n in ids && CategoryTypeName(ids[n].key.categoryType) == categoryType :: ids[n].key := ids[n].id
  }

  // ---------------------------------------------------------------------------------------------
  // Value ranges

  /** `(double) Long.MAX_VALUE` and `(double) Long.MIN_VALUE`, the seeds of the running min and max. */
  const MIN_SEED: real := 9223372036854775808.0
  const MAX_SEED: real := -9223372036854775808.0

  function RealMin(a: real, b: real): real { if a <= b then a else b }

  function RealMax(a: real, b: real): real { if a >= b then a else b }

  /** The running minimum over the values of the `ValueEvent`s, from `MIN_SEED`. */
  function MinOfValues(es: seq<Event>): real
  {
    if es == [] then MIN_SEED
    else
      var m := MinOfValues(es[..|es| - 1]);
      var e := es[|es| - 1];
      if e.ValueEvent? then RealMin(m, e.value) else m
  }

  /** The running maximum over the values of the `ValueEvent`s, from `MAX_SEED`. */
  function MaxOfValues(es: seq<Event>): real
  {
    if es == [] then MAX_SEED
    else
      var m := MaxOfValues(es[..|es| - 1]);
      var e := es[|es| - 1];
      if e.ValueEvent? then RealMax(m, e.value) else m
  }

  predicate HasValueEvent(es: seq<Event>)
  {
    exists i :: 0 <= i < |es| && es[i].ValueEvent?
  }

  /**
   * The running bounds enclose every value, and `min <= max` holds exactly when there is a
   * `ValueEvent` at all.
   */
  lemma {:induction false} ValueBoundsMeaning(es: seq<Event>)
    ensures forall i :: 0 <= i < |es| && es[i].ValueEvent? ==> MinOfValues(es) <= es[i].value <= MaxOfValues(es)
    ensures MinOfValues(es) <= MIN_SEED && MaxOfValues(es) >= MAX_SEED
    ensures !HasValueEvent(es) ==> MinOfValues(es) == MIN_SEED && MaxOfValues(es) == MAX_SEED
    ensures MinOfValues(es) <= MaxOfValues(es) <==> HasValueEvent(es)
  {
    if es != [] {
      var init := es[..|es| - 1];
      ValueBoundsMeaning(init);
      forall i | 0 <= i < |es| - 1 ensures es[i] == init[i] {}
      if HasValueEvent(init) {
        var i :| 0 <= i < |init| && init[i].ValueEvent?;
        assert es[i].ValueEvent?;
      }
      if HasValueEvent(es) && !HasValueEvent(init) {
        assert es[|es| - 1].ValueEvent?;
      }
    }
  }

  /** The events of one category of one timeline, as the constructor's inner loop meets them. */
  datatype Visit = Visit(category: Category, events: seq<Event>)

  datatype Bound = Lower | Upper

  function BoundOf(b: Bound, es: seq<Event>): real
  {
    if b == Lower then MinOfValues(es) else MaxOfValues(es)
  }

  /**
   * The `minValues` (Lower) or `maxValues` (Upper) map after the visits in `vs`. The previous value
   * is looked up under the category's name, a `String`, which equals no `Category` key, so a visit
   * with values simply overwrites the category's entry.
   */
  function RecordBounds(b: Bound, m: map<Category, real>, vs: seq<Visit>): map<Category, real>
  {
    if vs == [] then m
    else
      var r := RecordBounds(b, m, vs[..|vs| - 1]);
      var v := vs[|vs| - 1];
      if MinOfValues(v.events) <= MaxOfValues(v.events) then r[v.category := BoundOf(b, v.events)] else r
  }

  lemma {:induction false} RecordBoundsAppend(b: Bound, m: map<Category, real>, vs: seq<Visit>, ws: seq<Visit>)
    ensures RecordBounds(b, m, vs + ws) == RecordBounds(b, RecordBounds(b, m, vs), ws)
  {
    if ws != [] {
      assert (vs + ws)[..|vs + ws| - 1] == vs + ws[..|ws| - 1];
      RecordBoundsAppend(b, m, vs, ws[..|ws| - 1]);
    } else {
      assert vs + ws == vs;
    }
  }

  /** The visit `k` is the last one of category `c` that has any `ValueEvent`. */
  predicate LastWithValues(vs: seq<Visit>, c: Category, k: int)
  {
    && 0 <= k < |vs| && vs[k].category == c && HasValueEvent(vs[k].events)
    && forall l :: k < l < |vs| && vs[l].category == c ==> !HasValueEvent(vs[l].events)
  }

  /** From empty maps, a category has a recorded bound exactly when one of its visits has a `ValueEvent`. */
  lemma {:induction false} RecordBoundsKeys(b: Bound, vs: seq<Visit>, c: Category)
    ensures c in RecordBounds(b, map[], vs) <==> exists k :: 0 <= k < |vs| && vs[k].category == c && HasValueEvent(vs[k].events)
  {
    if vs != [] {
      var init := vs[..|vs| - 1];
      RecordBoundsKeys(b, init, c);
      ValueBoundsMeaning(vs[|vs| - 1].events);
      if exists k :: 0 <= k < |vs| && vs[k].category == c && HasValueEvent(vs[k].events) {
        var k :| 0 <= k < |vs| && vs[k].category == c && HasValueEvent(vs[k].events);
        if k < |vs| - 1 { assert init[k] == vs[k]; }
      }
      if exists k :: 0 <= k < |init| && init[k].category == c && HasValueEvent(init[k].events) {
        var k :| 0 <= k < |init| && init[k].category == c && HasValueEvent(init[k].events);
        assert vs[k] == init[k];
      }
    }
  }

  /**
   * The bound recorded for a category is that of its last visit with a `ValueEvent` alone: the
   * visits of earlier timelines do not count.
   */
  lemma {:induction false} RecordBoundsLastVisit(b: Bound, vs: seq<Visit>, c: Category, k: int)
    requires LastWithValues(vs, c, k)
    ensures c in RecordBounds(b, map[], vs) && RecordBounds(b, map[], vs)[c] == BoundOf(b, vs[k].events)
  {
    var init := vs[..|vs| - 1];
    var v := vs[|vs| - 1];
    ValueBoundsMeaning(v.events);
    if k < |vs| - 1 {
      assert init[k] == vs[k];
      assert LastWithValues(init, c, k);
      RecordBoundsLastVisit(b, init, c, k);
    }
  }

  // ---------------------------------------------------------------------------------------------
  // Walking the timelines

  /** `Collections.sort` of timelines: ascending by worker index. */
  predicate SortedBySlave(ts: seq<Timeline>)
  {
    forall i, j :: 0 <= i < j < |ts| ==> ts[i].slaveIndex <= ts[j].slaveIndex
  }

  /** Inserts `t` after every timeline whose index is not larger. */
  function InsertBySlave(ts: seq<Timeline>, t: Timeline): seq<Timeline>
  {
    if ts == [] then [t]
    else if t.slaveIndex < ts[0].slaveIndex then [t] + ts
    else [ts[0]] + InsertBySlave(ts[1..], t)
  }

  /** Inserting adds `t` once and nothing else. */
  lemma {:induction false} InsertBySlaveMembers(ts: seq<Timeline>, t: Timeline)
    ensures multiset(InsertBySlave(ts, t)) == multiset(ts) + multiset{t}
  {
    if ts != [] && t.slaveIndex >= ts[0].slaveIndex {
      InsertBySlaveMembers(ts[1..], t);
      assert ts == [ts[0]] + ts[1..];
    }
  }

  lemma SortedBySlaveTail(ts: seq<Timeline>)
    requires SortedBySlave(ts) && ts != []
    ensures SortedBySlave(ts[1..])
  {
    var tail := ts[1..];
    forall i, j | 0 <= i < j < |tail| ensures tail[i].slaveIndex <= tail[j].slaveIndex {
      assert tail[i] == ts[i + 1] && tail[j] == ts[j + 1];
    }
  }

  lemma SortedBySlaveCons(t: Timeline, ts: seq<Timeline>)
    requires SortedBySlave(ts)
    requires forall x :: x in ts ==> t.slaveIndex <= x.slaveIndex
    ensures SortedBySlave([t] + ts)
  {
    var r := [t] + ts;
    forall i, j | 0 <= i < j < |r| ensures r[i].slaveIndex <= r[j].slaveIndex {
      assert r[j] == ts[j - 1];
      if i > 0 { assert r[i] == ts[i - 1]; }
    }
  }

  /** Inserting keeps the timelines sorted by worker index. */
  lemma {:induction false} InsertBySlaveSorted(ts: seq<Timeline>, t: Timeline)
    requires SortedBySlave(ts)
    ensures SortedBySlave(InsertBySlave(ts, t))
  {
    if ts == [] {
    } else if t.slaveIndex < ts[0].slaveIndex {
      forall x | x in ts ensures t.slaveIndex <= x.slaveIndex {
        var j :| 0 <= j < |ts| && ts[j] == x;
        assert ts[0].slaveIndex <= ts[j].slaveIndex || j == 0;
      }
      SortedBySlaveCons(t, ts);
    } else {
      var tail := ts[1..];
      SortedBySlaveTail(ts);
      InsertBySlaveSorted(tail, t);
      InsertBySlaveMembers(tail, t);
      var u := InsertBySlave(tail, t);
      forall x | x in u ensures ts[0].slaveIndex <= x.slaveIndex {
        assert x in multiset(u);
        if x != t {
          assert x in multiset(tail);
          var j :| 0 <= j < |tail| && tail[j] == x;
          assert ts[j + 1] == x;
        }
      }
      SortedBySlaveCons(ts[0], u);
    }
  }

  /** `new ArrayList<>(timelines)` then `Collections.sort`: a sorted copy; the caller's list is a value here. */
  method SortBySlaveIndex(ts: seq<Timeline>) returns (r: seq<Timeline>)
    ensures SortedBySlave(r) && multiset(r) == multiset(ts)
  {
    r := [];
    var i := 0;
    while i < |ts|
      invariant 0 <= i <= |ts|
      invariant SortedBySlave(r) && multiset(r) == multiset(ts[..i])
    {
      InsertBySlaveSorted(r, ts[i]);
      InsertBySlaveMembers(r, ts[i]);
      assert ts[..i + 1] == ts[..i] + [ts[i]];
      r := InsertBySlave(r, ts[i]);
      i := i + 1;
    }
    assert ts[..i] == ts;
  }

  predicate DistinctCategories(cs: seq<Category>)
  {
    forall i, j :: 0 <= i < j < |cs| ==> cs[i] != cs[j]
  }

  /** `order` lists every element of `keys` once. */
  predicate IsEnumeration(order: seq<Category>, keys: set<Category>)
  {
    && DistinctCategories(order)
    && (forall c :: c in order ==> c in keys)
    && (forall c :: c in keys ==> c in order)
  }

  /** A `HashMap` key set's iteration order, which Java leaves unspecified: any order will do. */
  method KeyOrder(keys: set<Category>) returns (order: seq<Category>)
    ensures IsEnumeration(order, keys)
  {
    order := [];
    var rest := keys;
    while rest != {}
      invariant rest <= keys
      invariant forall c :: c in order <==> c in keys && c !in rest
      invariant DistinctCategories(order)
      decreases |rest|
    {
      var c :| c in rest;
      order := order + [c];
      rest := rest - {c};
    }
  }

  function EventsIn(events: map<Category, seq<Event>>, c: Category): seq<Event>
  {
    if c in events then events[c] else []
  }

  /** The visits of one timeline's categories in `order`. */
  function TimelineVisits(events: map<Category, seq<Event>>, order: seq<Category>): (vs: seq<Visit>)
    ensures |vs| == |order|
    ensures forall k :: 0 <= k < |order| ==> vs[k] == Visit(order[k], EventsIn(events, order[k]))
  {
    if order == [] then []
    else TimelineVisits(events, order[..|order| - 1]) + [Visit(order[|order| - 1], EventsIn(events, order[|order| - 1]))]
  }

  /** What the report reads of one timeline, taken as a value: its event map and its two bounds. */
  datatype TimelineData = TimelineData(events: map<Category, seq<Event>>, firstTimestamp: Long, lastTimestamp: Long)

  /** The timelines' current event maps and bounds, one per timeline. */
  ghost function Snapshot(ts: seq<Timeline>): (ds: seq<TimelineData>)
    reads ts
    ensures |ds| == |ts|
    ensures forall k :: 0 <= k < |ts| ==> ds[k] == TimelineData(ts[k].events, ts[k].firstTimestamp, ts[k].lastTimestamp)
  {
    seq(|ts|, k reads ts requires 0 <= k < |ts| => TimelineData(ts[k].events, ts[k].firstTimestamp, ts[k].lastTimestamp))
  }

  /** The visits of all timelines, each timeline's categories in its own order. */
  function VisitsOf(ds: seq<TimelineData>, orders: seq<seq<Category>>): seq<Visit>
    requires |orders| == |ds|
  {
    if ds == [] then []
    else VisitsOf(ds[..|ds| - 1], orders[..|ds| - 1]) + TimelineVisits(ds[|ds| - 1].events, orders[|ds| - 1])
  }

  function Flatten(orders: seq<seq<Category>>): seq<Category>
  {
    if orders == [] then [] else Flatten(orders[..|orders| - 1]) + orders[|orders| - 1]
  }

  function Firsts(ds: seq<TimelineData>): seq<int>
  {
    if ds == [] then [] else Firsts(ds[..|ds| - 1]) + [ds[|ds| - 1].firstTimestamp]
  }

  function Lasts(ds: seq<TimelineData>): seq<int>
  {
    if ds == [] then [] else Lasts(ds[..|ds| - 1]) + [ds[|ds| - 1].lastTimestamp]
  }

  /** The constructor's innermost loop: the running min and max over the `ValueEvent`s of one list. */
  method ValueBounds(events: seq<Event>) returns (min: real, max: real)
    ensures min == MinOfValues(events) && max == MaxOfValues(events)
  {
    min, max := MIN_SEED, MAX_SEED;
    var i := 0;
    while i < |events|
      invariant 0 <= i <= |events|
      invariant min == MinOfValues(events[..i]) && max == MaxOfValues(events[..i])
    {
      assert events[..i + 1][..i] == events[..i];
      var event := events[i];
      if event.ValueEvent? {
        var d := event.value;
        max := RealMax(max, d);
        min := RealMin(min, d);
      }
      i := i + 1;
    }
    assert events[..i] == events;
  }

  /** The constructor's first inner loop: ids for the categories of one timeline. */
  method RegisterCategories(ids: CategoryIds, order: seq<Category>) returns (r: CategoryIds)
    ensures r == AssignIds(ids, order)
  {
    r := ids;
    var j := 0;
    while j < |order|
      invariant 0 <= j <= |order|
      invariant r == AssignIds(ids, order[..j])
    {
      assert order[..j + 1][..j] == order[..j];
      if order[j].name !in r {
        r := r[order[j].name := Entry(order[j], |r|)];
      }
      j := j + 1;
    }
    assert order[..j] == order;
  }

  /**
   * The constructor's second inner loop over one timeline: ids for its categories, and for each
   * category with any `ValueEvent` its min and max, overwriting what an earlier timeline recorded.
   */
  method RecordValueCategories(t: Timeline, order: seq<Category>, valueIds: CategoryIds,
                               minValues: map<Category, real>, maxValues: map<Category, real>)
    returns (ids: CategoryIds, mins: map<Category, real>, maxs: map<Category, real>)
    requires t.Valid() && forall c :: c in order ==> c in t.events
    ensures ids == AssignIds(valueIds, order)
    ensures mins == RecordBounds(Lower, minValues, TimelineVisits(t.events, order))
    ensures maxs == RecordBounds(Upper, maxValues, TimelineVisits(t.events, order))
  {
    ids, mins, maxs := valueIds, minValues, maxValues;
    ghost var all := t.events;
    var j := 0;
    while j < |order|
      invariant 0 <= j <= |order|
      invariant ids == AssignIds(valueIds, order[..j])
      invariant mins == RecordBounds(Lower, minValues, TimelineVisits(all, order[..j]))
      invariant maxs == RecordBounds(Upper, maxValues, TimelineVisits(all, order[..j]))
    {
      var category := order[j];
      ghost var visits := TimelineVisits(all, order[..j]);
      AssignIdsStep(valueIds, order, j);
      TimelineVisitsStep(all, order, j);
      if category.name !in ids {
        ids := ids[category.name := Entry(category, |ids|)];
      }
      assert category in t.events;
      var events := t.GetEvents(category).value;
      assert events == EventsIn(all, category);
      var min, max := ValueBounds(events);
      RecordBoundsStep(Lower, minValues, visits, Visit(category, events));
      RecordBoundsStep(Upper, maxValues, visits, Visit(category, events));
      ghost var next := visits + [Visit(category, events)];
      assert TimelineVisits(all, order[..j + 1]) == next;
      assert BoundOf(Lower, events) == min && BoundOf(Upper, events) == max;
      if min <= max {
        // `minValues.get(category.getName())` looks a `String` up among `Category` keys and always
        // gets null, so the new bounds are stored as they are
        mins := mins[category := min];
        maxs := maxs[category := max];
      }
      j := j + 1;
    }
    assert order[..j] == order;
  }

  lemma PrefixStep<T>(s: seq<T>, j: int)
    requires 0 <= j < |s|
    ensures s[..j + 1][..j] == s[..j] && s[..j + 1][j] == s[j]
  {
  }

  lemma AssignIdsStep(ids: CategoryIds, cs: seq<Category>, j: int)
    requires 0 <= j < |cs|
    ensures AssignIds(ids, cs[..j + 1]) == PutIfAbsent(AssignIds(ids, cs[..j]), cs[j])
  {
    PrefixStep(cs, j);
  }

  /** Visiting `order[j]` appends its visit. */
  lemma TimelineVisitsStep(events: map<Category, seq<Event>>, order: seq<Category>, j: int)
    requires 0 <= j < |order|
    ensures TimelineVisits(events, order[..j + 1]) == TimelineVisits(events, order[..j]) + [Visit(order[j], EventsIn(events, order[j]))]
  {
    PrefixStep(order, j);
  }

  /** One more visit records its bound exactly when it has a `ValueEvent`. */
  lemma RecordBoundsStep(b: Bound, m: map<Category, real>, vs: seq<Visit>, v: Visit)
    ensures RecordBounds(b, m, vs + [v]) ==
      if MinOfValues(v.events) <= MaxOfValues(v.events) then RecordBounds(b, m, vs)[v.category := BoundOf(b, v.events)]
      else RecordBounds(b, m, vs)
  {
    assert (vs + [v])[..|vs|] == vs;
  }

  /** The sys category `"&nbsp;"` that stands in when no timeline has any category. */
  const DEFAULT_CATEGORY: Category := SysCategory("&nbsp;")

  /** What one round of the constructor's outer loop adds to each of the walk's summaries. */
  lemma WalkStep(ds: seq<TimelineData>, i: nat, orders: seq<seq<Category>>, order: seq<Category>)
    requires i < |ds| && |orders| == i
    ensures MinFold(LONG_MAX, Firsts(ds[..i + 1])) == Min(MinFold(LONG_MAX, Firsts(ds[..i])), ds[i].firstTimestamp)
    ensures MaxFold(LONG_MIN, Lasts(ds[..i + 1])) == Max(MaxFold(LONG_MIN, Lasts(ds[..i])), ds[i].lastTimestamp)
    ensures VisitsOf(ds[..i + 1], orders + [order]) == VisitsOf(ds[..i], orders) + TimelineVisits(ds[i].events, order)
    ensures Flatten(orders + [order]) == Flatten(orders) + order
  {
    var t := ds[..i + 1];
    assert t[..i] == ds[..i] && t[i] == ds[i];
    assert (orders + [order])[..i] == orders;
    var f := Firsts(ds[..i]) + [ds[i].firstTimestamp];
    assert Firsts(t) == f && f[..|f| - 1] == Firsts(ds[..i]);
    var l := Lasts(ds[..i]) + [ds[i].lastTimestamp];
    assert Lasts(t) == l && l[..|l| - 1] == Lasts(ds[..i]);
  }

  /** The value ids when no timeline has any category: the default category with id 0. */
  function DefaultIds(): CategoryIds
  {
    map[DEFAULT_CATEGORY.name := Entry(DEFAULT_CATEGORY, 0)]
  }

  /** The default ids are dense. */
  lemma DefaultIdsDense()
    ensures Dense(DefaultIds()) && |DefaultIds()| == 1
  {
    assert DefaultIds().Keys == {DEFAULT_CATEGORY.name};
  }

  /** With no category at all the id map is empty, and with some it is not. */
  lemma NoCategories(cs: seq<Category>)
    ensures AssignIds(map[], cs) == map[] <==> cs == []
  {
    AssignIdsDense(cs);
    if cs != [] {
      assert cs[0].name in Names(cs);
    }
  }

  /** `orders[k]` lists the categories of timeline `ds[k]`, for every `k`. */
  predicate KeyOrders(orders: seq<seq<Category>>, ds: seq<TimelineData>)
  {
    |orders| == |ds| && forall k :: 0 <= k < |ds| ==> IsEnumeration(orders[k], ds[k].events.Keys)
  }

  lemma KeyOrdersStep(orders: seq<seq<Category>>, ds: seq<TimelineData>, i: int, order: seq<Category>)
    requires 0 <= i < |ds| && KeyOrders(orders, ds[..i]) && IsEnumeration(order, ds[i].events.Keys)
    ensures KeyOrders(orders + [order], ds[..i + 1])
  {
    var o := orders + [order];
    forall k | 0 <= k < i + 1 ensures IsEnumeration(o[k], ds[..i + 1][k].events.Keys) {
      if k < i {
        assert o[k] == orders[k] && ds[..i + 1][k] == ds[..i][k];
      }
    }
  }

  /** What the constructor's outer loop computes from the sorted timelines. */
  datatype Walked = Walked(start: Long, end: Long, eventIds: CategoryIds, valueIds: CategoryIds,
                           mins: map<Category, real>, maxs: map<Category, real>)

  /**
   * One round of the constructor's outer loop: widen the timestamp range by the timeline's, then
   * register its categories for events, then for values with their bounds. `order` is the order
   * in which its category set was met.
   */
  method VisitTimeline(t: Timeline, w: Walked) returns (w': Walked, ghost order: seq<Category>)
    requires t.Valid()
    ensures IsEnumeration(order, t.events.Keys)
    ensures w'.start == Min(w.start, t.firstTimestamp) && w'.end == Max(w.end, t.lastTimestamp)
    ensures w'.eventIds == AssignIds(w.eventIds, order) && w'.valueIds == AssignIds(w.valueIds, order)
    ensures w'.mins == RecordBounds(Lower, w.mins, TimelineVisits(t.events, order))
    ensures w'.maxs == RecordBounds(Upper, w.maxs, TimelineVisits(t.events, order))
  {
    var start := Min(w.start, t.GetFirstTimestamp());
    var end := Max(w.end, t.GetLastTimestamp());
    var keys := t.GetEventCategories();
    var categories := KeyOrder(keys);
    var eventIds := RegisterCategories(w.eventIds, categories);
    var valueIds, mins, maxs := RecordValueCategories(t, categories, w.valueIds, w.mins, w.maxs);
    w' := Walked(start, end, eventIds, valueIds, mins, maxs);
    order := categories;
  }

  /** The constructor's outer loop over the sorted timelines. `orders` are the key orders met. */
  method Walk(sorted: seq<Timeline>) returns (w: Walked, ghost orders: seq<seq<Category>>)
    requires forall t :: t in sorted ==> t.Valid()
    ensures var ds := Snapshot(sorted);
      && KeyOrders(orders, ds)
      && w.start == MinFold(LONG_MAX, Firsts(ds)) && w.end == MaxFold(LONG_MIN, Lasts(ds))
      && w.eventIds == AssignIds(map[], Flatten(orders)) && w.valueIds == w.eventIds
      && w.mins == RecordBounds(Lower, map[], VisitsOf(ds, orders))
      && w.maxs == RecordBounds(Upper, map[], VisitsOf(ds, orders))
  {
    ghost var ds := Snapshot(sorted);
    w := Walked(LONG_MAX, LONG_MIN, map[], map[], map[], map[]);
    orders := [];
    ghost var vs: seq<Visit> := [];
    var i := 0;
    while i < |sorted|
      invariant 0 <= i <= |sorted| && KeyOrders(orders, ds[..i])
      invariant w.start == MinFold(LONG_MAX, Firsts(ds[..i]))
      invariant w.end == MaxFold(LONG_MIN, Lasts(ds[..i]))
      invariant vs == VisitsOf(ds[..i], orders)
      invariant w.eventIds == AssignIds(map[], Flatten(orders)) && w.valueIds == w.eventIds
      invariant w.mins == RecordBounds(Lower, map[], vs) && w.maxs == RecordBounds(Upper, map[], vs)
    {
      var w', order := VisitTimeline(sorted[i], w);
      assert ds[i] == TimelineData(sorted[i].events, sorted[i].firstTimestamp, sorted[i].lastTimestamp);
      ghost var visits := TimelineVisits(ds[i].events, order);
      WalkStep(ds, i, orders, order);
      AssignIdsAppend(map[], Flatten(orders), order);
      RecordBoundsAppend(Lower, map[], vs, visits);
      RecordBoundsAppend(Upper, map[], vs, visits);
      KeyOrdersStep(orders, ds, i, order);
      w := w';
      orders := orders + [order];
      vs := vs + visits;
      i := i + 1;
    }
    assert ds[..i] == ds;
  }

  /**
   * The constructor's computation on values: sort the timelines, walk them, and fall back to the
   * default category when none was met.
   */
  method BuildDocument(input: seq<Timeline>) returns (sorted: seq<Timeline>, w: Walked, ghost orders: seq<seq<Category>>)
    requires forall t :: t in input ==> t.Valid()
    ensures SortedBySlave(sorted) && multiset(sorted) == multiset(input)
    ensures var ds := Snapshot(sorted);
      && KeyOrders(orders, ds)
      && w.start == MinFold(LONG_MAX, Firsts(ds)) && w.end == MaxFold(LONG_MIN, Lasts(ds))
      && w.eventIds == AssignIds(map[], Flatten(orders))
      && (Flatten(orders) != [] ==>
        && w.valueIds == w.eventIds
        && w.mins == RecordBounds(Lower, map[], VisitsOf(ds, orders))
        && w.maxs == RecordBounds(Upper, map[], VisitsOf(ds, orders)))
      && (Flatten(orders) == [] ==>
        && w.valueIds == DefaultIds()
        && w.mins == RecordBounds(Lower, map[], VisitsOf(ds, orders))[DEFAULT_CATEGORY := 0.0]
        && w.maxs == RecordBounds(Upper, map[], VisitsOf(ds, orders))[DEFAULT_CATEGORY := 0.0])
  {
    sorted := SortBySlaveIndex(input);
    assert forall t :: t in sorted ==> t in multiset(input);
    w, orders := Walk(sorted);
    NoCategories(Flatten(orders));
    if w.valueIds == map[] {
      w := w.(valueIds := DefaultIds(), mins := w.mins[DEFAULT_CATEGORY := 0.0],
              maxs := w.maxs[DEFAULT_CATEGORY := 0.0]);
    }
  }

  /** The report of one configuration. */
  class TimelineDocument {
    const configName: string
    const timelines: seq<Timeline>
    var minValues: map<Category, real>
    var maxValues: map<Category, real>
    var valueCategories: CategoryIds
    var eventCategories: CategoryIds
    var startTimestamp: Long
    var endTimestamp: Long
    /** The timelines' event maps and bounds as the constructor read them. */
    ghost var data: seq<TimelineData>
    /** The iteration order the constructor met each timeline's categories in. */
    ghost var keyOrders: seq<seq<Category>>
    /** The category lists in the order the constructor met them. */
    ghost var visits: seq<Visit>

    /**
     * The id maps are what the constructor builds: first-seen ids over the categories in the
     * order met, the same for values, or the default category alone when there is none.
     */
    ghost predicate Valid()
      reads this
    {
      && eventCategories == AssignIds(map[], Flatten(keyOrders))
      && (valueCategories == eventCategories || valueCategories == DefaultIds())
    }

    /** Both id maps of a constructed document are dense: ids `0 .. size-1`, filed by name. */
    lemma ValidIsDense()
      requires Valid()
      ensures Dense(eventCategories) && Dense(valueCategories)
    {
      AssignIdsDense(Flatten(keyOrders));
      DefaultIdsDense();
    }

    /**
     * The constructor's bookkeeping: the timelines sorted by worker index; the minimum first and
     * maximum last timestamp; the same first-seen ids in `eventCategories` and `valueCategories`;
     * per category the bounds of its last visit with values; and the default category when there
     * is no category at all.
     */
    constructor (configName: string, input: seq<Timeline>)
      requires forall t :: t in input ==> t.Valid()
      ensures Valid()
      ensures this.configName == configName
      ensures SortedBySlave(timelines) && multiset(timelines) == multiset(input)
      ensures data == Snapshot(timelines)
      ensures startTimestamp == MinFold(LONG_MAX, Firsts(data))
      ensures endTimestamp == MaxFold(LONG_MIN, Lasts(data))
      ensures KeyOrders(keyOrders, data)
      ensures visits == VisitsOf(data, keyOrders)
      ensures eventCategories == AssignIds(map[], Flatten(keyOrders))
      ensures Flatten(keyOrders) != [] ==>
        && valueCategories == eventCategories
        && minValues == RecordBounds(Lower, map[], visits)
        && maxValues == RecordBounds(Upper, map[], visits)
      ensures Flatten(keyOrders) == [] ==>
        && valueCategories == DefaultIds()
        && minValues == RecordBounds(Lower, map[], visits)[DEFAULT_CATEGORY := 0.0]
        && maxValues == RecordBounds(Upper, map[], visits)[DEFAULT_CATEGORY := 0.0]
    {
      var sorted, w, orders := BuildDocument(input);
      this.configName := configName;
      timelines := sorted;
      startTimestamp, endTimestamp := w.start, w.end;
      eventCategories, valueCategories := w.eventIds, w.valueIds;
      minValues, maxValues := w.mins, w.maxs;
      data, keyOrders, visits := Snapshot(sorted), orders, VisitsOf(Snapshot(sorted), orders);
    }

    /**
     * `range`: the stored min of the category becomes at most 0 and the max at least 0, a missing
     * bound becoming 0; nothing else changes. Returns the name of the range chart file.
     */
    method Range(valueCategory: Category, valueCategoryId: Int) returns (file: string)
      requires Valid()
      modifies this`minValues, this`maxValues
      ensures Valid()
      ensures minValues == old(minValues)[valueCategory := ClampedMin(old(minValues), valueCategory)]
      ensures maxValues == old(maxValues)[valueCategory := ClampedMax(old(maxValues), valueCategory)]
      ensures file == RangeFile(configName, valueCategoryId)
    {
      var min: real := if valueCategory in minValues then minValues[valueCategory] else 0.0;
      if valueCategory !in minValues || min > 0.0 {
        min := 0.0;
      }
      var max: real := if valueCategory in maxValues then maxValues[valueCategory] else 0.0;
      if valueCategory !in maxValues || max < 0.0 {
        max := 0.0;
      }
      minValues := minValues[valueCategory := min];
      maxValues := maxValues[valueCategory := max];
      file := RangeFile(configName, valueCategoryId);
    }

    /** `getValueChartFile`. */
    function GetValueChartFile(valueCategoryId: Int, slaveIndex: Int): string
    {
      ValueChartFile(configName, valueCategoryId, slaveIndex)
    }

    /** `generateEventChartFileName`. */
    function GenerateEventChartFileName(eventCategoryId: Int, slaveIndex: Int): string
    {
      EventChartFile(configName, eventCategoryId, slaveIndex)
    }

    /** Within one document a value chart name is determined by the category id and the worker, and determines them. */
    lemma ValueChartFilesIdentify(id: Int, slave: Int, id': Int, slave': Int)
      ensures GetValueChartFile(id, slave) == GetValueChartFile(id', slave') <==> id == id' && slave == slave'
    {
      if GetValueChartFile(id, slave) == GetValueChartFile(id', slave') {
        ValueChartFileInjective(configName, id, slave, id', slave');
      }
    }

    /** Within one document an event chart name is determined by the category id and the worker, and determines them. */
    lemma EventChartFilesIdentify(id: Int, slave: Int, id': Int, slave': Int)
      ensures GenerateEventChartFileName(id, slave) == GenerateEventChartFileName(id', slave') <==> id == id' && slave == slave'
    {
      if GenerateEventChartFileName(id, slave) == GenerateEventChartFileName(id', slave') {
        EventChartFileInjective(configName, id, slave, id', slave');
      }
    }

    /** The document's value, event and range chart names never clash with one another. */
    lemma ChartFilesDiffer(id: Int, slave: Int, id': Int, slave': Int)
      ensures GetValueChartFile(id, slave) != GenerateEventChartFileName(id', slave')
      ensures RangeFile(configName, id) != GetValueChartFile(id', slave')
      ensures RangeFile(configName, id) != GenerateEventChartFileName(id', slave')
    {
      ValueAndEventChartsDiffer(configName, id, slave, id', slave');
      RangeFileDistinct(configName, id, id', slave');
    }

    /** `getValueCategoriesOfType`. */
    function GetValueCategoriesOfType(categoryType: string): (r: map<Category, int>)
      reads this
      requires Valid()
      ensures forall c :: c in r <==> c.name in valueCategories && valueCategories[c.name].key == c && CategoryTypeName(c.categoryType) == categoryType
      ensures forall c :: c in r ==> r[c] == valueCategories[c.name].id
    {
      ValidIsDense();
      CategoriesOfType(valueCategories, categoryType)
    }

    /** `getEventCategoriesOfType`. */
    function GetEventCategoriesOfType(categoryType: string): (r: map<Category, int>)
      reads this
      requires Valid()
      ensures forall c :: c in r <==> c.name in eventCategories && eventCategories[c.name].key == c && CategoryTypeName(c.categoryType) == categoryType
      ensures forall c :: c in r ==> r[c] == eventCategories[c.name].id
    {
      ValidIsDense();
      CategoriesOfType(eventCategories, categoryType)
    }
  }

  /** The min `range` stores: the old one if it is at most 0, else 0; 0 when there is none. */
  function ClampedMin(m: map<Category, real>, c: Category): (r: real)
    ensures r <= 0.0
    ensures c in m && m[c] <= 0.0 ==> r == m[c]
    ensures c !in m || m[c] > 0.0 ==> r == 0.0
  {
    if c !in m || m[c] > 0.0 then 0.0 else m[c]
  }

  /** The max `range` stores: the old one if it is at least 0, else 0; 0 when there is none. */
  function ClampedMax(m: map<Category, real>, c: Category): (r: real)
    ensures r >= 0.0
    ensures c in m && m[c] >= 0.0 ==> r == m[c]
    ensures c !in m || m[c] < 0.0 ==> r == 0.0
  {
    if c !in m || m[c] < 0.0 then 0.0 else m[c]
  }

  /** `"timeline_%s_%d_range.png"`. */
  function RangeFile(configName: string, id: Int): string
  {
    "timeline_" + configName + "_" + JavaStrings.IntToString(id) + "_range.png"
  }

  /** `"timeline_%s_v%d_%d.png"`. */
  function ValueChartFile(configName: string, id: Int, slaveIndex: Int): string
  {
    "timeline_" + configName + "_v" + JavaStrings.IntToString(id) + "_" + JavaStrings.IntToString(slaveIndex) + ".png"
  }

  /** `"timeline_%s_e%d_%d.png"`. */
  function EventChartFile(configName: string, id: Int, slaveIndex: Int): string
  {
    "timeline_" + configName + "_e" + JavaStrings.IntToString(id) + "_" + JavaStrings.IntToString(slaveIndex) + ".png"
  }

  /** The decimal form of a number has no `_`. */
  lemma NoUnderscore(n: int)
    ensures '_' !in JavaStrings.IntToString(n)
  {
    JavaStrings.IntToStringShape(n);
  }

  /** The position of the first `_` in `s`, or `|s|` when there is none. */
  function FirstUnderscore(s: string): (i: nat)
    ensures i <= |s|
  {
    if s == [] || s[0] == '_' then 0 else 1 + FirstUnderscore(s[1..])
  }

  lemma {:induction false} FirstUnderscoreAfter(a: string, b: string)
    requires '_' !in a
    ensures FirstUnderscore(a + "_" + b) == |a|
  {
    if a != [] {
      assert (a + "_" + b)[0] == a[0] && a[0] in a;
      assert (a + "_" + b)[1..] == a[1..] + "_" + b;
      FirstUnderscoreAfter(a[1..], b);
    }
  }

  /** `a + "_" + b` splits back into `a` and `b` when `a` has no `_`. */
  lemma SplitAtUnderscore(a: string, b: string, a': string, b': string)
    requires '_' !in a && '_' !in a'
    requires a + "_" + b == a' + "_" + b'
    ensures a == a' && b == b'
  {
    var x := a + "_" + b;
    FirstUnderscoreAfter(a, b);
    FirstUnderscoreAfter(a', b');
    assert a == x[..|a|] && a' == x[..|a'|];
    assert b == x[|a| + 1..] && b' == x[|a'| + 1..];
  }

  /** The part of a chart file name after the `v` or `e`: id, `_`, worker index, `.png`. */
  function ChartSuffix(id: Int, slaveIndex: Int): string
  {
    JavaStrings.IntToString(id) + "_" + (JavaStrings.IntToString(slaveIndex) + ".png")
  }

  /** The suffix determines the category id and the worker index. */
  lemma ChartSuffixInjective(id: Int, slave: Int, id': Int, slave': Int)
    requires ChartSuffix(id, slave) == ChartSuffix(id', slave')
    ensures id == id' && slave == slave'
  {
    NoUnderscore(id);
    NoUnderscore(id');
    var b, b' := JavaStrings.IntToString(slave) + ".png", JavaStrings.IntToString(slave') + ".png";
    SplitAtUnderscore(JavaStrings.IntToString(id), b, JavaStrings.IntToString(id'), b');
    JavaStrings.IntToStringInjective(id, id');
    assert JavaStrings.IntToString(slave) == b[..|b| - 4] && JavaStrings.IntToString(slave') == b'[..|b'| - 4];
    JavaStrings.IntToStringInjective(slave, slave');
  }

  /** A chart file name is the fixed prefix, the kind letter and the suffix. */
  lemma ChartFileShape(cfg: string, id: Int, slave: Int)
    ensures ValueChartFile(cfg, id, slave) == "timeline_" + cfg + "_v" + ChartSuffix(id, slave)
    ensures EventChartFile(cfg, id, slave) == "timeline_" + cfg + "_e" + ChartSuffix(id, slave)
  {
  }

  /** Value charts and event charts are told apart by `v` and `e`. */
  lemma ValueAndEventChartsDiffer(cfg: string, id: Int, slave: Int, id': Int, slave': Int)
    ensures ValueChartFile(cfg, id, slave) != EventChartFile(cfg, id', slave')
  {
    var n := |"timeline_" + cfg| + 1;
    ChartFileShape(cfg, id, slave);
    ChartFileShape(cfg, id', slave');
    assert ValueChartFile(cfg, id, slave)[n] == 'v';
    assert EventChartFile(cfg, id', slave')[n] == 'e';
  }

  /** Within one configuration, a value chart file name determines its category id and worker index. */
  lemma ValueChartFileInjective(cfg: string, id: Int, slave: Int, id': Int, slave': Int)
    requires ValueChartFile(cfg, id, slave) == ValueChartFile(cfg, id', slave')
    ensures id == id' && slave == slave'
  {
    var p := "timeline_" + cfg + "_v";
    ChartFileShape(cfg, id, slave);
    ChartFileShape(cfg, id', slave');
    assert ChartSuffix(id, slave) == ValueChartFile(cfg, id, slave)[|p|..];
    assert ChartSuffix(id', slave') == ValueChartFile(cfg, id', slave')[|p|..];
    ChartSuffixInjective(id, slave, id', slave');
  }

  /** Within one configuration, an event chart file name determines its category id and worker index. */
  lemma EventChartFileInjective(cfg: string, id: Int, slave: Int, id': Int, slave': Int)
    requires EventChartFile(cfg, id, slave) == EventChartFile(cfg, id', slave')
    ensures id == id' && slave == slave'
  {
    var p := "timeline_" + cfg + "_e";
    ChartFileShape(cfg, id, slave);
    ChartFileShape(cfg, id', slave');
    assert ChartSuffix(id, slave) == EventChartFile(cfg, id, slave)[|p|..];
    assert ChartSuffix(id', slave') == EventChartFile(cfg, id', slave')[|p|..];
    ChartSuffixInjective(id, slave, id', slave');
  }

  /** The range chart of a category never shares a name with a value or event chart. */
  lemma RangeFileDistinct(cfg: string, id: Int, id': Int, slave: Int)
    ensures RangeFile(cfg, id) != ValueChartFile(cfg, id', slave)
    ensures RangeFile(cfg, id) != EventChartFile(cfg, id', slave)
  {
    var n := |"timeline_" + cfg| + 1;
    var s := JavaStrings.IntToString(id);
    assert RangeFile(cfg, id)[n] == s[0];
    assert ValueChartFile(cfg, id', slave)[n] == 'v';
    assert EventChartFile(cfg, id', slave)[n] == 'e';
  }
}
