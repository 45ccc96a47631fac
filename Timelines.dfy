/**
 * The per-worker event ledger (`org.radargun.reporting.Timeline`): a map from category to the
 * events recorded under it, in order, plus the earliest start and the latest end of all events.
 */
module Timelines {
  import opened Wrappers
  import opened JavaNumbers
  import JavaStrings

  datatype CategoryType = SysMonitor | Custom

  /** The name `toString` gives an enum constant. */
  function CategoryTypeName(t: CategoryType): string
  {
    match t
    case SysMonitor => "SYSMONITOR"
    case Custom => "CUSTOM"
  }

  /** A category of events. Two notions of sameness: `Equals` uses name and type, `CompareTo` the name only. */
  datatype Category = Category(name: string, categoryType: CategoryType)
  {
    /** `Category.equals`: same name and same type, which is exactly equality of the values. */
    function Equals(other: Category): (r: bool)
      ensures r <==> this == other
    {
      name == other.name && categoryType == other.categoryType
    }

    /** `Category.compareTo`: the names' `String.compareTo`; 0 exactly when the names agree. */
    function CompareTo(other: Category): (r: int)
      ensures r == 0 <==> name == other.name
    {
      JavaStrings.CompareTo(name, other.name)
    }
  }

  /** The order on categories is antisymmetric, as a `TreeMap` key order must be. */
  lemma CategoryCompareAntisymmetric(a: Category, b: Category)
    ensures a.CompareTo(b) == -b.CompareTo(a)
  {
    JavaStrings.CompareToAntisymmetric(a.name, b.name);
  }

  /** `sysCategory`: a category of the given name reported by a system monitor. */
  function SysCategory(name: string): (c: Category)
    ensures c.name == name && c.categoryType == SysMonitor
  {
    Category(name, SysMonitor)
  }

  /** `customCategory`: a category of the given name defined by a test. */
  function CustomCategory(name: string): (c: Category)
    ensures c.name == name && c.categoryType == Custom
  {
    Category(name, Custom)
  }

  /** `compareTo` can say 0 where `equals` says false: a system and a custom category of one name. */
  lemma CompareToIsCoarserThanEquals(name: string)
    ensures SysCategory(name).CompareTo(CustomCategory(name)) == 0
    ensures !SysCategory(name).Equals(CustomCategory(name))
  {
  }

  /** `Long.compare` and `Integer.compare`: -1, 0 or 1 as `a` is below, equal to or above `b`. */
  function Compare(a: int, b: int): (r: int)
    ensures r == -1 || r == 0 || r == 1
    ensures r < 0 <==> a < b
    ensures r == 0 <==> a == b
  {
    if a < b then -1 else if a == b then 0 else 1
  }

  /** An event; interval events last `duration` milliseconds, the others are instantaneous. */
  datatype Event =
    | ValueEvent(timestamp: Long, value: real)
    | TextEvent(timestamp: Long, text: string)
    | IntervalEvent(timestamp: Long, description: string, duration: Long)
  {
    /** `getStarted`: the event's timestamp. */
    function Started(): (r: Long)
      ensures r == timestamp
    {
      timestamp
    }

    /** When the event ends: its timestamp, or for an interval `timestamp + duration` in `long` arithmetic. */
    function Ended(): (r: Long)
      ensures !IntervalEvent? ==> r == Started()
      ensures IntervalEvent? && LONG_MIN <= timestamp + duration <= LONG_MAX ==> r == timestamp + duration
    {
      if IntervalEvent? then WrapLong(timestamp + duration) else timestamp
    }

    /** `Event.compareTo`: events are ordered by timestamp. */
    function CompareTo(other: Event): (r: int)
      ensures r < 0 <==> timestamp < other.timestamp
      ensures r == 0 <==> timestamp == other.timestamp
    {
      Compare(timestamp, other.timestamp)
    }
  }

  /** One call of `addEvent`. */
  datatype Record = Record(category: Category, event: Event)

  /** The event map that the calls of `addEvent` in `h` build, one after the other. */
  function Ledger(h: seq<Record>): map<Category, seq<Event>>
  {
    if h == [] then map[]
    else
      var m := Ledger(h[..|h| - 1]);
      var r := h[|h| - 1];
      m[r.category := (if r.category in m then m[r.category] else []) + [r.event]]
  }

  /** The categories `addEvent` was called with. */
  function Categories(h: seq<Record>): set<Category>
  {
    set i | 0 <= i < |h| :: h[i].category
  }

  /** The events added under `c`, in the order they were added. */
  function EventsOf(h: seq<Record>, c: Category): seq<Event>
  {
    if h == [] then []
    else EventsOf(h[..|h| - 1], c) + (if h[|h| - 1].category == c then [h[|h| - 1].event] else [])
  }

  function Starts(h: seq<Record>): seq<int>
  {
    seq(|h|, i requires 0 <= i < |h| => h[i].event.Started())
  }

  function Ends(h: seq<Record>): seq<int>
  {
    seq(|h|, i requires 0 <= i < |h| => h[i].event.Ended())
  }

  /**
   * The ledger's keys are exactly the categories ever added; each maps to the non-empty list of the
   * events added under it, in order.
   */
  lemma {:induction false} LedgerContents(h: seq<Record>)
    ensures Ledger(h).Keys == Categories(h)
    ensures forall c :: c in Ledger(h) ==> Ledger(h)[c] == EventsOf(h, c) && |Ledger(h)[c]| > 0
    ensures forall c :: c !in Ledger(h) ==> EventsOf(h, c) == []
  {
    if h != [] {
      var h' := h[..|h| - 1];
      LedgerContents(h');
      assert Categories(h) == Categories(h') + {h[|h| - 1].category} by {
        forall c | c in Categories(h) ensures c in Categories(h') + {h[|h| - 1].category} {
          var i :| 0 <= i < |h| && h[i].category == c;
          if i < |h| - 1 { assert h'[i] == h[i]; }
        }
        forall c | c in Categories(h') ensures c in Categories(h) {
          var i :| 0 <= i < |h'| && h'[i].category == c;
          assert h[i] == h'[i];
        }
      }
    }
  }

  /** One more `addEvent` call: the ledger and both bounds change exactly as `addEvent` says. */
  lemma AppendRecord(h: seq<Record>, r: Record)
    ensures Ledger(h + [r]) == Ledger(h)[r.category := (if r.category in Ledger(h) then Ledger(h)[r.category] else []) + [r.event]]
    ensures MinFold(LONG_MAX, Starts(h + [r])) == Min(MinFold(LONG_MAX, Starts(h)), r.event.Started())
    ensures MaxFold(LONG_MIN, Ends(h + [r])) == Max(MaxFold(LONG_MIN, Ends(h)), r.event.Ended())
  {
    assert (h + [r])[..|h|] == h;
    assert Starts(h + [r]) == Starts(h) + [r.event.Started()];
    assert Ends(h + [r]) == Ends(h) + [r.event.Ended()];
    assert (Starts(h) + [r.event.Started()])[..|h|] == Starts(h);
    assert (Ends(h) + [r.event.Ended()])[..|h|] == Ends(h);
  }

  /** The ledger of one worker. */
  class Timeline {
    const slaveIndex: int
    var events: map<Category, seq<Event>>
    var firstTimestamp: Long
    var lastTimestamp: Long
    /** Every `addEvent` call so far, in order. */
    ghost var history: seq<Record>

    ghost predicate Valid()
      reads this
    {
      && events == Ledger(history)
      && firstTimestamp == MinFold(LONG_MAX, Starts(history))
      && lastTimestamp == MaxFold(LONG_MIN, Ends(history))
    }

    /** A fresh timeline: no events, `firstTimestamp` at `Long.MAX_VALUE`, `lastTimestamp` at `Long.MIN_VALUE`. */
    constructor (slaveIndex: int)
      ensures Valid() && this.slaveIndex == slaveIndex && history == []
      ensures events == map[] && firstTimestamp == LONG_MAX && lastTimestamp == LONG_MIN
    {
      this.slaveIndex := slaveIndex;
      events := map[];
      firstTimestamp := LONG_MAX;
      lastTimestamp := LONG_MIN;
      history := [];
    }

    /**
     * `addEvent`: appends `e` to the list of `category`, creating the list when the category is
     * new, leaves every other category alone and widens the timestamp bounds to cover `e`.
     */
    method AddEvent(category: Category, e: Event)
      requires Valid()
      modifies this
      ensures Valid() && history == old(history) + [Record(category, e)]
      ensures events == old(events)[category := (if category in old(events) then old(events)[category] else []) + [e]]
      ensures firstTimestamp == Min(old(firstTimestamp), e.Started())
      ensures lastTimestamp == Max(old(lastTimestamp), e.Ended())
    {
      var cat: seq<Event>;
      if category in events {
        cat := events[category];
      } else {
        cat := [];
        events := events[category := cat];
      }
      cat := cat + [e];
      events := events[category := cat];
      AppendRecord(history, Record(category, e));
      history := history + [Record(category, e)];
      UpdateTimestamps(e);
    }

    /** `updateTimestamps`. */
    method UpdateTimestamps(e: Event)
      modifies this`firstTimestamp, this`lastTimestamp
      ensures firstTimestamp == Min(old(firstTimestamp), e.Started())
      ensures lastTimestamp == Max(old(lastTimestamp), e.Ended())
    {
      firstTimestamp := Min(firstTimestamp, e.Started());
      lastTimestamp := Max(lastTimestamp, e.Ended());
    }

    /** `getEventCategories`: the categories ever added, each with a non-empty list. */
    function GetEventCategories(): (r: set<Category>)
      reads this
      requires Valid()
      ensures r == Categories(history) && r == events.Keys
      ensures forall c :: c in r ==> |events[c]| > 0
    {
      LedgerContents(history);
      events.Keys
    }

    /** `getEvents`: the events added under `category` in order, or null when there are none. */
    function GetEvents(category: Category): (r: Option<seq<Event>>)
      reads this
      requires Valid()
      ensures r.Some? <==> category in Categories(history)
      ensures r.Some? ==> r.value == EventsOf(history, category) && |r.value| > 0
      ensures r.Some? <==> category in events
      ensures r.Some? ==> r.value == events[category]
    {
      LedgerContents(history);
      if category in events then Some(events[category]) else None
    }

    /** `getFirstTimestamp`: the earliest start of all events, `Long.MAX_VALUE` when there are none. */
    function GetFirstTimestamp(): (r: Long)
      reads this
      requires Valid()
      ensures history == [] ==> r == LONG_MAX
      ensures forall i :: 0 <= i < |history| ==> r <= history[i].event.Started()
      ensures history != [] ==> exists i :: 0 <= i < |history| && r == history[i].event.Started()
    {
      MinFoldIsLeast(LONG_MAX, Starts(history));
      assert forall i :: 0 <= i < |history| ==> Starts(history)[i] == history[i].event.Started();
      firstTimestamp
    }

    /** `getLastTimestamp`: the latest end of all events, `Long.MIN_VALUE` when there are none. */
    function GetLastTimestamp(): (r: Long)
      reads this
      requires Valid()
      ensures history == [] ==> r == LONG_MIN
      ensures forall i :: 0 <= i < |history| ==> r >= history[i].event.Ended()
      ensures history != [] ==> exists i :: 0 <= i < |history| && r == history[i].event.Ended()
    {
      MaxFoldIsGreatest(LONG_MIN, Ends(history));
      assert forall i :: 0 <= i < |history| ==> Ends(history)[i] == history[i].event.Ended();
      lastTimestamp
    }

    /** `Timeline.compareTo`: timelines are ordered by worker index. */
    function CompareTo(other: Timeline): (r: int)
      ensures r < 0 <==> slaveIndex < other.slaveIndex
      ensures r == 0 <==> slaveIndex == other.slaveIndex
    {
      Compare(slaveIndex, other.slaveIndex)
    }
  }

  /** A value at 100 and an interval at 200 lasting 50 give the bounds 100 and 250. */
  method BoundsExample() returns (first: Long, last: Long)
    ensures first == 100 && last == 250
  {
    var t := new Timeline(0);
    t.AddEvent(SysCategory("cpu"), ValueEvent(100, 0.5));
    t.AddEvent(CustomCategory("stage"), IntervalEvent(200, "stage", 50));
    first := t.GetFirstTimestamp();
    last := t.GetLastTimestamp();
  }
}
