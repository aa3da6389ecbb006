/** The dashboard store: the newest-first log of received lines, the
    chronological history of sensor readings, the list of chart widgets, and
    the transitions that change them. Every transition is a pure function from
    one store value to the next; the wall-clock readings and widget ids the
    source draws from `Date` and `Math.random` are parameters. */
module DataStore {
  import opened Optional
  import opened Arrays

  /** At most this many log entries are kept. */
  const LogCapacity: nat := 50

  /** The initial, and only, value of the store's `maxDataPoints`. */
  const MaxDataPoints: nat := 100

  /** The key under which `addData` records the ingestion time. */
  const TimestampKey: string := "timestamp"

  /** One line of the terminal: its text and the wall-clock time it was logged. */
  datatype LogEntry = LogEntry(text: string, time: string)

  /** A property value of a parsed object. Numbers are kept; every other JSON
      value (string, boolean, null, array, nested object) is kept as opaque text,
      since nothing checks that a reading is numeric. */
  datatype Value = Number(n: real) | Other(json: string)

  /** One own property of an object. */
  datatype Field = Field(key: string, value: Value)

  /** An object, as its own properties in enumeration order. */
  type SensorData = seq<Field>

  datatype WidgetType = Line | Bar

  /** What the dialog asks for: a widget without its id. */
  datatype WidgetSpec = WidgetSpec(kind: WidgetType, dataKey: string, title: string)

  datatype Widget = Widget(id: string, kind: WidgetType, dataKey: string, title: string)

  datatype Store = Store(
    logs: seq<LogEntry>,
    history: seq<SensorData>,
    widgets: seq<Widget>,
    maxDataPoints: nat)

  /** The store as created: everything empty, room for 100 readings. */
  function Initial(): (s: Store)
    ensures Valid(s)
    ensures s.logs == [] && s.history == [] && s.widgets == []
  {
    Store([], [], [], MaxDataPoints)
  }

  /** The capacity bounds every reachable store respects. */
  predicate Valid(s: Store)
  {
    && s.maxDataPoints == MaxDataPoints
    && |s.logs| <= LogCapacity
    && |s.history| <= s.maxDataPoints
  }

  /** `Object.keys(o)`. */
  function Keys(o: SensorData): (ks: seq<string>)
    ensures |ks| == |o|
    ensures forall i :: 0 <= i < |o| ==> ks[i] == o[i].key
  {
    seq(|o|, i requires 0 <= i < |o| => o[i].key)
  }

  /** The value of property `k`, if `o` has one (the first, should the list repeat a key). */
  function Lookup(o: SensorData, k: string): (v: Option<Value>)
    ensures v.Some? <==> k in Keys(o)
    ensures v.Some? ==> exists i :: 0 <= i < |o| && o[i] == Field(k, v.value)
    decreases |o|
  {
    if |o| == 0 then None
    else if o[0].key == k then Some(o[0].value)
    else
      assert Keys(o) == [o[0].key] + Keys(o[1..]);
      Lookup(o[1..], k)
  }

  /** Every `k` property of `o` set to `v`, everything else as it was. */
  function Overwrite(o: SensorData, k: string, v: Value): (r: SensorData)
    ensures |r| == |o| && Keys(r) == Keys(o)
    ensures forall i :: 0 <= i < |o| && o[i].key != k ==> r[i] == o[i]
    ensures forall i :: 0 <= i < |o| && o[i].key == k ==> r[i].value == v
  {
    var r := seq(|o|, i requires 0 <= i < |o| => if o[i].key == k then Field(k, v) else o[i]);
    assert Keys(r) == Keys(o);
    r
  }

  /** `{ ...incoming, timestamp: now }`: the incoming properties in their order, with
      `timestamp` set to `now` in place if present and appended at the end otherwise. */
  function WithTimestamp(incoming: SensorData, now: int): (r: SensorData)
    ensures Keys(r) == if TimestampKey in Keys(incoming) then Keys(incoming)
                       else Keys(incoming) + [TimestampKey]
    ensures Lookup(r, TimestampKey) == Some(Number(now as real))
    ensures forall i :: 0 <= i < |incoming| && incoming[i].key != TimestampKey ==> r[i] == incoming[i]
  {
    var v := Number(now as real);
    if TimestampKey in Keys(incoming) then
      var r := Overwrite(incoming, TimestampKey, v);
      LookupSees(r, TimestampKey, v);
      r
    else
      var r := incoming + [Field(TimestampKey, v)];
      assert Keys(r) == Keys(incoming) + [TimestampKey];
      LookupSees(r, TimestampKey, v);
      r
  }

  /** When every `k` property holds `v`, looking `k` up finds `v`. */
  lemma {:induction false} LookupSees(o: SensorData, k: string, v: Value)
    requires k in Keys(o)
    requires forall i :: 0 <= i < |o| && o[i].key == k ==> o[i].value == v
    ensures Lookup(o, k) == Some(v)
    decreases |o|
  {
    if o[0].key != k {
      assert Keys(o) == [o[0].key] + Keys(o[1..]);
      LookupSees(o[1..], k, v);
    }
  }

  /** `addLog`: the new entry goes in front and only the first 50 entries stay,
      so the oldest entry falls off the end once the log is full. */
  function AddLog(s: Store, text: string, time: string): (r: Store)
    ensures r.(logs := s.logs) == s
    ensures |r.logs| == if |s.logs| < LogCapacity then |s.logs| + 1 else LogCapacity
    ensures r.logs[0] == LogEntry(text, time)
    ensures r.logs[1..] == s.logs[..|r.logs| - 1]
    ensures Valid(s) ==> Valid(r)
  {
    var logs := [LogEntry(text, time)] + s.logs;
    SliceHead(logs, LogCapacity);
    s.(logs := Slice(logs, 0, LogCapacity))
  }

  /** `addData`: the stamped record goes at the end and only the last
      `maxDataPoints` records stay, so the oldest record falls off the front once
      the history is full. (`slice(-0)` keeps everything, so a store whose
      `maxDataPoints` were 0 would grow without bound.) */
  function AddData(s: Store, incoming: SensorData, now: int): (r: Store)
    ensures r.(history := s.history) == s
    ensures var grown := s.history + [WithTimestamp(incoming, now)];
      && |r.history| == (if s.maxDataPoints == 0 then |grown| else Min(|grown|, s.maxDataPoints))
      && r.history == grown[|grown| - |r.history|..]
    ensures |r.history| > 0 && Last(r.history) == WithTimestamp(incoming, now)
    ensures Valid(s) ==> Valid(r)
  {
    var grown := s.history + [WithTimestamp(incoming, now)];
    s.(history := SliceLast(grown, s.maxDataPoints))
  }

  /** `addWidget`: the widget, with the given id, goes at the end of the list. */
  function AddWidget(s: Store, spec: WidgetSpec, id: string): (r: Store)
    ensures r.(widgets := s.widgets) == s
    ensures |r.widgets| == |s.widgets| + 1
    ensures r.widgets[..|s.widgets|] == s.widgets
    ensures Last(r.widgets) == Widget(id, spec.kind, spec.dataKey, spec.title)
    ensures Valid(s) ==> Valid(r)
  {
    s.(widgets := s.widgets + [Widget(id, spec.kind, spec.dataKey, spec.title)])
  }

  /** The test `removeWidget(id)` filters with. */
  function KeepsId(id: string): Widget -> bool
  {
    (w: Widget) => w.id != id
  }

  /** `removeWidget`: every widget with the id goes, the others stay in order. */
  function RemoveWidget(s: Store, id: string): (r: Store)
    ensures r.(widgets := s.widgets) == s
    ensures forall i :: 0 <= i < |r.widgets| ==> r.widgets[i].id != id && r.widgets[i] in s.widgets
    ensures forall i :: 0 <= i < |s.widgets| && s.widgets[i].id != id ==> s.widgets[i] in r.widgets
    ensures Valid(s) ==> Valid(r)
  {
    s.(widgets := Filter(s.widgets, KeepsId(id)))
  }

  /** Removing the same id twice is removing it once. */
  lemma RemoveWidgetIdempotent(s: Store, id: string)
    ensures RemoveWidget(RemoveWidget(s, id), id) == RemoveWidget(s, id)
  {
    FilterIdempotent(s.widgets, KeepsId(id));
  }

  /** Removing a widget just added under an id nothing else uses restores the store. */
  lemma RemoveUndoesAdd(s: Store, spec: WidgetSpec, id: string)
    requires forall i :: 0 <= i < |s.widgets| ==> s.widgets[i].id != id
    ensures RemoveWidget(AddWidget(s, spec, id), id) == s
  {
    var w := Widget(id, spec.kind, spec.dataKey, spec.title);
    FilterAppend(s.widgets, [w], KeepsId(id));
    FilterKeepsAll(s.widgets, KeepsId(id));
  }

  /** Removal is element-wise: removing from a concatenation removes from each part. */
  lemma RemoveWidgetKeepsOrder(s: Store, front: seq<Widget>, back: seq<Widget>, id: string)
    requires s.widgets == front + back
    ensures RemoveWidget(s, id).widgets == Filter(front, KeepsId(id)) + Filter(back, KeepsId(id))
  {
    FilterAppend(front, back, KeepsId(id));
  }

  /** `clearAll`: both logs and history become empty; widgets and the capacity stay. */
  function ClearAll(s: Store): (r: Store)
    ensures r.logs == [] && r.history == []
    ensures r.widgets == s.widgets && r.maxDataPoints == s.maxDataPoints
    ensures Valid(s) ==> Valid(r)
  {
    s.(logs := [], history := [])
  }

  /** Whether `o` carries a numeric `timestamp`. */
  predicate Stamped(o: SensorData)
  {
    var v := Lookup(o, TimestampKey);
    v.Some? && v.value.Number?
  }

  function StampOf(o: SensorData): real
    requires Stamped(o)
  {
    Lookup(o, TimestampKey).value.n
  }

  /** Every record is stamped and the stamps never decrease from oldest to newest. */
  predicate Chronological(h: seq<SensorData>)
  {
    && (forall i :: 0 <= i < |h| ==> Stamped(h[i]))
    && (forall i, j :: 0 <= i < j < |h| ==> StampOf(h[i]) <= StampOf(h[j]))
  }

  /** A store whose newest record is no later than `now` stays chronological
      when a record stamped `now` is added. */
  lemma AddDataKeepsChronological(s: Store, incoming: SensorData, now: int)
    requires Chronological(s.history)
    requires |s.history| > 0 ==> StampOf(Last(s.history)) <= now as real
    ensures Chronological(AddData(s, incoming, now).history)
  {
    var o := WithTimestamp(incoming, now);
    var grown := s.history + [o];
    assert Chronological(grown) by {
      assert Stamped(o) && StampOf(o) == now as real;
      ChronologicalAppend(s.history, o);
    }
    var h := AddData(s, incoming, now).history;
    assert h == grown[|grown| - |h|..];
    ChronologicalSuffix(grown, |grown| - |h|);
  }

  /** A record stamped no earlier than the newest may be appended. */
  lemma ChronologicalAppend(h: seq<SensorData>, o: SensorData)
    requires Chronological(h) && Stamped(o)
    requires |h| > 0 ==> StampOf(Last(h)) <= StampOf(o)
    ensures Chronological(h + [o])
  {
    var g := h + [o];
    forall i | 0 <= i < |g|
      ensures Stamped(g[i])
    {
      if i < |h| {
        assert g[i] == h[i];
      }
    }
    forall i, j | 0 <= i < j < |g|
      ensures StampOf(g[i]) <= StampOf(g[j])
    {
      assert g[i] == h[i];
      if j < |h| {
        assert g[j] == h[j];
      } else {
        assert StampOf(h[i]) <= StampOf(Last(h));
      }
    }
  }

  /** Dropping the oldest records keeps the rest in order. */
  lemma ChronologicalSuffix(h: seq<SensorData>, k: nat)
    requires Chronological(h) && k <= |h|
    ensures Chronological(h[k..])
  {
    var t := h[k..];
    forall i | 0 <= i < |t|
      ensures Stamped(t[i])
    {
      assert t[i] == h[k + i];
    }
    forall i, j | 0 <= i < j < |t|
      ensures StampOf(t[i]) <= StampOf(t[j])
    {
      assert t[i] == h[k + i] && t[j] == h[k + j];
    }
  }
}
