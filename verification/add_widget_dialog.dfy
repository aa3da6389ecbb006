/** The pure part of the "add widget" dialog: which sensor keys it offers, the
    chart widget each key's button asks for, and the colour swatch next to it. */
module AddWidgetDialog {
  import opened Arrays
  import opened Strings
  import opened DataStore

  /** The test the key list is filtered with. */
  function NotTimestamp(): string -> bool
  {
    (k: string) => k != TimestampKey
  }

  /** `availableKeys`: the keys of the newest reading other than `timestamp`,
      in their order, or none while there is no reading. */
  function AvailableKeys(history: seq<SensorData>): (keys: seq<string>)
    ensures history == [] ==> keys == []
    ensures TimestampKey !in keys
    ensures history != [] ==>
      forall k :: k in keys <==> k in Keys(Last(history)) && k != TimestampKey
  {
    if |history| == 0 then []
    else Filter(Keys(Last(history)), NotTimestamp())
  }

  /** Only the newest reading matters: older readings never contribute keys. */
  lemma KeysFromNewestOnly(older: seq<SensorData>, newest: SensorData)
    ensures AvailableKeys(older + [newest]) == AvailableKeys([newest])
  {
  }

  /** A reading without a `timestamp` key offers all its keys, in order. */
  lemma AllKeysWithoutTimestamp(o: SensorData)
    requires TimestampKey !in Keys(o)
    ensures AvailableKeys([o]) == Keys(o)
  {
    FilterKeepsAll(Keys(o), NotTimestamp());
  }

  /** Taking `timestamp` out of the key list, wherever it stands, removes just
      that key and keeps the others in order. */
  lemma OnlyTimestampRemoved(before: SensorData, after: SensorData, v: Value)
    requires TimestampKey !in Keys(before) && TimestampKey !in Keys(after)
    ensures AvailableKeys([before + [Field(TimestampKey, v)] + after]) == Keys(before) + Keys(after)
  {
    var o := before + [Field(TimestampKey, v)] + after;
    assert Keys(o) == (Keys(before) + [TimestampKey]) + Keys(after);
    assert Filter(Keys(before) + [TimestampKey], NotTimestamp()) == Keys(before) by {
      FilterAppend(Keys(before), [TimestampKey], NotTimestamp());
      FilterKeepsAll(Keys(before), NotTimestamp());
    }
    assert Filter(Keys(after), NotTimestamp()) == Keys(after) by {
      FilterKeepsAll(Keys(after), NotTimestamp());
    }
    FilterAppend(Keys(before) + [TimestampKey], Keys(after), NotTimestamp());
  }

  /** Right after a reading is stored, the dialog offers exactly the keys the
      device sent, minus `timestamp`, in the order it sent them. */
  lemma KeysAfterAddData(s: Store, incoming: SensorData, now: int)
    ensures AvailableKeys(AddData(s, incoming, now).history)
         == Filter(Keys(incoming), NotTimestamp())
  {
    if TimestampKey !in Keys(incoming) {
      FilterAppend(Keys(incoming), [TimestampKey], NotTimestamp());
    }
  }

  /** After `clearAll` the dialog offers nothing. */
  lemma NoKeysAfterClear(s: Store)
    ensures AvailableKeys(ClearAll(s).history) == []
  {
  }

  /** The widget a key's button adds: a line chart of that key, titled with the
      key in capitals. */
  function SpecFor(key: string): (spec: WidgetSpec)
    ensures spec.kind == Line && spec.dataKey == key
    ensures |spec.title| == |key|
    ensures forall i :: 0 <= i < |key| ==> !IsLowerAscii(spec.title[i])
    ensures forall i :: 0 <= i < |key| && !IsLowerAscii(key[i]) ==> spec.title[i] == key[i]
    ensures forall i :: 0 <= i < |key| && IsLowerAscii(key[i]) ==> spec.title[i] as int + 32 == key[i] as int
  {
    WidgetSpec(Line, key, ToUpper(key))
  }

  /** The chart colour number of the `index`-th button: 1 to 5, cycling. */
  function ColourIndex(index: nat): (c: nat)
    ensures 1 <= c <= 5
  {
    (index % 5) + 1
  }

  /** The first five buttons get five different colours, and the colours repeat
      every five buttons. */
  lemma ColoursCycle(index: nat)
    ensures index < 5 ==> ColourIndex(index) == index + 1
    ensures ColourIndex(index + 5) == ColourIndex(index)
    ensures ColourIndex(index + 1) != ColourIndex(index)
  {
  }

  /** One button of the dialog. */
  datatype KeyButton = KeyButton(key: string, colour: nat, spec: WidgetSpec)

  /** The dialog's buttons, one per available key, in order: the `i`-th is for
      the `i`-th key and has the `i`-th colour. */
  function Buttons(history: seq<SensorData>): (bs: seq<KeyButton>)
    ensures |bs| == |AvailableKeys(history)|
    ensures forall i :: 0 <= i < |bs| ==>
      && bs[i].key == AvailableKeys(history)[i]
      && bs[i].colour == ColourIndex(i) && 1 <= bs[i].colour <= 5
      && bs[i].spec == SpecFor(bs[i].key)
      && bs[i].spec.kind == Line && bs[i].spec.dataKey == bs[i].key
  {
    var keys := AvailableKeys(history);
    seq(|keys|, i requires 0 <= i < |keys| => KeyButton(keys[i], ColourIndex(i), SpecFor(keys[i])))
  }

  /** Pressing the `i`-th button adds, at the end of the widget list, a line
      chart of the `i`-th available key, titled with that key in capitals: a key
      the newest reading carries, and never `timestamp`. */
  lemma PressingAddsChartOfLatestKey(s: Store, i: nat, id: string)
    requires i < |Buttons(s.history)|
    ensures var w := Last(AddWidget(s, Buttons(s.history)[i].spec, id).widgets);
      && w.id == id && w.kind == Line
      && w.dataKey == AvailableKeys(s.history)[i]
      && w.title == ToUpper(w.dataKey)
      && w.dataKey in Keys(Last(s.history)) && w.dataKey != TimestampKey
  {
  }
}
