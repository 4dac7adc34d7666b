/**
  Holiday slots of the older ICOM gateways (legacy_holiday_writes.py): several leaves, no compare-and-set.
  No leaf is written twice, the dates come last, and a read of the whole slot precedes each write.
  The gateway, or another app, may change or refuse anything at any time.
  On `P(x) == true` in contracts see Common.dfy.
 */
module IcomHolidays {
  import opened Common
  import opened HolidayTimes

  datatype Leaf = StartStop | AssignedTo | HcMode | DhwMode | FixTemperature | DeleteLeaf

  datatype JsonValue = Text(text: string) | Number(number: real) | Names(names: seq<string>) | Nothing

  /**
    A leaf as it was read. `typed` says that its value passes the leaf's own parser, `options` are the advertised values
    unless they fail it, `ranged` says that there are usable limits, `details` stands for the other metadata.
   */
  datatype Resource = Resource(value: JsonValue, typed: bool, writable: bool, options: Option<seq<string>>, ranged: bool, details: int)

  type Slot = map<Leaf, Resource>

  function Rank(l: Leaf): nat {
    match l
    case DhwMode => 0
    case HcMode => 1
    case FixTemperature => 2
    case AssignedTo => 3
    case StartStop => 4
    case DeleteLeaf => 5
  }

  /** The order in which changed leaves are written. */
  function LeafAt(i: nat): (l: Leaf)
    requires i < 5
    ensures Rank(l) == i
  {
    if i == 0 then DhwMode else if i == 1 then HcMode else if i == 2 then FixTemperature
    else if i == 3 then AssignedTo else StartStop
  }

  /** The fields of a slot; `extras` says that a field was given that these gateways do not have. */
  datatype Values = Values(start: string, end: string, hcMode: Option<string>, dhwMode: Option<string>,
                           circuits: seq<string>, temperature: real, extras: bool)

  function Desired(v: Values, l: Leaf): JsonValue {
    match l
    case DhwMode => if v.dhwMode.Some? then Text(v.dhwMode.value) else Nothing
    case HcMode => if v.hcMode.Some? then Text(v.hcMode.value) else Nothing
    case FixTemperature => Number(v.temperature)
    case AssignedTo => Names(v.circuits)
    case StartStop => Text(v.start + "/" + v.end)
    case DeleteLeaf => Text("TRUE")
  }

  // ----- What a slot holds -----

  const EMPTY_PERIODS: seq<string> := ["2009-01-01/2009-01-01", "2016-01-01/2016-01-01", "2017-01-01/2017-01-01"]

  /** The dates of a slot are this text. */
  ghost predicate HoldsDates(slot: Slot, text: string) {
    StartStop in slot && slot[StartStop].typed && slot[StartStop].value == Text(text)
  }

  /** Documented markers of an unused slot. */
  predicate IsEmpty(slot: Slot): (r: bool)
    ensures r <==> HoldsDates(slot, "2009-01-01/2009-01-01") || HoldsDates(slot, "2016-01-01/2016-01-01") ||
                   HoldsDates(slot, "2017-01-01/2017-01-01")
    ensures r ==> |slot[StartStop].value.text| == 21
  {
    StartStop in slot && slot[StartStop].typed && slot[StartStop].value.Text? && slot[StartStop].value.text in EMPTY_PERIODS
  }

  /** The slot is in use: its start and stop are two dates, the second one included. */
  predicate HasDates(slot: Slot) {
    StartStop in slot && slot[StartStop].typed && slot[StartStop].value.Text? && ValidPeriod(slot[StartStop].value.text)
  }

  predicate ValidPeriod(text: string) {
    |text| == 21 && text[10] == '/' && ValidDates(text[..10], text[11..])
  }

  predicate ValidDates(start: string, end: string) {
    var s, e := ParseDate(start), ParseDate(end);
    && s.Some? && e.Some? && 2000 <= s.value.year <= e.value.year <= 2100 && !Before(e.value, s.value)
    && start + "/" + end !in EMPTY_PERIODS
  }

  /** Two dates from the years 2000 to 2100, the second one not before the first, and not one of the markers. */
  ghost predicate AreDates(start: string, end: string, s: Date, e: Date) {
    && IsDate(s) && IsDate(e) && start == FormatDate(s) && end == FormatDate(e)
    && 2000 <= s.year && e.year <= 2100 && Ordinal(s) <= Ordinal(e)
    && !(start == end && start in ["2009-01-01", "2016-01-01", "2017-01-01"])
  }

  lemma MarkersAreDates(start: string, end: string)
    requires |start| == 10 && |end| == 10
    ensures start + "/" + end in EMPTY_PERIODS <==> start == end && start in ["2009-01-01", "2016-01-01", "2017-01-01"]
  {
    MarkerIs(start, end, "2009-01-01");
    MarkerIs(start, end, "2016-01-01");
    MarkerIs(start, end, "2017-01-01");
    MarkerTexts();
  }

  lemma MarkerTexts()
    ensures EMPTY_PERIODS == ["2009-01-01" + "/" + "2009-01-01", "2016-01-01" + "/" + "2016-01-01", "2017-01-01" + "/" + "2017-01-01"]
  {
    assert "2009-01-01" + "/" + "2009-01-01" == "2009-01-01/2009-01-01";
    assert "2016-01-01" + "/" + "2016-01-01" == "2016-01-01/2016-01-01";
    assert "2017-01-01" + "/" + "2017-01-01" == "2017-01-01/2017-01-01";
  }

  lemma MarkerIs(start: string, end: string, day: string)
    requires |start| == |end| == |day| == 10
    ensures start + "/" + end == day + "/" + day <==> start == day && end == day
  {
    var text := start + "/" + end;
    assert text[..10] == start && text[11..] == end;
    assert (day + "/" + day)[..10] == day && (day + "/" + day)[11..] == day;
  }

  // What a valid range of dates is.
  lemma DatesExactly(start: string, end: string)
    ensures ValidDates(start, end) <==> exists s, e :: AreDates(start, end, s, e)
  {
    var a, b := ParseDate(start), ParseDate(end);
    if a.Some? && b.Some? {
      DateForm(start);
      DateForm(end);
      MarkersAreDates(start, end);
      OrdinalOrders(b.value, a.value);
      assert ValidDates(start, end) ==> AreDates(start, end, a.value, b.value);
    }
    if s, e :| AreDates(start, end, s, e) {
      DateRoundTrip(s);
      DateRoundTrip(e);
      MarkersAreDates(start, end);
      OrdinalOrders(e, s);
    }
  }

  // A slot in use holds two dates with a slash between them.
  lemma InUseExactly(slot: Slot)
    ensures HasDates(slot) <==> exists start, end :: HoldsDates(slot, start + "/" + end) && ValidDates(start, end) == true
    ensures HasDates(slot) ==> IsEmpty(slot) == false
  {
    if HasDates(slot) {
      SplitsPeriod(slot[StartStop].value.text);
    }
    if start, end :| HoldsDates(slot, start + "/" + end) && ValidDates(start, end) == true {
      AreAPeriod(start, end);
    }
  }

  lemma SplitsPeriod(text: string)
    requires ValidPeriod(text) == true
    ensures text !in EMPTY_PERIODS && exists start, end :: text == start + "/" + end && ValidDates(start, end) == true
  {
    assert text == text[..10] + "/" + text[11..];
  }

  lemma AreAPeriod(start: string, end: string)
    requires ValidDates(start, end) == true
    ensures ValidPeriod(start + "/" + end) == true
  {
    assert |start| == |end| == 10;
    var text := start + "/" + end;
    assert text[..10] == start && text[11..] == end;
  }

  predicate AnyCircuit(circuits: seq<string>, prefix: string) {
    exists i :: 0 <= i < |circuits| && prefix <= circuits[i]
  }

  function ModeOf(slot: Slot, l: Leaf): Option<string> {
    if l in slot && slot[l].typed && slot[l].value.Text? then Some(slot[l].value.text) else None
  }

  /** The slot is in use, or free. */
  predicate IsDated(slot: Slot): (r: bool)
    ensures r ==> StartStop in slot && slot[StartStop].value.Text? && |slot[StartStop].value.text| == 21
  {
    HasDates(slot) || IsEmpty(slot)
  }

  /** The exact values of a slot, unless it is incomplete. */
  function ValuesOf(slot: Slot): Option<Values> {
    if !IsDated(slot) then None
    else if AssignedTo !in slot || !slot[AssignedTo].typed || !slot[AssignedTo].value.Names? then None
    else
      var circuits, hc, dhw := slot[AssignedTo].value.names, ModeOf(slot, HcMode), ModeOf(slot, DhwMode);
      if hc.None? && (HcMode in slot || AnyCircuit(circuits, "hc")) then None
      else if dhw.None? && (DhwMode in slot || AnyCircuit(circuits, "dhw")) then None
      else if FixTemperature in slot && !(slot[FixTemperature].typed && slot[FixTemperature].value.Number?) then None
      else
        Some(Values(slot[StartStop].value.text[..10], slot[StartStop].value.text[11..], hc, dhw, circuits,
                    if FixTemperature in slot then slot[FixTemperature].value.number else 0.0, false))
  }

  /** The leaves that hold values; `DeleteLeaf` only takes a command. */
  ghost predicate AllTyped(slot: Slot) {
    forall l :: l in slot && l != DeleteLeaf ==> slot[l].typed
  }

  /** What each leaf holds for these values. */
  ghost predicate Holds(slot: Slot, v: Values) {
    forall l :: l in slot && l != DeleteLeaf ==> slot[l].value == Desired(v, l)
  }

  /** The leaves of a slot can hold these values, and nothing is lacking. */
  ghost predicate Representable(v: Values, leaves: set<Leaf>) {
    && StartStop in leaves && AssignedTo in leaves && |v.start| == 10 && !v.extras
    && (HcMode in leaves <==> v.hcMode.Some?) && (DhwMode in leaves <==> v.dhwMode.Some?)
    && (HcMode !in leaves ==> forall c :: c in v.circuits ==> !("hc" <= c))
    && (DhwMode !in leaves ==> forall c :: c in v.circuits ==> !("dhw" <= c))
    && (FixTemperature !in leaves ==> v.temperature == 0.0)
  }

  // Writing values into the leaves and reading them back: a slot shows exactly the values that its leaves hold.
  lemma RoundTrip(slot: Slot, v: Values)
    ensures ValuesOf(slot) == Some(v) <==>
              AllTyped(slot) && Holds(slot, v) && Representable(v, slot.Keys) == true && (HasDates(slot) == true || IsEmpty(slot) == true)
  {
    if ValuesOf(slot) == Some(v) {
      ShowsHeld(slot, v);
    } else if AllTyped(slot) && Holds(slot, v) && Representable(v, slot.Keys) == true && IsDated(slot) == true {
      HeldShows(slot, v);
    }
  }

  lemma ShowsHeld(slot: Slot, v: Values)
    requires ValuesOf(slot) == Some(v)
    ensures AllTyped(slot) && Holds(slot, v) && Representable(v, slot.Keys) == true && IsDated(slot) == true
  {
    CircuitsExactly(v.circuits, "hc");
    CircuitsExactly(v.circuits, "dhw");
    SplitsDates(slot, v.start, v.end);
  }

  lemma HeldShows(slot: Slot, v: Values)
    requires AllTyped(slot) && Holds(slot, v) && Representable(v, slot.Keys) == true && IsDated(slot) == true
    ensures ValuesOf(slot) == Some(v)
  {
    CircuitsExactly(v.circuits, "hc");
    CircuitsExactly(v.circuits, "dhw");
    SplitsDates(slot, v.start, v.end);
  }

  lemma SplitsDates(slot: Slot, start: string, end: string)
    requires IsDated(slot) == true
    ensures StartStop in slot && slot[StartStop].typed && slot[StartStop].value.Text? && |slot[StartStop].value.text| == 21
    ensures slot[StartStop].value.text[..10] == start && slot[StartStop].value.text[11..] == end <==>
              |start| == 10 && slot[StartStop].value.text == start + "/" + end
  {
    var text := slot[StartStop].value.text;
    SlashInside(slot);
    assert text == text[..10] + "/" + text[11..];
    assert |start| == 10 ==> (start + "/" + end)[..10] == start && (start + "/" + end)[11..] == end;
  }

  lemma SlashInside(slot: Slot)
    requires IsDated(slot)
    ensures |slot[StartStop].value.text| == 21 && slot[StartStop].value.text[10] == '/'
  {
  }

  lemma CircuitsExactly(circuits: seq<string>, prefix: string)
    ensures AnyCircuit(circuits, prefix) <==> exists c :: c in circuits && prefix <= c
  {
    if i :| 0 <= i < |circuits| && prefix <= circuits[i] {
      assert circuits[i] in circuits;
    }
  }

  // ----- What a slot offers -----

  /** The leaf can be written, and advertises this value. */
  ghost predicate Offers(slot: Slot, l: Leaf, value: string) {
    l in slot && slot[l].writable && slot[l].options.Some? && value in slot[l].options.value
  }

  /** The modes on offer (`icom_modes`): none unless the leaf can be written and its list of options is usable. */
  function Modes(slot: Slot, l: Leaf): (r: seq<string>)
    ensures forall m :: m in r <==> Offers(slot, l, m)
  {
    if l in slot && slot[l].writable && slot[l].options.Some? then slot[l].options.value else []
  }

  const FIXED_MODES := ["FIX_TEMP", "FIX_TEMPERATURE"]

  predicate ModeReady(slot: Slot, circuits: seq<string>, prefix: string, l: Leaf) {
    AnyCircuit(circuits, prefix) ==> ModeOf(slot, l).Some? && ModeOf(slot, l).value in Modes(slot, l)
  }

  /** The metadata of a slot are complete (`icom_write_configuration`). */
  predicate Configured(slot: Slot): (r: bool)
    ensures r ==> ValuesOf(slot).Some?
  {
    && ValuesOf(slot).Some? && slot[StartStop].writable && slot[AssignedTo].writable && slot[AssignedTo].options.Some?
    && var circuits := slot[AssignedTo].options.value;
    && circuits != [] && (forall c :: c in slot[AssignedTo].value.names ==> c in circuits)
    && ModeReady(slot, circuits, "hc", HcMode) && ModeReady(slot, circuits, "dhw", DhwMode)
    && (if FixTemperature in slot then slot[FixTemperature].writable ==> slot[FixTemperature].ranged
        else forall m :: m in Modes(slot, HcMode) ==> m !in FIXED_MODES)
  }

  /** Circuits of this kind can be assigned. */
  ghost predicate Serves(slot: Slot, prefix: string) { exists c :: prefix <= c && Offers(slot, AssignedTo, c) }

  /** The leaf shows a mode, and offers it. */
  ghost predicate ShowsOffered(slot: Slot, l: Leaf) { exists m :: ModeOf(slot, l) == Some(m) && Offers(slot, l, m) }

  // What a slot needs for being written at all.
  lemma ConfiguredExactly(slot: Slot)
    ensures Configured(slot) <==>
              && ValuesOf(slot).Some? && slot[StartStop].writable
              && (exists c :: Offers(slot, AssignedTo, c)) && (forall c :: c in slot[AssignedTo].value.names ==> Offers(slot, AssignedTo, c))
              && (Serves(slot, "hc") ==> ShowsOffered(slot, HcMode)) && (Serves(slot, "dhw") ==> ShowsOffered(slot, DhwMode))
              && (FixTemperature in slot && slot[FixTemperature].writable ==> slot[FixTemperature].ranged)
              && (FixTemperature !in slot ==> !Offers(slot, HcMode, "FIX_TEMP") && !Offers(slot, HcMode, "FIX_TEMPERATURE"))
  {
    if ValuesOf(slot).Some? && slot[AssignedTo].writable && slot[AssignedTo].options.Some? {
      var circuits := slot[AssignedTo].options.value;
      ReadyExactly(slot, circuits, "hc", HcMode);
      ReadyExactly(slot, circuits, "dhw", DhwMode);
      assert FIXED_MODES[0] in FIXED_MODES && FIXED_MODES[1] in FIXED_MODES;
      assert circuits != [] ==> Offers(slot, AssignedTo, circuits[0]);
    }
  }

  lemma ReadyExactly(slot: Slot, circuits: seq<string>, prefix: string, l: Leaf)
    requires AssignedTo in slot && slot[AssignedTo].writable && slot[AssignedTo].options == Some(circuits)
    ensures ModeReady(slot, circuits, prefix, l) <==> (Serves(slot, prefix) ==> ShowsOffered(slot, l))
  {
    if i :| 0 <= i < |circuits| && prefix <= circuits[i] {
      assert Offers(slot, AssignedTo, circuits[i]);
    }
    if c :| prefix <= c && Offers(slot, AssignedTo, c) {
      var i :| 0 <= i < |circuits| && circuits[i] == c;
      assert AnyCircuit(circuits, prefix);
    }
    var mode := ModeOf(slot, l);
    assert mode.Some? && mode.value in Modes(slot, l) ==> mode == Some(mode.value) && Offers(slot, l, mode.value);
  }

  predicate CanDelete(slot: Slot) {
    && DeleteLeaf in slot && slot[DeleteLeaf].typed && slot[DeleteLeaf].writable
    && slot[DeleteLeaf].options.Some? && (slot[DeleteLeaf].options.value == [] || "TRUE" in slot[DeleteLeaf].options.value)
  }

  // A deletion needs a writable leaf whose advertised values, if there are any, include the command.
  lemma DeletableExactly(slot: Slot)
    ensures CanDelete(slot) <==>
              && DeleteLeaf in slot && slot[DeleteLeaf].typed && slot[DeleteLeaf].writable && slot[DeleteLeaf].options.Some?
              && ((exists o :: Offers(slot, DeleteLeaf, o)) ==> Offers(slot, DeleteLeaf, "TRUE"))
  {
    if DeleteLeaf in slot && slot[DeleteLeaf].writable && slot[DeleteLeaf].options.Some? && slot[DeleteLeaf].options.value != [] {
      assert Offers(slot, DeleteLeaf, slot[DeleteLeaf].options.value[0]);
    }
  }

  // A mode is one of those offered; where none is offered it stays.
  predicate ModeAllowed(slot: Slot, l: Leaf, mode: Option<string>) {
    var modes := Modes(slot, l);
    if modes != [] then mode.Some? && mode.value in modes else mode == ModeOf(slot, l)
  }

  /** The submitted values meet what the slot offers; `fits` judges a temperature by the limits and the step of its leaf. */
  predicate Acceptable(v: Values, slot: Slot, fits: (real, Resource) -> bool)
    requires Configured(slot)
  {
    && v.circuits != [] && (forall c :: c in v.circuits ==> c in slot[AssignedTo].options.value)
    && ModeAllowed(slot, HcMode, v.hcMode) && ModeAllowed(slot, DhwMode, v.dhwMode)
    && (FixTemperature in slot && slot[FixTemperature].writable ==> fits(v.temperature, slot[FixTemperature]))
    && ValidDates(v.start, v.end) && !v.extras
    && (v.temperature != ValuesOf(slot).value.temperature ==>
          v.hcMode.Some? && v.hcMode.value in FIXED_MODES && FixTemperature in slot && slot[FixTemperature].writable)
  }

  ghost predicate ModeFits(slot: Slot, l: Leaf, mode: Option<string>) {
    if exists m :: Offers(slot, l, m) then mode.Some? && Offers(slot, l, mode.value) else mode == ModeOf(slot, l)
  }

  // What a request may ask for.
  lemma AcceptableExactly(v: Values, slot: Slot, fits: (real, Resource) -> bool)
    requires Configured(slot)
    ensures Acceptable(v, slot, fits) <==>
              && v.circuits != [] && (forall c :: c in v.circuits ==> Offers(slot, AssignedTo, c))
              && ModeFits(slot, HcMode, v.hcMode) && ModeFits(slot, DhwMode, v.dhwMode)
              && (FixTemperature in slot && slot[FixTemperature].writable ==> fits(v.temperature, slot[FixTemperature]))
              && ValidDates(v.start, v.end) && !v.extras
              && (v.temperature == ValuesOf(slot).value.temperature ||
                  (FixTemperature in slot && slot[FixTemperature].writable && (v.hcMode == Some("FIX_TEMP") || v.hcMode == Some("FIX_TEMPERATURE"))))
  {
    ModeExactly(slot, HcMode, v.hcMode);
    ModeExactly(slot, DhwMode, v.dhwMode);
  }

  lemma ModeExactly(slot: Slot, l: Leaf, mode: Option<string>)
    ensures ModeAllowed(slot, l, mode) <==> ModeFits(slot, l, mode)
  {
    var modes := Modes(slot, l);
    assert modes != [] ==> Offers(slot, l, modes[0]);
  }

  /** Every leaf that the request changes can be written. */
  ghost predicate Changeable(slot: Slot, v: Values) {
    forall l :: l in slot && l != DeleteLeaf && slot[l].value != Desired(v, l) ==> slot[l].writable
  }

  // What was accepted fits the leaves of the slot, and every leaf that it changes can be written.
  lemma AcceptedCanBeWritten(v: Values, slot: Slot, fits: (real, Resource) -> bool)
    requires Configured(slot) == true && Acceptable(v, slot, fits) == true
    ensures Representable(v, slot.Keys) == true && Changeable(slot, v) == true && AllTyped(slot)
  {
    RoundTrip(slot, ValuesOf(slot).value);
    AcceptedFits(v, slot, fits);
    AcceptedCanChange(v, slot, fits);
  }

  lemma AcceptedFits(v: Values, slot: Slot, fits: (real, Resource) -> bool)
    requires Configured(slot) == true && Acceptable(v, slot, fits) == true
    ensures Representable(v, slot.Keys) == true
  {
    RoundTrip(slot, ValuesOf(slot).value);
    ModeExactly(slot, HcMode, v.hcMode);
    ModeExactly(slot, DhwMode, v.dhwMode);
    assert ParseDate(v.start).Some?;
    NeedsNoMode(v, slot, fits, "hc", HcMode);
    NeedsNoMode(v, slot, fits, "dhw", DhwMode);
  }

  lemma AcceptedCanChange(v: Values, slot: Slot, fits: (real, Resource) -> bool)
    requires Configured(slot) == true && Acceptable(v, slot, fits) == true
    ensures Changeable(slot, v)
  {
    RoundTrip(slot, ValuesOf(slot).value);
    ModeExactly(slot, HcMode, v.hcMode);
    ModeExactly(slot, DhwMode, v.dhwMode);
  }

  lemma NeedsNoMode(v: Values, slot: Slot, fits: (real, Resource) -> bool, prefix: string, l: Leaf)
    requires Configured(slot) == true && Acceptable(v, slot, fits) == true && (prefix, l) in [("hc", HcMode), ("dhw", DhwMode)]
    ensures l !in slot ==> forall c :: c in v.circuits ==> !(prefix <= c)
  {
    AcceptableExactly(v, slot, fits);
    ConfiguredExactly(slot);
    forall c | c in v.circuits && l !in slot ensures !(prefix <= c) {
      assert prefix <= c ==> Serves(slot, prefix);
    }
  }

  // ----- The exchange with the gateway -----

  /** A leaf was read; a value was sent to a leaf; or the last request failed. */
  datatype Event = ReadLeaf(leaf: Leaf, resource: Resource) | WriteLeaf(leaf: Leaf, value: JsonValue) | Failure

  /** The value of a leaf read after the last write. */
  ghost function LatestRead(log: seq<Event>, l: Leaf): Option<Resource> {
    if log == [] || log[|log| - 1].WriteLeaf? then None
    else if log[|log| - 1].ReadLeaf? && log[|log| - 1].leaf == l then Some(log[|log| - 1].resource)
    else LatestRead(log[..|log| - 1], l)
  }

  // Nothing was written after it, and the leaf was not read again.
  lemma {:induction false} LatestReadExactly(log: seq<Event>, l: Leaf, r: Resource)
    ensures LatestRead(log, l) == Some(r) <==>
              exists k :: 0 <= k < |log| && log[k] == ReadLeaf(l, r) &&
                forall j :: k < j < |log| ==> !log[j].WriteLeaf? && (log[j].ReadLeaf? ==> log[j].leaf != l)
  {
    if log != [] {
      var front, last := log[..|log| - 1], log[|log| - 1];
      LatestReadExactly(front, l, r);
      assert forall k :: 0 <= k < |front| ==> front[k] == log[k];
      if last.WriteLeaf? || (last.ReadLeaf? && last.leaf == l) {
      } else {
        if k :| 0 <= k < |front| && front[k] == ReadLeaf(l, r) &&
                forall j :: k < j < |front| ==> !front[j].WriteLeaf? && (front[j].ReadLeaf? ==> front[j].leaf != l) {
          assert log[k] == ReadLeaf(l, r);
        }
      }
    }
  }

  /** Each leaf is either confirmed, by a read after the last write, or invalidated. */
  ghost predicate Knowledge(confirmed: Slot, invalidated: set<Leaf>, leaves: seq<Leaf>, log: seq<Event>) {
    && confirmed.Keys !! invalidated && confirmed.Keys + invalidated == Elements(leaves)
    && forall l :: l in confirmed ==> LatestRead(log, l) == Some(confirmed[l])
  }

  function FullRead(leaves: seq<Leaf>, slot: Slot): (r: seq<Event>)
    requires forall l :: l in leaves ==> l in slot
    ensures |r| == |leaves|
  {
    seq(|leaves|, i requires 0 <= i < |leaves| => ReadLeaf(leaves[i], slot[leaves[i]]))
  }

  ghost predicate Covers(slot: Slot, leaves: seq<Leaf>) { slot.Keys == Elements(leaves) }

  ghost predicate EndsWithRead(log: seq<Event>, leaves: seq<Leaf>, slot: Slot)
    requires Covers(slot, leaves)
  {
    |log| >= |leaves| && log[|log| - |leaves|..] == FullRead(leaves, slot)
  }

  /** What was last read from, or sent to, a leaf. */
  ghost function LastOf(log: seq<Event>, l: Leaf): (e: Option<Event>)
    ensures e.Some? ==> !e.value.Failure?
  {
    if log == [] then None
    else if !log[|log| - 1].Failure? && log[|log| - 1].leaf == l then Some(log[|log| - 1])
    else LastOf(log[..|log| - 1], l)
  }

  /** The read shows what the log says: the value that was sent to the leaf, or else what was read from it before. */
  ghost predicate Agrees(log: seq<Event>, l: Leaf, resource: Resource) {
    match LastOf(log, l)
    case Some(ReadLeaf(_, earlier)) => resource == earlier
    case Some(WriteLeaf(_, sent)) => resource.value == sent && resource.typed
    case _ => true
  }

  /** Every write took effect, and nothing else changed, as far as the reads show. */
  ghost predicate Consistent(log: seq<Event>) {
    log == [] ||
    (Consistent(log[..|log| - 1]) &&
     (log[|log| - 1].ReadLeaf? ==> Agrees(log[..|log| - 1], log[|log| - 1].leaf, log[|log| - 1].resource)))
  }

  lemma {:induction false} LastOfFullRead(log: seq<Event>, leaves: seq<Leaf>, slot: Slot, l: Leaf)
    requires forall m :: m in leaves ==> m in slot
    ensures LastOf(log + FullRead(leaves, slot), l) == if l in leaves then Some(ReadLeaf(l, slot[l])) else LastOf(log, l)
  {
    if leaves == [] {
      assert log + FullRead(leaves, slot) == log;
    } else {
      var front, last := leaves[..|leaves| - 1], leaves[|leaves| - 1];
      LastOfFullRead(log, front, slot, l);
      assert (log + FullRead(leaves, slot))[..|log| + |leaves| - 1] == log + FullRead(front, slot);
      assert leaves == front + [last];
    }
  }

  // A full read is consistent exactly when it agrees leaf by leaf with what went before.
  lemma {:induction false} FullReadConsistent(log: seq<Event>, leaves: seq<Leaf>, slot: Slot)
    requires RepeatFree(leaves) && forall m :: m in leaves ==> m in slot
    ensures Consistent(log + FullRead(leaves, slot)) <==> Consistent(log) && forall l :: l in leaves ==> Agrees(log, l, slot[l])
  {
    if leaves == [] {
      assert log + FullRead(leaves, slot) == log;
    } else {
      var front, last := leaves[..|leaves| - 1], leaves[|leaves| - 1];
      FullReadConsistent(log, front, slot);
      LastOfFullRead(log, front, slot, last);
      assert leaves == front + [last];
      assert log + FullRead(leaves, slot) == (log + FullRead(front, slot)) + [ReadLeaf(last, slot[last])];
      ConsistentNext(log + FullRead(front, slot), last, slot[last]);
    }
  }

  lemma ConsistentNext(log: seq<Event>, l: Leaf, resource: Resource)
    ensures Consistent(log + [ReadLeaf(l, resource)]) <==> Consistent(log) && Agrees(log, l, resource)
  {
    assert (log + [ReadLeaf(l, resource)])[..|log|] == log;
  }

  // Reading again is consistent exactly when the slot is the same.
  lemma RereadConsistent(log: seq<Event>, leaves: seq<Leaf>, slot: Slot, again: Slot)
    requires RepeatFree(leaves) && Covers(slot, leaves) && Covers(again, leaves) && EndsWithRead(log, leaves, slot)
    ensures Consistent(log + FullRead(leaves, again)) <==> Consistent(log) && again == slot
  {
    FullReadConsistent(log, leaves, again);
    var before := log[..|log| - |leaves|];
    assert log == before + FullRead(leaves, slot);
    forall l | l in leaves ensures Agrees(log, l, again[l]) <==> again[l] == slot[l] {
      LastOfFullRead(before, leaves, slot, l);
    }
  }

  // Reading after a write is consistent exactly when the leaf has the value that was sent, and all others are the same.
  lemma ReadAfterWrite(log: seq<Event>, leaves: seq<Leaf>, slot: Slot, l: Leaf, value: JsonValue, actual: Slot)
    requires RepeatFree(leaves) && Covers(slot, leaves) && Covers(actual, leaves) && EndsWithRead(log, leaves, slot) && l in leaves
    ensures Consistent(log + [WriteLeaf(l, value)] + FullRead(leaves, actual)) <==>
              Consistent(log) && actual[l].value == value && actual[l].typed && forall m :: m in leaves && m != l ==> actual[m] == slot[m]
  {
    var sent := log + [WriteLeaf(l, value)];
    FullReadConsistent(sent, leaves, actual);
    var before := log[..|log| - |leaves|];
    assert log == before + FullRead(leaves, slot) && sent[..|log|] == log;
    forall m | m in leaves
      ensures Agrees(sent, m, actual[m]) <==> if m == l then actual[l].value == value && actual[l].typed else actual[m] == slot[m]
    {
      LastOfFullRead(before, leaves, slot, m);
    }
  }

  /** Leaves already treated have the desired values; the others, and those that need no change, are as at the start. */
  ghost predicate Progress(slot: Slot, start: Slot, desired: Values, leaves: seq<Leaf>, rank: nat) {
    Covers(slot, leaves) && Covers(start, leaves)
    && forall l :: l in leaves ==>
         if Rank(l) >= rank || start[l].value == Desired(desired, l) then slot[l] == start[l]
         else slot[l].value == Desired(desired, l)
  }

  /**
    The write at `k` follows two equal reads of the whole slot, the second one fresh: nothing was sent since the plan
    was made. Everything before the leaf in the order is already as desired, everything else as at the start.
   */
  ghost predicate GoodWrite(log: seq<Event>, k: nat, leaves: seq<Leaf>, start: Slot, desired: Values)
    requires k < |log|
  {
    && log[k].WriteLeaf?
    && var l := log[k].leaf;
    && l in leaves && Rank(l) < 5 && log[k] == WriteLeaf(l, Desired(desired, l))
    && exists slot :: CheckedTwice(log[..k], leaves, slot, start, desired, Rank(l))
  }

  /** The plan: what was read last, how far the transaction has come, and that every read so far was as expected. */
  ghost predicate Planned(log: seq<Event>, slot: Slot, leaves: seq<Leaf>, start: Slot, desired: Values, rank: nat) {
    && Progress(slot, start, desired, leaves, rank) && EndsWithRead(log, leaves, slot)
    && AllTyped(start) && (Consistent(log) <==> AllTyped(slot))
  }

  ghost predicate CheckedTwice(log: seq<Event>, leaves: seq<Leaf>, slot: Slot, start: Slot, desired: Values, rank: nat) {
    && Progress(slot, start, desired, leaves, rank)
    && EndsWithRead(log, leaves, slot) && EndsWithRead(log[..|log| - |leaves|], leaves, slot)
  }

  /** All writes of a transaction are good, and come in the order of the leaves. */
  ghost predicate GoodWrites(log: seq<Event>, leaves: seq<Leaf>, start: Slot, desired: Values, rank: nat) {
    && (forall k {:trigger GoodWrite(log, k, leaves, start, desired)} ::
          0 <= k < |log| && log[k].WriteLeaf? ==> GoodWrite(log, k, leaves, start, desired) && Rank(log[k].leaf) < rank)
    && (forall i, j :: 0 <= i < j < |log| && log[i].WriteLeaf? && log[j].WriteLeaf? ==> Rank(log[i].leaf) < Rank(log[j].leaf))
  }

  ghost predicate NoWrites(events: seq<Event>) { forall i :: 0 <= i < |events| ==> !events[i].WriteLeaf? }

  lemma GoodWriteStays(log: seq<Event>, more: seq<Event>, k: nat, leaves: seq<Leaf>, start: Slot, desired: Values)
    requires k < |log| && GoodWrite(log, k, leaves, start, desired)
    ensures GoodWrite(log + more, k, leaves, start, desired)
  {
    assert (log + more)[..k] == log[..k];
  }

  // Reading changes nothing about the writes.
  lemma ReadsAreHarmless(log: seq<Event>, more: seq<Event>, leaves: seq<Leaf>, start: Slot, desired: Values, rank: nat)
    requires GoodWrites(log, leaves, start, desired, rank) && NoWrites(more)
    ensures GoodWrites(log + more, leaves, start, desired, rank)
  {
    var longer := log + more;
    forall k | 0 <= k < |longer| && longer[k].WriteLeaf? ensures GoodWrite(longer, k, leaves, start, desired) && Rank(longer[k].leaf) < rank {
      assert k < |log|;
      assert GoodWrite(log, k, leaves, start, desired);
      GoodWriteStays(log, more, k, leaves, start, desired);
    }
  }

  // A checked write of the next leaf is good.
  lemma WriteIsGood(log: seq<Event>, leaves: seq<Leaf>, start: Slot, desired: Values, l: Leaf, slot: Slot)
    requires GoodWrites(log, leaves, start, desired, Rank(l)) && l in leaves && Rank(l) < 5
    requires CheckedTwice(log, leaves, slot, start, desired, Rank(l))
    ensures GoodWrites(log + [WriteLeaf(l, Desired(desired, l))], leaves, start, desired, Rank(l) + 1)
  {
    var e := WriteLeaf(l, Desired(desired, l));
    var longer := log + [e];
    forall k | 0 <= k < |longer| && longer[k].WriteLeaf?
      ensures GoodWrite(longer, k, leaves, start, desired) && Rank(longer[k].leaf) < Rank(l) + 1
    {
      if k < |log| {
        assert GoodWrite(log, k, leaves, start, desired);
        GoodWriteStays(log, [e], k, leaves, start, desired);
      } else {
        assert longer[..k] == log;
      }
    }
    forall i, j | 0 <= i < j < |longer| && longer[i].WriteLeaf? && longer[j].WriteLeaf?
      ensures Rank(longer[i].leaf) < Rank(longer[j].leaf)
    {
      assert GoodWrite(log, i, leaves, start, desired);
    }
  }

  // Each leaf is written at most once, and nothing after the dates.
  lemma WrittenOnce(log: seq<Event>, leaves: seq<Leaf>, start: Slot, desired: Values, rank: nat, i: nat, j: nat)
    requires GoodWrites(log, leaves, start, desired, rank) && i < j < |log| && log[i].WriteLeaf? && log[j].WriteLeaf?
    ensures log[i].leaf != log[j].leaf && log[i].leaf != StartStop
  {
    assert GoodWrite(log, i, leaves, start, desired) && GoodWrite(log, j, leaves, start, desired);
  }

  // The dates are only sent when the last reads showed every other changed leaf as desired.
  lemma DatesComeLast(log: seq<Event>, leaves: seq<Leaf>, start: Slot, desired: Values, rank: nat, k: nat) returns (slot: Slot)
    requires GoodWrites(log, leaves, start, desired, rank) && k < |log| && log[k].WriteLeaf? && log[k].leaf == StartStop
    ensures Covers(slot, leaves) && EndsWithRead(log[..k], leaves, slot)
    ensures forall l :: l in leaves && Rank(l) < 4 ==> slot[l].value == Desired(desired, l)
  {
    assert GoodWrite(log, k, leaves, start, desired);
    slot :| CheckedTwice(log[..k], leaves, slot, start, desired, Rank(StartStop));
  }

  datatype Operation = Create | Update | Delete | OtherOperation

  datatype Outcome = Returned(dates: Resource) | InvalidRequest | ChangedMeanwhile | NotConfirmed | ClientFailed

  // ----- How a transaction ends -----

  /** A request that is refused after the first read, and why. */
  ghost function Refusal(operation: Operation, start: Slot, values: Option<Values>, expected: Option<Values>,
                         fits: (real, Resource) -> bool): Option<Outcome>
  {
    if !Configured(start) then Some(InvalidRequest)
    else if expected.Some? && ValuesOf(start) != expected then Some(ChangedMeanwhile)
    else if operation.Create? && !IsEmpty(start) then Some(ChangedMeanwhile)
    else if !operation.Create? && !HasDates(start) then Some(ChangedMeanwhile)
    else if operation.Delete? then (if CanDelete(start) && expected.Some? then None else Some(InvalidRequest))
    else if values.None? || !Acceptable(values.value, start, fits) then Some(InvalidRequest)
    else None
  }

  /** The last full read followed a write. */
  ghost predicate AfterWrite(log: seq<Event>, leaves: seq<Leaf>) {
    |log| > |leaves| && log[|log| - |leaves| - 1].WriteLeaf?
  }

  /**
    An accepted create or update returns normally exactly if no request failed and every read was consistent with the
    writes; else a change that another app made is told from a write that did not take effect.
   */
  ghost predicate EditEnds(log: seq<Event>, leaves: seq<Leaf>, start: Slot, values: Values, outcome: Outcome) {
    && GoodWrites(log, leaves, start, values, 5)
    && (Failure in log ==> outcome == ClientFailed)
    && (Failure !in log && !Consistent(log) ==> outcome == if AfterWrite(log, leaves) then NotConfirmed else ChangedMeanwhile)
    && (Failure !in log && Consistent(log) ==> outcome.Returned? && Confirms(log, leaves, start, values, outcome.dates))
  }

  /** The last reads show exactly the requested values, and every leaf that needed no change as at the start. */
  ghost predicate Confirms(log: seq<Event>, leaves: seq<Leaf>, start: Slot, values: Values, dates: Resource) {
    exists slot ::
      && Progress(slot, start, values, leaves, 5) && EndsWithRead(log, leaves, slot)
      && ValuesOf(slot) == Some(values) && StartStop in slot && slot[StartStop] == dates
  }

  /** A deletion sends one value, and returns normally exactly if the slot then reads back as empty. */
  ghost predicate DeleteEnds(log: seq<Event>, leaves: seq<Leaf>, start: Slot, outcome: Outcome)
    requires Covers(start, leaves)
  {
    && FullRead(leaves, start) + [WriteLeaf(DeleteLeaf, Text("TRUE"))] <= log && NoWrites(log[|leaves| + 1..])
    && if Failure in log then outcome == ClientFailed else exists actual :: Shows(log, leaves, start, actual, outcome)
  }

  ghost predicate Shows(log: seq<Event>, leaves: seq<Leaf>, start: Slot, actual: Slot, outcome: Outcome)
    requires Covers(start, leaves)
  {
    && Covers(actual, leaves)
    && log == FullRead(leaves, start) + [WriteLeaf(DeleteLeaf, Text("TRUE"))] + FullRead(leaves, actual)
    && outcome == if IsEmpty(actual) then Returned(actual[StartStop]) else NotConfirmed
  }

  /** What the replies mean for the whole transaction: `start` is the slot as read first, if that read was complete. */
  ghost predicate Decides(log: seq<Event>, operation: Operation, leaves: seq<Leaf>, start: Slot, values: Option<Values>,
                          expected: Option<Values>, fits: (real, Resource) -> bool, outcome: Outcome)
  {
    if !(Covers(start, leaves) && FullRead(leaves, start) <= log) then NoWrites(log) && Failure in log && outcome == ClientFailed
    else if Refusal(operation, start, values, expected, fits).Some? then
      log == FullRead(leaves, start) && Some(outcome) == Refusal(operation, start, values, expected, fits)
    else if operation.Delete? then DeleteEnds(log, leaves, start, outcome)
    else values.Some? && EditEnds(log, leaves, start, values.value, outcome)
  }

  /** How the treatment of a leaf ends: with the next plan, or with a failure for one of these reasons. */
  ghost predicate StepEnds(log: seq<Event>, leaves: seq<Leaf>, start: Slot, values: Values, failure: Option<Outcome>) {
    match failure
    case None => Failure !in log
    case Some(ClientFailed) => Failure in log
    case Some(ChangedMeanwhile) => Failure !in log && !Consistent(log) && !AfterWrite(log, leaves)
    case Some(NotConfirmed) => Failure !in log && !Consistent(log) && AfterWrite(log, leaves)
    case Some(InvalidRequest) => Failure !in log && !Changeable(start, values)
    case Some(Returned(_)) => false
  }

  class IcomHolidayWriteService {
    var confirmed: Slot
    var invalidated: set<Leaf>
    ghost var log: seq<Event>

    ghost predicate Knows(leaves: seq<Leaf>)
      reads this
    {
      Knowledge(confirmed, invalidated, leaves, log) == true
    }

    // A transaction so far: every write was good, and came before `rank` in the order.
    ghost predicate Transacts(leaves: seq<Leaf>, start: Slot, values: Values, rank: nat)
      reads this
    {
      Knows(leaves) && GoodWrites(log, leaves, start, values, rank) == true
    }

    // The plan for the leaves from `rank` on; no request has failed.
    ghost predicate Plans(current: Slot, leaves: seq<Leaf>, start: Slot, values: Values, rank: nat)
      reads this
    {
      && Planned(log, current, leaves, start, values, rank) == true && Failure !in log
      && (current == start || AfterWrite(log, leaves) == true)
    }

    constructor ()
      ensures confirmed == map[] && invalidated == {} && log == []
    {
      confirmed, invalidated, log := map[], {}, [];
    }

    // The gateway answers for one leaf with anything, unless the request fails or answers for another path.
    method Get(l: Leaf) returns (resource: Option<Resource>)
      modifies `log
      ensures log == old(log) + [if resource.Some? then ReadLeaf(l, resource.value) else Failure]
    {
      resource := *;
      log := log + [if resource.Some? then ReadLeaf(l, resource.value) else Failure];
    }

    // The gateway takes one value, or does not: the reply does not tell for certain.
    method Put(l: Leaf, value: JsonValue) returns (ok: bool)
      modifies `log
      ensures log == old(log) + [WriteLeaf(l, value)] + if ok then [] else [Failure]
    {
      ok := *;
      log := log + [WriteLeaf(l, value)] + if ok then [] else [Failure];
    }

    // Reads the whole slot, leaf by leaf; what was not read stays invalidated.
    method Read(leaves: seq<Leaf>) returns (slot: Option<Slot>)
      requires RepeatFree(leaves) && confirmed.Keys + invalidated <= Elements(leaves)
      modifies this
      ensures Knows(leaves) && old(log) <= log && NoWrites(log[|old(log)|..])
      ensures slot.Some? ==> Covers(slot.value, leaves) && log == old(log) + FullRead(leaves, slot.value)
      ensures slot.None? ==> |log| <= |old(log)| + |leaves| && log != [] && log[|log| - 1] == Failure
    {
      var result: Slot := map[];
      invalidated, confirmed := invalidated + Elements(leaves), confirmed - Elements(leaves);
      for i := 0 to |leaves|
        invariant Reading(confirmed, invalidated, leaves, i, log, result)
        invariant log == old(log) + FullRead(leaves[..i], result)
      {
        ghost var earlier := log;
        var resource := Get(leaves[i]);
        if resource.None? {
          ReadingFails(confirmed, invalidated, leaves, i, earlier, result);
          return None;
        }
        NextLeaf(leaves, i);
        FullReadNext(leaves, i, result, resource.value);
        ReadingNext(confirmed, invalidated, leaves, i, earlier, result, resource.value);
        result, confirmed := result[leaves[i] := resource.value], confirmed[leaves[i] := resource.value];
        invalidated := invalidated - {leaves[i]};
      }
      ReadingKnows(confirmed, invalidated, leaves, |leaves|, log, result);
      assert leaves[..|leaves|] == leaves;
      slot := Some(result);
    }

    // Sends one value; whether it took effect is unknown until the next read.
    method Send(leaves: seq<Leaf>, l: Leaf, value: JsonValue) returns (ok: bool)
      requires confirmed.Keys + invalidated <= Elements(leaves)
      modifies this
      ensures Knows(leaves) && log == old(log) + [WriteLeaf(l, value)] + if ok then [] else [Failure]
    {
      invalidated, confirmed := invalidated + Elements(leaves), map[];
      ok := Put(l, value);
    }

    /**
      One transaction on the discovered leaves of a slot. At every end, also an early one, each leaf is known or
      invalidated, and the logged replies decide how the transaction ends.
     */
    method Write(isSlot: bool, operation: Operation, leaves: seq<Leaf>, values: Option<Values>, expected: Option<Values>,
                 fits: (real, Resource) -> bool) returns (outcome: Outcome, ghost start: Slot)
      requires RepeatFree(leaves)
      modifies this
      ensures if isSlot && !operation.OtherOperation? && leaves != [] then
                Knows(leaves) && Decides(log, operation, leaves, start, values, expected, fits, outcome) == true
              else confirmed == map[] && invalidated == {} && log == [] && outcome == InvalidRequest
    {
      confirmed, invalidated, log, start := map[], {}, [], map[];
      if !isSlot || operation.OtherOperation? || leaves == [] {
        return InvalidRequest, start;
      }
      var current := Read(leaves);
      assert log[0..] == log;
      if current.None? {
        return ClientFailed, start;
      }
      start := current.value;
      outcome := Transact(operation, leaves, current.value, values, expected, fits);
    }

    // The transaction on a slot that was just read.
    method Transact(operation: Operation, leaves: seq<Leaf>, start: Slot, values: Option<Values>, expected: Option<Values>,
                    fits: (real, Resource) -> bool) returns (outcome: Outcome)
      requires RepeatFree(leaves) && !operation.OtherOperation? && Covers(start, leaves)
      requires Knows(leaves) && log == FullRead(leaves, start)
      modifies this
      ensures Knows(leaves) && Decides(log, operation, leaves, start, values, expected, fits, outcome) == true
    {
      var refusal := Preflight(operation, start, values, expected, fits);
      if refusal.Some? {
        return refusal.value;
      }
      if operation.Delete? {
        outcome := Remove(leaves, start);
      } else {
        outcome := Edit(leaves, start, values.value, fits);
      }
    }

    // The checks before anything is sent.
    method Preflight(operation: Operation, start: Slot, values: Option<Values>, expected: Option<Values>, fits: (real, Resource) -> bool)
      returns (refusal: Option<Outcome>)
      ensures refusal == Refusal(operation, start, values, expected, fits)
      ensures refusal.None? ==> Configured(start) && (operation.Delete? || (values.Some? && Acceptable(values.value, start, fits)))
    {
      var baseline := ValuesOf(start);
      if !Configured(start) || baseline.None? {
        return Some(InvalidRequest);
      }
      if expected.Some? && baseline != expected {
        return Some(ChangedMeanwhile);
      }
      if operation.Create? {
        if !IsEmpty(start) {
          return Some(ChangedMeanwhile);
        }
      } else if !HasDates(start) {
        return Some(ChangedMeanwhile);
      }
      if operation.Delete? {
        return if !CanDelete(start) || expected.None? then Some(InvalidRequest) else None;
      }
      if values.None? || !Acceptable(values.value, start, fits) {
        return Some(InvalidRequest);
      }
      return None;
    }

    // Writes the changed leaves in order, rechecking the slot around every step.
    method Edit(leaves: seq<Leaf>, start: Slot, values: Values, ghost fits: (real, Resource) -> bool) returns (outcome: Outcome)
      requires RepeatFree(leaves) && Knows(leaves) && Covers(start, leaves) && log == FullRead(leaves, start)
      requires Configured(start) == true && Acceptable(values, start, fits) == true
      modifies this
      ensures Knows(leaves) && EditEnds(log, leaves, start, values, outcome) == true && FullRead(leaves, start) <= log
    {
      AcceptedCanBeWritten(values, start, fits);
      Begins(leaves, start, values);
      var current, failure := TreatAll(leaves, start, values);
      outcome := if failure.Some? then failure.value else Conclude(current, values);
      if failure.None? {
        Concluded(log, leaves, start, values, current, fits);
      }
    }

    method TreatAll(leaves: seq<Leaf>, start: Slot, values: Values) returns (current: Slot, failure: Option<Outcome>)
      requires RepeatFree(leaves) && Transacts(leaves, start, values, 0) && Plans(start, leaves, start, values, 0)
      modifies this
      ensures Transacts(leaves, start, values, 5) && old(log) <= log
      ensures StepEnds(log, leaves, start, values, failure) == true
      ensures failure.None? ==> Plans(current, leaves, start, values, 5)
    {
      current, failure := start, None;
      var i := 0;
      while i < 5
        invariant 0 <= i <= 5 && failure.None? && old(log) <= log
        invariant Transacts(leaves, start, values, i) && Plans(current, leaves, start, values, i)
      {
        current, failure := Treat(leaves, start, values, current, LeafAt(i));
        if failure.Some? {
          return;
        }
        i := i + 1;
      }
    }

    // One leaf of the order: skipped when absent or already as desired, refused when it is not writable.
    method Treat(leaves: seq<Leaf>, ghost start: Slot, values: Values, current: Slot, l: Leaf)
      returns (next: Slot, failure: Option<Outcome>)
      requires RepeatFree(leaves) && Rank(l) < 5
      requires Transacts(leaves, start, values, Rank(l)) && Plans(current, leaves, start, values, Rank(l))
      modifies this
      ensures Transacts(leaves, start, values, if failure.Some? then 5 else Rank(l) + 1) && old(log) <= log
      ensures StepEnds(log, leaves, start, values, failure) == true
      ensures failure.None? ==> Plans(next, leaves, start, values, Rank(l) + 1)
    {
      if l !in current || current[l].value == Desired(values, l) {
        SkipLeaf(log, current, start, values, leaves, l);
        return current, None;
      }
      if !current[l].writable {
        WeakerRank(log, leaves, start, values, Rank(l), 5);
        return current, Some(InvalidRequest);
      }
      next, failure := Step(leaves, start, values, current, l);
      if failure.Some? {
        WeakerRank(log, leaves, start, values, Rank(l) + 1, 5);
      }
    }

    // Writes one leaf between two full reads: the first must equal the plan, the second must show this change alone.
    method Step(leaves: seq<Leaf>, ghost start: Slot, values: Values, current: Slot, l: Leaf)
      returns (next: Slot, failure: Option<Outcome>)
      requires RepeatFree(leaves) && l in leaves && Rank(l) < 5
      requires Transacts(leaves, start, values, Rank(l)) && Plans(current, leaves, start, values, Rank(l))
      requires current[l].value != Desired(values, l)
      modifies this
      ensures Transacts(leaves, start, values, Rank(l) + 1) && old(log) <= log
      ensures StepEnds(log, leaves, start, values, failure) == true
      ensures failure.None? ==> Plans(next, leaves, start, values, Rank(l) + 1)
    {
      ghost var before := log;
      var checked := ReadAgain(leaves, start, values, Rank(l));
      WeakerRank(log, leaves, start, values, Rank(l), Rank(l) + 1);
      if checked.None? {
        return current, Some(ClientFailed);
      }
      Rechecked(before, leaves, start, values, current, l, checked.value);
      if checked.value != current {
        return current, Some(ChangedMeanwhile);
      }
      WriteIsGood(log, leaves, start, values, l, current);
      next, failure := Change(leaves, start, values, current, l);
    }

    // Sends one value and reads the slot again.
    method Change(leaves: seq<Leaf>, ghost start: Slot, values: Values, current: Slot, l: Leaf)
      returns (next: Slot, failure: Option<Outcome>)
      requires RepeatFree(leaves) && l in leaves && Rank(l) < 5 && Knows(leaves)
      requires Planned(log, current, leaves, start, values, Rank(l)) == true && Failure !in log && current[l].value != Desired(values, l)
      requires GoodWrites(log + [WriteLeaf(l, Desired(values, l))], leaves, start, values, Rank(l) + 1) == true
      modifies this
      ensures Transacts(leaves, start, values, Rank(l) + 1) && old(log) <= log
      ensures StepEnds(log, leaves, start, values, failure) == true
      ensures failure.None? ==> Plans(next, leaves, start, values, Rank(l) + 1)
    {
      ghost var before := log;
      var sent := Send(leaves, l, Desired(values, l));
      if !sent {
        ReadsAreHarmless(before + [WriteLeaf(l, Desired(values, l))], [Failure], leaves, start, values, Rank(l) + 1);
        return current, Some(ClientFailed);
      }
      assert log == before + [WriteLeaf(l, Desired(values, l))];
      var actual := ReadAgain(leaves, start, values, Rank(l) + 1);
      if actual.None? {
        return current, Some(ClientFailed);
      }
      ShowsTheChange(before, leaves, start, values, current, l, actual.value);
      if actual.value[l].value != Desired(values, l) || exists m :: m in leaves && m != l && actual.value[m] != current[m] {
        return current, Some(NotConfirmed);
      }
      return actual.value, None;
    }

    method ReadAgain(leaves: seq<Leaf>, ghost start: Slot, ghost values: Values, ghost rank: nat) returns (slot: Option<Slot>)
      requires RepeatFree(leaves) && Transacts(leaves, start, values, rank)
      modifies this
      ensures Transacts(leaves, start, values, rank) && old(log) <= log
      ensures slot.Some? ==> Covers(slot.value, leaves) && log == old(log) + FullRead(leaves, slot.value)
      ensures slot.None? ==> Failure in log
    {
      ghost var before := log;
      slot := Read(leaves);
      assert log == before + log[|before|..];
      ReadsAreHarmless(before, log[|before|..], leaves, start, values, rank);
    }

    // Deletes a used slot.
    method Remove(leaves: seq<Leaf>, current: Slot) returns (outcome: Outcome)
      requires RepeatFree(leaves) && Knows(leaves) && Covers(current, leaves) && log == FullRead(leaves, current)
      modifies this
      ensures Knows(leaves) && DeleteEnds(log, leaves, current, outcome)
    {
      var sent := Send(leaves, DeleteLeaf, Text("TRUE"));
      if !sent {
        return ClientFailed;
      }
      ghost var before := log;
      var actual := Read(leaves);
      assert log == before + log[|before|..];
      if actual.None? {
        return ClientFailed;
      }
      outcome := if IsEmpty(actual.value) then Returned(actual.value[StartStop]) else NotConfirmed;
      assert Shows(log, leaves, current, actual.value, outcome);
    }
  }

  // The first read is the plan to begin with.
  lemma Begins(leaves: seq<Leaf>, start: Slot, values: Values)
    requires RepeatFree(leaves) && Covers(start, leaves) && AllTyped(start)
    ensures GoodWrites(FullRead(leaves, start), leaves, start, values, 0) == true
    ensures Planned(FullRead(leaves, start), start, leaves, start, values, 0) == true && Failure !in FullRead(leaves, start)
  {
    BeginsPlanned(leaves, start, values);
  }

  lemma BeginsPlanned(leaves: seq<Leaf>, start: Slot, values: Values)
    requires RepeatFree(leaves) && Covers(start, leaves) && AllTyped(start)
    ensures Planned(FullRead(leaves, start), start, leaves, start, values, 0)
  {
    var log := FullRead(leaves, start);
    assert log[|log| - |leaves|..] == log;
    FirstReadConsistent(leaves, start);
  }

  lemma FirstReadConsistent(leaves: seq<Leaf>, start: Slot)
    requires RepeatFree(leaves) && Covers(start, leaves)
    ensures Consistent(FullRead(leaves, start))
  {
    FullReadConsistent([], leaves, start);
    assert [] + FullRead(leaves, start) == FullRead(leaves, start);
  }

  lemma FullReadSucceeds(log: seq<Event>, leaves: seq<Leaf>, slot: Slot)
    requires forall l :: l in leaves ==> l in slot
    ensures Failure in log + FullRead(leaves, slot) <==> Failure in log
  {
    assert Failure !in FullRead(leaves, slot);
  }

  // A read before a write: either it equals the plan, or someone else changed the slot.
  lemma Rechecked(log: seq<Event>, leaves: seq<Leaf>, start: Slot, desired: Values, current: Slot, l: Leaf, checked: Slot)
    requires RepeatFree(leaves) && Planned(log, current, leaves, start, desired, Rank(l)) && l in leaves
    requires Covers(checked, leaves) && Failure !in log
    ensures Failure !in log + FullRead(leaves, checked)
    ensures !AfterWrite(log + FullRead(leaves, checked), leaves)
    ensures if checked == current then
              Planned(log + FullRead(leaves, checked), current, leaves, start, desired, Rank(l)) == true &&
              CheckedTwice(log + FullRead(leaves, checked), leaves, current, start, desired, Rank(l)) == true
            else !Consistent(log + FullRead(leaves, checked))
  {
    RereadConsistent(log, leaves, current, checked);
    FullReadSucceeds(log, leaves, checked);
    var longer := log + FullRead(leaves, checked);
    assert longer[|longer| - |leaves|..] == FullRead(leaves, checked) && longer[..|longer| - |leaves|] == log;
    assert longer[|longer| - |leaves| - 1] == log[|log| - 1] == FullRead(leaves, current)[|leaves| - 1];
  }

  // A read after a write: either it shows one change alone, as the plan expects, or the write is not confirmed.
  lemma ShowsTheChange(log: seq<Event>, leaves: seq<Leaf>, start: Slot, desired: Values, current: Slot, l: Leaf, actual: Slot)
    requires RepeatFree(leaves) && Planned(log, current, leaves, start, desired, Rank(l)) && l in leaves && Rank(l) < 5
    requires current[l].value != Desired(desired, l) && Covers(actual, leaves) && Failure !in log
    ensures var longer := log + [WriteLeaf(l, Desired(desired, l))] + FullRead(leaves, actual);
            Failure !in longer && AfterWrite(longer, leaves) &&
            if actual[l].value == Desired(desired, l) && forall m :: m in leaves && m != l ==> actual[m] == current[m]
            then Planned(longer, actual, leaves, start, desired, Rank(l) + 1) == true
            else !Consistent(longer)
  {
    var sent := log + [WriteLeaf(l, Desired(desired, l))];
    var longer := sent + FullRead(leaves, actual);
    ReadAfterWrite(log, leaves, current, l, Desired(desired, l), actual);
    FullReadSucceeds(sent, leaves, actual);
    assert longer[|longer| - |leaves|..] == FullRead(leaves, actual);
    if actual[l].value == Desired(desired, l) && forall m :: m in leaves && m != l ==> actual[m] == current[m] {
      OneChange(leaves, start, desired, current, l, actual);
      TypedToo(leaves, start, desired, current, l, actual);
    }
  }

  lemma OneChange(leaves: seq<Leaf>, start: Slot, desired: Values, current: Slot, l: Leaf, actual: Slot)
    requires Progress(current, start, desired, leaves, Rank(l)) && l in leaves && current[l].value != Desired(desired, l)
    requires Covers(actual, leaves) && actual[l].value == Desired(desired, l)
    requires forall m :: m in leaves && m != l ==> actual[m] == current[m]
    ensures Progress(actual, start, desired, leaves, Rank(l) + 1)
  {
    forall m | m in leaves && m != l ensures Rank(m) != Rank(l) {
    }
  }

  lemma TypedToo(leaves: seq<Leaf>, start: Slot, desired: Values, current: Slot, l: Leaf, actual: Slot)
    requires Progress(current, start, desired, leaves, Rank(l)) && AllTyped(start) && l in leaves && l != DeleteLeaf
    requires Covers(actual, leaves) && forall m :: m in leaves && m != l ==> actual[m] == current[m]
    ensures AllTyped(actual) <==> AllTyped(current) && actual[l].typed
  {
    assert current[l] == start[l];
  }

  lemma WeakerRank(log: seq<Event>, leaves: seq<Leaf>, start: Slot, desired: Values, rank: nat, bound: nat)
    requires GoodWrites(log, leaves, start, desired, rank) && rank <= bound
    ensures GoodWrites(log, leaves, start, desired, bound)
  {
    forall k | 0 <= k < |log| && log[k].WriteLeaf? ensures GoodWrite(log, k, leaves, start, desired) && Rank(log[k].leaf) < bound {
      assert GoodWrite(log, k, leaves, start, desired);
    }
  }

  // A leaf that is absent or already as desired needs no write.
  lemma SkipLeaf(log: seq<Event>, current: Slot, start: Slot, desired: Values, leaves: seq<Leaf>, l: Leaf)
    requires Progress(current, start, desired, leaves, Rank(l)) && GoodWrites(log, leaves, start, desired, Rank(l))
    requires l !in current || current[l].value == Desired(desired, l)
    ensures Progress(current, start, desired, leaves, Rank(l) + 1) && GoodWrites(log, leaves, start, desired, Rank(l) + 1)
  {
    WeakerRank(log, leaves, start, desired, Rank(l), Rank(l) + 1);
    forall m | m in leaves && Rank(m) == Rank(l) ensures m == l {
    }
  }

  // An edit returns only if the slot as read last has all submitted values, also when nothing had to be written.
  function Conclude(current: Slot, values: Values): (r: Outcome)
    ensures ValuesOf(current) == Some(values) ==> StartStop in current && r == Returned(current[StartStop])
    ensures ValuesOf(current) != Some(values) ==> r == NotConfirmed
  {
    if ValuesOf(current) == Some(values) then Returned(current[StartStop]) else NotConfirmed
  }

  // At the end all values are there, unless a leaf that was written does not pass its parser.
  lemma Concluded(log: seq<Event>, leaves: seq<Leaf>, start: Slot, values: Values, current: Slot, fits: (real, Resource) -> bool)
    requires Planned(log, current, leaves, start, values, 5) == true && (current == start || AfterWrite(log, leaves)) && Failure !in log
    requires GoodWrites(log, leaves, start, values, 5) == true
    requires Configured(start) == true && Acceptable(values, start, fits) == true
    ensures EditEnds(log, leaves, start, values, Conclude(current, values)) == true
  {
    AcceptedCanBeWritten(values, start, fits);
    HoldsAll(leaves, start, values, current);
    RoundTrip(current, values);
    if AllTyped(current) {
      assert ValidDates(values.start, values.end) && HoldsDates(current, values.start + "/" + values.end);
      InUseExactly(current);
    }
  }

  lemma HoldsAll(leaves: seq<Leaf>, start: Slot, values: Values, current: Slot)
    requires Progress(current, start, values, leaves, 5)
    ensures Holds(current, values) && current.Keys == start.Keys
  {
    forall l | l in current && l != DeleteLeaf ensures current[l].value == Desired(values, l) {
      assert l in leaves && Rank(l) < 5;
    }
  }

  /** The first `i` leaves have been read; the others are invalidated. */
  ghost predicate Reading(confirmed: Slot, invalidated: set<Leaf>, leaves: seq<Leaf>, i: nat, log: seq<Event>, result: Slot)
    requires i <= |leaves|
  {
    && confirmed == result && result.Keys == Elements(leaves[..i]) && invalidated == Elements(leaves) - Elements(leaves[..i])
    && forall l :: l in confirmed ==> LatestRead(log, l) == Some(confirmed[l])
  }

  lemma ReadingKnows(confirmed: Slot, invalidated: set<Leaf>, leaves: seq<Leaf>, i: nat, log: seq<Event>, result: Slot)
    requires i <= |leaves| && Reading(confirmed, invalidated, leaves, i, log, result)
    ensures Knowledge(confirmed, invalidated, leaves, log)
  {
    forall l | l in leaves[..i] ensures l in leaves {
    }
  }

  // A failure ends the read, and what was read before it is still known.
  lemma ReadingFails(confirmed: Slot, invalidated: set<Leaf>, leaves: seq<Leaf>, i: nat, log: seq<Event>, result: Slot)
    requires i <= |leaves| && Reading(confirmed, invalidated, leaves, i, log, result)
    ensures Knowledge(confirmed, invalidated, leaves, log + [Failure])
  {
    ReadingKnows(confirmed, invalidated, leaves, i, log, result);
    assert (log + [Failure])[..|log|] == log;
  }

  lemma ReadingNext(confirmed: Slot, invalidated: set<Leaf>, leaves: seq<Leaf>, i: nat, log: seq<Event>, result: Slot, r: Resource)
    requires i < |leaves| && RepeatFree(leaves) && Reading(confirmed, invalidated, leaves, i, log, result)
    ensures Reading(confirmed[leaves[i] := r], invalidated - {leaves[i]}, leaves, i + 1, log + [ReadLeaf(leaves[i], r)],
                    result[leaves[i] := r])
  {
    NextLeaf(leaves, i);
    LatestReadNext(log, leaves[i], r);
  }

  lemma NextLeaf(leaves: seq<Leaf>, i: nat)
    requires i < |leaves| && RepeatFree(leaves)
    ensures Elements(leaves[..i + 1]) == Elements(leaves[..i]) + {leaves[i]} && leaves[i] !in Elements(leaves[..i])
  {
    assert leaves[..i + 1] == leaves[..i] + [leaves[i]];
    RepeatFreePrefix(leaves, i + 1);
    assert leaves[..i + 1][..i] == leaves[..i];
  }

  lemma FullReadNext(leaves: seq<Leaf>, i: nat, slot: Slot, r: Resource)
    requires i < |leaves| && slot.Keys == Elements(leaves[..i]) && leaves[i] !in slot
    ensures FullRead(leaves[..i + 1], slot[leaves[i] := r]) == FullRead(leaves[..i], slot) + [ReadLeaf(leaves[i], r)]
  {
  }

  lemma LatestReadNext(log: seq<Event>, l: Leaf, r: Resource)
    ensures LatestRead(log + [ReadLeaf(l, r)], l) == Some(r)
    ensures forall m :: m != l ==> LatestRead(log + [ReadLeaf(l, r)], m) == LatestRead(log, m)
  {
    assert (log + [ReadLeaf(l, r)])[..|log|] == log;
  }
}
