/**
 * The importer of DiRT Rally input XML. The document is given as the tree
 * the importer queries: whether an `ActionMap` element exists, the
 * `Action` elements in document order, and under each the `Axis` elements
 * in document order, each element with its attributes.
 */
module XmlImport {
  import opened Types
  import opened Text
  import Lists
  import MappingStore

  datatype AxisElement = AxisElement(attributes: map<string, string>)

  datatype ActionElement = ActionElement(attributes: map<string, string>, axes: seq<AxisElement>)

  datatype Document = Document(hasActionMap: bool, actions: seq<ActionElement>)

  /** The import fails only when the document has no `ActionMap`. */
  datatype ImportError = NoActionMap

  /** An attribute the importer accepts: present and not empty (the importer tests `!value`). */
  function NonEmptyAttribute(attributes: map<string, string>, name: string): (r: Option<string>)
    ensures r.Some? <==> name in attributes && attributes[name] != ""
    ensures r.Some? ==> r.value == attributes[name]
  {
    if name in attributes && attributes[name] != "" then Some(attributes[name]) else None
  }

  /** The named DirectInput axes; an axis id's position in this table is its slot. */
  const AxisNames: seq<string> := [
    "di_x_axis", "di_y_axis", "di_z_axis",
    "di_x_axis_rotation", "di_y_axis_rotation", "di_z_axis_rotation",
    "di_slider_0", "di_slider_1"]

  const ButtonPrefix: string := "di_button_"

  const AxisPrefix: string := "di_axis_"

  /** `di_axis_` followed by a digit occurs at position `p` of `id`. */
  predicate AxisDigitsAt(id: string, p: nat)
  {
    p + |AxisPrefix| < |id| && id[p..p + |AxisPrefix|] == AxisPrefix && IsDigit(id[p + |AxisPrefix|])
  }

  /** Where `/di_axis_(\d+)/` first matches in `id`, searching from `from`. */
  function FirstAxisDigits(id: string, from: nat): (r: Option<nat>)
    ensures r.Some? ==> from <= r.value && AxisDigitsAt(id, r.value)
    ensures r.Some? ==> forall q: nat :: from <= q < r.value ==> !AxisDigitsAt(id, q)
    ensures r.None? ==> forall q: nat :: from <= q ==> !AxisDigitsAt(id, q)
    decreases |id| - from
  {
    if from >= |id| then None
    else if AxisDigitsAt(id, from) then Some(from)
    else FirstAxisDigits(id, from + 1)
  }

  /** The slot an input id names. */
  datatype Slot = Slot(kind: InputType, index: Index)

  /**
   * Decodes an input id: `di_button_<n>` is a button whose slot is
   * `parseInt(<n>)`; any other id is an axis, whose slot is its position in
   * the table of named axes, or else the digits after the first
   * `di_axis_` it contains; an id that is none of these is not decoded.
   */
  function DecodeInputId(id: string): (r: Option<Slot>)
    ensures r.Some? && r.value.kind == Button <==> ButtonPrefix <= id
    ensures r.None? <==> !(ButtonPrefix <= id) && id !in AxisNames && forall p: nat :: !AxisDigitsAt(id, p)
    ensures r.Some? && r.value.kind == Axis ==> r.value.index.Num? && r.value.index.value >= 0
    ensures ButtonPrefix <= id ==> r == Some(Slot(Button, ParseInt(id[|ButtonPrefix|..])))
    ensures !(ButtonPrefix <= id) && id in AxisNames ==>
              exists k :: 0 <= k < |AxisNames| && AxisNames[k] == id && r == Some(Slot(Axis, Num(k)))
    ensures forall p: nat ::
              (&& !(ButtonPrefix <= id) && id !in AxisNames && AxisDigitsAt(id, p)
               && forall q: nat :: q < p ==> !AxisDigitsAt(id, q))
              ==> r == Some(Slot(Axis, Num(DigitsValue(LeadingDigits(id[p + |AxisPrefix|..])))))
  {
    if ButtonPrefix <= id then Some(Slot(Button, ParseInt(id[|ButtonPrefix|..])))
    else if id in AxisNames then Some(Slot(Axis, Num(Lists.IndexOf(AxisNames, id))))
    else
      match FirstAxisDigits(id, 0)
      case None => None
      case Some(p) => Some(Slot(Axis, Num(DigitsValue(LeadingDigits(id[p + |AxisPrefix|..])))))
  }

  /** The id written for button `n` decodes to button `n`. */
  lemma ButtonIdRoundTrip(n: nat)
    ensures DecodeInputId(ButtonPrefix + DecimalString(n)) == Some(Slot(Button, Num(n)))
  {
    var id := ButtonPrefix + DecimalString(n);
    assert id[|ButtonPrefix|..] == DecimalString(n) + [];
    ParseIntOfDecimal(n, []);
  }

  /** Each named axis decodes to its position in the table. */
  lemma NamedAxisIds(k: nat)
    requires k < |AxisNames|
    ensures DecodeInputId(AxisNames[k]) == Some(Slot(Axis, Num(k)))
  {
    var id := AxisNames[k];
    assert id[3] != ButtonPrefix[3];
    AxisNamesDistinct();
    Lists.IndexOfAt(AxisNames, id, k);
  }

  lemma AxisNamesDistinct()
    ensures Lists.NoDuplicates(AxisNames)
  {
    forall i, j | 0 <= i < j < |AxisNames| ensures AxisNames[i] != AxisNames[j] {
      var (a, b) := (AxisNames[i], AxisNames[j]);
      assert |a| != |b| || a[3] != b[3] || a[|a| - 1] != b[|b| - 1];
    }
  }

  /** The generic id `di_axis_<n>` decodes to axis `n`. */
  lemma GenericAxisRoundTrip(n: nat)
    ensures DecodeInputId(AxisPrefix + DecimalString(n)) == Some(Slot(Axis, Num(n)))
  {
    var id := AxisPrefix + DecimalString(n);
    assert id[3] != ButtonPrefix[3];
    assert !(ButtonPrefix <= id);
    forall k | 0 <= k < |AxisNames| ensures AxisNames[k] != id {
      assert AxisNames[k][3] != id[3];
    }
    assert id[..|AxisPrefix|] == AxisPrefix;
    assert AxisDigitsAt(id, 0);
    assert id[|AxisPrefix|..] == DecimalString(n) + [];
    LeadingDigitsOfNumeral(DecimalString(n), []);
    DecimalStringRoundTrip(n);
  }

  /** The record of an imported binding before reconciliation: device known by GUID only. */
  predicate Imported(m: InputMapping)
  {
    m.deviceGuid != "" && m.deviceIndex == -1 && m.deviceName == "Unknown/Imported" && m.direction.None?
  }

  /**
   * One `Axis` element: skipped when its id is missing or empty or does not
   * decode, or when its `restricted_device` is missing or empty. Otherwise a
   * binding to that GUID with placeholder device fields, no direction, the
   * `type` text as calibration (none when missing or empty), and deadzone
   * and saturation read with `parseFloat`, 0.0 and 1.0 when missing or
   * empty.
   */
  function DecodeAxis(e: AxisElement, parseFloat: string -> real): (r: Option<InputMapping>)
    ensures r.Some? <==>
              && NonEmptyAttribute(e.attributes, "id").Some?
              && DecodeInputId(e.attributes["id"]).Some?
              && NonEmptyAttribute(e.attributes, "restricted_device").Some?
    ensures r.Some? ==>
              && Imported(r.value)
              && r.value.deviceGuid == e.attributes["restricted_device"]
              && Slot(r.value.kind, r.value.index) == DecodeInputId(e.attributes["id"]).value
    ensures r.Some? ==>
              && (r.value.calibration.None? <==> NonEmptyAttribute(e.attributes, "type").None?)
              && (r.value.calibration.Some? ==> CalibrationName(r.value.calibration.value) == e.attributes["type"])
              && (r.value.calibration.Some? ==> (r.value.calibration.value.Unrecognised? <==> e.attributes["type"] !in CalibrationNames))
    ensures r.Some? ==>
              && r.value.deadzone == Some(if NonEmptyAttribute(e.attributes, "deadzone").None? then 0.0 else parseFloat(e.attributes["deadzone"]))
              && r.value.saturation == Some(if NonEmptyAttribute(e.attributes, "saturation").None? then 1.0 else parseFloat(e.attributes["saturation"]))
  {
    match NonEmptyAttribute(e.attributes, "id")
    case None => None
    case Some(id) =>
      match DecodeInputId(id)
      case None => None
      case Some(slot) =>
        match NonEmptyAttribute(e.attributes, "restricted_device")
        case None => None
        case Some(guid) =>
          var calibration := match NonEmptyAttribute(e.attributes, "type")
                             case None => None
                             case Some(t) => Some(CalibrationOf(t));
          var deadzone := match NonEmptyAttribute(e.attributes, "deadzone")
                          case None => 0.0
                          case Some(t) => parseFloat(t);
          var saturation := match NonEmptyAttribute(e.attributes, "saturation")
                            case None => 1.0
                            case Some(t) => parseFloat(t);
          Some(InputMapping(guid, -1, "Unknown/Imported", slot.kind, slot.index, None,
                            calibration, Some(deadzone), Some(saturation)))
  }

  /** The bindings of one action: its decodable `Axis` elements, in document order. */
  function DecodeAxes(axes: seq<AxisElement>, parseFloat: string -> real): (r: seq<InputMapping>)
    ensures |r| <= |axes|
    ensures forall m :: m in r ==> Imported(m)
    decreases |axes|
  {
    if axes == [] then []
    else
      var init := axes[..|axes| - 1];
      var prev := DecodeAxes(init, parseFloat);
      assert forall e :: e in init ==> e in axes;
      match DecodeAxis(axes[|axes| - 1], parseFloat)
      case None => prev
      case Some(m) => prev + [m]
  }

  /** Decoding keeps document order: the bindings of two runs of elements are those of each, concatenated. */
  lemma {:induction false} DecodeAxesAppend(xs: seq<AxisElement>, ys: seq<AxisElement>, parseFloat: string -> real)
    ensures DecodeAxes(xs + ys, parseFloat) == DecodeAxes(xs, parseFloat) + DecodeAxes(ys, parseFloat)
    decreases |ys|
  {
    if ys == [] {
      assert xs + ys == xs;
    } else {
      var init := ys[..|ys| - 1];
      DecodeAxesAppend(xs, init, parseFloat);
      assert (xs + ys)[..|xs + ys| - 1] == xs + init;
      assert (xs + ys)[|xs + ys| - 1] == ys[|ys| - 1];
    }
  }

  /** What one `Action` element offers: its id when present and not empty, and its decoded bindings. */
  type Entry = (Option<string>, seq<InputMapping>)

  function ActionEntry(a: ActionElement, parseFloat: string -> real): Entry
  {
    (NonEmptyAttribute(a.attributes, "id"), DecodeAxes(a.axes, parseFloat))
  }

  /** An entry that is stored under `k`: its id is `k` and its list is not empty. */
  predicate Contributes(e: Entry, k: string)
  {
    e.0 == Some(k) && e.1 != []
  }

  /** The mappings after storing, in order, each entry that has an id and a non-empty list. */
  function Assign(entries: seq<Entry>): (r: MappingState)
    ensures MappingStore.NoEmptyLists(r)
    decreases |entries|
  {
    if entries == [] then map[]
    else
      var prev := Assign(entries[..|entries| - 1]);
      var (id, list) := entries[|entries| - 1];
      if id.Some? && |list| > 0 then prev[id.value := list] else prev
  }

  /**
   * An id is a key exactly when some entry contributes under it, and its
   * list is that of the last such entry.
   */
  lemma {:induction false} AssignIsLastWriter(entries: seq<Entry>, k: string)
    ensures k in Assign(entries) <==> exists i :: 0 <= i < |entries| && Contributes(entries[i], k)
    ensures k in Assign(entries) ==>
              exists i :: && 0 <= i < |entries| && Contributes(entries[i], k)
                          && Assign(entries)[k] == entries[i].1
                          && forall j :: i < j < |entries| ==> !Contributes(entries[j], k)
    decreases |entries|
  {
    if entries != [] {
      var n := |entries| - 1;
      var init := entries[..n];
      AssignIsLastWriter(init, k);
      assert forall i :: 0 <= i < n ==> entries[i] == init[i];
      if !Contributes(entries[n], k) && k in Assign(entries) {
        var i :| && 0 <= i < n && Contributes(init[i], k)
                 && Assign(init)[k] == init[i].1
                 && forall j :: i < j < n ==> !Contributes(init[j], k);
        assert forall j :: i < j < |entries| ==> !Contributes(entries[j], k);
      }
    }
  }

  function Entries(actions: seq<ActionElement>, parseFloat: string -> real): (r: seq<Entry>)
    ensures |r| == |actions| && forall i :: 0 <= i < |actions| ==> r[i] == ActionEntry(actions[i], parseFloat)
  {
    seq(|actions|, i requires 0 <= i < |actions| => ActionEntry(actions[i], parseFloat))
  }

  /** `parseXml`: no `ActionMap` is an error; otherwise the mappings of the `Action` elements in document order. */
  function Parsed(doc: Document, parseFloat: string -> real): Result<MappingState, ImportError>
  {
    if !doc.hasActionMap then Err(NoActionMap) else Ok(Assign(Entries(doc.actions, parseFloat)))
  }

  /**
   * `parseXml`: builds each action's list by pushing the decoded `Axis`
   * elements and stores it under the action's id when it is not empty.
   */
  method ParseXml(doc: Document, parseFloat: string -> real) returns (r: Result<MappingState, ImportError>)
    ensures r == Parsed(doc, parseFloat)
  {
    if !doc.hasActionMap {
      return Err(NoActionMap);
    }
    ghost var entries := Entries(doc.actions, parseFloat);
    var mappings: MappingState := map[];
    for i := 0 to |doc.actions|
      invariant mappings == Assign(entries[..i])
    {
      assert entries[..i + 1][..i] == entries[..i];
      var action := doc.actions[i];
      var actionId := NonEmptyAttribute(action.attributes, "id");
      if actionId.None? {
        continue;
      }
      var actionMappings := DecodeAction(action, parseFloat);
      if |actionMappings| > 0 {
        mappings := mappings[actionId.value := actionMappings];
      }
    }
    assert entries[..|doc.actions|] == entries;
    return Ok(mappings);
  }

  /** The inner loop of `parseXml`: pushes the binding of each decodable `Axis` of the action. */
  method DecodeAction(action: ActionElement, parseFloat: string -> real) returns (actionMappings: seq<InputMapping>)
    ensures actionMappings == DecodeAxes(action.axes, parseFloat)
  {
    actionMappings := [];
    for j := 0 to |action.axes|
      invariant actionMappings == DecodeAxes(action.axes[..j], parseFloat)
    {
      assert action.axes[..j + 1][..j] == action.axes[..j];
      var m := DecodeAxis(action.axes[j], parseFloat);
      if m.Some? {
        actionMappings := actionMappings + [m.value];
      }
    }
    assert action.axes[..|action.axes|] == action.axes;
  }

  /**
   * Which actions end up in the result: an id is a key exactly when some
   * `Action` with that id has a decodable `Axis`, and its list is that of
   * the last such action, so a later action with the same id replaces an
   * earlier one and an action without decodable input replaces nothing.
   */
  lemma CollectIsLastContributor(doc: Document, parseFloat: string -> real, k: string)
    requires doc.hasActionMap
    ensures var r := Parsed(doc, parseFloat).value;
            && (k in r <==> exists i :: 0 <= i < |doc.actions| && Contributes(ActionEntry(doc.actions[i], parseFloat), k))
            && (k in r ==>
                  exists i :: && 0 <= i < |doc.actions| && Contributes(ActionEntry(doc.actions[i], parseFloat), k)
                              && r[k] == DecodeAxes(doc.actions[i].axes, parseFloat)
                              && forall j :: i < j < |doc.actions| ==> !Contributes(ActionEntry(doc.actions[j], parseFloat), k))
  {
    AssignIsLastWriter(Entries(doc.actions, parseFloat), k);
  }

  /**
   * An import of a document without `ActionMap` fails; any other import
   * satisfies the store's invariant and holds only placeholder bindings.
   */
  lemma ParsedShape(doc: Document, parseFloat: string -> real)
    ensures Parsed(doc, parseFloat).Err? <==> !doc.hasActionMap
    ensures Parsed(doc, parseFloat).Ok? ==>
              && MappingStore.NoEmptyLists(Parsed(doc, parseFloat).value)
              && forall k, m :: k in Parsed(doc, parseFloat).value && m in Parsed(doc, parseFloat).value[k] ==> Imported(m)
  {
    if doc.hasActionMap {
      var entries := Entries(doc.actions, parseFloat);
      var r := Assign(entries);
      forall k, m | k in r && m in r[k] ensures Imported(m) {
        AssignIsLastWriter(entries, k);
      }
    }
  }
}
