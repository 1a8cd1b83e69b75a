# DiRT Rally input mapper — the input-binding engine in Dafny

This project models the core of the DiRT Rally input mapper: the logic that
turns raw game controllers into bindings for the game's actions.

- **Device identity** (`gamepad_id.dfy`). A browser controller descriptor
  such as `Wheel (Vendor: 046d Product: c24f)` becomes a device record. The
  record holds the vendor and product ids, a cleaned display name and the
  GUID the game's XML uses: product id first, then vendor id, then the fixed
  suffix. The two regular expressions and the name clean-up are written out
  as hand-made matchers. They follow JavaScript's `/i` flag, `\s` and
  `trim()` (`text.dfy`).
- **Input detection** (`detection.dfy`). When detection is armed, a baseline
  of every candidate controller is captured. Each frame then scans the live
  state: controllers in the given order, buttons before axes, slots
  ascending. The first button that went down, or the first axis that moved
  more than 0.5 from its baseline, wins. A `Session` class holds the phase
  (Armed, Resolved or Rejected) and reads the abort flag first in every frame.
- **Binding store** (`mapping_store.dfy`). The updaters of the action → bindings
  map:
  - adding a detected binding, with its defaults and the duplicate check;
  - removing by position;
  - merging a field patch;
  - reconciling the cached device name and index with the live devices.
- **Device order and selection** (`device_order.dfy`). Appending new GUIDs to
  the user's order, moving a GUID up or down, the sorted device view and the
  selection toggle.
- **Detection handle ownership** (`bind_control.dfy`). The single abort slot
  behind the bind buttons, as a `BindController` class. Handles are numbered.
  The slot holds at most one live detection. A detection that ends clears the
  slot only if it still owns it.
- **XML import** (`xml_import.dfy`). Reading a DiRT Rally action-map document
  into the binding store. The document is an abstract element tree: each
  Action has its attributes and its Axis children.

`types.dfy` holds the records of the program: `InputMapping`,
`DetectedDevice`, the calibration names and the slot number, which can be
NaN. The methods follow the program's loops. Where a loop computes a value
(the scans, the sorted view, the import), its method is proved equal to a
specification function and the properties are proved about that function.
`Detection.CaptureBaseline` instead states the baseline's keys and values
directly. The `Session` and `BindController` methods change state, and their
contracts state their outcome and the new state directly.

## Model

| member | source | states |
|---|---|---|
| Types.CalibrationOf | src/types.ts:90-96 | reading a `type` attribute keeps its text; it is one of the four calibrations exactly when the text is one of their names |
| Types.CalibrationFixedByName | src/types.ts:90-96 | a calibration is determined by its text and whether it is recognised, so no `Unrecognised` value carries one of the four names |
| Text.UpperAsciiString | src/services/gamepadService.ts:19-21 | `toUpperCase` on an id keeps its length and upper-cases each ASCII letter; every other character is kept |
| Text.TrimStart | src/services/gamepadService.ts:24 | the result is a suffix of the input; everything cut is white space; it does not start with white space |
| Text.TrimEnd | src/services/gamepadService.ts:24 | the result is a prefix of the input; everything cut is white space; it does not end with white space |
| Text.TrimIsInfix | src/services/gamepadService.ts:24 | `trim()` gives an infix of the input with only white space cut on either side, and it neither starts nor ends with white space |
| Text.TrimIgnoresTrailingSpace | src/services/gamepadService.ts:24 | a trailing white-space character does not change the trimmed name |
| Text.DecimalStringRoundTrip | src/services/xmlParser.ts:32 | reading back the numeral written for a number gives that number |
| Text.LeadingDigits | src/services/xmlParser.ts:32 | the longest all-digit prefix: it is a prefix, all digits, and the next character is not a digit |
| Text.ParseInt | src/services/xmlParser.ts:32 | `parseInt(s, 10)`: NaN exactly when no digit follows the leading white space and one optional sign; otherwise the value of the leading digit run, negated exactly after a `-` |
| Text.ParseIntOfDecimal | src/services/xmlParser.ts:32 | `parseInt(numeral + rest, 10)` is the number whenever `rest` does not start with a digit |
| GamepadId.SkipSpaces | src/services/gamepadService.ts:12-13 | the `\s*` after a label: consumes exactly a maximal run of white space |
| GamepadId.GroupAt | src/services/gamepadService.ts:12-13 | a label match at a position captures exactly four hex digits |
| GamepadId.FirstHit | src/services/gamepadService.ts:12-13 | leftmost match: the reported position matches and no earlier position does; no result means no position matches |
| GamepadId.CloseParen | src/services/gamepadService.ts:24 | the lazy `.*?\)`: the first `)` with no line terminator before it, or none when every `)` lies past a line terminator |
| GamepadId.FirstVendorGroup | src/services/gamepadService.ts:24 | the leftmost `(Vendor:…)` group: it matches, and no earlier position starts one |
| GamepadId.StripVendorGroup | src/services/gamepadService.ts:24 | `replace` removes exactly the first case-sensitive `(Vendor:…)` group, or returns the text unchanged when there is none |
| GamepadId.ParseGamepadId | src/services/gamepadService.ts:8-43 | index, descriptor and counts pass through; the GUID is built from pid then vid; a missing id gives `0000`/`0000` and the raw name; otherwise the ids are the upper-cased first matches and the name is the trimmed stripped descriptor, or `Unknown Device n+1` when that is empty |
| GamepadId.IdsAreUpperHex | src/services/gamepadService.ts:15-21 | vid and pid are always four hex digits with no lower-case letter |
| GamepadId.GuidLayout | src/services/gamepadService.ts:31 | the GUID is 38 characters: `{`, then pid, then vid, then the 28-character suffix, then `}` |
| GamepadId.VendorOfTail | src/services/gamepadService.ts:12 | in `name (Vendor: v Product: p)`, with no id label in the name, the vendor match is `v` at the tail |
| GamepadId.ProductOfTail | src/services/gamepadService.ts:13 | in the same descriptor the product match is `p` at the tail |
| GamepadId.StripOfTail | src/services/gamepadService.ts:24 | in the same descriptor, stripping the vendor group leaves the name and one space |
| GamepadId.ResolvesUsualDescriptor | src/services/gamepadService.ts:8-43 | for `name (Vendor: v Product: p)` the record has vid `V`, pid `P`, GUID `{PV…}`, and the trimmed name or the fallback |
| GamepadId.UnresolvedKeepsDescriptor | src/services/gamepadService.ts:15-17 | a descriptor with no vendor label keeps its text as the name and gets the all-zero GUID |
| Detection.CaptureBaseline | src/services/gamepadService.ts:61-71 | the baseline holds exactly the candidate indices that are connected, each with a copy of its axes and its pressed flags |
| Detection.FirstButton | src/services/gamepadService.ts:86-99 | the lowest firing button slot at or after `from`, or none |
| Detection.FirstAxis | src/services/gamepadService.ts:103-120 | the lowest firing axis slot at or after `from`, or none |
| Detection.ScanFrame | src/services/gamepadService.ts:81-122 | the nested scan with early return gives exactly the specification verdict `FirstMatch` |
| Detection.FirstMatchSound | src/services/gamepadService.ts:81-122 | a verdict names a connected candidate, and either a button pressed now but not at arming, or an axis past 0.5 with the sign of its movement |
| Detection.FirstMatchNoneIffQuiet | src/services/gamepadService.ts:81-122 | a frame finds nothing exactly when no button and no axis of any candidate fires |
| Detection.FirstMatchIsFirst | src/services/gamepadService.ts:81-122 | the verdict is first in scan order: earlier candidates are quiet, no earlier slot of the same kind fires, and an axis verdict means no button fires |
| Detection.HeldButtonNeverFires | src/services/gamepadService.ts:92-97 | a button held since arming is never reported |
| Detection.NoBaselineNoAxis | src/services/gamepadService.ts:103-105 | a controller absent at arming can only be reported for a button |
| Detection.SettledIsFinal | src/services/gamepadService.ts:74-77 | a resolved or rejected session ignores all further frames |
| Detection.RunSettlesAtFirstEvent | src/services/gamepadService.ts:73-128 | an armed session settles at its first frame that has an abort or a hit: an abort gives `Aborted`, otherwise that frame's verdict |
| Detection.RunStaysArmed | src/services/gamepadService.ts:73-128 | with no abort and no hit in any frame, the session stays armed |
| Detection.Session.constructor | src/services/gamepadService.ts:54-71 | no gamepad source rejects before any frame; otherwise the session is armed with the baseline of the first poll |
| Detection.Session.Frame | src/services/gamepadService.ts:73-128 | one frame: a settled phase is kept; an abort rejects before the poll is read; otherwise the phase is resolved with the scan verdict, or stays armed |
| MappingStore.DefaultCalibration | src/App.tsx:257-259 | `biDirLower` exactly for Steer Left, `biDirUpper` exactly for Steer Right, `uniDirPos` for every other action |
| MappingStore.AddBinding | src/App.tsx:273-280 | other actions are unchanged; the state is unchanged exactly when the list already binds the same input; otherwise the binding is appended at the end |
| MappingStore.FindByIndex | src/App.tsx:254 | `find` returns the first device with the index; none means no device has it |
| MappingStore.CompleteBinding | src/App.tsx:252-280 | fails exactly when no device has the detected index; otherwise the result is `AddBinding` of the binding built on the first device with that index, so only the action's list changes, the old list stays a prefix, and the state is unchanged exactly when that list already binds the input; a new last entry carries that device's GUID, index and name, the detected slot and direction, the default calibration, deadzone 0.0 and saturation 1.0 |
| MappingStore.AddBindingIdempotent | src/App.tsx:273-280 | adding the same binding twice equals adding it once |
| MappingStore.AddBindingKeepsDeduplicated | src/App.tsx:273-280 | adding keeps every list free of two bindings of the same input |
| MappingStore.AddBindingKeepsNonEmpty | src/App.tsx:273-280 | adding leaves no action with an empty list |
| MappingStore.WithoutCutsOne | src/App.tsx:296 | the position filter drops exactly the entry at that position, when there is one, and keeps the rest in order |
| MappingStore.RemoveBinding | src/App.tsx:292-304 | an unknown action is a no-op; other actions are unchanged; the list loses exactly the entry at the position; an emptied action is deleted |
| MappingStore.RemoveBindingKeepsInvariants | src/App.tsx:292-304 | removing leaves no empty list and no duplicate |
| MappingStore.RemoveUndoesAdd | src/App.tsx:273-304 | removing the last entry after a successful add gives back the original state, for a state with no empty lists |
| MappingStore.UpdateBinding | src/App.tsx:306-313 | same keys; other actions, the list length and the other entries are unchanged; the entry at the position is the merge of the patch |
| MappingStore.MergeLaws | src/App.tsx:310 | applying a patch twice is applying it once; the empty patch changes nothing |
| MappingStore.UpdateBindingKeepsInvariants | src/App.tsx:306-313 | a patch that leaves the input fields alone keeps the store free of empty lists and of duplicates |
| MappingStore.FindByGuid | src/App.tsx:138 | `find` returns the first device with the GUID; none means no device has it |
| MappingStore.Reconcile | src/App.tsx:131-150 | the loop computes `Reconciled`; the change flag is set exactly when the result differs from the previous state |
| MappingStore.RefreshList | src/App.tsx:137-146 | the per-list `map` computes `RefreshAll` and reports whether any entry changed |
| MappingStore.ReconcileIdempotent | src/App.tsx:131-150 | reconciling twice is reconciling once |
| MappingStore.ReconcileKeepsBindings | src/App.tsx:131-150 | same actions and list lengths; only the cached name and index can change; they become those of the first live device with the GUID, and stay unchanged when there is none or the device list is empty |
| MappingStore.ReconcileKeepsInvariants | src/App.tsx:131-150 | reconciling keeps the store free of empty lists and of duplicates |
| DeviceOrder.Appended | src/App.tsx:190-203 | the old order is a prefix; every live GUID is present; every appended entry is a live GUID |
| DeviceOrder.AppendNewGuids | src/App.tsx:190-203 | the loop computes `Appended`; the change flag is set exactly when the order grew |
| DeviceOrder.AppendedKeepsNoDuplicates | src/App.tsx:195-199 | appending introduces no duplicate, even when two live devices share a GUID |
| DeviceOrder.AppendedInDeviceOrder | src/App.tsx:195-199 | every appended GUID was missing from the order, has a live device, and the appended GUIDs follow the device list's order of first appearance |
| Lists.IndexOf | src/App.tsx:223 | `indexOf`: the first position of the GUID, or -1 exactly when it is absent |
| DeviceOrder.MoveDevice | src/App.tsx:221-230 | the swap on a copied array computes `Moved` |
| DeviceOrder.MovedSwapsNeighbour | src/App.tsx:221-230 | same length and same multiset; an unknown GUID or a move past an end changes nothing; otherwise the GUID and its neighbour trade places and nothing else moves |
| DeviceOrder.MoveUpThenDown | src/App.tsx:221-230 | moving a GUID up and then down restores the order when it was not first |
| DeviceOrder.LastByGuid | src/App.tsx:206 | `new Map(...)` keeps the last live device with the GUID; none exactly when no live device has it |
| DeviceOrder.Listed | src/App.tsx:207 | the mapped and filtered order lists only live devices whose GUID is in the order, and every live GUID in the order is listed |
| DeviceOrder.LivePositions | src/App.tsx:207 | the ascending positions of the order whose GUID has a live device, and all of them |
| DeviceOrder.ListedFollowsOrder | src/App.tsx:206-207 | position by position, the listed devices are the GUID map's devices for the order's live GUIDs, in the order's order |
| DeviceOrder.ListedEntriesInOrder | src/App.tsx:206-207 | no more devices than GUIDs; each listed device is the one the GUID map holds for its GUID; of two listed devices the earlier one's GUID comes earlier in the order |
| DeviceOrder.Completed | src/App.tsx:208 | the listed devices stay a prefix; every live GUID ends up present; every appended entry is a live device |
| DeviceOrder.CompletedInDeviceOrder | src/App.tsx:208 | every pushed device has a GUID the listed part lacks, is the first live device with that GUID, and the pushed devices follow the device list's order |
| DeviceOrder.SortDevices | src/App.tsx:205-210 | the two loops compute `SortedView` |
| DeviceOrder.SortedViewCoversLiveDevices | src/App.tsx:205-210 | the ordered live devices come first; every live GUID appears; only live devices appear (the order of both parts is stated by `ListedEntriesInOrder` and `CompletedInDeviceOrder`) |
| DeviceOrder.SortedViewUniqueGuids | src/App.tsx:205-210 | with an order free of duplicates, no GUID is listed twice |
| DeviceOrder.Toggle | src/App.tsx:212-219 | the GUID is selected afterwards exactly when it was not before; no other selection changes |
| DeviceOrder.ToggleTwice | src/App.tsx:212-219 | toggling twice gives back the selection |
| BindControl.SelectedPositions | src/App.tsx:242 | the ascending positions of the devices whose GUID is selected, and all of them |
| BindControl.ActiveIndices | src/App.tsx:242 | the indices of exactly the selected devices; empty exactly when no device is selected |
| BindControl.ActiveIndicesByPosition | src/App.tsx:242 | the filter and map keep order and repeats: entry `k` is the index of the `k`-th selected device in list order |
| BindControl.BindController.constructor | src/App.tsx:232-250 | no action listens, the slot is empty, and no handle exists |
| BindControl.BindController.AbortCurrent | src/App.tsx:238-240 | the handle in the slot is aborted, so nothing is live; the slot keeps it |
| BindControl.BindController.Click | src/App.tsx:232-250 | a click on the listening action only aborts; any other click aborts the current handle; with no selected device nothing is armed; otherwise a fresh handle is armed, is the only live one, and fills the slot |
| BindControl.BindController.Escape | src/App.tsx:103-113 | while an action listens, exactly the handle in the slot (if any) is added to the aborted ones and nothing stays live; otherwise nothing is aborted; the slot and the listening action are unchanged |
| BindControl.BindController.Finish | src/App.tsx:284-288 | the action stops listening only if it still is the listening one; the slot is cleared only if it still holds this handle; exactly this handle stops being live |
| XmlImport.NonEmptyAttribute | src/services/xmlParser.ts:16-17 | an attribute reads as present exactly when it exists and is not the empty string |
| XmlImport.FirstAxisDigits | src/services/xmlParser.ts:39 | the leftmost `di_axis_` followed by a digit: it matches, and no earlier position does |
| XmlImport.DecodeInputId | src/services/xmlParser.ts:30-45 | a button exactly for ids starting with `di_button_`, with slot `parseInt` of the rest; a named axis gets its position in the table; otherwise the slot is the digit run after the first `di_axis_<digit>`; skipped exactly when none of these applies; axis slots are non-negative |
| XmlImport.ButtonIdRoundTrip | src/services/xmlParser.ts:30-32 | `di_button_<n>` decodes to button `n` |
| XmlImport.NamedAxisIds | src/services/xmlParser.ts:34-37 | each named axis decodes to its position in the axis-name table |
| XmlImport.AxisNamesDistinct | src/constants.ts:5-14 | the axis-name table has no repeated name, so `indexOf` gives each name its own slot |
| XmlImport.GenericAxisRoundTrip | src/services/xmlParser.ts:37-41 | `di_axis_<n>` decodes to axis `n` |
| XmlImport.DecodeAxis | src/services/xmlParser.ts:23-71 | an Axis yields a binding exactly when it has an id, the id decodes, and it has a `restricted_device`; the binding has that GUID, index -1, the name `Unknown/Imported`, no direction, the decoded slot, deadzone and saturation from their attributes with defaults `0.0`/`1.0`, and no calibration when `type` is missing or empty; otherwise the calibration carries the `type` text and is `Unrecognised` exactly when that text is none of the four names |
| XmlImport.DecodeAxes | src/services/xmlParser.ts:23-72 | at most one binding per Axis element, every one an imported binding |
| XmlImport.DecodeAxesAppend | src/services/xmlParser.ts:23-72 | decoding keeps the document order of the Axis elements |
| XmlImport.Assign | src/services/xmlParser.ts:74-76 | no action is given an empty list |
| XmlImport.AssignIsLastWriter | src/services/xmlParser.ts:74-76 | an action is present exactly when some entry contributes to it, and then it holds the list of the last one that does |
| XmlImport.ParseXml | src/services/xmlParser.ts:4-80 | the loops compute `Parsed` |
| XmlImport.DecodeAction | src/services/xmlParser.ts:19-72 | the inner loop computes `DecodeAxes` of the action's Axis elements |
| XmlImport.CollectIsLastContributor | src/services/xmlParser.ts:13-77 | a later Action with the same id replaces the bindings of an earlier one; an action is present exactly when one of its Action elements yields a binding |
| XmlImport.ParsedShape | src/services/xmlParser.ts:7-9 | the import fails exactly when there is no ActionMap; otherwise no list is empty and every binding is an imported one |

## Left out

- React rendering, themes, languages, notifications and the localStorage autosave and load are left out. They are UI and persistence plumbing.
- JSON export and import, the Blob download, FileReader and the clipboard are left out. They are foreign serialisation and I/O.
- The XML writer is not part of this model, since its file is not among the sources, so there is no export and no XML round trip.
- The `ACTIONS` catalog and the translations are left out. They are lookup tables with no logic.
- The one-second device scan is not modelled: `navigator.getGamepads`, `gp.connected` and the change test on the joined descriptor ids.
  - The device list it produces is a parameter of every operation that reads it.
  - A device record is what `ParseGamepadId` returns for a given descriptor, index and counts.
- `requestAnimationFrame` rescheduling and `AbortController` are host asynchrony.
  - A detection frame is one call with a fresh snapshot and the current value of the abort flag.
  - `getGamepads` returning nothing at arming is an `Option` that is `None`.
  - The wiring between a `BindController` handle and a `Detection.Session` is not modelled. The two are separate classes.
- Analog button values are not modelled. A button is only its pressed flag, because its analog `value` is never read.
- DOMParser and `querySelector`/`querySelectorAll` are replaced by an abstract tree.
  - A document is a flag saying whether an ActionMap exists, plus the list of Action elements in document order.
  - Each Action carries its attribute map and its Axis descendants in document order.
  - Malformed XML, which DOMParser reports as a parser-error document, is not modelled.
- XmlImport.DecodeAxis: `parseFloat` is a parameter `string -> real`, applied to the attribute text or to `0.0`/`1.0` when the attribute is missing or empty. The result is given as those defaults directly, and NaN results are not modelled.
- XmlImport.DecodeAxis: the `type` attribute is kept as written. An unknown name becomes `Unrecognised(text)`, just as the unchecked cast stores any string.
- Integer precision is not modelled: `parseInt` is read with the exact value of its numeral. JavaScript loses precision past 2^53 and writes `-0` for a negative zero, and neither is modelled.
- JavaScript objects used as maps are modelled as Dafny maps. The special keys `__proto__` and `constructor` behave like any other action id here.
- Strings are sequences of Unicode scalar values, so positions count code points rather than JavaScript's UTF-16 code units, and a lone surrogate cannot be represented.
- The descriptor regular expressions are hand-written matchers over those characters.
  - They handle the patterns this program uses: ASCII labels, `\s`, hex digit classes, and the lazy `.*?\)` group.
  - They are not a general regular-expression engine.
- The GUID suffix is the 28-character constant in `src/constants.ts`.
- Axis values are exact reals. Floating-point rounding at the 0.5 detection threshold, and NaN axis values, are not modelled.
