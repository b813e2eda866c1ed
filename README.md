# Bluetooth view-model and device list screen, in Dafny

This project models the sequential core of the MixedDemo iOS app: the
`BluetoothViewModel` that keeps a five-case connection state and an ordered
list of discovered-device entries, and the parts of `ViewController` that read
that list, turn the connection state into a title and turn a tapped entry back
into a device name to connect to.

- `swift_lib.dfy` (module `SwiftLib`): the Swift library behaviour the app relies
  on. It covers `String.contains` as substring search, `split(separator:)`
  (empty pieces omitted) and `.first`, and the decimal text of an integer
  `NSNumber`.
- `bluetooth_view_model.dfy` (module `Bluetooth`): `ConnectionState`, the
  driver requests (`DriverCmd`), the entry format `"<name> [信号: <rssi>]"`, and
  the deduplicating discovery rule. A pure state machine (`Step`, `Run`) states
  the view-model's behaviour over any sequence of commands and callbacks. The
  class `BluetoothViewModel` holds the fields that the source updates in place:
  `deviceList`, `connectionStatus` and `driverLog`. The log records each request
  made of the opaque BLE driver. Each method is proved to perform exactly one
  `Step`.
- `view_controller.dfy` (module `Presentation`): the device-name parser
  (`DeviceName`), the title mapping (`Title`) and the class `ViewController`.
  The class has the tap handler, the row count and the cell text.

Two points of behaviour that are easy to misread:
- `ConnectionState` has exactly five cases. The view-model has no services-ready
  state, no output-toggle command and no services-discovered handler.
- The deduplication test asks whether an existing entry contains the new name,
  not the other way round. So "Lamp-A-2" after "Lamp-A" is appended, because no
  entry contains "Lamp-A-2", while "Lamp" after "Lamp-A" is dropped
  (`LampExample`).

## Model

| member | source | states |
|---|---|---|
| SwiftLib.ContainsIffOccurrence | MixedDemo/BluetoothViewModel.swift:69 | the substring test used for deduplication holds exactly when the name occurs at some index of the entry |
| SwiftLib.ContainsKeepsCharacters | MixedDemo/BluetoothViewModel.swift:69 | every character of a contained name is a character of the entry |
| SwiftLib.Split | MixedDemo/ViewController.swift:95 | `split(separator:)` yields only non-empty pieces that are free of the separator |
| SwiftLib.SplitFirst | MixedDemo/ViewController.swift:95 | the split has no first piece exactly when the string is all separators; otherwise the first piece is the first run of non-separator characters |
| SwiftLib.FirstPieceOfJoin | MixedDemo/ViewController.swift:95 | the first piece of `s + sep + t` is the first piece of `s`, or of `t` when `s` has none, and is absent only if both are |
| SwiftLib.WordThenSeparator | MixedDemo/ViewController.swift:95 | a separator-free word followed by the separator is the first piece, whatever follows |
| SwiftLib.NatToStringValue | MixedDemo/BluetoothViewModel.swift:70 | the digits printed for a natural number read back to that number |
| SwiftLib.IntToStringShape | MixedDemo/BluetoothViewModel.swift:70 | the printed rssi is a minus sign exactly for negative values, then digits that read back to the magnitude; it never contains a space |
| SwiftLib.IntToStringInjective | MixedDemo/BluetoothViewModel.swift:70 | distinct rssi values print differently |
| Bluetooth.FormatEntryShape | MixedDemo/BluetoothViewModel.swift:70 | an entry is the name, a space, then the signal annotation; it contains the name; two entries for one name are equal iff their rssi are |
| Bluetooth.DiscoverAppendsIffNew | MixedDemo/BluetoothViewModel.swift:68-75 | discovery appends exactly one entry, the formatted one, at the end iff no existing entry contains the name; otherwise the list is unchanged |
| Bluetooth.DiscoverIdempotent | MixedDemo/BluetoothViewModel.swift:69-70 | a second discovery of the same name, with any rssi, leaves the list as the first discovery left it |
| Bluetooth.ShorterNameDropped | MixedDemo/BluetoothViewModel.swift:69 | a name that occurs inside any existing entry is dropped, even if it names a different device |
| Bluetooth.NewCharacterAppended | MixedDemo/BluetoothViewModel.swift:69 | a name with a character that no existing entry has is appended, even when it extends an existing name |
| Bluetooth.DiscoverKeepsDistinct | MixedDemo/BluetoothViewModel.swift:68-75 | discovery never introduces a duplicate entry into a list without duplicates |
| Bluetooth.RunKeepsDistinct | MixedDemo/BluetoothViewModel.swift:25-91 | from a fresh view-model, any sequence of commands and callbacks leaves a list without duplicate entries |
| Bluetooth.LastWriteWins | MixedDemo/BluetoothViewModel.swift:42-91 | after any sequence of operations the status is the one set by the last status-setting operation; nothing checks the prior status |
| Bluetooth.DiscoveriesKeepStatus | MixedDemo/BluetoothViewModel.swift:68-75 | discoveries alone never change the status |
| Bluetooth.ConnectedEmptiesList | MixedDemo/BluetoothViewModel.swift:78-84 | after a successful connection the list is empty, whatever it held, until a later discovery |
| Bluetooth.DriverLogAnswersEvents | MixedDemo/BluetoothViewModel.swift:42-84 | every driver request answers an operation: start-scan a `startScan`, stop-scan a successful connection, connect(n) a `connect` for n |
| Bluetooth.LampExample | MixedDemo/BluetoothViewModel.swift:68-75 | discovering "Lamp-A", "Lamp-A-2", "Lamp" in turn lists the first two and drops "Lamp" |
| Bluetooth.BluetoothViewModel.constructor | MixedDemo/BluetoothViewModel.swift:25-38 | a fresh view-model has an empty list, status disconnected and no driver requests |
| Bluetooth.BluetoothViewModel.StartScan | MixedDemo/BluetoothViewModel.swift:42-50 | the status becomes scanning, the list is unchanged, and start-scan is the one request made of the driver |
| Bluetooth.BluetoothViewModel.Connect | MixedDemo/BluetoothViewModel.swift:52-59 | the status becomes connecting(name), exactly `name` is forwarded to the driver's connect, and the list is unchanged |
| Bluetooth.BluetoothViewModel.DidDiscoverDevice | MixedDemo/BluetoothViewModel.swift:68-75 | the formatted entry is appended iff no existing entry contains the name; status and driver requests are unchanged |
| Bluetooth.BluetoothViewModel.DidConnect | MixedDemo/BluetoothViewModel.swift:78-84 | the status becomes connected(name), stop-scan is requested, and the list is emptied |
| Bluetooth.BluetoothViewModel.DidDisconnectOrFail | MixedDemo/BluetoothViewModel.swift:87-90 | the status becomes failed(name); list and driver requests are unchanged |
| Presentation.DeviceNameAbsent | MixedDemo/ViewController.swift:95 | the tap handler finds no name exactly when the entry holds nothing but spaces |
| Presentation.DeviceNameIsFirstWord | MixedDemo/ViewController.swift:95 | the extracted name is non-empty, has no space, and is the first word of the entry: only spaces before it, a space or the end after it |
| Presentation.DeviceNameFromLeading | MixedDemo/ViewController.swift:95 | the extracted name is the run of non-space characters after the leading spaces |
| Presentation.EntryNameRoundTrip | MixedDemo/ViewController.swift:94-98 | for a non-empty name without spaces, parsing the entry the view-model built for it gives back the name, whatever the rssi |
| Presentation.EntryNameTruncated | MixedDemo/ViewController.swift:95 | parsing an entry gives the first word of the device name; for a name of only spaces it gives "[信号:" |
| Presentation.Title | MixedDemo/ViewController.swift:63-85 | every state has a non-empty title; a state that carries a device name shows it at the end, after ": " |
| Presentation.TitleFixedPrefix | MixedDemo/ViewController.swift:73-82 | the title of connecting, connected and failed is a fixed per-state prefix followed by the carried device name |
| Presentation.TitleInjective | MixedDemo/ViewController.swift:63-85 | different states, device names included, never get the same title |
| Presentation.ViewController.constructor | MixedDemo/ViewController.swift:15 | the screen owns a fresh view-model in its initial state and has no title yet |
| Presentation.ViewController.ViewDidLoad | MixedDemo/ViewController.swift:30-38 | loading the screen starts a scan on the view-model |
| Presentation.ViewController.UpdateUI | MixedDemo/ViewController.swift:63-86 | the title becomes the title of the given state |
| Presentation.ViewController.DidSelectRow | MixedDemo/ViewController.swift:90-99 | tapping row i connects to the first word of entry i, which has no space, leaving status connecting(that word); an entry of only spaces changes nothing |
| Presentation.ViewController.NumberOfRows | MixedDemo/ViewController.swift:103-106 | the row count equals the number of device entries |
| Presentation.ViewController.CellText | MixedDemo/ViewController.swift:108-118 | row i's text is exactly entry i |

## Left out

- Combine plumbing (`@Published`, `sink`, `receive(on:)`) is left out. The fields are plain mutable state. The subscription that reloads the table and calls `updateUI` on each change is not modelled. `UpdateUI` is a method the caller invokes.
- The one-second `asyncAfter` before the driver's scan is left out. The start-scan request is recorded at once, so the log's order can differ from the order in which the driver receives requests: a connect or a stop-scan sent within that second reaches the driver before the start-scan.
- The main-queue `async` that defers the append in discovery is left out. The append happens immediately. The discovery lemmas hold only in this sequential model:
  - `RunKeepsDistinct`, `DiscoverIdempotent`, `DiscoverKeepsDistinct` and `LampExample`: in the app, two discoveries that arrive before the queue drains both run their containment test against a list without the first one's entry. So a second "X" appends a duplicate entry, and a "Lamp" that arrives before the append for "Lamp-A" has run is listed.
  - `ConnectedEmptiesList`: in the app, an append deferred by a discovery before `didConnect` can run after `removeAll()` and refill the list.
- The BLE driver is an opaque, foreign component. Its requests are recorded in `driverLog`. Its callbacks are the view-model's methods, called by whoever drives the model. `sendCommand`, `readBatteryLevel`, `DeviceType` and the services-discovered callback are not used by the view-model and are not modelled. The view-model does not implement the services-discovered callback.
- The driver reference is optional in the source; it is always set by `init`, so the model treats every request as made.
- `Bluetooth.BluetoothViewModel.DidDiscoverDevice`: the rssi is an integer. An `NSNumber` that holds a non-integer value would print with a fraction, and that is not modelled.
- `SwiftLib.ContainsIffOccurrence`: the model counts an empty search string as contained. The source imports Foundation, and its `contains` (`range(of:) != nil`) answers false for an empty string; the model does not settle which of the two the call at MixedDemo/BluetoothViewModel.swift:69 resolves to. For a discovered name `""` the following depend on this choice:
  - `Bluetooth.DiscoverIdempotent`, `Bluetooth.DiscoverKeepsDistinct` and `Bluetooth.RunKeepsDistinct`. Under the Foundation reading every discovery of `""` appends, so two discoveries of `""` at one rssi leave two equal entries.
  - For non-empty names the two readings agree, and so do these lemmas.
- Unicode canonical equivalence and grapheme clusters are left out. Strings are sequences of characters, compared one character at a time.
- Navigation-bar tint colours, Auto Layout, cell styling, the fixed cell subtitle "点击连接", row deselection animation and diagnostic printing are left out as presentation or I/O.
- `Presentation.ViewController.DidSelectRow` and `Presentation.ViewController.CellText` require a row inside the list. An index outside the list traps in Swift. In the app this trap can be reached: after `didConnect` empties the list, the table keeps its old rows until the deferred reload runs, and a tap on one of them traps. The model does not cover this.
- MixedDemo/UIHelper.swift only prints and dispatches to the main queue and is not part of this model. The commented-out earlier `ViewController` is dead code and is not modelled.
