/**
  The screen that shows the Bluetooth view-model: a table of the device entries,
  a title that reflects the connection state, and a tap handler that extracts
  the device name from the tapped entry and asks the view-model to connect.
 */
module Presentation {
  import opened SwiftLib
  import opened Bluetooth

  // ---------------------------------------------------------------------------
  // Extracting the device name from a list entry
  // ---------------------------------------------------------------------------

  /** `entry.split(separator: " ").first`: the first run of non-space characters,
      or nothing when the entry holds no such character. */
  function DeviceName(entry: string): (name: Option<string>)
  {
    var parts := Split(entry, ' ');
    if parts == [] then None else Some(parts[0])
  }

  /** The name is absent exactly for entries made only of spaces (the empty entry
      included). */
  lemma DeviceNameAbsent(entry: string)
    ensures DeviceName(entry) == None <==> forall k | 0 <= k < |entry| :: entry[k] == ' '
  {
    SplitFirst(entry, ' ');
    var rest := DropLeading(entry, ' ');
    if rest != [] {
      assert entry[|entry| - |rest|] == rest[0];
    }
  }

  /** Otherwise the name is a non-empty, space-free word that stands in the entry
      after leading spaces only, and ends at a space or at the entry's end. */
  lemma DeviceNameIsFirstWord(entry: string)
    requires DeviceName(entry).Some?
    ensures var w := DeviceName(entry).value;
      w != [] && ' ' !in w &&
      exists start | 0 <= start <= |entry| - |w| ::
        (forall k | 0 <= k < start :: entry[k] == ' ') &&
        w <= entry[start..] &&
        (start + |w| == |entry| || entry[start + |w|] == ' ')
  {
    SplitFirst(entry, ' ');
    var rest := DropLeading(entry, ' ');
    var w := TakeUntil(rest, ' ');
    var start := |entry| - |rest|;
    assert entry[start..] == rest;
  }

  /** The name is the run of non-space characters after the leading spaces. */
  lemma DeviceNameFromLeading(entry: string)
    ensures DeviceName(entry) ==
      if DropLeading(entry, ' ') == [] then None else Some(TakeUntil(DropLeading(entry, ' '), ' '))
  {
    SplitFirst(entry, ' ');
  }

  /** Round trip with the view-model's entry format: a non-empty name without
      spaces is recovered exactly from its entry, whatever the signal strength. */
  lemma EntryNameRoundTrip(name: string, rssi: int)
    requires name != [] && ' ' !in name
    ensures DeviceName(FormatEntry(name, rssi)) == Some(name)
  {
    FormatEntryShape(name, rssi, rssi);
    WordThenSeparator(name, ' ', "[信号: " + IntToString(rssi) + "]");
    assert name + [' '] + ("[信号: " + IntToString(rssi) + "]")
        == name + [' '] + "[信号: " + IntToString(rssi) + "]";
  }

  /** A name with spaces does not survive the round trip: the tap connects to the
      name's first word; and a name made only of spaces yields the start of the
      signal annotation instead. */
  lemma EntryNameTruncated(name: string, rssi: int)
    ensures DeviceName(FormatEntry(name, rssi)) ==
      if DeviceName(name).Some? then DeviceName(name) else Some("[信号:")
  {
    var digits := IntToString(rssi) + "]";
    var tail := "[信号:" + [' '] + digits;
    assert FormatEntry(name, rssi) == name + [' '] + tail;
    FirstPieceOfJoin(name, ' ', tail);
    WordThenSeparator("[信号:", ' ', digits);
  }

  // ---------------------------------------------------------------------------
  // The title shown for each connection state
  // ---------------------------------------------------------------------------

  /** The navigation title for a connection state; the three states that carry a
      device name show it after a fixed, state-specific prefix. */
  function Title(status: ConnectionState): (title: string)
    ensures title != []
    ensures !status.Disconnected? && !status.Scanning? ==>
      |status.name| + 2 < |title| && title[|title| - |status.name|..] == status.name &&
      title[|title| - |status.name| - 2..|title| - |status.name|] == ": "
  {
    match status
    case Disconnected => "蓝牙设备 (未连接)"
    case Scanning => "正在扫描..."
    case Connecting(name) => "连接中: " + name
    case Connected(name) => "已连接: " + name
    case Failed(name) => "连接失败/断开: " + name
  }

  /** The text before a carried device name is fixed per state: the title of a
      state with a name is the title of that state with no name, followed by it. */
  lemma TitleFixedPrefix(name: string)
    ensures Title(Connecting(name)) == Title(Connecting([])) + name
    ensures Title(Connected(name)) == Title(Connected([])) + name
    ensures Title(Failed(name)) == Title(Failed([])) + name
  {
  }

  /** The title tells the states apart: different states, device names included,
      never share a title. */
  lemma TitleInjective(a: ConnectionState, b: ConnectionState)
    requires Title(a) == Title(b)
    ensures a == b
  {
    var t := Title(a);
    match a
    case Disconnected =>
      assert t[0] == '蓝';
    case Scanning =>
      assert t[0] == '正';
    case Connecting(n) =>
      assert t[0] == '连' && t[2] == '中';
      assert n == t[5..] == Title(b)[5..];
    case Connected(n) =>
      assert t[0] == '已';
      assert n == t[5..] == Title(b)[5..];
    case Failed(n) =>
      assert t[0] == '连' && t[2] == '失';
      assert n == t[9..] == Title(b)[9..];
  }

  // ---------------------------------------------------------------------------
  // The view controller
  // ---------------------------------------------------------------------------

  class ViewController {
    const viewModel: BluetoothViewModel
    /** The navigation title; absent until the first state is shown. */
    var title: Option<string>

    constructor ()
      ensures fresh(viewModel) && viewModel.View() == Initial()
      ensures title == None
    {
      viewModel := new BluetoothViewModel();
      title := None;
    }

    /** On load the screen starts a scan. */
    method ViewDidLoad()
      modifies viewModel
      ensures viewModel.View() == Step(old(viewModel.View()), ScanRequested)
    {
      viewModel.StartScan();
    }

    /** Shows a connection state in the title. */
    method UpdateUI(status: ConnectionState)
      modifies this`title
      ensures title == Some(Title(status))
    {
      title := Some(Title(status));
    }

    /** Tap on row `row`: connect to the device named by the entry's first word;
        an entry with no word issues nothing. */
    method DidSelectRow(row: nat)
      requires row < |viewModel.deviceList|
      modifies viewModel
      ensures var name := DeviceName(old(viewModel.deviceList[row]));
        (name == None ==> viewModel.View() == old(viewModel.View())) &&
        (name.Some? ==>
          ' ' !in name.value &&
          viewModel.connectionStatus == Connecting(name.value) &&
          viewModel.View() == Step(old(viewModel.View()), ConnectRequested(name.value)))
    {
      var deviceText := viewModel.deviceList[row];
      var parts := Split(deviceText, ' ');
      if parts == [] {
        return;
      }
      viewModel.Connect(parts[0]);
    }

    /** The table has one row per device entry. */
    method NumberOfRows() returns (count: nat)
      ensures count == |viewModel.deviceList|
    {
      count := |viewModel.deviceList|;
    }

    /** Row `row` shows the entry at that position. */
    method CellText(row: nat) returns (text: string)
      requires row < |viewModel.deviceList|
      ensures text == viewModel.deviceList[row]
    {
      text := viewModel.deviceList[row];
    }
  }
}
