/**
  The Bluetooth view-model: a five-case connection state and an ordered list of
  discovered-device entries, updated in place by two commands from the view
  (`startScan`, `connect`) and three callbacks from the BLE driver (discover,
  connected, disconnected-or-failed).

  The driver itself is opaque; what the view-model asks of it is recorded in
  `driverLog`, one `DriverCmd` per request.
 */
module Bluetooth {
  import opened SwiftLib

  /** The connection state shown to the user. */
  datatype ConnectionState =
    | Disconnected
    | Scanning
    | Connecting(name: string)
    | Connected(name: string)
    | Failed(name: string)

  /** A request the view-model makes of the driver. */
  datatype DriverCmd = StartScan | StopScan | ConnectDevice(name: string)

  /** The list entry for a discovered device: `"<name> [信号: <rssi>]"`. */
  function FormatEntry(name: string, rssi: int): (entry: string)
  {
    name + " [信号: " + IntToString(rssi) + "]"
  }

  /** The entry starts with the name and a space, and names its rssi: it contains
      the name, and different readings of one device give different entries. */
  lemma FormatEntryShape(name: string, rssi: int, rssi': int)
    ensures FormatEntry(name, rssi) == name + [' '] + "[信号: " + IntToString(rssi) + "]"
    ensures Contains(FormatEntry(name, rssi), name)
    ensures FormatEntry(name, rssi) == FormatEntry(name, rssi') <==> rssi == rssi'
  {
    var e := FormatEntry(name, rssi);
    ContainsPrefix(name, e[|name|..]);
    assert name + e[|name|..] == e;
    if FormatEntry(name, rssi) == FormatEntry(name, rssi') {
      var tail := " [信号: ";
      var d := IntToString(rssi);
      var d' := IntToString(rssi');
      assert |d| == |d'|;
      assert d == e[|name| + |tail|..|e| - 1];
      assert d' == FormatEntry(name, rssi')[|name| + |tail|..|e| - 1];
      IntToStringInjective(rssi, rssi');
    }
  }

  /** The deduplication test of the discovery callback: some EXISTING entry
      contains the NEW name as a substring. */
  predicate AnyEntryContains(list: seq<string>, name: string)
  {
    exists k | 0 <= k < |list| :: Contains(list[k], name)
  }

  /** The device list after a discovery of `name` with signal strength `rssi`. */
  function Discover(list: seq<string>, name: string, rssi: int): (list': seq<string>)
  {
    if AnyEntryContains(list, name) then list else list + [FormatEntry(name, rssi)]
  }

  /** Discovery appends exactly one entry, the formatted one, at the end iff no
      existing entry contains the name; otherwise it leaves the list unchanged. */
  lemma DiscoverAppendsIffNew(list: seq<string>, name: string, rssi: int)
    ensures var list' := Discover(list, name, rssi);
      (|list'| == |list| + 1 <==> !AnyEntryContains(list, name)) &&
      list'[..|list|] == list &&
      (|list'| == |list| + 1 ==> list'[|list|] == FormatEntry(name, rssi)) &&
      (|list'| != |list| + 1 ==> list' == list)
  {
  }

  /** Discovery is idempotent per name: once `name` has been discovered, a second
      discovery of it, with any signal strength, changes nothing. */
  lemma DiscoverIdempotent(list: seq<string>, name: string, rssi: int, rssi': int)
    ensures Discover(Discover(list, name, rssi), name, rssi') == Discover(list, name, rssi)
  {
    var list' := Discover(list, name, rssi);
    if !AnyEntryContains(list, name) {
      FormatEntryShape(name, rssi, rssi);
      assert Contains(list'[|list|], name);
    }
  }

  /** The test is one-directional: a name that occurs inside an existing entry is
      dropped, even when it is only part of another device's name. */
  lemma ShorterNameDropped(list: seq<string>, k: nat, name: string, rssi: int)
    requires k < |list| && Contains(list[k], name)
    ensures Discover(list, name, rssi) == list
  {
  }

  /** ... whereas a name with a character that no existing entry has is appended,
      even when it merely extends an existing device's name. */
  lemma NewCharacterAppended(list: seq<string>, name: string, c: char, rssi: int)
    requires c in name && forall k | 0 <= k < |list| :: c !in list[k]
    ensures Discover(list, name, rssi) == list + [FormatEntry(name, rssi)]
  {
    if AnyEntryContains(list, name) {
      var k :| 0 <= k < |list| && Contains(list[k], name);
      ContainsKeepsCharacters(list[k], name, c);
    }
  }

  /** No two entries of the list are equal. */
  ghost predicate Distinct(list: seq<string>)
  {
    forall i, j | 0 <= i < j < |list| :: list[i] != list[j]
  }

  /** In a sequential world discovery never creates a duplicate entry: the new
      entry contains the name, so an equal entry would have blocked it. */
  lemma DiscoverKeepsDistinct(list: seq<string>, name: string, rssi: int)
    requires Distinct(list)
    ensures Distinct(Discover(list, name, rssi))
  {
    if !AnyEntryContains(list, name) {
      FormatEntryShape(name, rssi, rssi);
      var list' := Discover(list, name, rssi);
      forall i, j | 0 <= i < j < |list'|
        ensures list'[i] != list'[j]
      {
        if j == |list| {
          assert !Contains(list[i], name);
        }
      }
    }
  }

  // ---------------------------------------------------------------------------
  // The view-model as a state machine over its observable state
  // ---------------------------------------------------------------------------

  /** Everything the view-model's operations change. */
  datatype Snapshot = Snapshot(deviceList: seq<string>, status: ConnectionState, driverLog: seq<DriverCmd>)

  /** One command from the view or one callback from the driver. */
  datatype Event =
    | ScanRequested
    | ConnectRequested(name: string)
    | DeviceDiscovered(name: string, rssi: int)
    | DeviceConnected(name: string)
    | DeviceDisconnectedOrFailed(name: string)

  /** The state of a freshly created view-model. */
  function Initial(): (st: Snapshot)
  {
    Snapshot([], Disconnected, [])
  }

  /** The effect of one operation; no operation looks at the prior status. */
  function Step(st: Snapshot, e: Event): (st': Snapshot)
  {
    match e
    case ScanRequested =>
      st.(status := Scanning, driverLog := st.driverLog + [StartScan])
    case ConnectRequested(n) =>
      st.(status := Connecting(n), driverLog := st.driverLog + [ConnectDevice(n)])
    case DeviceDiscovered(n, rssi) =>
      st.(deviceList := Discover(st.deviceList, n, rssi))
    case DeviceConnected(n) =>
      Snapshot([], Connected(n), st.driverLog + [StopScan])
    case DeviceDisconnectedOrFailed(n) =>
      st.(status := Failed(n))
  }

  /** The state after a sequence of operations, applied first to last. */
  function Run(st: Snapshot, events: seq<Event>): (st': Snapshot)
  {
    if events == [] then st else Step(Run(st, events[..|events| - 1]), events[|events| - 1])
  }

  /** Every operation except discovery sets the status. */
  predicate SetsStatus(e: Event)
  {
    !e.DeviceDiscovered?
  }

  /** The status an operation sets. */
  function StatusSetBy(e: Event): (status: ConnectionState)
    requires SetsStatus(e)
  {
    match e
    case ScanRequested => Scanning
    case ConnectRequested(n) => Connecting(n)
    case DeviceConnected(n) => Connected(n)
    case DeviceDisconnectedOrFailed(n) => Failed(n)
  }

  /** Last write wins: after any sequence of operations, the status is the one set
      by the last status-setting operation, whatever came before. */
  lemma {:induction false} LastWriteWins(st: Snapshot, events: seq<Event>, k: nat)
    requires k < |events| && SetsStatus(events[k])
    requires forall j | k < j < |events| :: !SetsStatus(events[j])
    ensures Run(st, events).status == StatusSetBy(events[k])
  {
    if k < |events| - 1 {
      LastWriteWins(st, events[..|events| - 1], k);
    }
  }

  /** Discoveries alone never change the status. */
  lemma {:induction false} DiscoveriesKeepStatus(st: Snapshot, events: seq<Event>)
    requires forall j | 0 <= j < |events| :: !SetsStatus(events[j])
    ensures Run(st, events).status == st.status
  {
    if events != [] {
      DiscoveriesKeepStatus(st, events[..|events| - 1]);
    }
  }

  /** A successful connection empties the list whatever it held, and only
      discoveries made after it can fill it again. */
  lemma {:induction false} ConnectedEmptiesList(st: Snapshot, events: seq<Event>, k: nat)
    requires k < |events| && events[k].DeviceConnected?
    requires forall j | k < j < |events| :: !events[j].DeviceDiscovered?
    ensures Run(st, events).deviceList == []
  {
    if k < |events| - 1 {
      ConnectedEmptiesList(st, events[..|events| - 1], k);
    }
  }

  /** Starting from a fresh view-model, the device list never holds the same entry
      twice, whatever the operations. */
  lemma {:induction false} RunKeepsDistinct(events: seq<Event>)
    ensures Distinct(Run(Initial(), events).deviceList)
  {
    if events != [] {
      var before := Run(Initial(), events[..|events| - 1]);
      RunKeepsDistinct(events[..|events| - 1]);
      if events[|events| - 1].DeviceDiscovered? {
        var e := events[|events| - 1];
        DiscoverKeepsDistinct(before.deviceList, e.name, e.rssi);
      }
    }
  }

  /** Every driver request in the log answers a command or callback: scans come
      from `startScan`, stops from a successful connection and each connect from
      a `connect` for that very name. */
  lemma {:induction false} DriverLogAnswersEvents(events: seq<Event>, i: nat)
    requires i < |Run(Initial(), events).driverLog|
    ensures var cmd := Run(Initial(), events).driverLog[i];
      (cmd == StartScan ==> ScanRequested in events) &&
      (cmd.StopScan? ==> exists j | 0 <= j < |events| :: events[j].DeviceConnected?) &&
      (cmd.ConnectDevice? ==> ConnectRequested(cmd.name) in events)
  {
    var prefix := events[..|events| - 1];
    var last := events[|events| - 1];
    var before := Run(Initial(), prefix);
    if i < |before.driverLog| {
      DriverLogAnswersEvents(prefix, i);
      assert Run(Initial(), events).driverLog[i] == before.driverLog[i];
      assert forall j | 0 <= j < |prefix| :: prefix[j] == events[j];
    } else {
      assert last == events[|events| - 1];
    }
  }

  /** Running one more operation is one more step. */
  lemma RunSnoc(st: Snapshot, events: seq<Event>, e: Event)
    ensures Run(st, events + [e]) == Step(Run(st, events), e)
  {
    assert (events + [e])[..|events|] == events;
  }

  /** The entry listed for "Lamp-A" at -60 holds no '2'. */
  lemma LampAEntryHasNoTwo()
    ensures '2' !in FormatEntry("Lamp-A", -60)
  {
    assert NatToString(60) == NatToString(6) + [DigitChar(0)] == "60";
    assert FormatEntry("Lamp-A", -60) == "Lamp-A [信号: -60]";
  }

  /** The three discoveries of the example, one at a time. */
  lemma LampDiscoveries()
    ensures Discover([], "Lamp-A", -60) == [FormatEntry("Lamp-A", -60)]
    ensures Discover([FormatEntry("Lamp-A", -60)], "Lamp-A-2", -70)
            == [FormatEntry("Lamp-A", -60), FormatEntry("Lamp-A-2", -70)]
    ensures Discover([FormatEntry("Lamp-A", -60), FormatEntry("Lamp-A-2", -70)], "Lamp", -50)
            == [FormatEntry("Lamp-A", -60), FormatEntry("Lamp-A-2", -70)]
  {
    var a := FormatEntry("Lamp-A", -60);
    LampAEntryHasNoTwo();
    NewCharacterAppended([a], "Lamp-A-2", '2', -70);
    ContainsPrefix("Lamp", "-A" + a[6..]);
    assert "Lamp" + ("-A" + a[6..]) == a;
    ShorterNameDropped([a, FormatEntry("Lamp-A-2", -70)], 0, "Lamp", -50);
  }

  /** The example run: "Lamp-A" is listed; "Lamp-A-2" is listed as well, because no
      entry contains it; "Lamp" is then dropped, because "Lamp-A"'s entry contains it. */
  lemma LampExample()
    ensures Run(Initial(), [DeviceDiscovered("Lamp-A", -60),
                            DeviceDiscovered("Lamp-A-2", -70),
                            DeviceDiscovered("Lamp", -50)]).deviceList
            == [FormatEntry("Lamp-A", -60), FormatEntry("Lamp-A-2", -70)]
  {
    var e1, e2, e3 := DeviceDiscovered("Lamp-A", -60), DeviceDiscovered("Lamp-A-2", -70),
                      DeviceDiscovered("Lamp", -50);
    LampDiscoveries();
    RunSnoc(Initial(), [], e1);
    assert [] + [e1] == [e1];
    RunSnoc(Initial(), [e1], e2);
    assert [e1] + [e2] == [e1, e2];
    RunSnoc(Initial(), [e1, e2], e3);
    assert [e1, e2] + [e3] == [e1, e2, e3];
  }

  // ---------------------------------------------------------------------------
  // The view-model object
  // ---------------------------------------------------------------------------

  class BluetoothViewModel {
    var deviceList: seq<string>
    var connectionStatus: ConnectionState
    /** The requests made of the driver so far, in the order the operations were applied. */
    var driverLog: seq<DriverCmd>

    /** The observable state of this object. */
    function View(): (st: Snapshot)
      reads this
    {
      Snapshot(deviceList, connectionStatus, driverLog)
    }

    constructor ()
      ensures deviceList == [] && connectionStatus == Disconnected && driverLog == []
      ensures View() == Initial()
    {
      deviceList := [];
      connectionStatus := Disconnected;
      driverLog := [];
    }

    /** Command from the view: show "scanning" and ask the driver to scan. */
    method StartScan()
      modifies this
      ensures connectionStatus == Scanning
      ensures deviceList == old(deviceList)
      ensures driverLog == old(driverLog) + [DriverCmd.StartScan]
      ensures View() == Step(old(View()), ScanRequested)
    {
      connectionStatus := Scanning;
      driverLog := driverLog + [DriverCmd.StartScan];
    }

    /** Command from the view: show "connecting" and forward the name to the driver. */
    method Connect(name: string)
      modifies this
      ensures connectionStatus == Connecting(name)
      ensures deviceList == old(deviceList)
      ensures driverLog == old(driverLog) + [ConnectDevice(name)]
      ensures View() == Step(old(View()), ConnectRequested(name))
    {
      connectionStatus := Connecting(name);
      driverLog := driverLog + [ConnectDevice(name)];
    }

    /** Driver callback: list the device unless an existing entry contains its name. */
    method DidDiscoverDevice(name: string, rssi: int)
      modifies this
      ensures connectionStatus == old(connectionStatus) && driverLog == old(driverLog)
      ensures !AnyEntryContains(old(deviceList), name) ==>
                deviceList == old(deviceList) + [FormatEntry(name, rssi)]
      ensures AnyEntryContains(old(deviceList), name) ==> deviceList == old(deviceList)
      ensures View() == Step(old(View()), DeviceDiscovered(name, rssi))
    {
      if !AnyEntryContains(deviceList, name) {
        var text := FormatEntry(name, rssi);
        deviceList := deviceList + [text];
      }
    }

    /** Driver callback: connected; stop scanning and clear the list. */
    method DidConnect(name: string)
      modifies this
      ensures connectionStatus == Connected(name)
      ensures driverLog == old(driverLog) + [StopScan]
      ensures deviceList == []
      ensures View() == Step(old(View()), DeviceConnected(name))
    {
      connectionStatus := Connected(name);
      driverLog := driverLog + [StopScan];
      deviceList := [];
    }

    /** Driver callback: the connection failed or was lost. */
    method DidDisconnectOrFail(name: string)
      modifies this
      ensures connectionStatus == Failed(name)
      ensures deviceList == old(deviceList) && driverLog == old(driverLog)
      ensures View() == Step(old(View()), DeviceDisconnectedOrFailed(name))
    {
      connectionStatus := Failed(name);
    }
  }
}
