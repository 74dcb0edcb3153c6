/** The two programs at the end of `CLibUdev.java`, as traces of native
    calls plus the lines they print.

    `JNAUdevExample` opens a context, opens the device at a fixed syspath,
    walks its property list, then releases the device and the context.
    `Main` opens a context and a netlink monitor, enables receiving, and
    loops forever receiving a device, reading three of its values, printing
    them and releasing the device; here its first `n` iterations. */
module UdevExamples {
  import opened Wrappers
  import opened Udev
  import opened Lifecycle
  import PropertyWalk
  import Properties

  const EthSyspath := "/sys/class/net/eth0"
  const Ctx := To(ContextHandle)
  const Mon := To(MonitorHandle)

  /** The device handle the example opens, or null when the syspath names
      no device. */
  function OpenedDevice(found: Option<Device>): Pointer
  {
    if found.Some? then To(DeviceHandle(0)) else Null
  }

  /** The call at position `j` (0, 1 or 2) of one walk iteration: name,
      value, next. */
  function EntryCall(dev: Pointer, j: nat): Call
  {
    if j == 0 then ListEntryGetName(dev)
    else if j == 1 then ListEntryGetValue(dev)
    else ListEntryGetNext(dev)
  }

  /** Three list-entry calls per loop iteration: name, value, next. */
  function WalkCalls(dev: Pointer, n: nat): (calls: seq<Call>)
    ensures |calls| == 3 * n
    ensures forall i :: 0 <= i < |calls| ==> calls[i] == EntryCall(dev, i % 3)
  {
    if n == 0 then []
    else
      var rest := WalkCalls(dev, n - 1);
      var calls := [EntryCall(dev, 0), EntryCall(dev, 1), EntryCall(dev, 2)] + rest;
      assert forall i :: 3 <= i < |calls| ==> calls[i] == rest[i - 3] && (i - 3) % 3 == i % 3;
      calls
  }

  /** `JNAUdevExample.main` as written: the result of
      `udev_device_new_from_syspath` is used without a null check. */
  function ExampleCallsAsWritten(found: Option<Device>): seq<Call>
  {
    var dev := OpenedDevice(found);
    var n := if found.Some? then |found.value.properties| else 0;
    [UdevNew(ContextHandle), DeviceNewFromSyspath(Ctx, EthSyspath, dev), DeviceGetPropertiesListEntry(dev)]
      + WalkCalls(dev, n)
      + [DeviceUnref(dev), UdevUnref(Ctx)]
  }

  /** When no device exists at the syspath, the example as written asks a
      null device for its property list. */
  lemma ExampleAsWrittenUsesNullDevice()
    ensures Run(Init, ExampleCallsAsWritten(None)) == Err(NullPointer)
  {
    var calls := ExampleCallsAsWritten(None);
    var s1 := State({ContextHandle}, {}, {}, 0);
    assert LiveDevices({ContextHandle}) == {};
    assert Step(Init, calls[0]) == Ok(s1);
    assert Step(s1, calls[1]) == Ok(s1);
    assert Step(s1, calls[2]) == Err(NullPointer);
    assert calls[1..][1..] == calls[2..];
  }

  /** `JNAUdevExample.main` with the null check it lacks: a missing device
      skips the walk and the device release, and only the context is
      released. */
  function ExampleCalls(found: Option<Device>): seq<Call>
  {
    if found.None? then [UdevNew(ContextHandle), DeviceNewFromSyspath(Ctx, EthSyspath, Null), UdevUnref(Ctx)]
    else ExampleCallsAsWritten(found)
  }

  /** What the example prints: `name=value` for each property, in list
      order; nothing when the device is missing. */
  function ExampleOutput(found: Option<Device>): seq<string>
  {
    if found.Some? then PropertyWalk.Render(found.value.properties) else []
  }

  /** The example program's output: the walk of the opened device's
      property list, or nothing when no device was found. */
  method ExampleProgram(found: Option<Device>) returns (lines: seq<string>)
    ensures lines == ExampleOutput(found)
    ensures found.Some? ==> |lines| == |found.value.properties|
    ensures found.Some? ==> forall i :: 0 <= i < |lines| ==>
      lines[i] == PropertyWalk.EntryLine(found.value.properties[i])
    ensures found.None? ==> lines == []
  {
    if found.Some? {
      var visited;
      lines, visited := PropertyWalk.WalkProperties(found.value);
    } else {
      lines := [];
    }
  }

  /** A trace from the initial state runs without fault, and at every
      point of it at most one device handle is live. */
  ghost predicate OneDeviceThroughout(calls: seq<Call>)
  {
    forall k :: 0 <= k <= |calls| ==>
      Run(Init, calls[..k]).Ok? && |LiveDevices(Run(Init, calls[..k]).value.live)| <= 1
  }

  /** A fault-free trace whose peak is one never has two devices live. */
  lemma PeakOneMeansOneDevice(calls: seq<Call>)
    requires Run(Init, calls).Ok? && Run(Init, calls).value.peakDevices <= 1
    ensures OneDeviceThroughout(calls)
  {
    assert LiveDevices({}) == {};
    PeakBoundsEveryPrefix(Init, calls);
  }

  /** The example's handle discipline: every call succeeds; the only
      releases are the device (when one was opened), after the walk, and
      then the context, each exactly once; nothing is left live and at most
      one device was ever live. */
  lemma ExampleReleasesDeviceThenContext(found: Option<Device>)
    ensures Run(Init, ExampleCalls(found)).Ok?
    ensures Run(Init, ExampleCalls(found)).value.live == {}
    ensures Run(Init, ExampleCalls(found)).value.peakDevices <= 1
    ensures OneDeviceThroughout(ExampleCalls(found))
    ensures Releases(ExampleCalls(found))
         == (if found.Some? then [DeviceUnref(To(DeviceHandle(0)))] else []) + [UdevUnref(Ctx)]
    ensures found.Some? ==>
      var calls := ExampleCalls(found);
      calls[|calls| - 2] == DeviceUnref(To(DeviceHandle(0)))
      && forall i :: 0 <= i < |calls| - 2 ==> !IsRelease(calls[i])
  {
    if found.None? {
      ExampleWithoutDevice();
    } else {
      ExampleWithDeviceRuns(found.value);
      ExampleWithDeviceReleases(found.value);
      ExampleWithDeviceOrder(found.value);
    }
    PeakOneMeansOneDevice(ExampleCalls(found));
  }

  lemma ExampleWithoutDevice()
    ensures Run(Init, ExampleCalls(None)) == Ok(State({}, {ContextHandle}, {}, 0))
    ensures Releases(ExampleCalls(None)) == [UdevUnref(Ctx)]
  {
    var calls := ExampleCalls(None);
    var s1 := State({ContextHandle}, {}, {}, 0);
    assert LiveDevices({ContextHandle}) == {};
    assert Step(Init, calls[0]) == Ok(s1);
    assert Step(s1, calls[1]) == Ok(s1);
    assert {ContextHandle} - {ContextHandle} == {};
    assert {} + {ContextHandle} == {ContextHandle};
    assert Step(s1, calls[2]) == Ok(State({}, {ContextHandle}, {}, 0));
    RunTwo(s1, calls[1], calls[2], s1, State({}, {ContextHandle}, {}, 0));
    assert calls[1..] == [calls[1], calls[2]];
    assert calls[1..][1..][1..] == [];
  }

  /** The device queries of the example: the list head, then the walk. */
  function ExampleQueries(d: Device): seq<Call>
  {
    [DeviceGetPropertiesListEntry(To(DeviceHandle(0)))] + WalkCalls(To(DeviceHandle(0)), |d.properties|)
  }

  /** Every device query of the example reads the opened device or one of
      its list entries. */
  lemma ExampleQueriesOnDevice(d: Device)
    ensures forall i :: 0 <= i < |ExampleQueries(d)| ==> IsDeviceQuery(ExampleQueries(d)[i], DeviceHandle(0))
  {
    var dev := To(DeviceHandle(0));
    var queries := ExampleQueries(d);
    var walk := WalkCalls(dev, |d.properties|);
    forall i | 0 <= i < |queries| ensures IsDeviceQuery(queries[i], DeviceHandle(0)) {
      if i > 0 {
        assert queries[i] == walk[i - 1] == EntryCall(dev, (i - 1) % 3);
      }
    }
  }

  lemma ExampleShape(d: Device)
    ensures ExampleCalls(Some(d))
         == [UdevNew(ContextHandle), DeviceNewFromSyspath(Ctx, EthSyspath, To(DeviceHandle(0)))]
            + ExampleQueries(d)
            + [DeviceUnref(To(DeviceHandle(0))), UdevUnref(Ctx)]
  {
  }

  lemma ExampleWithDeviceRuns(d: Device)
    ensures Run(Init, ExampleCalls(Some(d))) == Ok(State({}, {DeviceHandle(0), ContextHandle}, {}, 1))
  {
    var h := DeviceHandle(0);
    var head := [UdevNew(ContextHandle), DeviceNewFromSyspath(Ctx, EthSyspath, To(h))];
    var queries := ExampleQueries(d);
    var tail := [DeviceUnref(To(h)), UdevUnref(Ctx)];
    ExampleShape(d);
    var s1 := State({ContextHandle}, {}, {}, 0);
    assert LiveDevices({ContextHandle}) == {};
    assert Step(Init, head[0]) == Ok(s1);
    var s2 := State({ContextHandle, h}, {}, {}, 1);
    assert {ContextHandle} + {h} == {ContextHandle, h};
    assert |LiveDevices({ContextHandle, h})| == 1 by {
      assert LiveDevices({ContextHandle, h}) == {h};
    }
    assert Step(s1, head[1]) == Ok(s2);
    RunTwo(Init, head[0], head[1], s1, s2);
    ExampleQueriesOnDevice(d);
    QueriesKeepState(s2, h, queries);
    var s3 := State({ContextHandle}, {h}, {}, 1);
    var s4 := State({}, {h, ContextHandle}, {}, 1);
    assert {ContextHandle, h} - {h} == {ContextHandle};
    assert {} + {h} == {h};
    assert Step(s2, tail[0]) == Ok(s3);
    assert {ContextHandle} - {ContextHandle} == {};
    assert {h} + {ContextHandle} == {h, ContextHandle};
    assert Step(s3, tail[1]) == Ok(s4);
    RunTwo(s2, tail[0], tail[1], s3, s4);
    RunAppend(Init, head, queries);
    RunAppend(Init, head + queries, tail);
  }

  lemma ExampleWithDeviceReleases(d: Device)
    ensures Releases(ExampleCalls(Some(d))) == [DeviceUnref(To(DeviceHandle(0))), UdevUnref(Ctx)]
  {
    var h := DeviceHandle(0);
    var head := [UdevNew(ContextHandle), DeviceNewFromSyspath(Ctx, EthSyspath, To(h))];
    var queries := ExampleQueries(d);
    var tail := [DeviceUnref(To(h)), UdevUnref(Ctx)];
    ExampleShape(d);
    ExampleQueriesOnDevice(d);
    NoReleases(queries);
    ReleasesTwo(head[0], head[1]);
    ReleasesTwo(tail[0], tail[1]);
    ReleasesAppend(head, queries);
    ReleasesAppend(head + queries, tail);
  }

  lemma ExampleWithDeviceOrder(d: Device)
    ensures var calls := ExampleCalls(Some(d));
      calls[|calls| - 2] == DeviceUnref(To(DeviceHandle(0)))
      && forall i :: 0 <= i < |calls| - 2 ==> !IsRelease(calls[i])
  {
    var h := DeviceHandle(0);
    var head := [UdevNew(ContextHandle), DeviceNewFromSyspath(Ctx, EthSyspath, To(h))];
    var queries := ExampleQueries(d);
    var tail := [DeviceUnref(To(h)), UdevUnref(Ctx)];
    ExampleShape(d);
    var calls := head + queries + tail;
    ExampleQueriesOnDevice(d);
    forall i | 0 <= i < |calls| - 2 ensures !IsRelease(calls[i]) {
      if i >= 2 {
        assert calls[i] == queries[i - 2];
        assert IsDeviceQuery(queries[i - 2], h);
      }
    }
  }

  /** Java string concatenation renders a null reference as "null". */
  function JavaString(o: Option<string>): string
  {
    if o.Some? then o.value else "null"
  }

  /** The line `Main` prints for one received device. */
  function ConnectedLine(d: Device): string
  {
    "Device Connected: " + d.devpath
      + " Vendor: " + JavaString(PropertyValue(d.properties, "ID_VENDOR"))
      + " Product: " + JavaString(PropertyValue(d.properties, "ID_MODEL"))
  }

  /** The monitor's ad-hoc lookups report the same values as the record
      `createDeviceProperties` builds for that device. */
  lemma ConnectedLineMatchesRecord(d: Device)
    ensures var r := Properties.CreateDeviceProperties(d);
      ConnectedLine(d) == "Device Connected: " + r.devPath
        + " Vendor: " + JavaString(r.idVendor) + " Product: " + JavaString(r.idModel)
  {
    var r := Properties.CreateDeviceProperties(d);
    assert Properties.Get(r, Properties.IdVendor) == Properties.Source(d, Properties.IdVendor);
    assert Properties.Get(r, Properties.IdModel) == Properties.Source(d, Properties.IdModel);
  }

  /** What `Main` prints for the devices it receives: one line per device,
      in the order they arrived. */
  function MonitorOutput(received: seq<Device>): (lines: seq<string>)
    ensures |lines| == |received|
    ensures forall i :: 0 <= i < |received| ==> lines[i] == ConnectedLine(received[i])
  {
    if |received| == 0 then []
    else MonitorOutput(received[..|received| - 1]) + [ConnectedLine(received[|received| - 1])]
  }

  /** One iteration of the monitor loop on the `i`-th received device. */
  function IterationCalls(i: nat): seq<Call>
  {
    var dev := To(DeviceHandle(i));
    [MonitorReceiveDevice(Mon, DeviceHandle(i)), DeviceGetDevpath(dev),
     DeviceGetPropertyValue(dev, "ID_VENDOR"), DeviceGetPropertyValue(dev, "ID_MODEL"),
     DeviceUnref(dev)]
  }

  /** Iterations `from` to `from + n - 1` of the monitor loop. */
  function LoopCalls(from: nat, n: nat): seq<Call>
    decreases n
  {
    if n == 0 then [] else IterationCalls(from) + LoopCalls(from + 1, n - 1)
  }

  /** `Main.main` up to its `n`-th receive; `status` is what
      `udev_monitor_enable_receiving` returned, which `Main` ignores. */
  function MonitorCalls(status: int, n: nat): seq<Call>
  {
    [UdevNew(ContextHandle), MonitorNewFromNetlink(Ctx, "udev", MonitorHandle),
     MonitorEnableReceiving(Mon, status)]
      + LoopCalls(0, n)
  }

  /** The loop's state between iterations: context and monitor live, the
      monitor receiving, every earlier device released, never two devices
      live at once. */
  predicate BetweenIterations(s: State, next: nat)
  {
    && s.live == {ContextHandle, MonitorHandle}
    && s.receiving == {MonitorHandle}
    && (forall h :: h in s.released ==> h.DeviceHandle? && h.id < next)
    && s.peakDevices <= 1
  }

  /** Receiving device `i` between iterations makes it the one live device. */
  lemma ReceiveStep(s: State, i: nat)
    requires BetweenIterations(s, i)
    ensures Step(s, MonitorReceiveDevice(Mon, DeviceHandle(i)))
            == Ok(State({ContextHandle, MonitorHandle, DeviceHandle(i)}, s.released, s.receiving, 1))
  {
    var h := DeviceHandle(i);
    var live := {ContextHandle, MonitorHandle, h};
    assert s.live + {h} == live;
    assert |LiveDevices(live)| == 1 by {
      assert LiveDevices(live) == {h};
    }
  }

  /** Releasing device `i` at the end of its iteration. */
  lemma UnrefStep(s: State, i: nat)
    requires BetweenIterations(s, i)
    ensures Step(State({ContextHandle, MonitorHandle, DeviceHandle(i)}, s.released, s.receiving, 1),
                 DeviceUnref(To(DeviceHandle(i))))
            == Ok(State({ContextHandle, MonitorHandle}, s.released + {DeviceHandle(i)}, s.receiving, 1))
  {
    var h := DeviceHandle(i);
    assert {ContextHandle, MonitorHandle, h} - {h} == {ContextHandle, MonitorHandle};
    assert s.receiving - {h} == s.receiving;
  }

  /** One iteration receives device `i`, makes three queries on it and
      releases it: the device is the only one live during the iteration and
      is released before the next receive. */
  lemma IterationHoldsOneDevice(s: State, i: nat)
    requires BetweenIterations(s, i)
    ensures Run(s, IterationCalls(i)).Ok?
    ensures BetweenIterations(Run(s, IterationCalls(i)).value, i + 1)
    ensures Run(s, IterationCalls(i)).value.released == s.released + {DeviceHandle(i)}
  {
    var h := DeviceHandle(i);
    var it := IterationCalls(i);
    var s1 := State({ContextHandle, MonitorHandle, h}, s.released, s.receiving, 1);
    var s2 := State({ContextHandle, MonitorHandle}, s.released + {h}, s.receiving, 1);
    ReceiveStep(s, i);
    RunOne(s, it[0], s1);
    var queries := it[1..4];
    assert forall k :: 0 <= k < |queries| ==> IsDeviceQuery(queries[k], h);
    QueriesKeepState(s1, h, queries);
    UnrefStep(s, i);
    RunOne(s1, it[4], s2);
    assert it == [it[0]] + queries + [it[4]];
    RunAppend(s, [it[0]], queries);
    RunAppend(s, [it[0]] + queries, [it[4]]);
  }

  /** Each iteration releases its device before the next receive, so the
      loop never holds two device handles. */
  lemma {:induction false} LoopHoldsOneDevice(s: State, from: nat, n: nat)
    requires BetweenIterations(s, from)
    ensures Run(s, LoopCalls(from, n)).Ok?
    ensures BetweenIterations(Run(s, LoopCalls(from, n)).value, from + n)
    decreases n
  {
    if n > 0 {
      var it := IterationCalls(from);
      var rest := LoopCalls(from + 1, n - 1);
      IterationHoldsOneDevice(s, from);
      var mid := Run(s, it).value;
      assert Run(s, it) == Ok(mid);
      RunAppend(s, it, rest);
      assert Run(s, LoopCalls(from, n)) == Run(mid, rest);
      LoopHoldsOneDevice(mid, from + 1, n - 1);
    }
  }

  /** When `udev_monitor_enable_receiving` fails, the first receive of the
      loop finds a monitor that is not receiving. */
  lemma {:induction false} LoopWithoutReceiving(s: State, from: nat, n: nat)
    requires MonitorHandle in s.live && MonitorHandle !in s.receiving && n > 0
    ensures Run(s, LoopCalls(from, n)) == Err(ReceivingNotEnabled)
  {
    var calls := LoopCalls(from, n);
    assert calls[0] == MonitorReceiveDevice(Mon, DeviceHandle(from));
    assert Step(s, calls[0]) == Err(ReceivingNotEnabled);
  }

  /** `Main` keeps its discipline exactly when receiving was enabled (or it
      never got to receive): then every call succeeds and at most one
      device handle is ever live; otherwise its first receive is on a
      monitor that is not receiving. */
  lemma MonitorDiscipline(status: int, n: nat)
    ensures Run(Init, MonitorCalls(status, n)).Ok? <==> status >= 0 || n == 0
    ensures status >= 0 ==> Run(Init, MonitorCalls(status, n)).value.peakDevices <= 1
    ensures status >= 0 ==> OneDeviceThroughout(MonitorCalls(status, n))
    ensures status < 0 && n > 0 ==> Run(Init, MonitorCalls(status, n)) == Err(ReceivingNotEnabled)
  {
    var setup := [UdevNew(ContextHandle), MonitorNewFromNetlink(Ctx, "udev", MonitorHandle),
                  MonitorEnableReceiving(Mon, status)];
    var s1 := State({ContextHandle}, {}, {}, 0);
    assert LiveDevices({ContextHandle}) == {};
    assert {ContextHandle} + {MonitorHandle} == {ContextHandle, MonitorHandle};
    assert |LiveDevices({ContextHandle, MonitorHandle})| == 0 by {
      assert LiveDevices({ContextHandle, MonitorHandle}) == {};
    }
    assert {} + {MonitorHandle} == {MonitorHandle};
    var s2 := State({ContextHandle, MonitorHandle}, {}, {}, 0);
    assert Step(Init, setup[0]) == Ok(s1);
    assert Step(s1, setup[1]) == Ok(s2);
    var s3 := if status < 0 then s2 else s2.(receiving := {MonitorHandle});
    assert Step(s2, setup[2]) == Ok(s3);
    assert Run(Init, setup) == Ok(s3) by {
      assert setup == [setup[0]] + [setup[1], setup[2]];
      RunTwo(s1, setup[1], setup[2], s2, s3);
      RunAppend(Init, [setup[0]], [setup[1], setup[2]]);
      assert [setup[0]][1..] == [];
    }
    RunAppend(Init, setup, LoopCalls(0, n));
    if status >= 0 {
      LoopHoldsOneDevice(s3, 0, n);
      PeakOneMeansOneDevice(MonitorCalls(status, n));
    } else if n > 0 {
      LoopWithoutReceiving(s3, 0, n);
    } else {
      assert LoopCalls(0, n) == [];
    }
  }
}
