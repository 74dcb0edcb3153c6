/** Handle discipline for the native udev objects. A program's native calls
    form a trace; `Run` replays it over the set of live handles and stops at
    the first call that breaks the discipline the declarations imply: a null
    pointer passed where an object is expected, a handle used or released
    after its release, a handle released twice, a context released while
    objects created from it are still live, or a receive on a monitor whose
    receiving was never enabled. List entries are not handles: they belong
    to their device, the interface offers no call that releases one, and
    every list-entry call requires the owning device to be live. */
module Lifecycle {
  import opened Wrappers

  datatype Handle = ContextHandle | MonitorHandle | DeviceHandle(id: nat)

  /** A JNA `Pointer` argument or result; `Null` is Java `null`. */
  datatype Pointer = Null | To(handle: Handle)

  /** The native calls the example programs make, one constructor per
      `udev_*` function; results the program receives are recorded in the
      call. */
  datatype Call =
    | UdevNew(result: Handle)
    | UdevUnref(udev: Pointer)
    | DeviceNewFromSyspath(udev: Pointer, syspath: string, device: Pointer)
    | DeviceGetDevpath(device: Pointer)
    | DeviceGetPropertyValue(device: Pointer, key: string)
    | DeviceGetPropertiesListEntry(device: Pointer)
    | ListEntryGetName(owner: Pointer)
    | ListEntryGetValue(owner: Pointer)
    | ListEntryGetNext(owner: Pointer)
    | DeviceUnref(device: Pointer)
    | MonitorNewFromNetlink(udev: Pointer, name: string, result: Handle)
    | MonitorEnableReceiving(monitor: Pointer, status: int)
    | MonitorReceiveDevice(monitor: Pointer, result: Handle)

  datatype Fault =
    | NullPointer
    | WrongKind
    | NeverAcquired
    | UseAfterRelease
    | DoubleRelease
    | HandleReused
    | ContextStillInUse
    | ReceivingNotEnabled

  /** `peakDevices` is the largest number of device handles ever live at
      once since the state was created. */
  datatype State = State(live: set<Handle>, released: set<Handle>, receiving: set<Handle>, peakDevices: nat)

  const Init := State({}, {}, {}, 0)

  /** No handle is both live and released, only live monitors receive, and
      the peak covers the devices live now. */
  predicate Valid(s: State)
  {
    && s.live !! s.released
    && s.receiving <= s.live
    && (forall h :: h in s.receiving ==> h.MonitorHandle?)
    && |LiveDevices(s.live)| <= s.peakDevices
  }

  function LiveDevices(live: set<Handle>): set<Handle>
  {
    set h | h in live && h.DeviceHandle?
  }

  datatype Kind = Context | Monitor | Device

  function KindOf(h: Handle): Kind
  {
    match h
    case ContextHandle => Context
    case MonitorHandle => Monitor
    case DeviceHandle(_) => Device
  }

  /** Checks that `p` points to a live object of the given kind. */
  function Use(s: State, p: Pointer, kind: Kind): (r: Result<State, Fault>)
    ensures r.Ok? <==> p.To? && KindOf(p.handle) == kind && p.handle in s.live
    ensures r.Ok? ==> r.value == s
  {
    if p.Null? then Err(NullPointer)
    else if KindOf(p.handle) != kind then Err(WrongKind)
    else if p.handle in s.live then Ok(s)
    else if p.handle in s.released then Err(UseAfterRelease)
    else Err(NeverAcquired)
  }

  /** A fresh handle becomes live. */
  function Acquire(s: State, h: Handle): (r: Result<State, Fault>)
    ensures r.Ok? <==> h !in s.live && h !in s.released
    ensures r.Ok? ==> r.value.live == s.live + {h} && r.value.released == s.released
    ensures r.Ok? ==> r.value.receiving == s.receiving
    ensures r.Ok? ==> r.value.peakDevices >= s.peakDevices && r.value.peakDevices >= |LiveDevices(r.value.live)|
    ensures r.Ok? ==> r.value.peakDevices == s.peakDevices || r.value.peakDevices == |LiveDevices(r.value.live)|
  {
    if h in s.live || h in s.released then Err(HandleReused)
    else
      var live := s.live + {h};
      var n := |LiveDevices(live)|;
      Ok(State(live, s.released, s.receiving, if n > s.peakDevices then n else s.peakDevices))
  }

  /** A live handle is released, once; a context only as the last live
      handle. */
  function Release(s: State, p: Pointer, kind: Kind): (r: Result<State, Fault>)
    ensures r.Ok? <==> p.To? && KindOf(p.handle) == kind && p.handle in s.live
                       && (kind == Context ==> s.live == {p.handle})
    ensures p.To? && KindOf(p.handle) == kind == Context && p.handle in s.live && s.live != {p.handle}
            ==> r == Err(ContextStillInUse)
    ensures r.Ok? ==> r.value.live == s.live - {p.handle} && r.value.released == s.released + {p.handle}
    ensures r.Ok? ==> r.value.receiving == s.receiving - {p.handle} && r.value.peakDevices == s.peakDevices
    ensures Valid(s) && p.To? && KindOf(p.handle) == kind && p.handle in s.released ==> r == Err(DoubleRelease)
  {
    if p.Null? then Err(NullPointer)
    else if KindOf(p.handle) != kind then Err(WrongKind)
    else if p.handle !in s.live then (if p.handle in s.released then Err(DoubleRelease) else Err(NeverAcquired))
    else if kind == Context && s.live != {p.handle} then Err(ContextStillInUse)
    else Ok(s.(live := s.live - {p.handle}, released := s.released + {p.handle},
               receiving := s.receiving - {p.handle}))
  }

  /** One native call. */
  function Step(s: State, c: Call): Result<State, Fault>
  {
    match c
    case UdevNew(h) =>
      if !h.ContextHandle? then Err(WrongKind) else Acquire(s, h)
    case UdevUnref(p) => Release(s, p, Context)
    case DeviceNewFromSyspath(p, _, result) =>
      (match Use(s, p, Context)
       case Err(e) => Err(e)
       case Ok(s1) =>
         if result.Null? then Ok(s1)
         else if !result.handle.DeviceHandle? then Err(WrongKind)
         else Acquire(s1, result.handle))
    case DeviceGetDevpath(p) => Use(s, p, Device)
    case DeviceGetPropertyValue(p, _) => Use(s, p, Device)
    case DeviceGetPropertiesListEntry(p) => Use(s, p, Device)
    case ListEntryGetName(p) => Use(s, p, Device)
    case ListEntryGetValue(p) => Use(s, p, Device)
    case ListEntryGetNext(p) => Use(s, p, Device)
    case DeviceUnref(p) => Release(s, p, Device)
    case MonitorNewFromNetlink(p, _, h) =>
      (match Use(s, p, Context)
       case Err(e) => Err(e)
       case Ok(s1) => if !h.MonitorHandle? then Err(WrongKind) else Acquire(s1, h))
    case MonitorEnableReceiving(p, status) =>
      (match Use(s, p, Monitor)
       case Err(e) => Err(e)
       case Ok(s1) => if status < 0 then Ok(s1) else Ok(s1.(receiving := s1.receiving + {p.handle})))
    case MonitorReceiveDevice(p, h) =>
      match Use(s, p, Monitor)
      case Err(e) => Err(e)
      case Ok(s1) =>
        if p.handle !in s1.receiving then Err(ReceivingNotEnabled)
        else if !h.DeviceHandle? then Err(WrongKind)
        else Acquire(s1, h)
  }

  /** What a single call does: a device or list-entry query succeeds
      exactly on a live device and changes nothing; only unref calls
      release, a device unref releases just that device, a context unref
      leaves nothing live, and a receive needs a receiving monitor and
      yields a fresh device. */
  lemma StepMeaning(s: State, c: Call)
    ensures forall h :: IsDeviceQuery(c, h) ==>
      (Step(s, c).Ok? <==> h in s.live && h.DeviceHandle?) && (Step(s, c).Ok? ==> Step(s, c).value == s)
    ensures Step(s, c).Ok? && !IsRelease(c) ==> s.live <= Step(s, c).value.live && Step(s, c).value.released == s.released
    ensures Step(s, c).Ok? && c.DeviceUnref? ==>
      c.device.To? && c.device.handle in s.live
      && Step(s, c).value.live == s.live - {c.device.handle}
      && Step(s, c).value.released == s.released + {c.device.handle}
    ensures Step(s, c).Ok? && c.UdevUnref? ==> Step(s, c).value.live == {}
    ensures Step(s, c).Ok? && c.MonitorReceiveDevice? ==>
      c.monitor.To? && c.monitor.handle in s.receiving
      && c.result !in s.live && c.result !in s.released && Step(s, c).value.live == s.live + {c.result}
  {
  }

  /** Replays a trace, stopping at the first fault. */
  function Run(s: State, calls: seq<Call>): Result<State, Fault>
    decreases |calls|
  {
    if |calls| == 0 then Ok(s)
    else
      match Step(s, calls[0])
      case Err(e) => Err(e)
      case Ok(s1) => Run(s1, calls[1..])
  }

  /** Removing a handle never adds a live device. */
  lemma LiveDevicesWithout(live: set<Handle>, h: Handle)
    ensures |LiveDevices(live - {h})| <= |LiveDevices(live)|
  {
    if h in LiveDevices(live) {
      assert LiveDevices(live - {h}) == LiveDevices(live) - {h};
    } else {
      assert LiveDevices(live - {h}) == LiveDevices(live);
    }
  }

  /** Every call keeps the state well formed. */
  lemma StepPreservesValid(s: State, c: Call)
    requires Valid(s)
    ensures Step(s, c).Ok? ==> Valid(Step(s, c).value)
  {
    if Step(s, c).Ok? && IsRelease(c) {
      LiveDevicesWithout(s.live, if c.UdevUnref? then c.udev.handle else c.device.handle);
    }
  }

  /** No call lowers the peak. */
  lemma StepKeepsPeak(s: State, c: Call)
    ensures Step(s, c).Ok? ==> Step(s, c).value.peakDevices >= s.peakDevices
  {
  }

  /** A replay that succeeds never lowers the peak. */
  lemma {:induction false} RunKeepsPeak(s: State, calls: seq<Call>)
    ensures Run(s, calls).Ok? ==> Run(s, calls).value.peakDevices >= s.peakDevices
    decreases |calls|
  {
    if |calls| > 0 {
      StepKeepsPeak(s, calls[0]);
      if Step(s, calls[0]).Ok? {
        RunKeepsPeak(Step(s, calls[0]).value, calls[1..]);
      }
    }
  }

  /** The peak of a successful replay bounds the live devices at every
      point of it: after each prefix of the trace, which also succeeds, no
      more devices are live than the final peak. */
  lemma {:induction false} PeakBoundsEveryPrefix(s: State, calls: seq<Call>)
    requires Valid(s) && Run(s, calls).Ok?
    ensures forall k :: 0 <= k <= |calls| ==>
      Run(s, calls[..k]).Ok? && |LiveDevices(Run(s, calls[..k]).value.live)| <= Run(s, calls).value.peakDevices
    decreases |calls|
  {
    RunKeepsPeak(s, calls);
    assert calls[..0] == [];
    if |calls| > 0 {
      var s1 := Step(s, calls[0]).value;
      StepPreservesValid(s, calls[0]);
      PeakBoundsEveryPrefix(s1, calls[1..]);
      forall k | 1 <= k <= |calls|
        ensures Run(s, calls[..k]).Ok? && |LiveDevices(Run(s, calls[..k]).value.live)| <= Run(s, calls).value.peakDevices
      {
        assert calls[..k][0] == calls[0];
        assert calls[..k][1..] == calls[1..][..k - 1];
        assert Run(s, calls[..k]) == Run(s1, calls[1..][..k - 1]);
      }
    }
  }

  /** A replay that succeeds ends in a well-formed state. */
  lemma {:induction false} RunPreservesValid(s: State, calls: seq<Call>)
    requires Valid(s)
    ensures Run(s, calls).Ok? ==> Valid(Run(s, calls).value)
    decreases |calls|
  {
    if |calls| > 0 {
      StepPreservesValid(s, calls[0]);
      if Step(s, calls[0]).Ok? {
        RunPreservesValid(Step(s, calls[0]).value, calls[1..]);
      }
    }
  }

  /** Replaying two traces one after the other is replaying their
      concatenation. */
  lemma {:induction false} RunAppend(s: State, a: seq<Call>, b: seq<Call>)
    ensures Run(s, a + b) == match Run(s, a) case Err(e) => Err(e) case Ok(s1) => Run(s1, b)
    decreases |a|
  {
    if |a| == 0 {
      assert a + b == b;
    } else {
      assert (a + b)[1..] == a[1..] + b;
      match Step(s, a[0])
      case Err(e) =>
      case Ok(s1) => RunAppend(s1, a[1..], b);
    }
  }

  /** A one-call trace runs as its single step. */
  lemma RunOne(s: State, a: Call, t: State)
    requires Step(s, a) == Ok(t)
    ensures Run(s, [a]) == Ok(t)
  {
    assert [a][1..] == [];
  }

  /** A two-call trace whose calls both succeed. */
  lemma RunTwo(s: State, a: Call, b: Call, mid: State, final: State)
    requires Step(s, a) == Ok(mid) && Step(mid, b) == Ok(final)
    ensures Run(s, [a, b]) == Ok(final)
  {
    assert [b][1..] == [];
    assert Run(mid, [b]) == Ok(final);
    assert [a, b][1..] == [b];
  }

  /** Whether a call gives a handle back to the library. */
  predicate IsRelease(c: Call)
  {
    c.UdevUnref? || c.DeviceUnref?
  }

  /** The release calls of a trace, in trace order. */
  function Releases(calls: seq<Call>): seq<Call>
  {
    if |calls| == 0 then []
    else (if IsRelease(calls[0]) then [calls[0]] else []) + Releases(calls[1..])
  }

  lemma {:induction false} ReleasesAppend(a: seq<Call>, b: seq<Call>)
    ensures Releases(a + b) == Releases(a) + Releases(b)
    decreases |a|
  {
    if |a| == 0 {
      assert a + b == b;
    } else {
      var head := if IsRelease(a[0]) then [a[0]] else [];
      assert (a + b)[0] == a[0];
      assert (a + b)[1..] == a[1..] + b;
      assert Releases(a + b) == head + Releases(a[1..] + b);
      assert Releases(a) == head + Releases(a[1..]);
      ReleasesAppend(a[1..], b);
    }
  }

  /** A call that only reads the device `h` points to, or one of its list
      entries. */
  predicate IsDeviceQuery(c: Call, h: Handle)
  {
    match c
    case DeviceGetDevpath(p) => p == To(h)
    case DeviceGetPropertyValue(p, _) => p == To(h)
    case DeviceGetPropertiesListEntry(p) => p == To(h)
    case ListEntryGetName(p) => p == To(h)
    case ListEntryGetValue(p) => p == To(h)
    case ListEntryGetNext(p) => p == To(h)
    case _ => false
  }

  /** Queries on a live device, and on its list entries, succeed and leave
      every handle as it was. */
  lemma {:induction false} QueriesKeepState(s: State, h: Handle, calls: seq<Call>)
    requires h in s.live && h.DeviceHandle?
    requires forall i :: 0 <= i < |calls| ==> IsDeviceQuery(calls[i], h)
    ensures Run(s, calls) == Ok(s)
    decreases |calls|
  {
    if |calls| > 0 {
      assert Step(s, calls[0]) == Ok(s);
      QueriesKeepState(s, h, calls[1..]);
    }
  }

  /** A trace without release calls releases nothing: in particular no
      device query and no list-entry call releases anything. */
  lemma {:induction false} NoReleases(calls: seq<Call>)
    requires forall i :: 0 <= i < |calls| ==> !IsRelease(calls[i])
    ensures Releases(calls) == []
    decreases |calls|
  {
    if |calls| > 0 {
      NoReleases(calls[1..]);
    }
  }

  /** The releases of a two-call trace. */
  lemma ReleasesTwo(a: Call, b: Call)
    ensures Releases([a, b]) == (if IsRelease(a) then [a] else []) + (if IsRelease(b) then [b] else [])
  {
    assert [a, b][1..] == [b];
    assert [b][1..] == [];
    assert Releases([b]) == (if IsRelease(b) then [b] else []) + [];
    assert Releases([a, b]) == (if IsRelease(a) then [a] else []) + Releases([b]);
  }

  /** `CLibUdevWrapper`: its constructor calls `udev_new` and its `close`
      calls `udev_unref` with no guard, so a second `close` releases the
      context a second time. */
  function WrapperCalls(closes: nat): seq<Call>
  {
    [UdevNew(ContextHandle)] + seq(closes, _ => UdevUnref(To(ContextHandle)))
  }

  /** One `close` releases the context cleanly; a second one is a double
      release. */
  lemma WrapperCloseTwiceIsDoubleRelease()
    ensures Run(Init, WrapperCalls(1)) == Ok(State({}, {ContextHandle}, {}, 0))
    ensures Run(Init, WrapperCalls(2)) == Err(DoubleRelease)
  {
    var s1 := State({ContextHandle}, {}, {}, 0);
    assert LiveDevices({ContextHandle}) == {};
    assert Step(Init, UdevNew(ContextHandle)) == Ok(s1);
    var s2 := State({}, {ContextHandle}, {}, 0);
    assert Step(s1, UdevUnref(To(ContextHandle))) == Ok(s2);
    assert WrapperCalls(1) == [UdevNew(ContextHandle), UdevUnref(To(ContextHandle))];
    assert WrapperCalls(2) == [UdevNew(ContextHandle), UdevUnref(To(ContextHandle)), UdevUnref(To(ContextHandle))];
  }
}
