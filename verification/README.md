# udev device properties, property-list walk and OS detection — a Dafny model

The Java library `me.jna.testing` binds Linux libudev through JNA. Its own
logic is small, and this project models three pieces of it. The native
library is reduced to abstract contracts: the null and status results its
declarations document, plus libudev's documented lookup behaviour where a
declaration says nothing (see "## Left out").

- **Device property projection.** `DeviceProperties.createDeviceProperties`
  reads a device's devpath and thirteen udev properties. It builds an
  immutable record of fourteen fields with one positional constructor call.
  A udev device is an abstract value: its devpath plus its property list.
  `udev_device_get_property_value` is a lookup in that list, and a missing
  property is `None` (Java `null`).
- **Property-list walk and handle discipline.** These are the two example
  programs at the end of `CLibUdev.java`. `JNAUdevExample` walks a device's
  native property list (`get_properties_list_entry`, then `get_next` until
  null) and prints `name=value` per entry. `Main` receives devices from a
  netlink monitor in a loop. The native list is a sequence in list order.
  Each program is also a trace of native calls, and `Lifecycle.Run` replays
  a trace over the set of live handles (context, monitor, devices). A
  replay faults on a null pointer, a use or release after release, a double
  release, a context released while objects made from it are live, or a
  receive on a monitor that is not receiving. The state also records the
  largest number of device handles ever live at once.
- **OS classification.** `OSUtilities.determineOS` lower-cases `os.name` and
  looks for "windows", "mac", "linux" and "unix", in that order.

Modules: `Wrappers` (Option, Result), `Udev` (abstract device, property
lookup, list cursor), `Properties` (the record and its creation),
`PropertyWalk` (the list walk), `Lifecycle` (native calls and handle
discipline), `UdevExamples` (the two example programs), `OSUtilities`.

`Properties.Collect`, `Properties.ProjectFromMap` and the lemmas about
them model an alternative extraction that the Java code does not perform.
It is the walk of `CLibUdev.java:196-201`, but inserting each entry into a
mapping instead of printing it, followed by the same constructor call as
`DeviceProperties.java:23-24`. `Properties.WalkAndLookupAgree` proves that
on a keyed property list this alternative builds the same record as the
thirteen direct lookups of `createDeviceProperties`.

The record is a datatype, so its fields cannot change after creation. Its
getters are its destructors, and repeated calls give the same value.
`Properties.Get` names each getter by a `Field` value, so that one contract
can speak of all fourteen.

## Model

| member | source | states |
|---|---|---|
| Udev.PropertyValue | lib/src/main/java/me/jna/testing/CLibUdev.java:56-63 | The lookup is null exactly when no entry has the key. Otherwise it is the value of the first entry with that key. |
| Udev.FirstEntry | lib/src/main/java/me/jna/testing/CLibUdev.java:47-54 | The first list entry is null exactly when the device has no properties. Otherwise it is position 0. |
| Udev.NextEntry | lib/src/main/java/me/jna/testing/CLibUdev.java:131-138 | The next entry is null exactly after the last entry. Otherwise it is the following position. |
| Udev.WithPropertyFrame | lib/src/main/java/me/jna/testing/DeviceProperties.java:9-21 | Setting one property changes the lookup of that key only. Every other key's lookup is unchanged. |
| Properties.Get | lib/src/main/java/me/jna/testing/DeviceProperties.java:61-115 | The fourteen getters, one `Field` value each. Each getter returns its own constructor field: `getAction` the action, `getDevPath` the devpath, and so on through `getIdVendorId`. |
| Properties.CreateDeviceProperties | lib/src/main/java/me/jna/testing/DeviceProperties.java:7-58 | For every field, the getter returns what the device says about that field's key: ACTION for getAction, ID_VENDOR for getIdVendor, ID_MODEL (the local `product`) for getIdModel, and so on through the key table. getDevPath returns the devpath query, not a property. Values are stored unchanged, so no two fields are swapped. |
| Properties.KeysAreDistinct | lib/src/main/java/me/jna/testing/DeviceProperties.java:9-21 | Each getter's key leads back to that getter, so two different getters never read the same key. |
| Properties.KeyQueried | lib/src/main/java/me/jna/testing/DeviceProperties.java:9-21 | Each of the thirteen property getters' keys is among the keys queried. |
| Properties.CreateCalls | lib/src/main/java/me/jna/testing/DeviceProperties.java:8-21 | The native calls of `createDeviceProperties`, call by call, all on the same device. First comes `udev_device_get_devpath` (line 8). Then comes `udev_device_get_property_value` for ACTION, ID_VENDOR, ID_MODEL, SUBSYSTEM, DEVTYPE, DRIVER, ID_BUS, ID_MODEL_ID, ID_REVISION, ID_SERIAL, ID_SERIAL_SHORT, ID_TYPE and ID_VENDOR_ID (lines 9-21). |
| Properties.CreateLeavesDeviceToCaller | lib/src/main/java/me/jna/testing/DeviceProperties.java:7-25 | Creation makes 14 native calls on a live device: one devpath query and a lookup of every getter's key. They all succeed, the handle state does not change, and nothing is released, so the device stays with the caller. |
| Properties.AbsentKeyAbsentField | lib/src/main/java/me/jna/testing/DeviceProperties.java:9-21 | A field is absent exactly when the device lacks its key. A present field holds the value of an entry with that key, never an empty string or a default. |
| Properties.NoPropertiesAllAbsent | lib/src/main/java/me/jna/testing/DeviceProperties.java:7-25 | A device with no properties yields a record in which only the devpath is present. |
| Properties.OnePropertyOneField | lib/src/main/java/me/jna/testing/DeviceProperties.java:9-24 | Changing one property of the device changes only the field that key feeds. All other fields and the devpath stay the same. |
| Properties.CollectStep | lib/src/main/java/me/jna/testing/CLibUdev.java:196-201 | Inserting the last entry into what the other entries collected gives what the whole list collects: the same keys and the last-entry-wins values. |
| Properties.Collect | lib/src/main/java/me/jna/testing/CLibUdev.java:196-201 | Collecting the walked entries into a mapping gives exactly the names present in the list as keys. Each key maps to the value of the last entry with that name. |
| Properties.ProjectFromMap | lib/src/main/java/me/jna/testing/DeviceProperties.java:23-24 | The record projected from a mapping keeps the devpath. Each field is present exactly when its key is in the mapping, and then it holds the mapped value. |
| Properties.LookupOfUniqueEntry | lib/src/main/java/me/jna/testing/CLibUdev.java:56-63 | On a property list with unique names, looking up an entry's name returns that entry's value. |
| Properties.CollectOfUniqueEntry | lib/src/main/java/me/jna/testing/CLibUdev.java:194-200 | On a property list with unique names, the walk's mapping holds each entry's value under its name. |
| Properties.CollectAgreesWithLookup | lib/src/main/java/me/jna/testing/CLibUdev.java:56-63 | On a property list with unique names, the collected mapping contains a key exactly when the device has it, and maps it to the value the direct lookup returns. |
| Properties.AgreeOn | lib/src/main/java/me/jna/testing/DeviceProperties.java:9-21 | On a property list with unique names, each single field of the projected record equals the direct lookup of its key. |
| Properties.WalkAndLookupAgree | lib/src/main/java/me/jna/testing/DeviceProperties.java:7-25 | On a property list with unique names, walking the list into a mapping and projecting it gives the same record that the thirteen direct lookups build. |
| PropertyWalk.EntryLine | lib/src/main/java/me/jna/testing/CLibUdev.java:199 | The line printed for one entry, `name + "=" + value`. |
| PropertyWalk.Render | lib/src/main/java/me/jna/testing/CLibUdev.java:197-199 | There is one output line per entry, in list order, and each is exactly `name + "=" + value`. |
| PropertyWalk.WalkProperties | lib/src/main/java/me/jna/testing/CLibUdev.java:194-201 | The null-terminated `get_next` loop terminates. It visits every entry exactly once, in list order, so the iteration count equals the list length, and it runs zero times when the first entry is null. It prints the reference rendering of the list. |
| Lifecycle.Step | lib/src/main/java/me/jna/testing/CLibUdev.java:39-185 | Gives each `udev_*` call its effect on the handles. `udev_new`, `udev_device_new_from_syspath`, `udev_monitor_new_from_netlink` and `udev_monitor_receive_device` acquire a handle, and the last three first check their context or monitor argument. The devpath, property-value, list-head and list-entry calls check for a live device. The two unref calls release. `udev_monitor_enable_receiving` marks the monitor receiving when its status is not negative. |
| Lifecycle.StepMeaning | lib/src/main/java/me/jna/testing/CLibUdev.java:39-185 | A device or list-entry query succeeds exactly on a live device and changes nothing. Only unref calls release. A device unref releases just that device, and a context unref leaves nothing live. A receive needs a receiving monitor and yields a fresh device. |
| Lifecycle.Use | lib/src/main/java/me/jna/testing/CLibUdev.java:39-63 | A query succeeds exactly when its pointer is non-null, of the right kind and live, and it changes no state. |
| Lifecycle.Acquire | lib/src/main/java/me/jna/testing/CLibUdev.java:65-73 | A newly created object succeeds exactly when its handle is fresh (neither live nor released). It joins the live set, and the peak count of live devices covers it. |
| Lifecycle.Release | lib/src/main/java/me/jna/testing/CLibUdev.java:75-80 | A release succeeds exactly on a non-null, live handle of the right kind, and for a context only when it is the last live handle. The handle then moves from live to released. Releasing a context while other handles are live is `ContextStillInUse`, and releasing an already-released handle is a double release. |
| Lifecycle.StepPreservesValid | lib/src/main/java/me/jna/testing/CLibUdev.java:39-185 | Every native call keeps the state well formed: no handle is both live and released, only live monitors are receiving, and the peak count covers the devices live now. |
| Lifecycle.RunPreservesValid | lib/src/main/java/me/jna/testing/CLibUdev.java:189-226 | A whole trace that replays without fault ends in a well-formed state. |
| Lifecycle.StepKeepsPeak | lib/src/main/java/me/jna/testing/CLibUdev.java:39-185 | No native call lowers the peak device count. |
| Lifecycle.RunKeepsPeak | lib/src/main/java/me/jna/testing/CLibUdev.java:189-226 | A trace that replays without fault never lowers the peak device count. |
| Lifecycle.PeakBoundsEveryPrefix | lib/src/main/java/me/jna/testing/CLibUdev.java:189-226 | When a trace replays without fault from a well-formed state, every prefix of it also does. After each prefix, no more devices are live than the final peak count. |
| Lifecycle.QueriesKeepState | lib/src/main/java/me/jna/testing/CLibUdev.java:123-146 | Queries on a live device and on its list entries succeed and change no handle. |
| Lifecycle.NoReleases | lib/src/main/java/me/jna/testing/CLibUdev.java:194-200 | A trace with no unref call releases nothing, so the list entries of the walk are never released on their own. |
| Lifecycle.ReleasesAppend | lib/src/main/java/me/jna/testing/CLibUdev.java:203-204 | The releases of two traces run one after the other are the first trace's releases followed by the second's. |
| Lifecycle.WrapperCalls | lib/src/main/java/me/jna/testing/CLibUdevWrapper.java:10-19 | The wrapper's native calls: `udev_new` in the constructor (line 13), then one `udev_unref` of that same pointer for each `close` (line 18), with no guard. |
| Lifecycle.WrapperCloseTwiceIsDoubleRelease | lib/src/main/java/me/jna/testing/CLibUdevWrapper.java:10-19 | One `close` of the wrapper releases its context cleanly. A second `close` is a double release, because `close` has no guard. |
| UdevExamples.ExampleCallsAsWritten | lib/src/main/java/me/jna/testing/CLibUdev.java:192-204 | `JNAUdevExample.main` as written, call by call: `udev_new` (192), `udev_device_new_from_syspath` on `/sys/class/net/eth0` (193), `udev_device_get_properties_list_entry` (194), then name, value and next for each entry (197-200), then `udev_device_unref` (203) and `udev_unref` (204). The device pointer is null when no device exists. |
| UdevExamples.ExampleCalls | lib/src/main/java/me/jna/testing/CLibUdev.java:192-204 | The same trace with a null check after line 193. A missing device skips the walk and `udev_device_unref`. Otherwise the trace is the one above. |
| UdevExamples.ExampleProgram | lib/src/main/java/me/jna/testing/CLibUdev.java:194-201 | The example prints the `get_next` walk of the opened device's list: one `name=value` line per entry, in list order. It prints nothing when no device was found. |
| UdevExamples.ExampleQueriesOnDevice | lib/src/main/java/me/jna/testing/CLibUdev.java:194-200 | Every call between opening and releasing the device reads that device or one of its list entries. |
| UdevExamples.ExampleAsWrittenUsesNullDevice | lib/src/main/java/me/jna/testing/CLibUdev.java:192-194 | As written, when no device exists at the syspath, the example asks a null device for its property list. |
| UdevExamples.PeakOneMeansOneDevice | lib/src/main/java/me/jna/testing/CLibUdev.java:189-226 | A trace from the initial state that ends without fault and with peak count at most one has at most one live device after each of its prefixes. |
| UdevExamples.ExampleReleasesDeviceThenContext | lib/src/main/java/me/jna/testing/CLibUdev.java:189-205 | With the null check, every call of the example succeeds and nothing is left live. The only releases are the device, right after the walk, and then the context, each exactly once. After every prefix of the trace at most one device is live. |
| UdevExamples.ExampleWithoutDevice | lib/src/main/java/me/jna/testing/CLibUdev.java:192-193 | When the syspath names no device, the checked example releases only the context and ends with nothing live. |
| UdevExamples.ExampleWithDeviceRuns | lib/src/main/java/me/jna/testing/CLibUdev.java:192-204 | When the device exists, the example's trace replays without fault and ends with both device and context released. |
| UdevExamples.ExampleWithDeviceReleases | lib/src/main/java/me/jna/testing/CLibUdev.java:203-204 | The example's releases are exactly `udev_device_unref` and then `udev_unref`. |
| UdevExamples.ExampleWithDeviceOrder | lib/src/main/java/me/jna/testing/CLibUdev.java:196-203 | The device release is the second-to-last call, and no call before it releases anything. |
| UdevExamples.WalkCalls | lib/src/main/java/me/jna/testing/CLibUdev.java:196-201 | The walk makes exactly three list-entry calls per entry, and each entry's calls are name, value and next, in that order. |
| UdevExamples.ConnectedLine | lib/src/main/java/me/jna/testing/CLibUdev.java:218-222 | The line `Main` prints: "Device Connected: ", the devpath, " Vendor: ", the ID_VENDOR value, " Product: " and the ID_MODEL value. A null value prints as "null", as Java string concatenation does; that is `UdevExamples.JavaString`. |
| UdevExamples.ConnectedLineMatchesRecord | lib/src/main/java/me/jna/testing/CLibUdev.java:218-222 | The vendor and product that `Main` prints are the record's `idVendor` and `idModel`. A missing value prints as "null". |
| UdevExamples.MonitorOutput | lib/src/main/java/me/jna/testing/CLibUdev.java:216-224 | The monitor prints one line per received device, in arrival order. |
| UdevExamples.IterationCalls | lib/src/main/java/me/jna/testing/CLibUdev.java:217-223 | One iteration of `Main`'s loop, call by call: `udev_monitor_receive_device` (217), `udev_device_get_devpath` (218), the ID_VENDOR and ID_MODEL lookups (219-220), then `udev_device_unref` (223). |
| UdevExamples.MonitorCalls | lib/src/main/java/me/jna/testing/CLibUdev.java:211-224 | `Main` up to its `n`-th receive: `udev_new` (211), `udev_monitor_new_from_netlink` with "udev" (213), `udev_monitor_enable_receiving` returning `status` (214), then `n` loop iterations of the `while (true)` at lines 216-224. Those iterations are `UdevExamples.LoopCalls`, each one an `IterationCalls` with the next device number. |
| UdevExamples.ReceiveStep | lib/src/main/java/me/jna/testing/CLibUdev.java:217 | Between iterations, receiving device `i` makes it the only live device. |
| UdevExamples.UnrefStep | lib/src/main/java/me/jna/testing/CLibUdev.java:223 | At the end of an iteration, releasing device `i` leaves only the context and the monitor live, with the device released. |
| UdevExamples.IterationHoldsOneDevice | lib/src/main/java/me/jna/testing/CLibUdev.java:217-223 | One loop iteration receives a device, queries it and releases it. That device is the only one live during the iteration. |
| UdevExamples.LoopHoldsOneDevice | lib/src/main/java/me/jna/testing/CLibUdev.java:216-224 | Over any number of iterations, each received device is released before the next receive. Between iterations only the context and the monitor are live, and the peak device count stays at most one. |
| UdevExamples.LoopWithoutReceiving | lib/src/main/java/me/jna/testing/CLibUdev.java:214-217 | If receiving was not enabled, the loop's first receive faults. |
| UdevExamples.MonitorDiscipline | lib/src/main/java/me/jna/testing/CLibUdev.java:209-225 | `Main` replays without fault exactly when `udev_monitor_enable_receiving` succeeded or nothing was received yet. The monitor is created and receiving enabled before the first receive. When receiving was enabled, at most one device is live after every prefix of the trace. |
| OSUtilities.ToLower | lib/src/main/java/me/jna/testing/OSUtilities.java:18 | Lower-casing keeps the length and lower-cases each character. |
| OSUtilities.Contains | lib/src/main/java/me/jna/testing/OSUtilities.java:19-26 | `contains` holds exactly when the keyword occurs at some position of the name, not only as a prefix or the whole name. |
| OSUtilities.DetermineOS | lib/src/main/java/me/jna/testing/OSUtilities.java:17-29 | The result's keyword occurs in the lower-cased name, and no keyword of higher priority (windows, mac, linux, unix) occurs in it. |
| OSUtilities.FirstMatchIsDetermineOS | lib/src/main/java/me/jna/testing/OSUtilities.java:8-10 | The first match in priority order is unique, and it is what `determineOS` returns, so the result is always one of the five values. |
| OSUtilities.CaseInsensitive | lib/src/main/java/me/jna/testing/OSUtilities.java:18-20 | The result depends only on the lower-cased name: lower- or upper-casing the input first changes nothing. |
| OSUtilities.KeywordAnywhere | lib/src/main/java/me/jna/testing/OSUtilities.java:19-26 | A keyword anywhere in the name yields that system or one of higher priority. |
| OSUtilities.MacBeforeLinux | lib/src/main/java/me/jna/testing/OSUtilities.java:21-24 | A name with "mac" before "linux" and no "windows" is MAC. |
| OSUtilities.WindowsNames | lib/src/main/java/me/jna/testing/OSUtilities.java:18-20 | "Windows 10" and "WINDOWS" are both classified as WINDOWS, whatever their case. |
| OSUtilities.MacName | lib/src/main/java/me/jna/testing/OSUtilities.java:21-22 | "Mac OS X" is MAC. |
| OSUtilities.LinuxName | lib/src/main/java/me/jna/testing/OSUtilities.java:23-24 | "Linux" is LINUX. |
| OSUtilities.UnknownNames | lib/src/main/java/me/jna/testing/OSUtilities.java:28 | "SunOS" and the empty name are UNKNOWN. |

## Left out

- Loading the native library (`Native.load`, `CLibUdev.java:37`) and the real behaviour of every `udev_*` function. Each is a foreign call. The model keeps the null and status results the declarations document, plus the one libudev behaviour named under `Udev.PropertyValue` below.
- Udev.PropertyValue: the declaration of `udev_device_get_property_value` (`CLibUdev.java:56-63`) documents no null result. The model follows libudev itself, which returns NULL for a key the device lacks. `Properties.AbsentKeyAbsentField` depends on this.
- Lifecycle.Step: a trace holds one context identity and one monitor identity. A second `udev_new` or `udev_monitor_new_from_netlink` in the same trace therefore faults with `HandleReused`, although the declarations (`CLibUdev.java:156-163`, `173-178`) return a newly created object each time. None of the modelled programs creates a second context or monitor. Two `CLibUdevWrapper` instances in one trace are not modelled.
- The `udev_enumerate_*` declarations (`CLibUdev.java:82-121`). They are declared but never called, so there is no enumerator logic to model.
- The blocking `udev_monitor_receive_device` and the endless `while (true)` in `Main`. The model covers the first `n` iterations, for every `n`. Blocking, cancellation and concurrency are not modelled.
- Printing with `System.out.println`. The model produces the printed strings and does not do I/O.
- Reading `System.getProperty("os.name")`. The name is a parameter.
- OSUtilities.ToLower: only ASCII letters are lower-cased. Java's locale-sensitive Unicode case mapping is not modelled.
- Reference counting. An `unref` is the final release of its handle, and `udev_*_ref` is not part of the interface.
- Invalid list entries, whose name or value would be null. Every modelled entry has a name and a value. The devpath is never null, because `udev_device_get_devpath` documents no null result.
- Null results of `udev_new`, `udev_monitor_new_from_netlink` and `udev_monitor_receive_device`. Their declarations document none.
- `Main` ignores the status of `udev_monitor_enable_receiving`. The model takes the status as a parameter and states when the trace is sound (`UdevExamples.MonitorDiscipline`). It records no finding, because the declaration does not say what a receive does on a monitor that is not receiving.
- The collect-and-project extraction (`Properties.Collect`, `Properties.ProjectFromMap`) is not in the Java code, which only prints the walked entries and builds the record by direct lookups. It is modelled as a reference for those lookups.
- Properties.WalkAndLookupAgree: proved only for property lists whose names are unique. libudev keeps a device's properties in a list keyed by name, so a name never repeats. With a repeated name, the direct lookup returns the first entry and the collected mapping keeps the last one, so the two would differ.
- Lifecycle.Release: releasing a context while a device or monitor made from it is still live is a fault in the model. libudev's reference counting tolerates it. The model enforces the context-last order the example follows.

## Findings

| source | as written | input that shows it | evidently intended | confidence | as-written member | corrected member |
|---|---|---|---|---|---|---|
| lib/src/main/java/me/jna/testing/CLibUdev.java:193-194 | The result of `udev_device_new_from_syspath`, which is documented to be null on error, goes to `udev_device_get_properties_list_entry` and `udev_device_unref` unchecked. | A host with no network interface named `eth0`, for example one that uses predictable interface names such as `enp0s3`. | Check the device for null, and then skip the walk and the device release. | low, not executed; libudev itself returns null for a null device, so the effect may be benign in practice | UdevExamples.ExampleAsWrittenUsesNullDevice | UdevExamples.ExampleReleasesDeviceThenContext |
