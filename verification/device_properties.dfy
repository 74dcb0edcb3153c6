/** `DeviceProperties`: the immutable record of fourteen named device
    attributes, and `createDeviceProperties`, which fills it from a device
    with one devpath query and thirteen property lookups. */
module Properties {
  import opened Wrappers
  import opened Udev
  import Lifecycle

  /** The record, fields in the order of the Java constructor's parameters.
      A property the device lacks is `None` (Java `null`), never "". Being a
      datatype, the record is immutable and its getters are its destructors. */
  datatype DeviceProperties = DeviceProperties(
    action: Option<string>,
    devPath: string,
    subsystem: Option<string>,
    devType: Option<string>,
    driver: Option<string>,
    idBus: Option<string>,
    idModel: Option<string>,
    idModelId: Option<string>,
    idRevision: Option<string>,
    idSerial: Option<string>,
    idSerialShort: Option<string>,
    idType: Option<string>,
    idVendor: Option<string>,
    idVendorId: Option<string>)

  /** One getter per field. */
  datatype Field =
    | Action | DevPath | Subsystem | DevType | Driver | IdBus | IdModel
    | IdModelId | IdRevision | IdSerial | IdSerialShort | IdType | IdVendor | IdVendorId

  /** The getter named by `f`: `getAction()` for `Action`, and so on. */
  function Get(p: DeviceProperties, f: Field): Option<string>
  {
    match f
    case Action => p.action
    case DevPath => Some(p.devPath)
    case Subsystem => p.subsystem
    case DevType => p.devType
    case Driver => p.driver
    case IdBus => p.idBus
    case IdModel => p.idModel
    case IdModelId => p.idModelId
    case IdRevision => p.idRevision
    case IdSerial => p.idSerial
    case IdSerialShort => p.idSerialShort
    case IdType => p.idType
    case IdVendor => p.idVendor
    case IdVendorId => p.idVendorId
  }

  /** The udev property key each getter reports; the devpath is not a
      property but the answer of `udev_device_get_devpath`. */
  function PropertyKey(f: Field): string
    requires f != DevPath
  {
    match f
    case Action => "ACTION"
    case Subsystem => "SUBSYSTEM"
    case DevType => "DEVTYPE"
    case Driver => "DRIVER"
    case IdBus => "ID_BUS"
    case IdModel => "ID_MODEL"
    case IdModelId => "ID_MODEL_ID"
    case IdRevision => "ID_REVISION"
    case IdSerial => "ID_SERIAL"
    case IdSerialShort => "ID_SERIAL_SHORT"
    case IdType => "ID_TYPE"
    case IdVendor => "ID_VENDOR"
    case IdVendorId => "ID_VENDOR_ID"
  }

  /** What the device says about field `f`. */
  function Source(d: Device, f: Field): Option<string>
  {
    if f == DevPath then Some(d.devpath) else PropertyValue(d.properties, PropertyKey(f))
  }

  /** The thirteen keys in the order `createDeviceProperties` queries them. */
  const QueriedKeys: seq<string> := [
    "ACTION", "ID_VENDOR", "ID_MODEL", "SUBSYSTEM", "DEVTYPE", "DRIVER", "ID_BUS",
    "ID_MODEL_ID", "ID_REVISION", "ID_SERIAL", "ID_SERIAL_SHORT", "ID_TYPE", "ID_VENDOR_ID"]

  /** `createDeviceProperties`: the locals are filled in source order, then
      passed positionally to the constructor. Every getter reports the
      lookup of its own key, unchanged, and `getDevPath` the devpath. */
  function CreateDeviceProperties(d: Device): (r: DeviceProperties)
    ensures forall f: Field :: Get(r, f) == Source(d, f)
  {
    var devPath := d.devpath;
    var action := PropertyValue(d.properties, "ACTION");
    var vendor := PropertyValue(d.properties, "ID_VENDOR");
    var product := PropertyValue(d.properties, "ID_MODEL");
    var subsystem := PropertyValue(d.properties, "SUBSYSTEM");
    var devType := PropertyValue(d.properties, "DEVTYPE");
    var driver := PropertyValue(d.properties, "DRIVER");
    var idBus := PropertyValue(d.properties, "ID_BUS");
    var idModelId := PropertyValue(d.properties, "ID_MODEL_ID");
    var idRevision := PropertyValue(d.properties, "ID_REVISION");
    var idSerial := PropertyValue(d.properties, "ID_SERIAL");
    var idSerialShort := PropertyValue(d.properties, "ID_SERIAL_SHORT");
    var idType := PropertyValue(d.properties, "ID_TYPE");
    var idVendorId := PropertyValue(d.properties, "ID_VENDOR_ID");
    DeviceProperties(action, devPath, subsystem, devType, driver, idBus, product,
      idModelId, idRevision, idSerial, idSerialShort, idType, vendor, idVendorId)
  }

  /** The getter each udev key feeds, inverting `PropertyKey`. */
  function FieldOfKey(key: string): Option<Field>
  {
    if key == "ACTION" then Some(Action)
    else if key == "SUBSYSTEM" then Some(Subsystem)
    else if key == "DEVTYPE" then Some(DevType)
    else if key == "DRIVER" then Some(Driver)
    else if key == "ID_BUS" then Some(IdBus)
    else if key == "ID_MODEL" then Some(IdModel)
    else if key == "ID_MODEL_ID" then Some(IdModelId)
    else if key == "ID_REVISION" then Some(IdRevision)
    else if key == "ID_SERIAL" then Some(IdSerial)
    else if key == "ID_SERIAL_SHORT" then Some(IdSerialShort)
    else if key == "ID_TYPE" then Some(IdType)
    else if key == "ID_VENDOR" then Some(IdVendor)
    else if key == "ID_VENDOR_ID" then Some(IdVendorId)
    else None
  }

  /** No two getters read the same key: each key feeds back exactly the
      getter it was read for. */
  lemma KeysAreDistinct(f: Field, g: Field)
    requires f != DevPath && g != DevPath
    ensures FieldOfKey(PropertyKey(f)) == Some(f)
    ensures f != g ==> PropertyKey(f) != PropertyKey(g)
  {
    match f
    case Action =>
    case Subsystem =>
    case DevType =>
    case Driver =>
    case IdBus =>
    case IdModel =>
    case IdModelId =>
    case IdRevision =>
    case IdSerial =>
    case IdSerialShort =>
    case IdType =>
    case IdVendor =>
    case IdVendorId =>
  }

  /** The native calls `createDeviceProperties` makes on the device `dev`:
      one devpath query, then one lookup per queried key, in source order. */
  function CreateCalls(dev: Lifecycle.Pointer): seq<Lifecycle.Call>
  {
    [Lifecycle.DeviceGetDevpath(dev)]
      + seq(|QueriedKeys|, i requires 0 <= i < |QueriedKeys| => Lifecycle.DeviceGetPropertyValue(dev, QueriedKeys[i]))
  }

  /** `createDeviceProperties` makes fourteen queries on a live device, each
      getter's key among them, and releases nothing: the device stays live
      and owned by the caller. */
  lemma CreateLeavesDeviceToCaller(s: Lifecycle.State, h: Lifecycle.Handle)
    requires h in s.live && h.DeviceHandle?
    ensures |CreateCalls(Lifecycle.To(h))| == 14
    ensures Lifecycle.Run(s, CreateCalls(Lifecycle.To(h))) == Ok(s)
    ensures Lifecycle.Releases(CreateCalls(Lifecycle.To(h))) == []
    ensures forall f :: f != DevPath ==>
      Lifecycle.DeviceGetPropertyValue(Lifecycle.To(h), PropertyKey(f)) in CreateCalls(Lifecycle.To(h))
  {
    var calls := CreateCalls(Lifecycle.To(h));
    assert forall i :: 0 <= i < |calls| ==> Lifecycle.IsDeviceQuery(calls[i], h);
    Lifecycle.QueriesKeepState(s, h, calls);
    Lifecycle.NoReleases(calls);
    forall f | f != DevPath
      ensures Lifecycle.DeviceGetPropertyValue(Lifecycle.To(h), PropertyKey(f)) in calls
    {
      var i :| 0 <= i < |QueriedKeys| && QueriedKeys[i] == PropertyKey(f) by {
        KeyQueried(f);
      }
      assert calls[i + 1] == Lifecycle.DeviceGetPropertyValue(Lifecycle.To(h), PropertyKey(f));
    }
  }

  /** Each getter's key is among the thirteen queried. */
  lemma KeyQueried(f: Field)
    requires f != DevPath
    ensures exists i :: 0 <= i < |QueriedKeys| && QueriedKeys[i] == PropertyKey(f)
  {
    match f
    case Action => assert QueriedKeys[0] == PropertyKey(f);
    case IdVendor => assert QueriedKeys[1] == PropertyKey(f);
    case IdModel => assert QueriedKeys[2] == PropertyKey(f);
    case Subsystem => assert QueriedKeys[3] == PropertyKey(f);
    case DevType => assert QueriedKeys[4] == PropertyKey(f);
    case Driver => assert QueriedKeys[5] == PropertyKey(f);
    case IdBus => assert QueriedKeys[6] == PropertyKey(f);
    case IdModelId => assert QueriedKeys[7] == PropertyKey(f);
    case IdRevision => assert QueriedKeys[8] == PropertyKey(f);
    case IdSerial => assert QueriedKeys[9] == PropertyKey(f);
    case IdSerialShort => assert QueriedKeys[10] == PropertyKey(f);
    case IdType => assert QueriedKeys[11] == PropertyKey(f);
    case IdVendorId => assert QueriedKeys[12] == PropertyKey(f);
  }

  /** A field is absent exactly when the device lacks its key; a present
      field holds the value of the entry with that key, never a default. */
  lemma AbsentKeyAbsentField(d: Device, f: Field)
    requires f != DevPath
    ensures Get(CreateDeviceProperties(d), f).None? <==> !HasProperty(d.properties, PropertyKey(f))
    ensures Get(CreateDeviceProperties(d), f).Some? ==>
      exists i :: 0 <= i < |d.properties|
        && d.properties[i] == Property(PropertyKey(f), Get(CreateDeviceProperties(d), f).value)
  {
  }

  /** A device with no properties yields a record whose only present field
      is the devpath. */
  lemma NoPropertiesAllAbsent(d: Device)
    requires |d.properties| == 0
    ensures forall f :: f != DevPath ==> Get(CreateDeviceProperties(d), f).None?
    ensures CreateDeviceProperties(d).devPath == d.devpath
  {
  }

  /** Changing one property of the device changes only the field that key
      feeds; every other field, and the devpath, stay as they were. */
  lemma {:induction false} OnePropertyOneField(d: Device, key: string, value: string, f: Field)
    ensures var d' := Device(d.devpath, WithProperty(d.properties, key, value));
      Get(CreateDeviceProperties(d'), f)
        == if f != DevPath && PropertyKey(f) == key then Some(value)
           else Get(CreateDeviceProperties(d), f)
  {
    if f != DevPath {
      WithPropertyFrame(d.properties, key, value, PropertyKey(f));
    }
  }

  /** Entry `i` is the last entry of `props` named `key`. */
  predicate IsLastWith(props: seq<Property>, key: string, i: int)
  {
    0 <= i < |props| && props[i].name == key && forall j :: i < j < |props| ==> props[j].name != key
  }

  /** The facts `Collect` promises, as a predicate on a list and a mapping. */
  ghost predicate CollectedFrom(props: seq<Property>, m: map<string, string>)
  {
    && m.Keys == (set i | 0 <= i < |props| :: props[i].name)
    && forall k :: k in m ==> exists i :: IsLastWith(props, k, i) && props[i].value == m[k]
  }

  /** Inserting the last entry into what the other entries collected gives
      what the whole list collects. */
  lemma CollectStep(props: seq<Property>, prev: map<string, string>)
    requires |props| > 0 && CollectedFrom(props[..|props| - 1], prev)
    ensures CollectedFrom(props, prev[props[|props| - 1].name := props[|props| - 1].value])
  {
    var init := props[..|props| - 1];
    var last := props[|props| - 1];
    var m := prev[last.name := last.value];
    forall k | k in m.Keys ensures k in set i | 0 <= i < |props| :: props[i].name {
      if k != last.name {
        var i :| 0 <= i < |props| - 1 && init[i].name == k;
        assert props[i].name == k;
      }
    }
    forall i | 0 <= i < |props| ensures props[i].name in m.Keys {
      if i < |props| - 1 { assert init[i].name == props[i].name; }
    }
    forall k | k in m ensures exists i :: IsLastWith(props, k, i) && props[i].value == m[k] {
      if k == last.name {
        assert IsLastWith(props, k, |props| - 1);
      } else {
        var i :| IsLastWith(init, k, i) && init[i].value == prev[k];
        assert props[i] == init[i];
        forall j | i < j < |props| ensures props[j].name != k {
          if j < |props| - 1 { assert props[j] == init[j]; }
        }
        assert IsLastWith(props, k, i);
      }
    }
  }

  /** The mapping a full walk of the property list collects: every entry is
      inserted in list order, a later entry overwriting an earlier one. */
  function Collect(props: seq<Property>): (m: map<string, string>)
    ensures m.Keys == set i | 0 <= i < |props| :: props[i].name
    ensures forall k :: k in m ==> exists i :: IsLastWith(props, k, i) && props[i].value == m[k]
  {
    if |props| == 0 then map[]
    else
      var prev := Collect(props[..|props| - 1]);
      CollectStep(props, prev);
      prev[props[|props| - 1].name := props[|props| - 1].value]
  }

  /** The value a mapping holds under `key`, or `None`. */
  function MapLookup(m: map<string, string>, key: string): Option<string>
  {
    if key in m then Some(m[key]) else None
  }

  /** The record projected from a collected mapping instead of by direct
      lookups. */
  function ProjectFromMap(devPath: string, m: map<string, string>): (r: DeviceProperties)
    ensures r.devPath == devPath
    ensures forall f :: f != DevPath ==> (Get(r, f).Some? <==> PropertyKey(f) in m)
    ensures forall f :: f != DevPath && PropertyKey(f) in m ==> Get(r, f) == Some(m[PropertyKey(f)])
  {
    DeviceProperties(MapLookup(m, "ACTION"), devPath, MapLookup(m, "SUBSYSTEM"), MapLookup(m, "DEVTYPE"),
      MapLookup(m, "DRIVER"), MapLookup(m, "ID_BUS"), MapLookup(m, "ID_MODEL"), MapLookup(m, "ID_MODEL_ID"),
      MapLookup(m, "ID_REVISION"), MapLookup(m, "ID_SERIAL"), MapLookup(m, "ID_SERIAL_SHORT"),
      MapLookup(m, "ID_TYPE"), MapLookup(m, "ID_VENDOR"), MapLookup(m, "ID_VENDOR_ID"))
  }

  /** On a keyed property list, the direct lookup of an entry's name finds
      that entry. */
  lemma LookupOfUniqueEntry(props: seq<Property>, i: nat)
    requires UniqueNames(props) && i < |props|
    ensures PropertyValue(props, props[i].name) == Some(props[i].value)
  {
    var key := props[i].name;
    var j :| 0 <= j < |props| && props[j] == Property(key, PropertyValue(props, key).value);
    assert j == i;
  }

  /** On a keyed property list, the collected mapping holds each entry's
      value under its name. */
  lemma {:induction false} CollectOfUniqueEntry(props: seq<Property>, i: nat)
    requires UniqueNames(props) && i < |props|
    ensures props[i].name in Collect(props) && Collect(props)[props[i].name] == props[i].value
    decreases |props|
  {
    if i < |props| - 1 {
      var init := props[..|props| - 1];
      assert init[i] == props[i];
      assert props[|props| - 1].name != props[i].name;
      CollectOfUniqueEntry(init, i);
    }
  }

  /** On a keyed property list, the collected mapping answers every key
      exactly as the direct lookup does. */
  lemma CollectAgreesWithLookup(props: seq<Property>, key: string)
    requires UniqueNames(props)
    ensures key in Collect(props) <==> HasProperty(props, key)
    ensures key in Collect(props) ==> PropertyValue(props, key) == Some(Collect(props)[key])
  {
    if key in Collect(props) {
      var i :| 0 <= i < |props| && props[i].name == key;
      LookupOfUniqueEntry(props, i);
      CollectOfUniqueEntry(props, i);
    }
  }

  /** Two records that agree on every getter are the same record. */
  lemma GettersDetermineRecord(a: DeviceProperties, b: DeviceProperties)
    requires forall f :: Get(a, f) == Get(b, f)
    ensures a == b
  {
    assert Get(a, Action) == Get(b, Action);
    assert Get(a, DevPath) == Get(b, DevPath);
    assert Get(a, Subsystem) == Get(b, Subsystem);
    assert Get(a, DevType) == Get(b, DevType);
    assert Get(a, Driver) == Get(b, Driver);
    assert Get(a, IdBus) == Get(b, IdBus);
    assert Get(a, IdModel) == Get(b, IdModel);
    assert Get(a, IdModelId) == Get(b, IdModelId);
    assert Get(a, IdRevision) == Get(b, IdRevision);
    assert Get(a, IdSerial) == Get(b, IdSerial);
    assert Get(a, IdSerialShort) == Get(b, IdSerialShort);
    assert Get(a, IdType) == Get(b, IdType);
    assert Get(a, IdVendor) == Get(b, IdVendor);
    assert Get(a, IdVendorId) == Get(b, IdVendorId);
  }

  /** One field of the projected record agrees with the direct lookup. */
  lemma AgreeOn(d: Device, f: Field)
    requires UniqueNames(d.properties)
    ensures Get(ProjectFromMap(d.devpath, Collect(d.properties)), f) == Get(CreateDeviceProperties(d), f)
  {
    if f != DevPath {
      CollectAgreesWithLookup(d.properties, PropertyKey(f));
    }
  }

  /** Both extraction strategies agree: walking the list into a mapping and
      projecting it gives the record `createDeviceProperties` builds. */
  lemma WalkAndLookupAgree(d: Device)
    requires UniqueNames(d.properties)
    ensures ProjectFromMap(d.devpath, Collect(d.properties)) == CreateDeviceProperties(d)
  {
    var r := ProjectFromMap(d.devpath, Collect(d.properties));
    var c := CreateDeviceProperties(d);
    forall f ensures Get(r, f) == Get(c, f) {
      AgreeOn(d, f);
    }
    GettersDetermineRecord(r, c);
  }
}
