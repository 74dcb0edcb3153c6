/** The native udev library, reduced to the contracts its declarations
    document. A device is an abstract value: its devpath and its property
    list, the singly-linked list that `udev_device_get_properties_list_entry`
    exposes, here a sequence in list order. A list entry is a position in
    that sequence; the null entry is `None`. */
module Udev {
  import opened Wrappers

  /** One node of the native property list: `udev_list_entry_get_name`
      and `udev_list_entry_get_value` of a valid entry. */
  datatype Property = Property(name: string, value: string)

  datatype Device = Device(devpath: string, properties: seq<Property>)

  /** The device carries a property named `key`. */
  predicate HasProperty(props: seq<Property>, key: string)
  {
    exists i :: 0 <= i < |props| && props[i].name == key
  }

  /** libudev keys its property list by name: no name occurs twice. */
  predicate UniqueNames(props: seq<Property>)
  {
    forall i, j :: 0 <= i < j < |props| ==> props[i].name != props[j].name
  }

  /** `udev_device_get_property_value`: the value of the first entry named
      `key`, or null when the device has no such property. */
  function PropertyValue(props: seq<Property>, key: string): (r: Option<string>)
    ensures r.None? <==> !HasProperty(props, key)
    ensures r.Some? ==>
      exists i :: 0 <= i < |props| && props[i] == Property(key, r.value)
        && forall j :: 0 <= j < i ==> props[j].name != key
  {
    if |props| == 0 then None
    else if props[0].name == key then Some(props[0].value)
    else
      var r := PropertyValue(props[1..], key);
      assert HasProperty(props[1..], key) ==> HasProperty(props, key);
      assert HasProperty(props, key) ==> HasProperty(props[1..], key) by {
        if HasProperty(props, key) {
          var i :| 0 <= i < |props| && props[i].name == key;
          assert props[1..][i - 1].name == key;
        }
      }
      if r.Some? then
        var i :| 0 <= i < |props[1..]| && props[1..][i] == Property(key, r.value)
          && forall j :: 0 <= j < i ==> props[1..][j].name != key;
        assert props[i + 1] == Property(key, r.value);
        assert forall j :: 0 <= j < i + 1 ==> props[j].name != key by {
          forall j | 0 <= j < i + 1 ensures props[j].name != key {
            if j > 0 { assert props[j] == props[1..][j - 1]; }
          }
        }
        r
      else r
  }

  /** The device after its property `key` is set to `value`: the first entry
      with that name gets the new value, or a new entry is appended. Used to
      state which record field a single property feeds. */
  function WithProperty(props: seq<Property>, key: string, value: string): (r: seq<Property>)
    ensures |r| == |props| || |r| == |props| + 1
  {
    if |props| == 0 then [Property(key, value)]
    else if props[0].name == key then [Property(key, value)] + props[1..]
    else [props[0]] + WithProperty(props[1..], key, value)
  }

  /** Setting one property changes the lookup of that key only. */
  lemma {:induction false} WithPropertyFrame(props: seq<Property>, key: string, value: string, other: string)
    ensures PropertyValue(WithProperty(props, key, value), other)
         == if other == key then Some(value) else PropertyValue(props, other)
  {
    if |props| == 0 {
    } else if props[0].name == key {
      var r := WithProperty(props, key, value);
      assert r[1..] == props[1..];
    } else {
      var r := WithProperty(props, key, value);
      assert r[1..] == WithProperty(props[1..], key, value);
      WithPropertyFrame(props[1..], key, value, other);
    }
  }

  /** `udev_device_get_properties_list_entry`: the first entry, or null when
      the device has no properties. */
  function FirstEntry(d: Device): (e: Option<nat>)
    ensures e.None? <==> |d.properties| == 0
    ensures e.Some? ==> e.value == 0
  {
    if |d.properties| == 0 then None else Some(0)
  }

  /** `udev_list_entry_get_next`: the following entry, or null after the
      last one. */
  function NextEntry(d: Device, e: nat): (next: Option<nat>)
    requires e < |d.properties|
    ensures next.None? <==> e == |d.properties| - 1
    ensures next.Some? ==> next.value == e + 1
  {
    if e + 1 < |d.properties| then Some(e + 1) else None
  }
}
