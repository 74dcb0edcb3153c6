/** The property-list walk of the udev example program: start at the
    device's first list entry, print `name=value` for each entry, and follow
    `udev_list_entry_get_next` until it returns null. */
module PropertyWalk {
  import opened Wrappers
  import opened Udev

  /** The line printed for one entry: Java `name + "=" + value`. */
  function EntryLine(p: Property): string
  {
    p.name + "=" + p.value
  }

  /** The lines a walk produces, one per entry in list order. */
  function Render(props: seq<Property>): (lines: seq<string>)
    ensures |lines| == |props|
    ensures forall i :: 0 <= i < |props| ==> lines[i] == EntryLine(props[i])
  {
    if |props| == 0 then [] else [EntryLine(props[0])] + Render(props[1..])
  }

  /** The `while (entry != null)` loop over the device's property list.
      `visited` records the position of each entry the loop body handled:
      every entry exactly once, in list order, so the loop runs as many
      times as the list is long, and not at all when the first entry is
      null. */
  method WalkProperties(d: Device) returns (lines: seq<string>, visited: seq<nat>)
    ensures |visited| == |d.properties|
    ensures forall k :: 0 <= k < |visited| ==> visited[k] == k
    ensures lines == Render(d.properties)
  {
    var entry := FirstEntry(d);
    lines := [];
    visited := [];
    while entry.Some?
      invariant |visited| <= |d.properties|
      invariant entry.Some? ==> entry.value == |visited| < |d.properties|
      invariant entry.None? ==> |visited| == |d.properties|
      invariant forall k :: 0 <= k < |visited| ==> visited[k] == k
      invariant |lines| == |visited|
      invariant forall k :: 0 <= k < |lines| ==> lines[k] == EntryLine(d.properties[k])
      decreases |d.properties| - |visited|
    {
      var e := entry.value;
      var name := d.properties[e].name;
      var value := d.properties[e].value;
      lines := lines + [name + "=" + value];
      visited := visited + [e];
      entry := NextEntry(d, e);
    }
  }
}
