/** What the hub keeps of a sweep (`Discovery::bounded` in
    `common/src/discovery.rs`). */
module Discovery {
  import opened Wrappers
  import opened Text
  import opened Sorting
  import opened Addresses
  import opened Cutting

  const MAX_DEVICES: nat := 1024
  const MAX_NETWORKS: nat := 16

  /** The ports a sweep tries. */
  const PORTS: seq<nat> := [21, 22, 23, 25, 53, 80, 139, 143, 389, 443, 445, 515, 631, 1433, 3306, 3389, 5000, 5432,
                            5900, 8080, 8443, 9100]

  datatype Device = Device(address: string, name: Option<string>, mac: Option<string>, pinged: bool,
                           ports: seq<nat>)

  /** A sweep as a value: what it holds, for the specification. */
  datatype Content = Content(startedAt: int, finishedAt: int, networks: seq<string>, scanned: nat,
                             devices: seq<Device>, note: Option<string>)

  // ----- One device ----------------------------------------------------------

  function CutOption(text: Option<string>): Option<string> {
    match text
    case None => None
    case Some(t) => Some(Cut(t))
  }

  function Tidied(address: nat, device: Device): Device
    requires address < 0x1_0000_0000
  {
    device.(address := ShowAddress(address),
            name := TidiedName(device.name),
            mac := match device.mac case None => None case Some(m) => Mac(m),
            ports := TidiedPorts(device.ports))
  }

  /** A name of white space is none. */
  function TidiedName(name: Option<string>): Option<string> {
    match CutOption(name)
    case None => None
    case Some(n) => if Trim(n) == "" then None else Some(n)
  }

  predicate AtMost(a: nat, b: nat) {
    a <= b
  }

  function TidiedPorts(ports: seq<nat>): seq<nat> {
    Dedup(Same(AtMost), Sort(AtMost, Retain(port => port in PORTS, ports)))
  }

  // ----- The devices ---------------------------------------------------------

  type Found = (nat, Device)

  /** The devices whose address is one, with it. */
  function Parsed(devices: seq<Device>): (r: seq<Found>)
    ensures forall i :: 0 <= i < |r| ==> r[i].0 < 0x1_0000_0000
  {
    if devices == [] then []
    else
      match ParseAddress(devices[0].address)
      case None => Parsed(devices[1..])
      case Some(a) => [(a, devices[0])] + Parsed(devices[1..])
  }

  predicate ByAddress(a: Found, b: Found) {
    a.0 <= b.0
  }

  /** Sorted by address, one of each, at most as many as are kept. */
  function Kept(devices: seq<Device>): seq<Found> {
    Truncate(Dedup(Same(ByAddress), Sort(ByAddress, Parsed(devices))), MAX_DEVICES)
  }

  lemma KeptAreParsed(devices: seq<Device>)
    ensures forall x :: x in Kept(devices) ==> x in Parsed(devices) && x.0 < 0x1_0000_0000
  {
    var found := Parsed(devices);
    SortKeeps(ByAddress, found);
    DedupWithin(Same(ByAddress), Sort(ByAddress, found));
    forall x | x in Kept(devices) ensures x in found && x.0 < 0x1_0000_0000 {
      assert x in Dedup(Same(ByAddress), Sort(ByAddress, found));
      assert x in Sort(ByAddress, found);
      assert x in multiset(Sort(ByAddress, found));
      var i :| 0 <= i < |found| && found[i] == x;
    }
  }

  function BoundedDevices(devices: seq<Device>): (r: seq<Device>)
    ensures |r| == |Kept(devices)|
    ensures forall i :: 0 <= i < |r| ==>
              (Kept(devices)[i].0 < 0x1_0000_0000 && r[i] == Tidied(Kept(devices)[i].0, Kept(devices)[i].1))
  {
    KeptAreParsed(devices);
    var kept := Kept(devices);
    seq(|kept|, i requires 0 <= i < |kept| => Tidied(kept[i].0, kept[i].1))
  }

  /** What `bounded` makes of a sweep. */
  function Bounded(c: Content): Content {
    c.(networks := CutAll(Truncate(c.networks, MAX_NETWORKS)),
       note := CutOption(c.note),
       devices := BoundedDevices(c.devices))
  }

  // ----- The source ----------------------------------------------------------

  /** What the closure at the end of `bounded` does to one device. */
  method Tidy(address: nat, found: Device) returns (device: Device)
    requires address < 0x1_0000_0000
    ensures device == Tidied(address, found)
  {
    hide Trim, Dedup, Sort, Retain, Mac, ShowAddress;
    device := found.(address := ShowAddress(address));
    device := device.(name := CutOption(device.name));
    if device.name.Some? && Trim(device.name.value) == "" {
      device := device.(name := None);
    }
    device := device.(mac := if device.mac.Some? then Mac(device.mac.value) else None);
    device := device.(ports := Retain(port => port in PORTS, device.ports));
    device := device.(ports := Sort(AtMost, device.ports));
    device := device.(ports := Dedup(Same(AtMost), device.ports));
  }

  class Discovery {
    var startedAt: int
    var finishedAt: int
    var networks: seq<string>
    var scanned: nat
    var devices: seq<Device>
    var note: Option<string>

    function Contents(): Content
      reads this
    {
      Content(startedAt, finishedAt, networks, scanned, devices, note)
    }

    constructor (c: Content)
      ensures Contents() == c
    {
      startedAt, finishedAt, networks, scanned, devices, note :=
        c.startedAt, c.finishedAt, c.networks, c.scanned, c.devices, c.note;
    }

    /** `bounded`. */
    method Bound()
      modifies this
      ensures Contents() == Bounded(old(Contents()))
    {
      hide Dedup, Sort, Parsed, Tidied;
      networks := Truncate(networks, MAX_NETWORKS);
      networks := CutAll(networks);
      if note.Some? {
        note := Some(Cut(note.value));
      }
      var found := Parsed(devices);
      found := Sort(ByAddress, found);
      found := Dedup(Same(ByAddress), found);
      found := Truncate(found, MAX_DEVICES);
      KeptAreParsed(devices);
      var kept := [];
      for i := 0 to |found|
        invariant networks == CutAll(Truncate(old(networks), MAX_NETWORKS)) && note == CutOption(old(note))
        invariant startedAt == old(startedAt) && finishedAt == old(finishedAt) && scanned == old(scanned)
        invariant devices == old(devices)
        invariant |kept| == i
        invariant forall k :: 0 <= k < i ==> kept[k] == BoundedDevices(devices)[k]
      {
        var device := Tidy(found[i].0, found[i].1);
        kept := kept + [device];
      }
      assert kept == BoundedDevices(devices);
      devices := kept;
    }
  }
}
