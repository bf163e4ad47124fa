/** The kept part of a sweep is canonical. */
module DiscoveryLaws {
  import opened Wrappers
  import opened Text
  import opened Splitting
  import opened Sorting
  import opened Addresses
  import opened Cutting
  import opened Discovery

  // ----- Ports ---------------------------------------------------------------

  ghost predicate Increasing(s: seq<nat>) {
    forall i, j :: 0 <= i < j < |s| ==> s[i] < s[j]
  }

  /** The known ones of the device's ports, ascending, each once. */
  lemma PortsAre(ports: seq<nat>)
    ensures Increasing(TidiedPorts(ports))
    ensures forall p: nat :: p in TidiedPorts(ports) <==> p in ports && p in PORTS
  {
    hide Dedup, Sort, Retain, PORTS;
    var known := Retain(port => port in PORTS, ports);
    var sorted := Sort(AtMost, known);
    SortSorts(AtMost, known);
    DedupOfSorted(AtMost, sorted);
    hide TotalPreorder, Sorted;
    assert forall i, j :: 0 <= i < j < |TidiedPorts(ports)| ==>
             && AtMost(TidiedPorts(ports)[i], TidiedPorts(ports)[j])
             && !AtMost(TidiedPorts(ports)[j], TidiedPorts(ports)[i]);
    forall p: nat ensures p in TidiedPorts(ports) <==> p in ports && p in PORTS {
      RetainIs(port => port in PORTS, ports, p);
      PortsOf(known, p);
    }
  }

  lemma PortsOf(known: seq<nat>, p: nat)
    ensures p in Dedup(Same(AtMost), Sort(AtMost, known)) <==> p in known
  {
    hide Dedup, Sort;
    var sorted := Sort(AtMost, known);
    SortKeeps(AtMost, known);
    assert p in known <==> p in multiset(known);
    assert p in sorted <==> p in multiset(sorted);
    DedupWithin(Same(AtMost), sorted);
    if p in sorted {
      DedupKeepsRanks(AtMost, sorted, p);
      var d :| d in Dedup(Same(AtMost), sorted) && SameRank(AtMost, d, p);
      assert d == p;
    }
  }

  lemma PortsTwice(ports: seq<nat>)
    ensures TidiedPorts(TidiedPorts(ports)) == TidiedPorts(ports)
  {
    var tidy := TidiedPorts(ports);
    PortsAre(ports);
    hide TidiedPorts, PORTS;
    PortsStay(tidy);
  }

  lemma PortsStay(ports: seq<nat>)
    requires Increasing(ports) && forall p :: p in ports ==> p in PORTS
    ensures TidiedPorts(ports) == ports
  {
    hide Dedup, Sort, Retain, PORTS;
    RetainAll(port => port in PORTS, ports);
    assert Ascending(AtMost, ports);
    assert Sorted(AtMost, ports);
    SortOfSorted(AtMost, ports);
    DedupOfAscending(AtMost, ports);
  }

  // ----- One device ----------------------------------------------------------

  /** A device that is kept has its address as it is printed; a name, if any, that
      isn't blank and of at most 200 characters; a hardware address, if any, in
      its one form; known ports, ascending. Tidied again it stays. */
  lemma TidiedIs(address: nat, device: Device)
    requires address < 0x1_0000_0000
    ensures
      var tidy := Tidied(address, device);
      && ParseAddress(tidy.address) == Some(address)
      && (tidy.name.Some? ==> |tidy.name.value| <= MAX_TEXT_CHARS && Trim(tidy.name.value) != "")
      && (tidy.mac.Some? ==> Mac(tidy.mac.value) == tidy.mac)
      && Increasing(tidy.ports) && (forall p :: p in tidy.ports <==> p in device.ports && p in PORTS)
      && Tidied(address, tidy) == tidy
  {
    hide Trim, Mac, TidiedPorts, PORTS, ParseAddress, ShowAddress;
    AddressParses(address);
    PortsAre(device.ports);
    PortsTwice(device.ports);
    if device.mac.Some? && Mac(device.mac.value).Some? {
      MacIsCanonical(device.mac.value);
    }
  }

  // ----- The devices ---------------------------------------------------------

  /** `device` is the first of `devices` at its address. */
  ghost predicate FirstAt(devices: seq<Device>, address: nat, device: Device) {
    exists k: nat :: IsFirstAt(devices, address, device, k)
  }

  ghost predicate IsFirstAt(devices: seq<Device>, address: nat, device: Device, k: nat) {
    && k < |devices| && devices[k] == device && ParseAddress(device.address) == Some(address)
    && forall j :: 0 <= j < k ==> ParseAddress(devices[j].address) != Some(address)
  }

  /** The first parsed device of an address is the first device with it. */
  lemma {:induction false} FirstParsed(devices: seq<Device>, x: Found)
    requires OfRank(ByAddress, x, Parsed(devices)) != []
    ensures FirstAt(devices, x.0, OfRank(ByAddress, x, Parsed(devices))[0].1)
    ensures OfRank(ByAddress, x, Parsed(devices))[0].0 == x.0
  {
    hide ParseAddress;
    if devices != [] {
      var rest := Parsed(devices[1..]);
      var parsed := ParseAddress(devices[0].address);
      if parsed.Some? {
        RankFirst(ByAddress, x, (parsed.value, devices[0]), rest);
      }
      if parsed == Some(x.0) {
        assert IsFirstAt(devices, x.0, devices[0], 0);
      } else {
        FirstParsed(devices[1..], x);
        var device := OfRank(ByAddress, x, rest)[0].1;
        hide OfRank;
        var k: nat :| IsFirstAt(devices[1..], x.0, device, k);
        LaterFirst(devices, x.0, device, k);
      }
    }
  }

  lemma LaterFirst(devices: seq<Device>, address: nat, device: Device, k: nat)
    requires devices != [] && ParseAddress(devices[0].address) != Some(address)
    requires IsFirstAt(devices[1..], address, device, k)
    ensures FirstAt(devices, address, device)
  {
    hide ParseAddress;
    forall j | 0 <= j < k + 1 ensures ParseAddress(devices[j].address) != Some(address) {
      assert j > 0 ==> devices[j] == devices[1..][j - 1];
    }
    assert IsFirstAt(devices, address, device, k + 1);
  }

  lemma {:induction false} ParsedHas(devices: seq<Device>, k: nat)
    requires k < |devices| && ParseAddress(devices[k].address).Some?
    ensures (ParseAddress(devices[k].address).value, devices[k]) in Parsed(devices)
  {
    hide ParseAddress;
    if k > 0 {
      ParsedHas(devices[1..], k - 1);
    }
  }

  ghost predicate AscendingAddresses(found: seq<Found>) {
    forall i, j :: 0 <= i < j < |found| ==> found[i].0 < found[j].0
  }

  function Distinct(devices: seq<Device>): seq<Found> {
    Dedup(Same(ByAddress), Sort(ByAddress, Parsed(devices)))
  }

  /** The sorted devices, one of each address. */
  lemma DistinctAre(devices: seq<Device>)
    ensures AscendingAddresses(Distinct(devices))
    ensures forall x :: x in Distinct(devices) ==> FirstAt(devices, x.0, x.1)
    ensures forall k :: 0 <= k < |devices| && ParseAddress(devices[k].address).Some? ==>
              exists x :: x in Distinct(devices) && x.0 == ParseAddress(devices[k].address).value
  {
    hide ParseAddress, Dedup, Sort, Parsed, FirstAt;
    var found := Parsed(devices);
    var sorted := Sort(ByAddress, found);
    SortSorts(ByAddress, found);
    SortKeeps(ByAddress, found);
    DedupOfSorted(ByAddress, sorted);
    forall x | x in Distinct(devices) ensures FirstAt(devices, x.0, x.1) {
      DedupKeepsFirst(ByAddress, sorted, x);
      SortIsStable(ByAddress, x, found);
      FirstParsed(devices, x);
    }
    forall k | 0 <= k < |devices| && ParseAddress(devices[k].address).Some?
      ensures exists x :: x in Distinct(devices) && x.0 == ParseAddress(devices[k].address).value
    {
      var x := (ParseAddress(devices[k].address).value, devices[k]);
      ParsedHas(devices, k);
      assert x in multiset(sorted);
      DedupKeepsRanks(ByAddress, sorted, x);
    }
  }

  /** The kept devices: their addresses ascend; each is the first that was sent
      with its address, tidied; they are the lowest addresses there were, and one
      is left out only when the sweep is full. */
  lemma BoundedDevicesAre(devices: seq<Device>)
    ensures
      var kept, out := Kept(devices), BoundedDevices(devices);
      && |out| == |kept| <= MAX_DEVICES && AscendingAddresses(kept)
      && (forall i :: 0 <= i < |kept| ==>
            && kept[i].0 < 0x1_0000_0000 && FirstAt(devices, kept[i].0, kept[i].1)
            && out[i] == Tidied(kept[i].0, kept[i].1))
      && (forall k :: 0 <= k < |devices| && ParseAddress(devices[k].address).Some? ==>
            Covered(kept, ParseAddress(devices[k].address).value))
  {
    var all, kept := Distinct(devices), Kept(devices);
    DistinctAre(devices);
    KeptAreParsed(devices);
    KeptIs(devices);
    hide ParseAddress, Tidied, FirstAt, Distinct, Dedup, Sort, Parsed, Kept, BoundedDevices;
    assert forall i :: 0 <= i < |kept| ==> kept[i] == all[i] && kept[i] in all;
    forall k | 0 <= k < |devices| && ParseAddress(devices[k].address).Some?
      ensures Covered(kept, ParseAddress(devices[k].address).value)
    {
      var x :| x in all && x.0 == ParseAddress(devices[k].address).value;
      var i :| 0 <= i < |all| && all[i] == x;
    }
  }

  lemma KeptIs(devices: seq<Device>)
    ensures Kept(devices) == Truncate(Distinct(devices), MAX_DEVICES)
  {
  }

  /** Some kept device has the address, or there are as many as are kept, all
      below it. */
  ghost predicate Covered(kept: seq<Found>, address: nat) {
    || (exists i :: 0 <= i < |kept| && kept[i].0 == address)
    || (|kept| == MAX_DEVICES && forall i :: 0 <= i < |kept| ==> kept[i].0 < address)
  }

  // ----- Once more -----------------------------------------------------------

  /** Tidied devices with ascending addresses stay. */
  lemma {:induction false} ParsedOfTidy(found: seq<Found>, devices: seq<Device>)
    requires |found| == |devices|
    requires forall i :: 0 <= i < |devices| ==> ParseAddress(devices[i].address) == Some(found[i].0)
    ensures |Parsed(devices)| == |devices|
    ensures forall i :: 0 <= i < |devices| ==> Parsed(devices)[i] == (found[i].0, devices[i])
  {
    hide ParseAddress;
    if devices != [] {
      ParsedOfTidy(found[1..], devices[1..]);
    }
  }

  lemma KeptOfTidy(found: seq<Found>)
    requires AscendingAddresses(found) && |found| <= MAX_DEVICES
    ensures Truncate(Dedup(Same(ByAddress), Sort(ByAddress, found)), MAX_DEVICES) == found
  {
    assert Ascending(ByAddress, found);
    assert Sorted(ByAddress, found);
    SortOfSorted(ByAddress, found);
    DedupOfAscending(ByAddress, found);
  }

  lemma DevicesTwice(devices: seq<Device>)
    ensures BoundedDevices(BoundedDevices(devices)) == BoundedDevices(devices)
  {
    var kept, out := Kept(devices), BoundedDevices(devices);
    BoundedDevicesAre(devices);
    hide Tidied, Dedup, Sort, Parsed, FirstAt, Covered, ParseAddress;
    forall i | 0 <= i < |out|
      ensures ParseAddress(out[i].address) == Some(kept[i].0) && Tidied(kept[i].0, out[i]) == out[i]
    {
      TidiedIs(kept[i].0, kept[i].1);
    }
    ParsedOfTidy(kept, out);
    KeptOfTidy(Parsed(out));
    assert BoundedDevices(out) == out;
  }

  /** A bounded sweep stays as it is. */
  lemma BoundedTwice(c: Content)
    ensures Bounded(Bounded(c)) == Bounded(c)
  {
    DevicesTwice(c.devices);
    hide BoundedDevices;
    var networks := CutAll(Truncate(c.networks, MAX_NETWORKS));
    assert Truncate(networks, MAX_NETWORKS) == networks;
    assert CutAll(networks) == networks;
  }

  // ----- What stays ----------------------------------------------------------

  /** The first 200 characters. */
  function Start(text: string): string {
    if |text| <= 200 then text else text[..200]
  }

  /** A name is kept as its first 200 characters exactly when these aren't all white
      space. */
  lemma NameIsKept(address: nat, device: Device)
    requires address < 0x1_0000_0000
    ensures Tidied(address, device).name ==
              match device.name
              case None => None
              case Some(name) => if AllWhitespace(Start(name)) then None else Some(Start(name))
  {
    hide Trim, Mac, TidiedPorts, ShowAddress;
    if device.name.Some? {
      assert Cut(device.name.value) == Start(device.name.value);
      BlankExactly(Start(device.name.value));
    }
  }

  lemma BlankExactly(text: string)
    ensures Trim(text) == "" <==> AllWhitespace(text)
  {
    if AllWhitespace(text) {
      TrimBlank(text);
    } else {
      var i :| 0 <= i < |text| && !IsWhitespace(text[i]);
      NotBlank(text, i);
    }
  }

  lemma {:induction false} NotBlank(text: string, i: nat)
    requires i < |text| && !IsWhitespace(text[i])
    ensures Trim(text) != ""
  {
    if IsWhitespace(text[0]) {
      NotBlank(text[1..], i - 1);
    } else {
      TrimEndKeeps(text, i);
    }
  }

  /** Whether a device answered a ping stays as it was sent, and so do its hardware
      address, in its one form, and its printed address. */
  lemma RestOfDevice(address: nat, device: Device)
    requires address < 0x1_0000_0000
    ensures var tidy := Tidied(address, device);
            && tidy.pinged == device.pinged && tidy.address == ShowAddress(address)
            && tidy.mac == match device.mac case None => None case Some(text) => Mac(text)
  {
  }

  /** The times and the number of addresses that were tried stay; of the networks the
      first 16 are kept, and of them and of the note the first 200 characters. */
  lemma RestOfSweep(c: Content)
    ensures
      var bounded := Bounded(c);
      && bounded.startedAt == c.startedAt && bounded.finishedAt == c.finishedAt && bounded.scanned == c.scanned
      && |bounded.networks| == (if |c.networks| <= 16 then |c.networks| else 16)
      && (forall i :: 0 <= i < |bounded.networks| ==> bounded.networks[i] == Start(c.networks[i]))
      && bounded.note == match c.note case None => None case Some(text) => Some(Start(text))
  {
    hide BoundedDevices;
  }

  /** The ports a sweep tries. */
  lemma KnownPorts(port: nat)
    ensures port in PORTS <==>
              || port in {21, 22, 23, 25, 53, 80, 139, 143, 389, 443, 445, 515, 631} // up to 1023
              || port in {1433, 3306, 3389, 5000, 5432, 5900, 8080, 8443, 9100}
  {
  }
}
