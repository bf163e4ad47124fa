/** What is kept of a machine's inventory (`Inventory::bounded` in
    `common/src/inventory.rs`). `str::to_lowercase` is any function `lower`, and
    reading an IP address any predicate `isAddress`. */
module Inventory {
  import opened Wrappers
  import opened Text
  import opened Orders
  import opened Sorting
  import opened Cutting

  const MAX_VOLUMES: nat := 64
  const MAX_SERVICES: nat := 1000
  const MAX_INTERFACES: nat := 64
  const MAX_ADDRESSES: nat := 16

  datatype Os = Os(family: int, name: string, version: string, arch: string)
  datatype Volume = Volume(mount: string, fileSystem: string, totalMb: nat)
  datatype Service = Service(name: string, shown: Option<string>)
  datatype Interface = Interface(name: string, addresses: seq<string>)

  /** An inventory as a value. */
  datatype Content = Content(os: Os, volumes: seq<Volume>, services: seq<Service>, interfaces: seq<Interface>,
                             gateway: Option<string>)

  type Lower = string -> string

  predicate AtMost(a: string, b: string) {
    CompareTexts(a, b) != Greater
  }

  // ----- The specification ---------------------------------------------------

  function CutOs(os: Os): Os {
    Os(os.family, Cut(os.name), Cut(os.version), Cut(os.arch))
  }

  predicate ByMount(a: Volume, b: Volume) {
    AtMost(a.mount, b.mount)
  }

  predicate SameMount(a: Volume, b: Volume) {
    a.mount == b.mount
  }

  function CutVolume(v: Volume): Volume {
    v.(mount := Cut(v.mount), fileSystem := Cut(v.fileSystem))
  }

  function CutVolumes(volumes: seq<Volume>): (r: seq<Volume>)
    ensures |r| == |volumes|
    ensures forall i :: 0 <= i < |r| ==> r[i] == CutVolume(volumes[i])
  {
    seq(|volumes|, i requires 0 <= i < |volumes| => CutVolume(volumes[i]))
  }

  function KeptVolumes(volumes: seq<Volume>): seq<Volume> {
    Truncate(Dedup(SameMount, Sort(ByMount, volumes)), MAX_VOLUMES)
  }

  function BoundedVolumes(volumes: seq<Volume>): seq<Volume> {
    CutVolumes(KeptVolumes(volumes))
  }

  predicate Named(s: Service) {
    Trim(s.name) != ""
  }

  /** The order of the lower-cased names. */
  function ByLower(lower: Lower): (Service, Service) -> bool {
    (a: Service, b: Service) => AtMost(lower(a.name), lower(b.name))
  }

  predicate SameName(a: Service, b: Service) {
    a.name == b.name
  }

  function CutService(s: Service): Service {
    Service(Cut(s.name), match s.shown case None => None case Some(t) => Some(Cut(t)))
  }

  function CutServices(services: seq<Service>): (r: seq<Service>)
    ensures |r| == |services|
    ensures forall i :: 0 <= i < |r| ==> r[i] == CutService(services[i])
  {
    seq(|services|, i requires 0 <= i < |services| => CutService(services[i]))
  }

  function KeptServices(services: seq<Service>, lower: Lower): seq<Service> {
    Truncate(Dedup(SameName, Sort(ByLower(lower), Retain(Named, services))), MAX_SERVICES)
  }

  function BoundedServices(services: seq<Service>, lower: Lower): seq<Service> {
    CutServices(KeptServices(services, lower))
  }

  predicate ByName(a: Interface, b: Interface) {
    AtMost(a.name, b.name)
  }

  function BoundedAddresses(addresses: seq<string>): seq<string> {
    CutAll(Truncate(Dedup(Same(AtMost), Sort(AtMost, addresses)), MAX_ADDRESSES))
  }

  function CutInterface(i: Interface): Interface {
    Interface(Cut(i.name), BoundedAddresses(i.addresses))
  }

  function CutInterfaces(interfaces: seq<Interface>): (r: seq<Interface>)
    ensures |r| == |interfaces|
    ensures forall i :: 0 <= i < |r| ==> r[i] == CutInterface(interfaces[i])
  {
    seq(|interfaces|, i requires 0 <= i < |interfaces| => CutInterface(interfaces[i]))
  }

  function BoundedInterfaces(interfaces: seq<Interface>): seq<Interface> {
    CutInterfaces(Truncate(Sort(ByName, interfaces), MAX_INTERFACES))
  }

  /** What `bounded` makes of an inventory. */
  function Bounded(c: Content, lower: Lower, isAddress: string -> bool): Content {
    Content(CutOs(c.os), BoundedVolumes(c.volumes), BoundedServices(c.services, lower), BoundedInterfaces(c.interfaces),
            if c.gateway.Some? && isAddress(c.gateway.value) then c.gateway else None)
  }

  // ----- The source ----------------------------------------------------------

  class Inventory {
    var os: Os
    var volumes: seq<Volume>
    var services: seq<Service>
    var interfaces: seq<Interface>
    var gateway: Option<string>

    function Contents(): Content
      reads this
    {
      Content(os, volumes, services, interfaces, gateway)
    }

    constructor (c: Content)
      ensures Contents() == c
    {
      os, volumes, services, interfaces, gateway := c.os, c.volumes, c.services, c.interfaces, c.gateway;
    }

    /** `bounded`. */
    method Bound(lower: Lower, isAddress: string -> bool)
      modifies this
      ensures Contents() == Bounded(old(Contents()), lower, isAddress)
    {
      hide Sort, Dedup, Retain, Cut;
      os := os.(name := Cut(os.name));
      os := os.(version := Cut(os.version));
      os := os.(arch := Cut(os.arch));
      BoundVolumes();
      BoundServices(lower);
      BoundInterfaces();
      if gateway.Some? && !isAddress(gateway.value) {
        gateway := None;
      }
    }

    method BoundVolumes()
      modifies this`volumes
      ensures volumes == BoundedVolumes(old(volumes))
    {
      hide Sort, Dedup, Cut;
      volumes := Sort(ByMount, volumes);
      volumes := Dedup(SameMount, volumes);
      volumes := Truncate(volumes, MAX_VOLUMES);
      ghost var kept := volumes;
      for i := 0 to |volumes|
        invariant |volumes| == |kept|
        invariant forall k :: 0 <= k < i ==> volumes[k] == CutVolume(kept[k])
        invariant forall k :: i <= k < |kept| ==> volumes[k] == kept[k]
      {
        volumes := volumes[i := volumes[i].(mount := Cut(volumes[i].mount))];
        volumes := volumes[i := volumes[i].(fileSystem := Cut(volumes[i].fileSystem))];
      }
      assert volumes == CutVolumes(kept);
    }

    method BoundServices(lower: Lower)
      modifies this`services
      ensures services == BoundedServices(old(services), lower)
    {
      hide Sort, Dedup, Retain, Cut;
      services := Retain(Named, services);
      services := Sort(ByLower(lower), services);
      services := Dedup(SameName, services);
      services := Truncate(services, MAX_SERVICES);
      ghost var kept := services;
      for i := 0 to |services|
        invariant |services| == |kept|
        invariant forall k :: 0 <= k < i ==> services[k] == CutService(kept[k])
        invariant forall k :: i <= k < |kept| ==> services[k] == kept[k]
      {
        services := services[i := services[i].(name := Cut(services[i].name))];
        if services[i].shown.Some? {
          services := services[i := services[i].(shown := Some(Cut(services[i].shown.value)))];
        }
      }
      assert services == CutServices(kept);
    }

    method BoundInterfaces()
      modifies this`interfaces
      ensures interfaces == BoundedInterfaces(old(interfaces))
    {
      hide Sort, Dedup, Cut;
      interfaces := Sort(ByName, interfaces);
      interfaces := Truncate(interfaces, MAX_INTERFACES);
      ghost var kept := interfaces;
      for i := 0 to |interfaces|
        invariant |interfaces| == |kept|
        invariant forall k :: 0 <= k < i ==> interfaces[k] == CutInterface(kept[k])
        invariant forall k :: i <= k < |kept| ==> interfaces[k] == kept[k]
      {
        var interface := interfaces[i];
        interface := interface.(name := Cut(interface.name));
        interface := interface.(addresses := Sort(AtMost, interface.addresses));
        interface := interface.(addresses := Dedup(Same(AtMost), interface.addresses));
        interface := interface.(addresses := Truncate(interface.addresses, MAX_ADDRESSES));
        interface := interface.(addresses := CutAll(interface.addresses));
        interfaces := interfaces[i := interface];
      }
      assert interfaces == CutInterfaces(kept);
    }
  }
}
