/** A kept inventory is canonical. */
module InventoryLaws {
  import opened Wrappers
  import opened Text
  import opened Orders
  import opened Sorting
  import opened Cutting
  import opened Inventory

  // ----- Orders --------------------------------------------------------------

  lemma TextOrder()
    ensures TotalPreorder(AtMost)
    ensures forall a, b :: AtMost(a, b) && AtMost(b, a) <==> a == b
  {
    hide CompareTexts;
    forall a, b ensures AtMost(a, b) || AtMost(b, a) {
      TextsAreOrdered(a, b);
    }
    forall a, b ensures AtMost(a, b) && AtMost(b, a) <==> a == b {
      TextsAreOrdered(a, b);
    }
    forall a, b, c | AtMost(a, b) && AtMost(b, c) ensures AtMost(a, c) {
      TextsAreTransitive(a, b, c);
    }
  }

  /** Orders by a text of each element. */
  lemma ElementOrders(lower: Lower)
    ensures TotalPreorder(ByMount) && TotalPreorder(ByName) && TotalPreorder(ByLower(lower))
  {
    TextOrder();
    hide AtMost;
    OrderByText(ByMount, (v: Volume) => v.mount);
    OrderByText(ByName, (i: Interface) => i.name);
    OrderByText(ByLower(lower), (s: Service) => lower(s.name));
  }

  lemma OrderByText<T(!new)>(leq: (T, T) -> bool, text: T -> string)
    requires TotalPreorder(AtMost)
    requires forall a, b :: leq(a, b) == AtMost(text(a), text(b))
    ensures TotalPreorder(leq)
  {
    hide AtMost;
    forall a, b ensures leq(a, b) || leq(b, a) {
      assert AtMost(text(a), text(b)) || AtMost(text(b), text(a));
    }
    forall a, b, c | leq(a, b) && leq(b, c) ensures leq(a, c) {
      assert AtMost(text(a), text(b)) && AtMost(text(b), text(c));
    }
  }

  /** Cutting keeps the order of texts, though it may make two the same. */
  lemma {:induction false} PrefixesOrder(a: string, b: string, n: nat)
    requires AtMost(a, b)
    ensures AtMost(Start(a, n), Start(b, n))
  {
    if n > 0 && a != "" && b != "" && a[0] == b[0] {
      PrefixesOrder(a[1..], b[1..], n - 1);
      assert Start(a, n) == [a[0]] + Start(a[1..], n - 1);
      assert Start(b, n) == [b[0]] + Start(b[1..], n - 1);
    }
  }

  function Start(text: string, n: nat): string {
    if |text| <= n then text else text[..n]
  }

  lemma CutOrders(a: string, b: string)
    requires AtMost(a, b)
    ensures AtMost(Cut(a), Cut(b))
  {
    PrefixesOrder(a, b, MAX_TEXT_CHARS);
    assert Start(a, MAX_TEXT_CHARS) == Cut(a) && Start(b, MAX_TEXT_CHARS) == Cut(b);
  }

  // ----- What is kept --------------------------------------------------------

  lemma KeptWithin(services: seq<Service>, lower: Lower)
    ensures forall s :: s in KeptServices(services, lower) ==> s in services && Named(s)
  {
    hide Named, Sort, Dedup, Retain;
    var named := Retain(Named, services);
    var sorted := Sort(ByLower(lower), named);
    SortKeeps(ByLower(lower), named);
    DedupWithin(SameName, sorted);
    forall s | s in KeptServices(services, lower) ensures s in services && Named(s) {
      assert s in Dedup(SameName, sorted);
      assert s in multiset(sorted);
      RetainIs(Named, services, s);
    }
  }

  function KeptAddresses(addresses: seq<string>): seq<string> {
    Truncate(Dedup(Same(AtMost), Sort(AtMost, addresses)), MAX_ADDRESSES)
  }

  /** The addresses that are kept, before cutting: ascending, all of the list. */
  lemma KeptAddressesAre(addresses: seq<string>)
    ensures Ascending(AtMost, KeptAddresses(addresses))
    ensures forall a :: a in KeptAddresses(addresses) ==> a in addresses
  {
    hide Sort, Dedup, AtMost;
    var sorted := Sort(AtMost, addresses);
    TextOrder();
    SortSorts(AtMost, addresses);
    SortKeeps(AtMost, addresses);
    DedupOfSorted(AtMost, sorted);
    DedupWithin(Same(AtMost), sorted);
    hide TotalPreorder;
    forall a | a in KeptAddresses(addresses) ensures a in addresses {
      assert a in Dedup(Same(AtMost), sorted);
      assert a in multiset(sorted);
    }
  }

  /** The interfaces that are kept, before cutting. */
  function KeptInterfaces(interfaces: seq<Interface>): seq<Interface> {
    Truncate(Sort(ByName, interfaces), MAX_INTERFACES)
  }

  // ----- What stays of the rest ----------------------------------------------

  /** The first 200 characters. */
  function First200(text: string): string {
    Start(text, 200)
  }

  /** The gateway is kept as it is exactly when it is an address. */
  lemma GatewayIsKept(c: Content, lower: Lower, isAddress: string -> bool)
    ensures
      var kept := Bounded(c, lower, isAddress).gateway;
      && (kept.Some? <==> c.gateway.Some? && isAddress(c.gateway.value))
      && (kept.Some? ==> kept == c.gateway)
  {
    hide BoundedVolumes, BoundedServices, BoundedInterfaces;
  }

  /** The system keeps its family, and the first 200 characters of its texts. */
  lemma SystemIsKept(c: Content, lower: Lower, isAddress: string -> bool)
    ensures
      var os := Bounded(c, lower, isAddress).os;
      && os.family == c.os.family && os.name == First200(c.os.name)
      && os.version == First200(c.os.version) && os.arch == First200(c.os.arch)
  {
    hide BoundedVolumes, BoundedServices, BoundedInterfaces;
  }

  /** What is kept of a volume, a service and an interface: the first 200 characters
      of each text, the size of the volume as it is, whether a service is shown
      differently, and at most 16 addresses, at most 64 volumes and interfaces and
      1000 services. */
  lemma ElementsAreKept(c: Content, lower: Lower, isAddress: string -> bool)
    ensures
      var b := Bounded(c, lower, isAddress);
      && |b.volumes| <= 64 && |b.services| <= 1000 && |b.interfaces| <= 64
      && (forall i :: 0 <= i < |b.volumes| ==> KeptVolume(c.volumes, b.volumes[i]))
      && (forall i :: 0 <= i < |b.services| ==> KeptService(c.services, b.services[i]))
      && (forall i :: 0 <= i < |b.interfaces| ==> KeptInterface(c.interfaces, b.interfaces[i]))
  {
    hide Cut, AtMost, Trim, Sort, Dedup, Retain, KeptVolume, KeptService, KeptInterface, BoundedAddresses;
    var volumes, services, interfaces :=
      KeptVolumes(c.volumes), KeptServices(c.services, lower), KeptInterfaces(c.interfaces);
    forall i | 0 <= i < |volumes| ensures KeptVolume(c.volumes, CutVolume(volumes[i])) {
      VolumeWithin(c.volumes, volumes[i]);
    }
    forall i | 0 <= i < |services| ensures KeptService(c.services, CutService(services[i])) {
      KeptWithin(c.services, lower);
      assert services[i] in services;
      ServiceIsCut(c.services, services[i]);
    }
    forall i | 0 <= i < |interfaces| ensures KeptInterface(c.interfaces, CutInterface(interfaces[i])) {
      InterfaceWithin(c.interfaces, interfaces[i]);
    }
  }

  ghost predicate KeptVolume(volumes: seq<Volume>, kept: Volume) {
    exists v :: v in volumes && kept == Volume(First200(v.mount), First200(v.fileSystem), v.totalMb)
  }

  ghost predicate KeptService(services: seq<Service>, kept: Service) {
    exists s :: s in services && ShownAs(s, kept)
  }

  ghost predicate ShownAs(s: Service, kept: Service) {
    && Trim(s.name) != "" && kept.name == First200(s.name)
    && kept.shown == match s.shown case None => None case Some(text) => Some(First200(text))
  }

  ghost predicate KeptInterface(interfaces: seq<Interface>, kept: Interface) {
    exists i :: i in interfaces && HasAddresses(i, kept)
  }

  ghost predicate HasAddresses(i: Interface, kept: Interface) {
    && kept.name == First200(i.name) && |kept.addresses| <= 16
    && forall a :: a in kept.addresses ==> exists b :: b in i.addresses && a == First200(b)
  }

  lemma VolumeWithin(volumes: seq<Volume>, v: Volume)
    requires v in KeptVolumes(volumes)
    ensures KeptVolume(volumes, CutVolume(v))
  {
    hide Sort, Dedup, AtMost;
    var sorted := Sort(ByMount, volumes);
    SortKeeps(ByMount, volumes);
    DedupWithin(SameMount, sorted);
    assert v in Dedup(SameMount, sorted);
    assert v in multiset(sorted);
  }

  lemma ServiceIsCut(services: seq<Service>, s: Service)
    requires s in services && Named(s)
    ensures KeptService(services, CutService(s))
  {
    hide Trim;
    assert ShownAs(s, CutService(s));
  }

  lemma InterfaceWithin(interfaces: seq<Interface>, i: Interface)
    requires i in KeptInterfaces(interfaces)
    ensures KeptInterface(interfaces, CutInterface(i))
  {
    hide Sort, AtMost, KeptAddresses;
    SortKeeps(ByName, interfaces);
    assert i in multiset(Sort(ByName, interfaces));
    KeptAddressesAre(i.addresses);
    var kept := KeptAddresses(i.addresses);
    assert BoundedAddresses(i.addresses) == CutAll(kept) by {
      BoundedFromKept(i.addresses);
    }
    forall a | a in CutAll(kept) ensures exists b :: b in i.addresses && a == First200(b) {
      var k :| 0 <= k < |kept| && CutAll(kept)[k] == a;
      assert kept[k] in kept && a == First200(kept[k]);
    }
    assert |kept| <= 16 by {
      FewAddresses(i.addresses);
    }
    assert HasAddresses(i, CutInterface(i));
  }

  lemma BoundedFromKept(addresses: seq<string>)
    ensures BoundedAddresses(addresses) == CutAll(KeptAddresses(addresses))
  {
  }

  lemma FewAddresses(addresses: seq<string>)
    ensures |KeptAddresses(addresses)| <= 16
  {
    hide Sort, Dedup;
  }
}
