/** When bounding an inventory that is bounded changes nothing. */
module InventoryTwice {
  import opened Wrappers
  import opened Text
  import opened Orders
  import opened Sequences
  import opened Sorting
  import opened Cutting
  import opened Inventory
  import opened InventoryLaws

  // ----- Volumes -------------------------------------------------------------

  /** No two of the kept volumes have the same mount after cutting. */
  ghost predicate CutMountsDiffer(kept: seq<Volume>) {
    forall i, j :: 0 <= i < j < |kept| ==> Cut(kept[i].mount) != Cut(kept[j].mount)
  }

  lemma CutVolumesSorted(volumes: seq<Volume>)
    ensures Sorted(ByMount, CutVolumes(KeptVolumes(volumes)))
  {
    hide Sort, Dedup, AtMost;
    var sorted := Sort(ByMount, volumes);
    ElementOrders(t => t);
    SortSorts(ByMount, volumes);
    DedupStaysSorted(ByMount, SameMount, sorted);
    var kept := KeptVolumes(volumes);
    forall i, j | 0 <= i < j < |kept| ensures AtMost(Cut(kept[i].mount), Cut(kept[j].mount)) {
      assert ByMount(kept[i], kept[j]);
      CutOrders(kept[i].mount, kept[j].mount);
    }
  }

  /** Sorted volumes have no two neighbours of one mount exactly when no two of
      them share one. */
  lemma MountsOfSorted(volumes: seq<Volume>)
    requires Sorted(ByMount, volumes)
    ensures NoNeighbours(SameMount, volumes) <==>
            forall i, j :: 0 <= i < j < |volumes| ==> volumes[i].mount != volumes[j].mount
  {
    TextOrder();
    hide AtMost;
    if NoNeighbours(SameMount, volumes) {
      forall i, j | 0 <= i < j < |volumes| ensures volumes[i].mount != volumes[j].mount {
        assert !SameMount(volumes[i], volumes[i + 1]);
        assert ByMount(volumes[i], volumes[i + 1]);
        assert j > i + 1 ==> ByMount(volumes[i + 1], volumes[j]);
        Between(volumes[i].mount, volumes[i + 1].mount, volumes[j].mount);
      }
    }
  }

  lemma Between(a: string, b: string, c: string)
    requires AtMost(a, b) && a != b && (AtMost(b, c) || b == c)
    ensures a != c
  {
    TextsAreOrdered(a, b);
    TextsAreOrdered(b, c);
  }

  /** Bounding the volumes again changes nothing exactly when no two kept mounts
      are the same in the characters that are kept. */
  lemma VolumesTwice(volumes: seq<Volume>)
    ensures BoundedVolumes(BoundedVolumes(volumes)) == BoundedVolumes(volumes) <==>
            CutMountsDiffer(KeptVolumes(volumes))
  {
    var kept := KeptVolumes(volumes);
    var out := CutVolumes(kept);
    CutVolumesSorted(volumes);
    SortOfSorted(ByMount, out);
    MountsOfSorted(out);
    DedupAll(SameMount, out);
    hide Sort, Dedup, AtMost, Cut, KeptVolumes;
    assert CutMountsDiffer(kept) <==> NoNeighbours(SameMount, out);
  }

  // ----- Addresses and interfaces --------------------------------------------

  /** No two of the kept texts are the same after cutting. */
  ghost predicate CutsDiffer(kept: seq<string>) {
    forall i, j :: 0 <= i < j < |kept| ==> Cut(kept[i]) != Cut(kept[j])
  }

  lemma CutsSorted(kept: seq<string>)
    requires Sorted(AtMost, kept)
    ensures Sorted(AtMost, CutAll(kept))
  {
    hide AtMost, Cut;
    forall i, j | 0 <= i < j < |kept| ensures AtMost(Cut(kept[i]), Cut(kept[j])) {
      assert AtMost(kept[i], kept[j]);
      CutOrders(kept[i], kept[j]);
    }
  }

  /** Sorted texts have no two same neighbours exactly when no two are the same. */
  lemma TextsOfSorted(texts: seq<string>)
    requires Sorted(AtMost, texts)
    ensures NoNeighbours(Same(AtMost), texts) <==> forall i, j :: 0 <= i < j < |texts| ==> texts[i] != texts[j]
  {
    hide AtMost;
    TextOrder();
    if NoNeighbours(Same(AtMost), texts) {
      forall i, j | 0 <= i < j < |texts| ensures texts[i] != texts[j] {
        assert !Same(AtMost)(texts[i], texts[i + 1]);
        assert AtMost(texts[i], texts[i + 1]);
        if j > i + 1 {
          assert AtMost(texts[i + 1], texts[j]);
          Between(texts[i], texts[i + 1], texts[j]);
        }
      }
    }
  }

  lemma CutAgain(texts: seq<string>)
    ensures CutAll(CutAll(texts)) == CutAll(texts)
  {
    var cut := CutAll(texts);
    forall i | 0 <= i < |cut| ensures CutAll(cut)[i] == cut[i] {
    }
  }

  /** Bounding the addresses of an interface again changes nothing exactly when no
      two kept ones are the same in the characters that are kept. */
  lemma AddressesTwice(addresses: seq<string>)
    ensures BoundedAddresses(BoundedAddresses(addresses)) == BoundedAddresses(addresses) <==>
            CutsDiffer(KeptAddresses(addresses))
  {
    hide AtMost, Sort, Dedup, Cut, TotalPreorder;
    var kept := KeptAddresses(addresses);
    var out := CutAll(kept);
    KeptAddressesAre(addresses);
    CutsSorted(kept);
    CutAgain(kept);
    SortOfSorted(AtMost, out);
    TextsOfSorted(out);
    DedupAll(Same(AtMost), out);
    hide KeptAddresses, NoNeighbours, Sorted, Ascending;
    assert |out| <= MAX_ADDRESSES;
    assert CutsDiffer(kept) <==> Dedup(Same(AtMost), out) == out;
  }

  /** No two kept addresses of one interface are the same after cutting. */
  ghost predicate CutAddressesDiffer(kept: seq<Interface>) {
    forall i :: 0 <= i < |kept| ==> CutsDiffer(KeptAddresses(kept[i].addresses))
  }

  lemma CutInterfacesSorted(interfaces: seq<Interface>)
    ensures Sorted(ByName, CutInterfaces(KeptInterfaces(interfaces)))
  {
    hide AtMost, Sort, Cut, BoundedAddresses, TotalPreorder;
    var kept := KeptInterfaces(interfaces);
    ElementOrders(t => t);
    SortSorts(ByName, interfaces);
    forall i, j | 0 <= i < j < |kept| ensures AtMost(Cut(kept[i].name), Cut(kept[j].name)) {
      assert ByName(kept[i], kept[j]);
      CutOrders(kept[i].name, kept[j].name);
    }
  }

  lemma InterfaceTwice(i: Interface)
    ensures CutInterface(CutInterface(i)) == CutInterface(i) <==> CutsDiffer(KeptAddresses(i.addresses))
  {
    hide BoundedAddresses, CutsDiffer, KeptAddresses;
    AddressesTwice(i.addresses);
  }

  /** Bounding the interfaces again changes nothing exactly when no two kept
      addresses of a kept interface are the same in the characters that are kept. */
  lemma InterfacesTwice(interfaces: seq<Interface>)
    ensures BoundedInterfaces(BoundedInterfaces(interfaces)) == BoundedInterfaces(interfaces) <==>
            CutAddressesDiffer(KeptInterfaces(interfaces))
  {
    hide AtMost, Sort, CutInterface, CutsDiffer, KeptAddresses;
    var kept := KeptInterfaces(interfaces);
    var out := CutInterfaces(kept);
    CutInterfacesSorted(interfaces);
    SortOfSorted(ByName, out);
    hide KeptInterfaces, Sorted;
    assert |out| <= MAX_INTERFACES;
    assert BoundedInterfaces(out) == CutInterfaces(out);
    forall i | 0 <= i < |kept|
      ensures CutInterface(out[i]) == out[i] <==> CutsDiffer(KeptAddresses(kept[i].addresses))
    {
      InterfaceTwice(kept[i]);
    }
    SameElements(CutInterfaces(out), out);
  }

  // ----- Services ------------------------------------------------------------

  /** Each kept name is still a name after cutting, the cut names are still in order,
      and no two neighbours have one cut name. */
  ghost predicate Settled(kept: seq<Service>, lower: Lower) {
    && (forall i :: 0 <= i < |kept| ==> Trim(Cut(kept[i].name)) != "")
    && (forall i, j :: 0 <= i < j < |kept| ==> AtMost(lower(Cut(kept[i].name)), lower(Cut(kept[j].name))))
    && (forall i :: 0 <= i < |kept| - 1 ==> Cut(kept[i].name) != Cut(kept[i + 1].name))
  }

  /** The same of services that are cut. */
  ghost predicate InPlace(cut: seq<Service>, lower: Lower) {
    && (forall i :: 0 <= i < |cut| ==> Named(cut[i]))
    && Sorted(ByLower(lower), cut)
    && NoNeighbours(SameName, cut)
  }

  lemma SettledInPlace(kept: seq<Service>, lower: Lower)
    ensures Settled(kept, lower) <==> InPlace(CutServices(kept), lower)
  {
    hide AtMost, Trim, Cut;
    var cut := CutServices(kept);
    if InPlace(cut, lower) {
      forall i | 0 <= i < |kept| ensures Trim(Cut(kept[i].name)) != "" {
        assert Named(cut[i]);
      }
      forall i, j | 0 <= i < j < |kept| ensures AtMost(lower(Cut(kept[i].name)), lower(Cut(kept[j].name))) {
        assert ByLower(lower)(cut[i], cut[j]);
      }
      forall i | 0 <= i < |kept| - 1 ensures Cut(kept[i].name) != Cut(kept[i + 1].name) {
        assert !SameName(cut[i], cut[i + 1]);
      }
    }
  }

  lemma CutServicesAgain(services: seq<Service>)
    requires forall s :: s in services ==> CutService(s) == s
    ensures CutServices(services) == services
  {
    hide CutService;
    forall i | 0 <= i < |services| ensures CutServices(services)[i] == services[i] {
      assert services[i] in services;
    }
  }

  lemma InPlaceStays(cut: seq<Service>, lower: Lower)
    requires InPlace(cut, lower) && |cut| <= MAX_SERVICES
    requires forall s :: s in cut ==> CutService(s) == s
    ensures BoundedServices(cut, lower) == cut
  {
    hide Named, Sort, Dedup, Retain, AtMost, CutService;
    RetainAll(Named, cut);
    SortOfSorted(ByLower(lower), cut);
    DedupAll(SameName, cut);
    CutServicesAgain(cut);
  }

  /** Nothing is lost on the way only if there was nothing to remove. */
  lemma KeptIsSorted(cut: seq<Service>, lower: Lower)
    requires |KeptServices(cut, lower)| == |cut|
    ensures forall i :: 0 <= i < |cut| ==> Named(cut[i])
    ensures KeptServices(cut, lower) == Sort(ByLower(lower), cut)
    ensures NoNeighbours(SameName, Sort(ByLower(lower), cut))
  {
    hide Named, Sort, Dedup, Retain, AtMost;
    var named := Retain(Named, cut);
    RetainWhole(Named, cut);
    DedupAll(SameName, Sort(ByLower(lower), named));
  }

  lemma StaysInPlace(cut: seq<Service>, lower: Lower)
    requires BoundedServices(cut, lower) == cut
    requires forall s :: s in cut ==> CutService(s) == s
    ensures InPlace(cut, lower)
  {
    hide Named, Sort, AtMost, CutService, KeptServices;
    var sorted := Sort(ByLower(lower), cut);
    KeptIsSorted(cut, lower);
    SortKeeps(ByLower(lower), cut);
    forall s | s in sorted ensures CutService(s) == s {
      assert s in multiset(sorted);
    }
    CutServicesAgain(sorted);
    ElementOrders(lower);
    SortSorts(ByLower(lower), cut);
  }

  /** Bounding the services again changes nothing exactly when the kept ones are
      settled. */
  lemma ServicesTwice(services: seq<Service>, lower: Lower)
    ensures BoundedServices(BoundedServices(services, lower), lower) == BoundedServices(services, lower) <==>
            Settled(KeptServices(services, lower), lower)
  {
    hide Settled, InPlace, CutService, Named, Sort, Dedup, Retain, AtMost;
    var kept := KeptServices(services, lower);
    var cut := CutServices(kept);
    assert |kept| <= MAX_SERVICES;
    hide KeptServices;
    forall s | s in cut ensures CutService(s) == s {
      var i :| 0 <= i < |cut| && cut[i] == s;
      ServiceAgain(kept[i]);
    }
    SettledInPlace(kept, lower);
    if InPlace(cut, lower) {
      InPlaceStays(cut, lower);
    } else if BoundedServices(cut, lower) == cut {
      StaysInPlace(cut, lower);
    }
  }

  lemma ServiceAgain(s: Service)
    ensures CutService(CutService(s)) == CutService(s)
  {
  }

  // ----- The whole inventory -------------------------------------------------

  /** Bounding an inventory that is bounded changes nothing exactly when cutting
      makes no two kept mounts, and no two kept addresses of a kept interface, the
      same, and the kept services are settled. */
  lemma BoundedTwice(c: Content, lower: Lower, isAddress: string -> bool)
    ensures Bounded(Bounded(c, lower, isAddress), lower, isAddress) == Bounded(c, lower, isAddress) <==>
            && CutMountsDiffer(KeptVolumes(c.volumes))
            && Settled(KeptServices(c.services, lower), lower)
            && CutAddressesDiffer(KeptInterfaces(c.interfaces))
  {
    hide BoundedVolumes, BoundedServices, BoundedInterfaces;
    hide CutMountsDiffer, KeptVolumes, Settled, KeptServices, CutAddressesDiffer, KeptInterfaces;
    VolumesTwice(c.volumes);
    ServicesTwice(c.services, lower);
    InterfacesTwice(c.interfaces);
  }

  // ----- Short texts ---------------------------------------------------------

  predicate ShortVolume(v: Volume) {
    |v.mount| <= MAX_TEXT_CHARS && |v.fileSystem| <= MAX_TEXT_CHARS
  }

  predicate ShortService(s: Service) {
    |s.name| <= MAX_TEXT_CHARS && (s.shown.Some? ==> |s.shown.value| <= MAX_TEXT_CHARS)
  }

  predicate ShortTexts(texts: seq<string>) {
    forall text :: text in texts ==> |text| <= MAX_TEXT_CHARS
  }

  predicate ShortInterface(i: Interface) {
    |i.name| <= MAX_TEXT_CHARS && ShortTexts(i.addresses)
  }

  /** Every text is within the limit. */
  ghost predicate Short(c: Content) {
    && (forall v :: v in c.volumes ==> ShortVolume(v))
    && (forall s :: s in c.services ==> ShortService(s))
    && (forall i :: i in c.interfaces ==> ShortInterface(i))
  }

  lemma ShortMountsDiffer(volumes: seq<Volume>)
    requires forall v :: v in volumes ==> ShortVolume(v)
    ensures CutMountsDiffer(KeptVolumes(volumes))
  {
    hide Sort, Dedup, AtMost, Cut;
    var kept, sorted := KeptVolumes(volumes), Sort(ByMount, volumes);
    SortKeeps(ByMount, volumes);
    DedupWithin(SameMount, sorted);
    ElementOrders(t => t);
    SortSorts(ByMount, volumes);
    DedupStaysSorted(ByMount, SameMount, sorted);
    DedupLeavesNone(SameMount, sorted);
    MountsOfSorted(kept);
    hide TotalPreorder, Sorted, NoNeighbours;
    forall i | 0 <= i < |kept| ensures Cut(kept[i].mount) == kept[i].mount {
      assert kept[i] in Dedup(SameMount, sorted);
      assert kept[i] in multiset(sorted);
      assert ShortVolume(kept[i]);
    }
  }

  lemma ShortSettled(services: seq<Service>, lower: Lower)
    requires forall s :: s in services ==> ShortService(s)
    ensures Settled(KeptServices(services, lower), lower)
  {
    hide Named, Sort, Dedup, Retain, AtMost, Cut;
    var named := Retain(Named, services);
    var sorted := Sort(ByLower(lower), named);
    var kept := KeptServices(services, lower);
    KeptWithin(services, lower);
    ElementOrders(lower);
    SortSorts(ByLower(lower), named);
    DedupStaysSorted(ByLower(lower), SameName, sorted);
    DedupLeavesNone(SameName, sorted);
    hide KeptServices, TotalPreorder;
    ShortServicesStay(kept);
    SettledInPlace(kept, lower);
    assert forall i :: 0 <= i < |kept| ==> kept[i] in kept;
  }

  lemma ShortServicesStay(services: seq<Service>)
    requires forall s :: s in services ==> ShortService(s)
    ensures CutServices(services) == services
  {
    forall i | 0 <= i < |services| ensures CutService(services[i]) == services[i] {
      assert services[i] in services;
    }
  }

  lemma ShortCutsDiffer(addresses: seq<string>)
    requires ShortTexts(addresses)
    ensures CutsDiffer(KeptAddresses(addresses))
  {
    hide AtMost, Cut;
    var kept := KeptAddresses(addresses);
    KeptAddressesAre(addresses);
    TextOrder();
    hide KeptAddresses, TotalPreorder;
    forall i | 0 <= i < |kept| ensures Cut(kept[i]) == kept[i] {
      assert kept[i] in kept;
    }
  }

  lemma ShortAddressesDiffer(interfaces: seq<Interface>)
    requires forall i :: i in interfaces ==> ShortInterface(i)
    ensures CutAddressesDiffer(KeptInterfaces(interfaces))
  {
    hide Sort, CutsDiffer, KeptAddresses;
    var sorted := Sort(ByName, interfaces);
    SortKeeps(ByName, interfaces);
    var kept := KeptInterfaces(interfaces);
    forall i | 0 <= i < |kept| ensures CutsDiffer(KeptAddresses(kept[i].addresses)) {
      assert kept[i] in multiset(sorted);
      assert kept[i] in interfaces;
      assert ShortInterface(kept[i]);
      ShortCutsDiffer(kept[i].addresses);
    }
  }

  /** An inventory whose texts are within the limit stays as it is when it is
      bounded again: an unchanged machine sends the same. */
  lemma ShortTwice(c: Content, lower: Lower, isAddress: string -> bool)
    requires Short(c)
    ensures Bounded(Bounded(c, lower, isAddress), lower, isAddress) == Bounded(c, lower, isAddress)
  {
    hide Bounded, CutMountsDiffer, KeptVolumes, Settled, KeptServices, CutAddressesDiffer, KeptInterfaces;
    hide ShortVolume, ShortService, ShortInterface;
    ShortMountsDiffer(c.volumes);
    ShortSettled(c.services, lower);
    ShortAddressesDiffer(c.interfaces);
    BoundedTwice(c, lower, isAddress);
  }

  // ----- Inventories that don't stay -----------------------------------------

  function Spaces(n: nat): string {
    seq(n, _ => ' ')
  }

  lemma TrimStartOfSpaces(n: nat, rest: string)
    requires rest == "" || !IsWhitespace(rest[0])
    ensures TrimStart(Spaces(n) + rest) == rest
  {
    TrimStartDrops(Spaces(n), rest);
  }

  lemma OneService(s: Service, lower: Lower)
    ensures BoundedServices([s], lower) == if Named(s) then [CutService(s)] else []
  {
    hide Named, CutService, AtMost;
    var kept := if Named(s) then [s] else [];
    assert Retain(Named, [s]) == kept;
    assert Sort(ByLower(lower), kept) == kept by {
      SortOfSorted(ByLower(lower), kept);
    }
    assert CutServices([s]) == [CutService(s)];
  }

  lemma BlankNames()
    ensures Named(Service(Spaces(200) + "x", None)) && !Named(Service(Spaces(200), None))
    ensures CutService(Service(Spaces(200) + "x", None)) == Service(Spaces(200), None)
  {
    var blanks := Spaces(200);
    TrimStartOfSpaces(200, "x");
    TrimStartOfSpaces(200, "");
    assert |blanks| == 200;
    hide TrimStart, Spaces;
    assert blanks + "" == blanks;
    assert (blanks + "x")[..200] == blanks;
  }

  /** A service is kept for a name that starts after 200 blanks, and cut to them;
      the next time it has no name. */
  lemma BlankLeft(lower: Lower)
    ensures var once := BoundedServices([Service(Spaces(200) + "x", None)], lower);
            && once == [Service(Spaces(200), None)]
            && BoundedServices(once, lower) == []
  {
    hide *;
    BlankNames();
    OneService(Service(Spaces(200) + "x", None), lower);
    OneService(Service(Spaces(200), None), lower);
  }

  lemma {:induction false} PrefixAtMost(text: string, more: string)
    ensures AtMost(text, text + more)
  {
    if text != "" {
      assert (text + more)[1..] == text[1..] + more;
      PrefixAtMost(text[1..], more);
    }
  }

  /** Of two volumes whose mounts differ only after 200 characters both are kept,
      and one is lost the next time. */
  lemma SameMountsLeft(v: Volume)
    requires |v.mount| == MAX_TEXT_CHARS && |v.fileSystem| <= MAX_TEXT_CHARS
    ensures BoundedVolumes([v, v.(mount := v.mount + "x")]) == [v, v]
    ensures BoundedVolumes([v, v]) == [v]
  {
    var w := v.(mount := v.mount + "x");
    PrefixAtMost(v.mount, "x");
    PrefixAtMost(v.mount, "");
    assert v.mount + "" == v.mount;
    hide AtMost;
    assert Sort(ByMount, [v, w]) == [v, w] && Sort(ByMount, [v, v]) == [v, v] by {
      SortOfSorted(ByMount, [v, w]);
      SortOfSorted(ByMount, [v, v]);
    }
    hide Sort;
    assert v.mount != w.mount by {
      assert |w.mount| == |v.mount| + 1;
    }
    DedupAll(SameMount, [v, w]);
    assert Dedup(SameMount, [v, v]) == Dedup(SameMount, [v]) == [v] by {
      assert [v] + [v, v][2..] == [v];
    }
    hide Dedup, NoNeighbours;
    assert CutVolume(v) == v && CutVolume(w) == v;
    assert CutVolumes([v, w]) == [v, v] && CutVolumes([v]) == [v];
  }
}
