/** When the order of the lists of an inventory doesn't matter. */
module InventoryOrder {
  import opened Wrappers
  import opened Orders
  import opened Text
  import opened Sorting
  import opened Reordering
  import opened ReorderingExactly
  import opened Cutting
  import opened Inventory
  import opened InventoryLaws

  // ----- Volumes -------------------------------------------------------------

  /** Volumes with the mount of a kept one are the same after cutting. */
  ghost predicate VolumesAlike(volumes: seq<Volume>) {
    forall k, v, w :: k in KeptVolumes(volumes) && v in volumes && w in volumes && v.mount == k.mount == w.mount ==>
      CutVolume(v) == CutVolume(w)
  }

  lemma MountRanks()
    ensures TotalPreorder(ByMount)
    ensures forall v, w :: SameRank(ByMount, v, w) <==> v.mount == w.mount
  {
    ElementOrders(t => t);
    TextOrder();
  }

  lemma VolumesAre(volumes: seq<Volume>)
    ensures KeptVolumes(volumes) == Left(ByMount, SameMount, MAX_VOLUMES, volumes)
    ensures VolumesAlike(volumes) <==>
            Alike(ByMount, CutVolume, Left(ByMount, SameMount, MAX_VOLUMES, volumes), multiset(volumes))
  {
    MountRanks();
    hide Sort, Dedup, AtMost, Cut, ByMount, TotalPreorder;
  }

  lemma VolumesLookSame(a: seq<Volume>, b: seq<Volume>)
    ensures BoundedVolumes(a) == BoundedVolumes(b) <==> LookSame(CutVolume, KeptVolumes(a), KeptVolumes(b))
  {
    hide KeptVolumes, CutVolume;
    var x, y := CutVolumes(KeptVolumes(a)), CutVolumes(KeptVolumes(b));
    if LookSame(CutVolume, KeptVolumes(a), KeptVolumes(b)) {
      assert x == y;
    }
  }

  lemma AlikeVolumesStay(a: seq<Volume>, b: seq<Volume>)
    requires VolumesAlike(a) && multiset(a) == multiset(b)
    ensures BoundedVolumes(a) == BoundedVolumes(b)
  {
    hide Left, Cut, ByMount, AtMost, LookSame, VolumesAlike, Alike, KeptVolumes;
    MountRanks();
    VolumesAre(a);
    VolumesAre(b);
    LeftRanksAgree(ByMount, SameMount, MAX_VOLUMES, a, b);
    AlikeStays(ByMount, SameMount, MAX_VOLUMES, CutVolume, a, b);
    VolumesLookSame(a, b);
  }

  lemma UnlikeVolumesChange(volumes: seq<Volume>) returns (other: seq<Volume>)
    requires !VolumesAlike(volumes)
    ensures multiset(other) == multiset(volumes) && BoundedVolumes(other) != BoundedVolumes(volumes)
  {
    hide Left, Cut, ByMount, AtMost, LookSame, VolumesAlike, Alike, KeptVolumes, BoundedVolumes;
    MountRanks();
    VolumesAre(volumes);
    var a, b := UnlikeChanges(ByMount, SameMount, MAX_VOLUMES, CutVolume, volumes);
    VolumesAre(a);
    VolumesAre(b);
    VolumesLookSame(a, b);
    other := if BoundedVolumes(a) == BoundedVolumes(volumes) then b else a;
  }

  // ----- Services ------------------------------------------------------------

  function Without(services: seq<Service>): seq<Service> {
    Retain(s => !Named(s), services)
  }

  function WithName(services: seq<Service>): seq<Service> {
    Retain(Named, services)
  }

  /** First by lower-cased name, then by name. */
  predicate LowerThenName(lower: Lower, a: Service, b: Service) {
    AtMost(lower(a.name), lower(b.name)) && (lower(a.name) == lower(b.name) ==> AtMost(a.name, b.name))
  }

  function ByLowerThenName(lower: Lower): (Service, Service) -> bool {
    (a: Service, b: Service) => LowerThenName(lower, a, b)
  }

  /** The services that are kept when those of one name stand together, one of each
      name: the first 1000 names by lower-cased name and then by name. */
  function FirstServices(services: seq<Service>, lower: Lower): seq<Service> {
    First(ByLowerThenName(lower), SameName, MAX_SERVICES, WithName(services))
  }

  /** Two services have one name, and a third another that agrees in lower case: how
      many of them are left depends on whether it stands between them. */
  ghost predicate Varies(services: seq<Service>, lower: Lower, x: Service, y: Service, w: Service) {
    && multiset{x, y} <= multiset(WithName(services)) && w in WithName(services)
    && x.name == y.name && w.name != x.name && lower(w.name) == lower(x.name)
  }

  ghost predicate HasLower(services: seq<Service>, lower: Lower, x: Service) {
    exists k :: k in services && lower(k.name) == lower(x.name)
  }

  /** The list is full, and from the name of `x` on it is the same after cutting. */
  ghost predicate FullFrom(first: seq<Service>, lower: Lower, x: Service) {
    && |first| == MAX_SERVICES
    && forall v :: v in first && AtMost(lower(x.name), lower(v.name)) ==> CutService(v) == CutService(x)
  }

  /** Services whose names agree in lower case with one of the first are the same
      after cutting; and where how many of them are left varies, the list is full and
      the same from there on. */
  ghost predicate ServicesSteady(services: seq<Service>, lower: Lower) {
    && (forall k, v, w :: k in FirstServices(services, lower) && v in WithName(services) && w in WithName(services)
                          && lower(v.name) == lower(k.name) == lower(w.name) ==>
          CutService(v) == CutService(w))
    && (forall x, y, w :: Varies(services, lower, x, y, w) && HasLower(FirstServices(services, lower), lower, x) ==>
          FullFrom(FirstServices(services, lower), lower, x))
  }

  lemma LowerRanks(lower: Lower)
    ensures TotalPreorder(ByLower(lower)) && Finer(ByLower(lower), SameName)
    ensures forall v, w :: SameRank(ByLower(lower), v, w) <==> lower(v.name) == lower(w.name)
  {
    ElementOrders(lower);
    TextOrder();
    hide AtMost;
    assert forall v, w :: ByLower(lower)(v, w) == AtMost(lower(v.name), lower(w.name));
  }

  lemma NamesRefine(lower: Lower)
    ensures Refines(ByLower(lower), ByLowerThenName(lower), SameName)
  {
    LowerRanks(lower);
    TextOrder();
    hide AtMost;
    var fine := ByLowerThenName(lower);
    forall a, b ensures fine(a, b) || fine(b, a) {
      assert AtMost(lower(a.name), lower(b.name)) || AtMost(lower(b.name), lower(a.name));
    }
    forall a, b, c | fine(a, b) && fine(b, c) ensures fine(a, c) {
      LowerThenNameThrough(lower, a, b, c);
    }
    forall a, b ensures SameName(a, b) <==> SameRank(fine, a, b) {
      assert AtMost(a.name, b.name) && AtMost(b.name, a.name) <==> a.name == b.name;
    }
  }

  lemma LowerThenNameThrough(lower: Lower, a: Service, b: Service, c: Service)
    requires LowerThenName(lower, a, b) && LowerThenName(lower, b, c)
    ensures LowerThenName(lower, a, c)
  {
    hide CompareTexts;
    TextsAreTransitive(lower(a.name), lower(b.name), lower(c.name));
    TextsAreOrdered(lower(a.name), lower(b.name));
    if lower(a.name) == lower(c.name) {
      assert CompareTexts(lower(b.name), lower(a.name)) != Greater;
      assert CompareTexts(lower(a.name), lower(b.name)) == Equal;
      TextsAreTransitive(a.name, b.name, c.name);
    }
  }

  lemma ServicesAre(services: seq<Service>, lower: Lower)
    ensures KeptServices(services, lower) == Left(ByLower(lower), SameName, MAX_SERVICES, WithName(services))
  {
    hide Sort, Dedup, AtMost, ByLower, Named, Retain;
  }

  lemma SteadyIs(services: seq<Service>, lower: Lower)
    ensures ServicesSteady(services, lower) <==>
            Steady(ByLower(lower), SameName, MAX_SERVICES, CutService, FirstServices(services, lower),
                   multiset(WithName(services)))
  {
    hide AtMost, CutService, WithName, FirstServices;
    var leq, first, all := ByLower(lower), FirstServices(services, lower), multiset(WithName(services));
    RanksAreLower(lower);
    forall x, y, w ensures Clash(leq, SameName, all, x, y, w) <==> Varies(services, lower, x, y, w) {
    }
    forall x ensures Reached(leq, first, x) <==> HasLower(first, lower, x) {
    }
    forall x ensures FullOf(leq, MAX_SERVICES, CutService, first, x) <==> FullFrom(first, lower, x) {
    }
    AlikeIs(services, lower);
    hide Clash, Varies, Reached, HasLower, FullOf, FullFrom, Alike;
  }

  lemma AlikeIs(services: seq<Service>, lower: Lower)
    ensures Alike(ByLower(lower), CutService, FirstServices(services, lower), multiset(WithName(services))) <==>
            forall k, v, w :: k in FirstServices(services, lower) && v in WithName(services) && w in WithName(services)
                              && lower(v.name) == lower(k.name) == lower(w.name) ==>
              CutService(v) == CutService(w)
  {
    RanksAreLower(lower);
    hide AtMost, CutService, WithName, FirstServices, ByLower;
  }

  lemma RanksAreLower(lower: Lower)
    ensures forall v, w :: SameRank(ByLower(lower), v, w) <==> lower(v.name) == lower(w.name)
  {
    LowerRanks(lower);
  }

  lemma ServicesLookSame(a: seq<Service>, b: seq<Service>, lower: Lower)
    ensures BoundedServices(a, lower) == BoundedServices(b, lower) <==>
            LookSame(CutService, KeptServices(a, lower), KeptServices(b, lower))
  {
    hide KeptServices, CutService;
    var k, l := KeptServices(a, lower), KeptServices(b, lower);
    var x, y := CutServices(k), CutServices(l);
    if LookSame(CutService, k, l) {
      assert x == y;
    }
  }

  lemma {:induction false} NamedAndNot(services: seq<Service>)
    ensures multiset(WithName(services) + Without(services)) == multiset(services)
  {
    hide Named, Retain;
    forall s ensures multiset(WithName(services) + Without(services))[s] == multiset(services)[s] {
      RetainCount(Named, services, s);
      RetainCount(t => !Named(t), services, s);
    }
  }

  /** Any order of the named services is that of some order of all. */
  lemma NamedOrder(services: seq<Service>, order: seq<Service>)
    requires multiset(order) == multiset(WithName(services))
    ensures multiset(order + Without(services)) == multiset(services)
    ensures WithName(order + Without(services)) == order
  {
    NamedAndNot(services);
    hide Named, Retain;
    var rest := Without(services);
    RetainAppend(Named, order, rest);
    forall i | 0 <= i < |order| ensures Named(order[i]) {
      assert order[i] in multiset(WithName(services));
      RetainIs(Named, services, order[i]);
    }
    RetainAll(Named, order);
    forall i | 0 <= i < |rest| ensures !Named(rest[i]) {
      RetainIs(s => !Named(s), services, rest[i]);
    }
    RetainNone(Named, rest);
  }

  lemma SteadyServicesStay(a: seq<Service>, b: seq<Service>, lower: Lower)
    requires ServicesSteady(a, lower) && multiset(a) == multiset(b)
    ensures BoundedServices(a, lower) == BoundedServices(b, lower)
  {
    hide Left, First, CutService, ByLower, ByLowerThenName, LookSame, KeptServices, Retain, Named, BoundedServices;
    hide ServicesSteady, Steady;
    NamesRefine(lower);
    SteadyIs(a, lower);
    OrdersLookSame(ByLower(lower), ByLowerThenName(lower), SameName, MAX_SERVICES, CutService, WithName(a));
    RetainOfReordered(Named, a, b);
    ServicesAre(a, lower);
    ServicesAre(b, lower);
    assert LookSame(CutService, KeptServices(a, lower), KeptServices(b, lower));
    ServicesLookSame(a, b, lower);
  }

  lemma OtherServicesChange(services: seq<Service>, lower: Lower) returns (other: seq<Service>)
    requires !ServicesSteady(services, lower)
    ensures multiset(other) == multiset(services)
    ensures BoundedServices(other, lower) != BoundedServices(services, lower)
  {
    hide Left, First, CutService, ByLower, ByLowerThenName, LookSame, KeptServices, WithName, Without, Named;
    hide ServicesSteady, Steady, BoundedServices, Refines;
    NamesRefine(lower);
    SteadyIs(services, lower);
    var leq, named := ByLower(lower), WithName(services);
    OrdersLookSame(leq, ByLowerThenName(lower), SameName, MAX_SERVICES, CutService, named);
    var x, y :| multiset(x) == multiset(y) == multiset(named)
                && !LookSame(CutService, Left(leq, SameName, MAX_SERVICES, x), Left(leq, SameName, MAX_SERVICES, y));
    var a, b := x + Without(services), y + Without(services);
    NamedOrder(services, x);
    NamedOrder(services, y);
    ServicesAre(a, lower);
    ServicesAre(b, lower);
    ServicesLookSame(a, b, lower);
    other := if BoundedServices(a, lower) == BoundedServices(services, lower) then b else a;
  }

  /** The services are bounded to the same in every order exactly when they are
      steady. */
  lemma ServicesInAnyOrder(services: seq<Service>, lower: Lower)
    ensures ServicesSteady(services, lower) <==>
            forall b :: multiset(b) == multiset(services) ==>
              BoundedServices(b, lower) == BoundedServices(services, lower)
  {
    hide ServicesSteady, BoundedServices;
    if ServicesSteady(services, lower) {
      forall b | multiset(b) == multiset(services)
        ensures BoundedServices(b, lower) == BoundedServices(services, lower)
      {
        SteadyServicesStay(services, b, lower);
      }
    } else {
      var b := OtherServicesChange(services, lower);
    }
  }

  ghost predicate NamesAlike(services: seq<Service>, lower: Lower) {
    forall v, w :: v in WithName(services) && w in WithName(services) && lower(v.name) == lower(w.name) ==>
      CutService(v) == CutService(w)
  }

  lemma RoomForAll(services: seq<Service>, lower: Lower)
    requires |KeptServices(services, lower)| < MAX_SERVICES
    ensures |FirstServices(services, lower)| < MAX_SERVICES
    ensures forall x :: x in WithName(services) ==> HasLower(FirstServices(services, lower), lower, x)
  {
    NamesRefine(lower);
    RanksAreLower(lower);
    ServicesAre(services, lower);
    hide KeptServices, Left, First, ByLower, ByLowerThenName, WithName, AtMost, Refines;
    var leq, first := ByLower(lower), FirstServices(services, lower);
    RoomMeansAll(leq, ByLowerThenName(lower), SameName, MAX_SERVICES, WithName(services));
    forall x | x in WithName(services) ensures HasLower(first, lower, x) {
      assert x in multiset(WithName(services)) && Reached(leq, first, x);
      var k :| k in first && SameRank(leq, k, x);
    }
  }

  /** Where fewer than 1000 services are kept, they are bounded to the same in every
      order exactly when those that agree in lower case are the same after cutting,
      and none that has one name with another agrees with one of a third name. */
  lemma FewInAnyOrder(services: seq<Service>, lower: Lower)
    requires |KeptServices(services, lower)| < MAX_SERVICES
    ensures (forall b :: multiset(b) == multiset(services) ==>
                           BoundedServices(b, lower) == BoundedServices(services, lower)) <==>
            NamesAlike(services, lower) && forall x, y, w :: !Varies(services, lower, x, y, w)
  {
    hide BoundedServices, KeptServices, FirstServices, WithName, CutService;
    ServicesInAnyOrder(services, lower);
    RoomForAll(services, lower);
    if ServicesSteady(services, lower) {
      forall v, w | v in WithName(services) && w in WithName(services) && lower(v.name) == lower(w.name)
        ensures CutService(v) == CutService(w)
      {
        assert HasLower(FirstServices(services, lower), lower, v);
      }
      forall x, y, w ensures !Varies(services, lower, x, y, w) {
        NotVarying(services, lower, x, y, w);
      }
    }
  }

  lemma NotVarying(services: seq<Service>, lower: Lower, x: Service, y: Service, w: Service)
    requires ServicesSteady(services, lower) && |FirstServices(services, lower)| < MAX_SERVICES
    requires forall v :: v in WithName(services) ==> HasLower(FirstServices(services, lower), lower, v)
    ensures !Varies(services, lower, x, y, w)
  {
    hide FirstServices, WithName, CutService, HasLower, Varies;
    VariesWithin(services, lower, x, y, w);
  }

  lemma VariesWithin(services: seq<Service>, lower: Lower, x: Service, y: Service, w: Service)
    ensures Varies(services, lower, x, y, w) ==> x in WithName(services)
  {
    hide WithName;
    assert x in multiset{x, y};
  }

  /** Two names that differ only in case stay in the order they come in. */
  lemma CaseDecides(lower: Lower)
    requires lower("a") == lower("A")
    ensures var small, big := Service("a", None), Service("A", None);
            && BoundedServices([small, big], lower) == [small, big]
            && BoundedServices([big, small], lower) == [big, small]
  {
    var small, big := Service("a", None), Service("A", None);
    InOrder(small, big, lower);
    InOrder(big, small, lower);
  }

  lemma InOrder(a: Service, b: Service, lower: Lower)
    requires Named(a) && Named(b) && a.name != b.name && lower(a.name) == lower(b.name)
    requires CutService(a) == a && CutService(b) == b
    ensures BoundedServices([a, b], lower) == [a, b]
  {
    LowerRanks(lower);
    hide AtMost, Named, CutService;
    assert SameRank(ByLower(lower), a, b);
    SortOfSorted(ByLower(lower), [a, b]);
    RetainAll(Named, [a, b]);
    DedupAll(SameName, [a, b]);
    assert CutServices([a, b]) == [a, b];
  }

  /** Two services of one name, and one of another that agrees in lower case and in
      the characters that are kept: one more is left when it stands between them. */
  lemma RepeatCounts(text: string, lower: Lower)
    requires |text| == MAX_TEXT_CHARS && !IsWhitespace(text[0]) && lower(text + "x") == lower(text + "X")
    ensures var small, big, cut := Service(text + "x", None), Service(text + "X", None), Service(text, None);
            && BoundedServices([small, big, small], lower) == [cut, cut, cut]
            && BoundedServices([big, small, small], lower) == [cut, cut]
  {
    var small, big, cut := Service(text + "x", None), Service(text + "X", None), Service(text, None);
    CutToText(text, "x");
    CutToText(text, "X");
    assert small.name[|text|] != big.name[|text|];
    hide Named, CutService, KeptServices, Dedup, CutServices;
    AllInOrder(small, big, lower);
    ThreeApart(small, big);
    AllCut(small, big, cut);
  }

  lemma AllInOrder(a: Service, b: Service, lower: Lower)
    requires Named(a) && Named(b) && lower(a.name) == lower(b.name)
    ensures KeptServices([a, b, a], lower) == Dedup(SameName, [a, b, a])
    ensures KeptServices([b, a, a], lower) == Dedup(SameName, [b, a, a])
  {
    hide Named, KeptServices, Dedup;
    KeptInOrder([a, b, a], lower);
    KeptInOrder([b, a, a], lower);
  }

  lemma AllCut(a: Service, b: Service, cut: Service)
    requires CutService(a) == CutService(b) == cut
    ensures CutServices([a, b, a]) == [cut, cut, cut] && CutServices([b, a]) == [cut, cut]
  {
    hide CutService;
  }

  lemma ThreeApart(a: Service, b: Service)
    requires a.name != b.name
    ensures Dedup(SameName, [a, b, a]) == [a, b, a] && Dedup(SameName, [b, a, a]) == [b, a]
  {
    hide Dedup;
    DedupAll(SameName, [a, b, a]);
    DedupHead(SameName, b, [a, a]);
    DedupPair(SameName, a);
    assert [b] + [a, a] == [b, a, a] && [b] + [a] == [b, a];
  }

  lemma CutToText(text: string, end: string)
    requires |text| == MAX_TEXT_CHARS && !IsWhitespace(text[0]) && end != ""
    ensures Named(Service(text + end, None)) && CutService(Service(text + end, None)) == Service(text, None)
  {
    assert (text + end)[0] == text[0] && (text + end)[..|text|] == text;
    TrimEndKeeps(text + end, 0);
  }

  /** Services whose names agree in lower case stay in their order. */
  lemma KeptInOrder(services: seq<Service>, lower: Lower)
    requires forall s :: s in services ==> Named(s)
    requires forall s, t :: s in services && t in services ==> lower(s.name) == lower(t.name)
    requires |services| <= MAX_SERVICES
    ensures KeptServices(services, lower) == Dedup(SameName, services)
  {
    hide Named, AtMost, ByLower, Dedup, Sort, Retain;
    RanksAreLower(lower);
    RetainAll(Named, services);
    forall i, j | 0 <= i < j < |services| ensures ByLower(lower)(services[i], services[j]) {
      assert SameRank(ByLower(lower), services[i], services[j]);
    }
    SortOfSorted(ByLower(lower), services);
  }

  lemma DedupPair<T>(same: (T, T) -> bool, x: T)
    requires same(x, x)
    ensures Dedup(same, [x, x]) == [x]
  {
    assert [x] + [x, x][2..] == [x];
  }

  // ----- Interfaces ----------------------------------------------------------

  /** Interfaces with the name of a kept one are the same after bounding. */
  ghost predicate InterfacesAlike(interfaces: seq<Interface>) {
    forall k, v, w :: k in KeptInterfaces(interfaces) && v in interfaces && w in interfaces
                      && v.name == k.name == w.name ==>
      CutInterface(v) == CutInterface(w)
  }

  predicate Never(a: Interface, b: Interface) {
    false
  }

  lemma NameRanks()
    ensures TotalPreorder(ByName)
    ensures forall v, w :: SameRank(ByName, v, w) <==> v.name == w.name
  {
    ElementOrders(t => t);
    TextOrder();
  }

  lemma InterfacesAre(interfaces: seq<Interface>)
    ensures KeptInterfaces(interfaces) == Left(ByName, Never, MAX_INTERFACES, interfaces)
    ensures InterfacesAlike(interfaces) <==>
            Alike(ByName, CutInterface, Left(ByName, Never, MAX_INTERFACES, interfaces), multiset(interfaces))
  {
    NameRanks();
    DedupAll(Never, Sort(ByName, interfaces));
    hide Sort, Dedup, AtMost, CutInterface, ByName, TotalPreorder;
  }

  lemma InterfacesLookSame(a: seq<Interface>, b: seq<Interface>)
    ensures BoundedInterfaces(a) == BoundedInterfaces(b) <==>
            LookSame(CutInterface, KeptInterfaces(a), KeptInterfaces(b))
  {
    hide Sort, CutInterface;
    var k, l := KeptInterfaces(a), KeptInterfaces(b);
    var x, y := CutInterfaces(k), CutInterfaces(l);
    if LookSame(CutInterface, k, l) {
      assert x == y;
    }
  }

  lemma AlikeInterfacesStay(a: seq<Interface>, b: seq<Interface>)
    requires InterfacesAlike(a) && multiset(a) == multiset(b)
    ensures BoundedInterfaces(a) == BoundedInterfaces(b)
  {
    hide Sort, CutInterface, ByName, AtMost, LookSame, InterfacesAlike, Alike, BoundedInterfaces;
    NameRanks();
    InterfacesAre(a);
    InterfacesAre(b);
    SortedRanksAgree(ByName, a, b);
    hide Left;
    AlikeStays(ByName, Never, MAX_INTERFACES, CutInterface, a, b);
    InterfacesLookSame(a, b);
  }

  lemma UnlikeInterfacesChange(interfaces: seq<Interface>) returns (other: seq<Interface>)
    requires !InterfacesAlike(interfaces)
    ensures multiset(other) == multiset(interfaces) && BoundedInterfaces(other) != BoundedInterfaces(interfaces)
  {
    hide Left, CutInterface, ByName, AtMost, LookSame, InterfacesAlike, Alike, KeptInterfaces, BoundedInterfaces;
    NameRanks();
    InterfacesAre(interfaces);
    var a, b := UnlikeChanges(ByName, Never, MAX_INTERFACES, CutInterface, interfaces);
    InterfacesAre(a);
    InterfacesAre(b);
    InterfacesLookSame(a, b);
    other := if BoundedInterfaces(a) == BoundedInterfaces(interfaces) then b else a;
  }

  // ----- The whole inventory -------------------------------------------------

  /** The same elements, in any order. */
  ghost predicate Reordered(a: Content, b: Content) {
    && a.os == b.os && a.gateway == b.gateway
    && multiset(a.volumes) == multiset(b.volumes)
    && multiset(a.services) == multiset(b.services)
    && multiset(a.interfaces) == multiset(b.interfaces)
  }

  /** Volumes of one mount and interfaces of one name are the same after cutting, if
      one of them is kept; and the services are steady. */
  ghost predicate OrderFree(c: Content, lower: Lower) {
    VolumesAlike(c.volumes) && ServicesSteady(c.services, lower) && InterfacesAlike(c.interfaces)
  }

  lemma OtherOrderChanges(c: Content, lower: Lower, isAddress: string -> bool) returns (other: Content)
    requires !OrderFree(c, lower)
    ensures Reordered(c, other) && Bounded(other, lower, isAddress) != Bounded(c, lower, isAddress)
  {
    hide VolumesAlike, ServicesSteady, InterfacesAlike, BoundedVolumes, BoundedServices, BoundedInterfaces;
    if !VolumesAlike(c.volumes) {
      var volumes := UnlikeVolumesChange(c.volumes);
      other := c.(volumes := volumes);
    } else if !ServicesSteady(c.services, lower) {
      var services := OtherServicesChange(c.services, lower);
      other := c.(services := services);
    } else {
      var interfaces := UnlikeInterfacesChange(c.interfaces);
      other := c.(interfaces := interfaces);
    }
  }

  lemma OrderFreeStays(a: Content, b: Content, lower: Lower, isAddress: string -> bool)
    requires OrderFree(a, lower) && Reordered(a, b)
    ensures Bounded(a, lower, isAddress) == Bounded(b, lower, isAddress)
  {
    hide VolumesAlike, ServicesSteady, InterfacesAlike, BoundedVolumes, BoundedServices, BoundedInterfaces;
    AlikeVolumesStay(a.volumes, b.volumes);
    SteadyServicesStay(a.services, b.services, lower);
    AlikeInterfacesStay(a.interfaces, b.interfaces);
  }

  /** An inventory is bounded to the same in every order of its lists exactly when
      elements that sort as a kept one are the same after cutting, and how many
      services are left of those that sort alike never shows. */
  lemma OrderDoesNotMatter(c: Content, lower: Lower, isAddress: string -> bool)
    ensures (forall b :: Reordered(c, b) ==> Bounded(b, lower, isAddress) == Bounded(c, lower, isAddress)) <==>
            OrderFree(c, lower)
  {
    hide OrderFree, Reordered, Bounded;
    if OrderFree(c, lower) {
      forall b | Reordered(c, b) ensures Bounded(b, lower, isAddress) == Bounded(c, lower, isAddress) {
        OrderFreeStays(c, b, lower, isAddress);
      }
    } else {
      var b := OtherOrderChanges(c, lower, isAddress);
    }
  }
}
