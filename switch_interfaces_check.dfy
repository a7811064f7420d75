/**
 * The switch interfaces check: the vendor's command catalogue is chosen by
 * the host's platform, and once the checking tasks have filled in the
 * interfaces a report is written, one block per interface, each block made
 * of sections that appear only where they apply. Reading an attribute that
 * no task assigned raises, so the report either fails on the first such
 * attribute it reads or is complete.
 */
module SwitchInterfacesCheck {
  import opened Wrappers
  import opened PyText
  import opened SwitchObjects
  import opened Device
  import opened CheckInterfaces

  // ---------------------------------------------------------------------------
  // The vendor catalogue

  /** The catalogue entry for a platform: NX-OS is "Cisco Nexus", VRP is "Huawei CE", anything else is unsupported. */
  function CatalogueKey(platform: string): (r: Result<string>)
    ensures r.Ok? <==> platform == Nxos || platform == Huawei
    ensures r.Fail? ==> r.error == UnsupportedNOS(platform)
  {
    if platform == Nxos then Ok("Cisco Nexus")
    else if platform == Huawei then Ok("Huawei CE")
    else Fail(UnsupportedNOS(platform))
  }

  /** The platform a catalogue entry belongs to. */
  function PlatformOf(key: string): (r: Option<string>)
  {
    if key == "Cisco Nexus" then Some(Nxos)
    else if key == "Huawei CE" then Some(Huawei)
    else None
  }

  /** Each supported platform has its own entry: the entry names the platform back. */
  lemma CatalogueKeyRoundTrip(platform: string)
    requires CatalogueKey(platform).Ok?
    ensures PlatformOf(CatalogueKey(platform).value) == Some(platform)
  {
    if platform == Nxos {
      assert CatalogueKey(platform).value == "Cisco Nexus";
      assert "Cisco Nexus" != "Huawei CE";
    } else {
      assert CatalogueKey(platform).value == "Huawei CE";
      assert "Huawei CE" != "Cisco Nexus";
    }
  }

  /** The catalogue entry chosen for `platform` out of the whole catalogue. */
  function VendorVars(platform: string, catalogue: map<string, map<string, string>>): (r: Result<map<string, string>>)
    ensures r.Ok? ==>
      (CatalogueKey(platform).Ok? && CatalogueKey(platform).value in catalogue && r.value == catalogue[CatalogueKey(platform).value])
    ensures CatalogueKey(platform).Fail? ==> r == Fail(UnsupportedNOS(platform))
    ensures CatalogueKey(platform).Ok? && CatalogueKey(platform).value !in catalogue ==> r == Fail(MissingKey(CatalogueKey(platform).value))
  {
    var key :- CatalogueKey(platform);
    if key in catalogue then Ok(catalogue[key]) else Fail(MissingKey(key))
  }

  /** `task.host['vendor_vars'] = vendor_vars[...]`, chosen by the host's platform; nothing is stored when that raises. */
  method SelectVendorVars(host: Host, catalogue: map<string, map<string, string>>) returns (err: Option<Error>)
    modifies host`vendorVars
    ensures VendorVars(host.platform, catalogue).Ok? ==> err.None? && host.vendorVars == VendorVars(host.platform, catalogue).value
    ensures VendorVars(host.platform, catalogue).Fail? ==>
      err == Some(VendorVars(host.platform, catalogue).error) && host.vendorVars == old(host.vendorVars)
  {
    var key: string;
    if host.platform == Nxos {
      key := "Cisco Nexus";
    } else if host.platform == Huawei {
      key := "Huawei CE";
    } else {
      return Some(UnsupportedNOS(host.platform));
    }
    if key !in catalogue {
      return Some(MissingKey(key));
    }
    host.vendorVars := catalogue[key];
    return None;
  }

  // ---------------------------------------------------------------------------
  // Reading attributes

  /** The interface attributes the report reads that a task must have assigned first. */
  datatype Attribute =
    | Description | AdminStatus | OperStatus | MacAddress | Mtu
    | Speed | Duplex | LoadIn | LoadOut
    | Ipv4Neighbors | Ipv6Neighbors | Vrf | MacsLearned
    | SwitchMode | Pvid | VlanList | Members | Member

  /** The Python name of an attribute, as an AttributeError reports it. */
  function AttrName(a: Attribute): string {
    match a
    case Description => "description"
    case AdminStatus => "admin_status"
    case OperStatus => "oper_status"
    case MacAddress => "mac_address"
    case Mtu => "mtu"
    case Speed => "speed"
    case Duplex => "duplex"
    case LoadIn => "load_in"
    case LoadOut => "load_out"
    case Ipv4Neighbors => "ipv4_neighbors"
    case Ipv6Neighbors => "ipv6_neighbors"
    case Vrf => "vrf"
    case MacsLearned => "macs_learned"
    case SwitchMode => "switch_mode"
    case Pvid => "pvid"
    case VlanList => "vlan_list"
    case Members => "members"
    case Member => "member"
  }

  predicate Assigned(s: InterfaceState, a: Attribute) {
    match a
    case Description => s.details.description.Some?
    case AdminStatus => s.adminStatus.Some?
    case OperStatus => s.operStatus.Some?
    case MacAddress => s.details.macAddress.Some?
    case Mtu => s.details.mtu.Some?
    case Speed => s.details.speed.Some?
    case Duplex => s.details.duplex.Some?
    case LoadIn => s.details.loadIn.Some?
    case LoadOut => s.details.loadOut.Some?
    case Ipv4Neighbors => s.ipv4Neighbors.Some?
    case Ipv6Neighbors => s.ipv6Neighbors.Some?
    case Vrf => s.details.vrf.Some?
    case MacsLearned => s.macsLearned.Some?
    case SwitchMode => s.details.switchMode.Some?
    case Pvid => s.details.pvid.Some?
    case VlanList => s.details.vlanList.Some?
    case Members => s.details.members.Some?
    case Member => s.details.member.Some?
  }

  /** The first of `order` that `s` lacks. */
  function FirstMissing(s: InterfaceState, order: seq<Attribute>): (r: Option<Attribute>)
    ensures r.None? <==> forall k :: 0 <= k < |order| ==> Assigned(s, order[k])
    ensures r.Some? ==> exists k :: (0 <= k < |order| && order[k] == r.value && !Assigned(s, r.value) &&
      forall j :: 0 <= j < k ==> Assigned(s, order[j]))
  {
    if order == [] then None
    else if !Assigned(s, order[0]) then Some(order[0])
    else
      var rest := FirstMissing(s, order[1..]);
      assert rest.Some? ==> exists k :: (0 <= k < |order| && order[k] == rest.value && !Assigned(s, rest.value) &&
        forall j :: 0 <= j < k ==> Assigned(s, order[j])) by {
        if rest.Some? {
          var k :| 0 <= k < |order| - 1 && order[1..][k] == rest.value && !Assigned(s, rest.value) &&
            forall j :: 0 <= j < k ==> Assigned(s, order[1..][j]);
          assert order[k + 1] == rest.value;
        }
      }
      rest
  }

  lemma {:induction false} FirstMissingAppend(s: InterfaceState, a: seq<Attribute>, b: seq<Attribute>)
    ensures FirstMissing(s, a + b) == if FirstMissing(s, a).Some? then FirstMissing(s, a) else FirstMissing(s, b)
    decreases |a|
  {
    if a == [] {
      assert a + b == b;
    } else {
      assert (a + b)[0] == a[0] && (a + b)[1..] == a[1..] + b;
      FirstMissingAppend(s, a[1..], b);
    }
  }

  /**
   * `r` is what reading the attributes `order` one after the other gives:
   * the AttributeError of the first one not assigned, or a value when all are.
   */
  predicate ReadsInOrder<T>(s: InterfaceState, r: Result<T>, order: seq<Attribute>) {
    match FirstMissing(s, order)
    case None => r.Ok?
    case Some(a) => r.Fail? && r.error == MissingAttribute(AttrName(a))
  }

  /** Text from two parts read one after the other. */
  function Then(a: Result<string>, b: Result<string>): (r: Result<string>)
    ensures r.Ok? <==> a.Ok? && b.Ok?
    ensures r.Ok? ==> r.value == a.value + b.value
    ensures a.Fail? ==> r == a
    ensures a.Ok? && b.Fail? ==> r == b
  {
    var x :- a;
    var y :- b;
    Ok(x + y)
  }

  /** Reading two parts one after the other reads their attributes one after the other. */
  lemma ThenReads(s: InterfaceState, a: Result<string>, ra: seq<Attribute>, b: Result<string>, rb: seq<Attribute>)
    requires ReadsInOrder(s, a, ra) && ReadsInOrder(s, b, rb)
    ensures ReadsInOrder(s, Then(a, b), ra + rb)
  {
    FirstMissingAppend(s, ra, rb);
  }

  /** `str(interface.attr)`, for an attribute that is assigned. */
  function FieldText(s: InterfaceState, a: Attribute): string
    requires Assigned(s, a)
  {
    match a
    case Description => Text(s.details.description.value)
    case AdminStatus => s.adminStatus.value
    case OperStatus => s.operStatus.value
    case MacAddress => Text(s.details.macAddress.value)
    case Mtu => Text(s.details.mtu.value)
    case Speed => Text(s.details.speed.value)
    case Duplex => Text(s.details.duplex.value)
    case LoadIn => Text(s.details.loadIn.value)
    case LoadOut => Text(s.details.loadOut.value)
    case Ipv4Neighbors => DecimalText(s.ipv4Neighbors.value)
    case Ipv6Neighbors => DecimalText(s.ipv6Neighbors.value)
    case Vrf => Text(s.details.vrf.value)
    case MacsLearned => DecimalText(s.macsLearned.value)
    case SwitchMode => Text(s.details.switchMode.value)
    case Pvid => Text(s.details.pvid.value)
    case VlanList => Text(s.details.vlanList.value)
    case Members => Join(", ", s.details.members.value)
    case Member => Text(s.details.member.value)
  }

  /** The text of each attribute of `order`, read one after the other; the first unassigned one raises. */
  function Fields(s: InterfaceState, order: seq<Attribute>): (r: Result<seq<string>>)
    ensures ReadsInOrder(s, r, order)
    ensures r.Ok? ==> |r.value| == |order| && forall k :: 0 <= k < |order| ==> Assigned(s, order[k]) && r.value[k] == FieldText(s, order[k])
  {
    if order == [] then Ok([])
    else if !Assigned(s, order[0]) then Fail(MissingAttribute(AttrName(order[0])))
    else
      var rest :- Fields(s, order[1..]);
      Ok([FieldText(s, order[0])] + rest)
  }

  // ---------------------------------------------------------------------------
  // The sections of one interface's block

  const HeadReads := [Description, AdminStatus, OperStatus, MacAddress, Mtu]

  /** Name and description, status, and mode/MAC/MTU: present for every interface. */
  function HeadLines(s: InterfaceState): (r: Result<string>)
    ensures ReadsInOrder(s, r, HeadReads)
    ensures r.Ok? ==> StartsWith(r.value, "\tInterface " + s.name + " with \"")
  {
    var f :- Fields(s, HeadReads);
    var head := "\tInterface " + s.name + " with \"";
    var rest := f[0] + "\" description\n"
      + "\t\tadmin status: " + f[1] + ", operational status:" + f[2] + "\n"
      + "\t\t" + s.mode + " mode, MAC address " + f[3] + ", MTU " + f[4] + " bytes\n";
    StartsWithConcat(head, rest);
    Ok(head + rest)
  }

  /** The interface is up and is a physical port or a LAG. */
  predicate ShowsLoad(s: InterfaceState) {
    s.operStatus == Some("up") && !(s.svi || s.subinterface)
  }

  function LoadReads(s: InterfaceState): seq<Attribute> {
    [OperStatus] + if ShowsLoad(s) then [Speed, Duplex, LoadIn, LoadOut] else []
  }

  /** Speed, duplex and load: only for an interface that is up and neither an SVI nor a subinterface. */
  function LoadLine(s: InterfaceState): (r: Result<string>)
    ensures ReadsInOrder(s, r, LoadReads(s))
    ensures r.Ok? ==> (r.value != [] <==> ShowsLoad(s))
  {
    var f :- Fields(s, LoadReads(s));
    if ShowsLoad(s) then Ok("\t\t" + f[1] + " Gb/s, " + f[2] + " duplex, " + f[3] + "/" + f[4] + " in/out Gb/s load\n")
    else Ok([])
  }

  /** `', '.join([str(x) for x in addresses])`. */
  function AddressList(addresses: seq<IPAddress>): (r: string)
    ensures r == "" <==> addresses == []
    ensures addresses != [] ==> StartsWith(r, AddressText(addresses[0]))
  {
    if addresses == [] then ""
    else if |addresses| == 1 then AddressText(addresses[0])
    else AddressText(addresses[0]) + ", " + AddressList(addresses[1..])
  }

  /** The line about one address list: "No IPv4 addresses" (or IPv6) exactly when the list is empty. */
  function AddressLine(v6: bool, addresses: seq<IPAddress>): (r: string)
    ensures r == "\t\tNo " + (if v6 then "IPv6" else "IPv4") + " addresses\n" <==> addresses == []
  {
    var family := if v6 then "IPv6" else "IPv4";
    if addresses != [] then
      var r := "\t\t" + family + " addresses on interface: " + AddressList(addresses) + "\n";
      assert r[2] == 'I';
      r
    else "\t\tNo " + family + " addresses\n"
  }

  function AddressReads(s: InterfaceState): seq<Attribute> {
    if s.mode == Routed then [Ipv4Neighbors, Ipv6Neighbors] else []
  }

  /** Addresses and neighbour counts: only for a routed interface. */
  function AddressLines(s: InterfaceState): (r: Result<string>)
    ensures ReadsInOrder(s, r, AddressReads(s))
    ensures r.Ok? ==> (r.value != [] <==> s.mode == Routed)
  {
    var f :- Fields(s, AddressReads(s));
    if s.mode == Routed then
      Ok(AddressLine(false, s.ipv4Addresses) + AddressLine(true, s.ipv6Addresses)
         + "\t\tNumber or neighbors learned (ARP/NDP): " + f[0] + "/" + f[1] + "\n")
    else Ok([])
  }

  function VrfReads(s: InterfaceState): seq<Attribute> {
    if s.mode == Routed then [Vrf] else []
  }

  /** The VRF binding: only for a routed interface whose VRF is set. */
  function VrfLine(s: InterfaceState): (r: Result<string>)
    ensures ReadsInOrder(s, r, VrfReads(s))
    ensures r.Ok? ==> (r.value != [] <==> s.mode == Routed && Truthy(s.details.vrf.value))
  {
    var f :- Fields(s, VrfReads(s));
    if s.mode == Routed && Truthy(s.details.vrf.value) then Ok("\t\tInterface is bound to VRF " + f[0] + "\n")
    else Ok([])
  }

  function MacReads(s: InterfaceState): seq<Attribute> {
    if s.mode == Switched || s.svi then [MacsLearned] else []
  }

  /** The MAC count: only for a switched interface or an SVI. */
  function MacLine(s: InterfaceState): (r: Result<string>)
    ensures ReadsInOrder(s, r, MacReads(s))
    ensures r.Ok? ==> (r.value != [] <==> s.mode == Switched || s.svi)
  {
    var f :- Fields(s, MacReads(s));
    if s.mode == Switched || s.svi then Ok("\t\tMAC addresses learned on interface: " + f[0] + "\n")
    else Ok([])
  }

  /** The switchport mode is the string 'trunk'. */
  predicate IsTrunk(s: InterfaceState) {
    s.details.switchMode == Some(PyStr("trunk"))
  }

  /** For a switched interface: its switchport mode and PVID, then the allowed VLAN list, which only a trunk reads. */
  function VlanReads(s: InterfaceState): seq<Attribute> {
    if s.mode == Switched then [SwitchMode, Pvid] + (if IsTrunk(s) then [VlanList] else []) else []
  }

  /** Switchport mode and PVID, with the allowed list of a trunk: only for a switched interface. */
  function VlanLine(s: InterfaceState): (r: Result<string>)
    ensures ReadsInOrder(s, r, VlanReads(s))
    ensures r.Ok? ==> (r.value != [] <==> s.mode == Switched)
  {
    var f :- Fields(s, VlanReads(s));
    if s.mode == Switched then
      var allowed := if IsTrunk(s) then ", allowed list - " + f[2] else "";
      Ok("\t\tVLANs configuration: " + f[0] + " mode, PVID - " + f[1] + allowed + "\n")
    else Ok([])
  }

  function LagReads(s: InterfaceState): seq<Attribute> {
    if s.lag then [Members] else if !s.svi && !s.subinterface then [Member] else []
  }

  /** A LAG lists its members; a physical port that belongs to a LAG names it. */
  function LagLine(s: InterfaceState): (r: Result<string>)
    ensures ReadsInOrder(s, r, LagReads(s))
    ensures r.Ok? ==> (r.value != [] <==> s.lag || (!s.svi && !s.subinterface && Truthy(s.details.member.value)))
  {
    var f :- Fields(s, LagReads(s));
    if s.lag then Ok("\t\tLAG members are: [" + f[0] + "]\n")
    else if !s.svi && !s.subinterface && Truthy(s.details.member.value) then
      Ok("\t\tInterface is a member of LAG: " + f[0] + "\n")
    else Ok([])
  }

  // ---------------------------------------------------------------------------
  // The report

  /** Parts of text written one after the other, stopping at the first failure. */
  function ThenAll(parts: seq<Result<string>>): (r: Result<string>)
    ensures r.Ok? <==> forall k :: 0 <= k < |parts| ==> parts[k].Ok?
    ensures r.Ok? && parts != [] ==> StartsWith(r.value, parts[0].value)
  {
    if parts == [] then Ok([])
    else
      var r := Then(parts[0], ThenAll(parts[1..]));
      assert (forall k :: 0 <= k < |parts| ==> parts[k].Ok?) <==>
             parts[0].Ok? && forall k :: 0 <= k < |parts| - 1 ==> parts[1..][k].Ok? by {
        if parts[0].Ok? && forall k :: 0 <= k < |parts| - 1 ==> parts[1..][k].Ok? {
          forall k | 0 <= k < |parts| ensures parts[k].Ok? {
            if k > 0 { assert parts[k] == parts[1..][k - 1]; }
          }
        }
      }
      assert r.Ok? ==> r.value[..|parts[0].value|] == parts[0].value;
      r
  }

  /** The attribute lists one after the other. */
  function Flatten(orders: seq<seq<Attribute>>): seq<Attribute> {
    if orders == [] then [] else orders[0] + Flatten(orders[1..])
  }

  /** Parts that each read their own attributes in order read them all in order, part by part. */
  lemma {:induction false} ThenAllReads(s: InterfaceState, parts: seq<Result<string>>, orders: seq<seq<Attribute>>)
    requires |parts| == |orders|
    requires forall k :: 0 <= k < |parts| ==> ReadsInOrder(s, parts[k], orders[k])
    ensures ReadsInOrder(s, ThenAll(parts), Flatten(orders))
    decreases |parts|
  {
    if parts != [] {
      ThenAllReads(s, parts[1..], orders[1..]);
      ThenReads(s, parts[0], orders[0], ThenAll(parts[1..]), Flatten(orders[1..]));
    }
  }

  /** The sections of one interface's block, in the order they are written. */
  function Sections(s: InterfaceState): seq<Result<string>> {
    [HeadLines(s), LoadLine(s), AddressLines(s), VrfLine(s), MacLine(s), VlanLine(s), LagLine(s)]
  }

  /** The attributes each section reads. */
  function SectionReads(s: InterfaceState): seq<seq<Attribute>> {
    [HeadReads, LoadReads(s), AddressReads(s), VrfReads(s), MacReads(s), VlanReads(s), LagReads(s)]
  }

  /** Each section reads exactly its own attributes, in order. */
  lemma SectionsRead(s: InterfaceState)
    ensures |Sections(s)| == |SectionReads(s)|
    ensures forall k :: 0 <= k < |Sections(s)| ==> ReadsInOrder(s, Sections(s)[k], SectionReads(s)[k])
  {
    hide ReadsInOrder, FirstMissing;
    assert ReadsInOrder(s, HeadLines(s), HeadReads);
    assert ReadsInOrder(s, LoadLine(s), LoadReads(s));
    assert ReadsInOrder(s, AddressLines(s), AddressReads(s));
    assert ReadsInOrder(s, VrfLine(s), VrfReads(s));
    assert ReadsInOrder(s, MacLine(s), MacReads(s));
    assert ReadsInOrder(s, VlanLine(s), VlanReads(s));
    assert ReadsInOrder(s, LagLine(s), LagReads(s));
  }

  /** One interface's block of the report. */
  function Block(s: InterfaceState): (r: Result<string>)
    ensures ReadsInOrder(s, r, Flatten(SectionReads(s)))
    ensures r.Ok? ==> StartsWith(r.value, "\tInterface " + s.name + " with \"")
  {
    SectionsJoined(s);
    ThenAll(Sections(s))
  }

  /** The sections joined read the block's attributes in order and open with the name line. */
  lemma SectionsJoined(s: InterfaceState)
    ensures ReadsInOrder(s, ThenAll(Sections(s)), Flatten(SectionReads(s)))
    ensures ThenAll(Sections(s)).Ok? ==> StartsWith(ThenAll(Sections(s)).value, "\tInterface " + s.name + " with \"")
  {
    hide ReadsInOrder, FirstMissing, Fields, LoadLine, AddressLines, VrfLine, MacLine, VlanLine, LagLine;
    var parts := Sections(s);
    SectionsRead(s);
    ThenAllReads(s, parts, SectionReads(s));
    if ThenAll(parts).Ok? {
      StartsWithTrans(ThenAll(parts).value, parts[0].value, "\tInterface " + s.name + " with \"");
    }
  }

  const ReportHeader := "Interfaces state and characteristics:\n"

  /** The blocks of the interfaces, one per interface, in list order. */
  function BlockSeq(sts: seq<InterfaceState>): (r: seq<Result<string>>)
    ensures |r| == |sts| && forall k :: 0 <= k < |sts| ==> r[k] == Block(sts[k])
  {
    seq(|sts|, k requires 0 <= k < |sts| => Block(sts[k]))
  }

  /** The blocks of the interfaces written in list order, or the first block's failure. */
  function Blocks(sts: seq<InterfaceState>): (r: Result<string>)
    ensures r.Ok? <==> forall k :: 0 <= k < |sts| ==> Block(sts[k]).Ok?
    ensures r.Ok? && sts != [] ==> StartsWith(r.value, Block(sts[0]).value)
  {
    ThenAll(BlockSeq(sts))
  }

  /** The whole report: its header, then the blocks. */
  function Report(sts: seq<InterfaceState>): (r: Result<string>)
    ensures r.Ok? <==> Blocks(sts).Ok?
    ensures r.Ok? ==> StartsWith(r.value, ReportHeader) && r.value[|ReportHeader|..] == Blocks(sts).value
    ensures r.Fail? ==> r == Blocks(sts)
  {
    Prepend(ReportHeader, Blocks(sts))
  }

  lemma ThenAllNil()
    ensures ThenAll([]) == Ok([])
  {
  }

  lemma ThenAllCons(parts: seq<Result<string>>)
    requires parts != []
    ensures ThenAll(parts) == Then(parts[0], ThenAll(parts[1..]))
  {
  }

  /** Writing two runs of parts one after the other is writing the joined run. */
  lemma {:induction false} ThenAllAppend(a: seq<Result<string>>, b: seq<Result<string>>)
    ensures ThenAll(a + b) == Then(ThenAll(a), ThenAll(b))
    decreases |a|
  {
    hide ThenAll, Then;
    if a == [] {
      ThenAllNil();
      assert a + b == b;
      if ThenAll(b).Ok? {
        assert [] + ThenAll(b).value == ThenAll(b).value;
      }
    } else {
      ThenAllCons(a);
      ThenAllCons(a + b);
      assert (a + b)[0] == a[0] && (a + b)[1..] == a[1..] + b;
      ThenAllAppend(a[1..], b);
      ThenAssociative(a[0], ThenAll(a[1..]), ThenAll(b));
    }
  }

  /** Grouping does not matter when parts are written one after the other. */
  lemma ThenAssociative(x: Result<string>, y: Result<string>, z: Result<string>)
    ensures Then(x, Then(y, z)) == Then(Then(x, y), z)
  {
    if x.Ok? && y.Ok? && z.Ok? {
      assert x.value + (y.value + z.value) == x.value + y.value + z.value;
    }
  }

  /** A run of parts that fails fails with the error of its first failing part. */
  lemma {:induction false} ThenAllFirstFailure(parts: seq<Result<string>>)
    ensures ThenAll(parts).Fail? ==> exists k :: (0 <= k < |parts| && ThenAll(parts) == parts[k] &&
      forall j :: 0 <= j < k ==> parts[j].Ok?)
    decreases |parts|
  {
    if parts != [] {
      var rest := parts[1..];
      ThenAllFirstFailure(rest);
      if parts[0].Ok? && ThenAll(rest).Fail? {
        var k :| 0 <= k < |rest| && ThenAll(rest) == rest[k] && forall j :: 0 <= j < k ==> rest[j].Ok?;
        assert rest[k] == parts[k + 1];
        assert forall j :: 0 < j < k + 1 ==> parts[j] == rest[j - 1];
      }
    }
  }

  /** The blocks of two lists one after the other are the blocks of the joined list. */
  lemma BlocksAppend(a: seq<InterfaceState>, b: seq<InterfaceState>)
    ensures Blocks(a + b) == Then(Blocks(a), Blocks(b))
  {
    hide Block, BlockSeq, ThenAll;
    var x, y, z := BlockSeq(a + b), BlockSeq(a), BlockSeq(b);
    forall k | 0 <= k < |x| ensures x[k] == (y + z)[k] {
      if k < |a| { assert (a + b)[k] == a[k]; } else { assert (a + b)[k] == b[k - |a|]; }
    }
    assert x == y + z;
    ThenAllAppend(BlockSeq(a), BlockSeq(b));
  }

  /**
   * The report fails exactly when some interface's block fails, and then
   * with the failure of the first such interface; otherwise it starts with
   * its header.
   */
  lemma ReportFirstFailure(sts: seq<InterfaceState>)
    ensures Report(sts).Ok? <==> forall k :: 0 <= k < |sts| ==> Block(sts[k]).Ok?
    ensures Report(sts).Fail? ==> exists k :: (0 <= k < |sts| && Report(sts) == Block(sts[k]) &&
      forall j :: 0 <= j < k ==> Block(sts[j]).Ok?)
    ensures Report(sts).Ok? ==> StartsWith(Report(sts).value, ReportHeader)
  {
    hide Block;
    ThenAllFirstFailure(BlockSeq(sts));
    if Report(sts).Ok? {
      assert Report(sts).value[..|ReportHeader|] == ReportHeader;
    }
  }

  /** Writes the report over the host's interfaces, block by block. */
  method RenderReport(host: Host) returns (r: Result<string>)
    ensures r == Report(StatesOf(host.interfaces))
  {
    hide Block;
    var ifs := host.interfaces;
    ghost var sts := StatesOf(ifs);
    ghost var parts := BlockSeq(sts);
    var result := ReportHeader;
    var i := 0;
    while i < |ifs|
      invariant 0 <= i <= |ifs|
      invariant Prepend(result, ThenAll(parts[i..])) == Report(sts)
    {
      assert parts[i..][0] == Block(ifs[i].State()) && parts[i..][1..] == parts[i + 1..];
      var block := Block(ifs[i].State());
      if block.Fail? {
        return Fail(block.error);
      }
      ghost var rest := ThenAll(parts[i + 1..]);
      if rest.Ok? {
        assert result + (block.value + rest.value) == (result + block.value) + rest.value;
      }
      result := result + block.value;
      i := i + 1;
    }
    assert parts[i..] == [];
    assert result + [] == result;
    return Ok(result);
  }
}
