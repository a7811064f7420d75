/**
 * The interface checking tasks: administrative and operational status, L2/L3
 * mode, IP addresses and IP neighbour counts. Each reads the device's CLI
 * output and assigns the results to the host's interfaces in place, one
 * interface after the other, stopping at the first exception.
 */
module CheckInterfaces {
  import opened Wrappers
  import opened PyText
  import opened Patterns
  import opened SwitchObjects
  import opened Device

  const Nxos := "nxos"
  const Huawei := "huawei_vrpv8"

  // ---------------------------------------------------------------------------
  // Interface names in brief tables

  /** The abbreviated form NX-OS uses in its brief table: "Ethernet..." becomes "Eth...", "port-channel..." becomes "Po...". */
  function CiscoCompactName(name: string): (r: string)
    ensures |r| <= |name|
    ensures Contains(name, "Ethernet") ==> |name| >= 8 && r == "Eth" + name[8..]
    ensures !Contains(name, "Ethernet") && Contains(name, "port-channel") ==> |name| >= 12 && r == "Po" + name[12..]
    ensures !Contains(name, "Ethernet") && !Contains(name, "port-channel") ==> r == name
  {
    if Contains(name, "Ethernet") then "Eth" + Slice(name, 8, |name|)
    else if Contains(name, "port-channel") then "Po" + Slice(name, 12, |name|)
    else name
  }

  /** The abbreviation keeps everything after the long prefix, and leaves other names alone. */
  lemma CompactNameKeepsSuffix(name: string)
    ensures StartsWith(name, "Ethernet") ==> CiscoCompactName(name) == "Eth" + name[8..]
    ensures StartsWith(name, "port-channel") && !Contains(name, "Ethernet") ==> CiscoCompactName(name) == "Po" + name[12..]
    ensures !Contains(name, "Ethernet") && !Contains(name, "port-channel") ==> CiscoCompactName(name) == name
  {
    if StartsWith(name, "Ethernet") {
      assert OccursAt(name, "Ethernet", 0);
    }
    if StartsWith(name, "port-channel") {
      assert OccursAt(name, "port-channel", 0);
    }
  }

  /**
   * The line of `out` that starts at `start`: up to the next newline, or, on
   * the last line (where `find` gives -1), up to but excluding the final character.
   */
  function BriefLine(out: string, start: nat): (r: string)
    requires start <= |out|
    ensures forall k :: 0 <= k < |r| ==> r[k] != '\n'
    ensures (exists e :: start <= e < |out| && out[e] == '\n') ==>
      start + |r| < |out| && out[start..start + |r|] == r && out[start + |r|] == '\n'
    ensures (forall e :: start <= e < |out| ==> out[e] != '\n') && start < |out| ==> r == out[start..|out| - 1]
  {
    var e := Find(out, "\n", start);
    if e == -1 then
      assert forall j :: start <= j < |out| ==> out[j] != '\n' by {
        forall j | start <= j < |out| ensures out[j] != '\n' { OccursAtChar(out, '\n', j); }
      }
      Slice(out, start, e)
    else
      OccursAtChar(out, '\n', e);
      assert forall j :: start <= j < e ==> out[j] != '\n' by {
        forall j | start <= j < e ensures out[j] != '\n' { OccursAtChar(out, '\n', j); }
      }
      Slice(out, start, e)
  }

  // ---------------------------------------------------------------------------
  // Status

  datatype LinkStatus = LinkStatus(admin: string, oper: string)

  /** Both statuses are 'up' or 'down', and an administratively down interface is operationally down. */
  predicate Consistent(st: LinkStatus) {
    && (st.admin == "up" || st.admin == "down")
    && (st.oper == "up" || st.oper == "down")
    && (st.admin == "down" ==> st.oper == "down")
  }

  /** NX-OS brief line: " up " means up/up, else "Administratively down" means down/down, else up/down. */
  function NxosStatus(line: string): (r: LinkStatus)
    ensures Consistent(r)
    ensures r == LinkStatus("up", "up") <==> Contains(line, " up ")
    ensures r == LinkStatus("down", "down") <==> !Contains(line, " up ") && Contains(line, "Administratively down")
  {
    if Contains(line, " up ") then LinkStatus("up", "up")
    else if Contains(line, "Administratively down") then LinkStatus("down", "down")
    else LinkStatus("up", "down")
  }

  /** Huawei physical status: "*down" (shut down) is down/down, "down" is up/down, anything else up/up. */
  function HuaweiStatus(phy: string): (r: LinkStatus)
    ensures Consistent(r)
    ensures r.admin == "down" <==> phy == "*down"
    ensures r.oper == "down" <==> phy == "*down" || phy == "down"
  {
    if phy == "*down" then LinkStatus("down", "down")
    else if phy == "down" then LinkStatus("up", "down")
    else LinkStatus("up", "up")
  }

  /** The name the brief table lists an interface under: NX-OS abbreviates it. */
  function BriefName(nos: string, name: string): (r: string)
    ensures nos != Nxos ==> r == name
    ensures nos == Nxos ==> r == CiscoCompactName(name)
  {
    if nos == Nxos then CiscoCompactName(name) else name
  }

  /** The physical status column read as a table: the contract of `HuaweiStatus` leaves no other choice. */
  lemma HuaweiStatusTable(phy: string)
    ensures HuaweiStatus("*down") == LinkStatus("down", "down")
    ensures HuaweiStatus("down") == LinkStatus("up", "down")
    ensures phy != "*down" && phy != "down" ==> HuaweiStatus(phy) == LinkStatus("up", "up")
  {
    hide HuaweiStatus;
  }

  /** The Huawei brief-table pattern for one interface name. */
  function HuaweiStatusPattern(name: string): (string, nat) -> Option<Hit<string>> {
    (t: string, j: nat) => HuaweiStatusAt(t, j, name)
  }

  /** The status of one interface read from the brief table `brief`. */
  function StatusStep(nos: string, brief: string, s: InterfaceState): (r: Result<LinkStatus>)
    ensures r.Ok? ==> Consistent(r.value)
    ensures r.Ok? ==> Contains(brief, BriefName(nos, s.name))
    ensures r.Ok? ==> nos == Nxos || nos == Huawei
    ensures !Contains(brief, BriefName(nos, s.name)) ==> r == Fail(SubstringNotFound(BriefName(nos, s.name)))
    ensures Contains(brief, BriefName(nos, s.name)) ==>
      var line := BriefLine(brief, Index(brief, BriefName(nos, s.name)).value);
      && (nos == Nxos ==> r == Ok(NxosStatus(line)))
      && (nos == Huawei && Search(line, HuaweiStatusPattern(s.name)).Some? ==>
            r == Ok(HuaweiStatus(Search(line, HuaweiStatusPattern(s.name)).value)))
      && (nos == Huawei && Search(line, HuaweiStatusPattern(s.name)).None? ==> r.Fail? && r.error.NoMatch?)
      && (nos != Nxos && nos != Huawei ==> r == Fail(UnsupportedNOS(nos)))
  {
    var name := BriefName(nos, s.name);
    var start :- Index(brief, name);
    var line := BriefLine(brief, start);
    if nos == Nxos then Ok(NxosStatus(line))
    else if nos == Huawei then
      match Search(line, HuaweiStatusPattern(s.name))
      case None => Fail(NoMatch(s.name + "(\\(.+\\))?\\s+(\\*?(down|up))"))
      case Some(phy) => Ok(HuaweiStatus(phy))
    else Fail(UnsupportedNOS(nos))
  }

  function StatusOutcome(nos: string, brief: string, s: InterfaceState, w: Wire): (r: Outcome)
    ensures r.wire == w
  {
    match StatusStep(nos, brief, s)
    case Ok(st) => Outcome(s.(adminStatus := Some(st.admin), operStatus := Some(st.oper)), w, None)
    case Fail(e) => Outcome(s, w, Some(e))
  }

  function StatusStepper(nos: string, brief: string): (InterfaceState, Wire) -> Outcome {
    (s, w) => StatusOutcome(nos, brief, s, w)
  }

  /** Only the two status attributes differ. */
  predicate StatusOnly(a: InterfaceState, b: InterfaceState) {
    b == a.(adminStatus := b.adminStatus, operStatus := b.operStatus)
  }

  /** Only the two status attributes differ, and they hold a consistent status. */
  predicate StatusAssigned(a: InterfaceState, b: InterfaceState) {
    StatusOnly(a, b) && b.adminStatus.Some? && b.operStatus.Some? &&
    Consistent(LinkStatus(b.adminStatus.value, b.operStatus.value))
  }

  /**
   * `check_interfaces_status` on the interfaces `sts` (rebuilt in the default
   * mode from `names` when that is non-empty) with the session `w`.
   */
  function StatusTask(nos: string, vars: map<string, string>, names: seq<string>, sts: seq<InterfaceState>, w: Wire): (r: Run)
    ensures |r.states| == |if names != [] then Rebuilt(names, Switched) else sts|
    ensures "show interfaces brief" !in vars ==>
      r == Run(if names != [] then Rebuilt(names, Switched) else sts, w, Some(MissingKey("show interfaces brief")))
  {
    var start := if names != [] then Rebuilt(names, Switched) else sts;
    match Lookup(vars, "show interfaces brief")
    case Fail(e) => Run(start, w, Some(e))
    case Ok(cmd) =>
      var (w1, out) := Send(w, cmd);
      if out.Fail? then Run(start, w1, Some(out.error))
      else RunFrom(StatusStepper(nos, out.value), start, 0, w1)
  }

  /**
   * The status task sends exactly one command, the brief table, and every
   * interface it gets to receives a consistent status and nothing else; when
   * it raises nothing, every interface has one.
   */
  lemma StatusTaskSound(nos: string, vars: map<string, string>, names: seq<string>, sts: seq<InterfaceState>, w: Wire)
    ensures var r := StatusTask(nos, vars, names, sts, w);
      var start := if names != [] then Rebuilt(names, Switched) else sts;
      && |r.states| == |start|
      && ("show interfaces brief" in vars ==> r.wire.sent == w.sent + [vars["show interfaces brief"]])
      && (forall k :: 0 <= k < |start| ==> StatusOnly(start[k], r.states[k]))
      && (r.error.None? ==> forall k :: 0 <= k < |start| ==> StatusAssigned(start[k], r.states[k]))
  {
    var start := if names != [] then Rebuilt(names, Switched) else sts;
    if "show interfaces brief" in vars {
      var (w1, out) := Send(w, vars["show interfaces brief"]);
      if out.Ok? {
        var step := StatusStepper(nos, out.value);
        RunFromKeeps(step, StatusAssigned, StatusOnly, start, 0, w1);
        RunFromQuiet(step, start, 0, w1);
      }
    }
  }

  /**
   * With an operating system other than NX-OS and VRP, a non-empty list fails
   * on its first interface and nothing is assigned: `index` raises first when
   * the name is missing from the table, `UnsupportedNOS` otherwise.
   */
  lemma StatusUnsupported(nos: string, brief: string, sts: seq<InterfaceState>, w: Wire)
    requires nos != Nxos && nos != Huawei && sts != []
    ensures RunFrom(StatusStepper(nos, brief), sts, 0, w).states == sts
    ensures RunFrom(StatusStepper(nos, brief), sts, 0, w).error ==
      Some(if Contains(brief, sts[0].name) then UnsupportedNOS(nos) else SubstringNotFound(sts[0].name))
  {
    var o := StatusOutcome(nos, brief, sts[0], w);
    assert o.error.Some?;
    assert sts[0 := o.state] == sts;
  }

  /** Assigns the status of one interface. */
  method UpdateStatus(ifc: SwitchInterface, nos: string, brief: string, ghost w: Wire) returns (err: Option<Error>)
    modifies ifc
    ensures Outcome(ifc.State(), w, err) == StatusOutcome(nos, brief, old(ifc.State()), w)
  {
    hide NxosStatus;
    hide HuaweiStatus;
    hide BriefLine;
    hide CiscoCompactName;
    var name := if nos == Nxos then CiscoCompactName(ifc.name) else ifc.name;
    var start := Index(brief, name);
    if start.Fail? {
      return Some(start.error);
    }
    var line := BriefLine(brief, start.value);
    var st: LinkStatus;
    if nos == Nxos {
      st := NxosStatus(line);
    } else if nos == Huawei {
      var phy := Search(line, HuaweiStatusPattern(ifc.name));
      if phy.None? {
        return Some(NoMatch(ifc.name + "(\\(.+\\))?\\s+(\\*?(down|up))"));
      }
      st := HuaweiStatus(phy.value);
    } else {
      return Some(UnsupportedNOS(nos));
    }
    ifc.adminStatus := Some(st.admin);
    ifc.operStatus := Some(st.oper);
    return None;
  }

  /** The loop of `check_interfaces_status` over the host's current interfaces, with the brief table `brief`. */
  method StatusLoop(host: Host, brief: string) returns (err: Option<Error>)
    requires host.Valid()
    modifies host.interfaces
    ensures Run(StatesOf(host.interfaces), host.connection.Value(), err)
         == RunFrom(StatusStepper(host.nornirNos, brief), old(StatesOf(host.interfaces)), 0, host.connection.Value())
  {
    hide StatesOf;
    hide StatusOutcome;
    var ifs := host.interfaces;
    ghost var w := host.connection.Value();
    ghost var start := StatesOf(ifs);
    ghost var cur := start;
    ghost var step := StatusStepper(host.nornirNos, brief);
    var i := 0;
    while i < |ifs|
      invariant 0 <= i <= |ifs|
      invariant |cur| == |ifs| && forall k :: 0 <= k < |ifs| ==> ifs[k].State() == cur[k]
      invariant RunFrom(step, cur, i, w) == RunFrom(step, start, 0, w)
    {
      err := UpdateStatus(ifs[i], host.nornirNos, brief, w);
      cur := cur[i := ifs[i].State()];
      if err.Some? {
        assert StatesOf(ifs) == cur;
        return;
      }
      i := i + 1;
    }
    assert StatesOf(ifs) == cur;
    return None;
  }

  /** `check_interfaces_status(task, interface_list)`; the returned error is the exception raised, if any. */
  method CheckInterfacesStatus(host: Host, interfaceList: seq<string>) returns (err: Option<Error>)
    requires host.Valid()
    modifies host, host.interfaces, host.connection
    ensures host.Valid() && host.vendorVars == old(host.vendorVars)
    ensures Run(StatesOf(host.interfaces), host.connection.Value(), err)
         == StatusTask(host.nornirNos, host.vendorVars, interfaceList, old(StatesOf(host.interfaces)), old(host.connection.Value()))
  {
    hide StatusOutcome;
    if interfaceList != [] {
      host.Rebuild(interfaceList, Switched);
    }
    var cmd := Lookup(host.vendorVars, "show interfaces brief");
    if cmd.Fail? {
      return Some(cmd.error);
    }
    var out := host.connection.SendCommand(cmd.value);
    if out.Fail? {
      return Some(out.error);
    }
    err := StatusLoop(host, out.value);
  }

  // ---------------------------------------------------------------------------
  // IP addresses

  /** The IPv4 entries of the matches, in order: primary exactly when the match has no secondary marker. */
  function Ipv4Entries(found: seq<AddressCapture>): (r: seq<IPAddress>)
    requires forall k :: 0 <= k < |found| ==> |found[k].prefix| >= 1 && AllDigits(found[k].prefix)
    ensures |r| == |found|
    ensures forall k :: 0 <= k < |found| ==>
      r[k].address == found[k].address && r[k].prefixLength == DecimalValue(found[k].prefix) &&
      (r[k].primary <==> found[k].marker == "")
  {
    seq(|found|, k requires 0 <= k < |found| => NewIPAddress(found[k].address, found[k].prefix, PyStr(found[k].marker)))
  }

  /** The entries of the matches, in order, none of them primary. */
  function SecondaryEntries(found: seq<AddressCapture>): (r: seq<IPAddress>)
    requires forall k :: 0 <= k < |found| ==> |found[k].prefix| >= 1 && AllDigits(found[k].prefix)
    ensures |r| == |found|
    ensures forall k :: 0 <= k < |found| ==>
      r[k].address == found[k].address && r[k].prefixLength == DecimalValue(found[k].prefix)
    ensures Secondary(r)
  {
    seq(|found|, k requires 0 <= k < |found| => NewIPAddress(found[k].address, found[k].prefix, PyBool(true)))
  }

  /** No entry is marked primary. */
  predicate Secondary(entries: seq<IPAddress>) {
    forall k :: 0 <= k < |entries| ==> !entries[k].primary
  }

  /** Only the address lists differ, and each only by entries added at its end. */
  predicate AddressesAppended(a: InterfaceState, b: InterfaceState) {
    && b == a.(ipv4Addresses := b.ipv4Addresses, ipv6Addresses := b.ipv6Addresses)
    && a.ipv4Addresses <= b.ipv4Addresses
    && a.ipv6Addresses <= b.ipv6Addresses
  }

  const LinkLocalPrefix := "64"

  /** `IPAddress(address, '64', True)`: the entry of a link-local address. */
  function LinkLocalEntry(address: string): (r: IPAddress)
    ensures r.address == address && r.prefixLength == 64 && !r.primary
  {
    assert DecimalValue(LinkLocalPrefix) == DecimalValue("6") * 10 + 4;
    NewIPAddress(address, LinkLocalPrefix, PyBool(true))
  }

  /** The entries appended to one address list, and the exception that cut the parsing short, if any. */
  datatype Appended = Appended(entries: seq<IPAddress>, error: Option<Error>)

  /** NX-OS `show ip interface` (`out`): one entry per address, unless IPv4 is disabled. */
  function NxosIpv4(out: string): (r: seq<IPAddress>)
    ensures Contains(out, "IP is disabled") ==> r == []
    ensures !Contains(out, "IP is disabled") ==> |r| == |NxosIpv4All(out)|
    ensures !Contains(out, "IP is disabled") ==> forall k :: 0 <= k < |r| ==>
      var c := NxosIpv4All(out)[k];
      r[k].address == c.address && r[k].prefixLength == DecimalValue(c.prefix) && (r[k].primary <==> c.marker != " secondary")
    ensures forall k :: 0 <= k < |r| ==> r[k].prefixLength <= 99
  {
    if Contains(out, "IP is disabled") then []
    else
      var found := NxosIpv4All(out);
      PrefixesBelow100(found);
      Ipv4Entries(found)
  }

  /** Prefix lengths of at most two digits are at most 99. */
  lemma PrefixesBelow100(found: seq<AddressCapture>)
    requires forall k :: 0 <= k < |found| ==> WellFormed(found[k], 2, " secondary")
    ensures forall k :: 0 <= k < |found| ==> AllDigits(found[k].prefix) && DecimalValue(found[k].prefix) <= 99
  {
    forall k | 0 <= k < |found| ensures AllDigits(found[k].prefix) && DecimalValue(found[k].prefix) <= 99 {
      DecimalBound(found[k].prefix);
      assert Pow10(|found[k].prefix|) <= 100;
    }
  }

  /** The entries of the NX-OS secondary IPv6 block, which runs from its heading to the first link-local line. */
  function NxosSecondaries(out: string): (r: Result<seq<IPAddress>>)
    ensures r.Ok? ==> Secondary(r.value)
    ensures r.Fail? <==> Contains(out, "Secondary configured addresses") && !Contains(out, "IPv6 link-local address")
    ensures r.Fail? ==> r.error == SubstringNotFound("IPv6 link-local address")
    ensures !Contains(out, "Secondary configured addresses") ==> r == Ok([])
  {
    var secStart := Find(out, "Secondary configured addresses", 0);
    if secStart == -1 then Ok([])
    else
      var secEnd :- Index(out, "IPv6 link-local address");
      Ok(SecondaryEntries(HexSlashAll(Slice(out, secStart, secEnd))))
  }

  /**
   * The secondary block is the text from the first "Secondary configured
   * addresses" up to the first "IPv6 link-local address" (empty when that
   * comes first); it holds one entry per `findall` match, in order.
   */
  lemma NxosSecondaryBlock(out: string)
    requires Contains(out, "Secondary configured addresses") && Contains(out, "IPv6 link-local address")
    ensures var block := Slice(out, Find(out, "Secondary configured addresses", 0), Find(out, "IPv6 link-local address", 0));
      && NxosSecondaries(out) == Ok(SecondaryEntries(HexSlashAll(block)))
      && Scanned(block, 0, HexSlashAt, HexSlashAll(block))
      && |NxosSecondaries(out).value| == |HexSlashAll(block)|
      && forall k :: 0 <= k < |HexSlashAll(block)| ==>
        NxosSecondaries(out).value[k].address == HexSlashAll(block)[k].address &&
        NxosSecondaries(out).value[k].prefixLength == DecimalValue(HexSlashAll(block)[k].prefix)
  {
  }

  /** The NX-OS IPv6 entries once the three patterns matched: primary, link-local, then the secondary block. */
  function NxosIpv6Found(primary: string, prefix: string, linkLocal: string, secondaries: Result<seq<IPAddress>>): (r: Appended)
    requires 1 <= |prefix| && AllDigits(prefix)
    requires secondaries.Ok? ==> Secondary(secondaries.value)
    ensures |r.entries| >= 2 && r.entries[0].primary && r.entries[1].prefixLength == 64
    ensures Secondary(r.entries[1..])
    ensures r.error.Some? <==> secondaries.Fail?
    ensures r.error.Some? ==> r.error.value == secondaries.error && |r.entries| == 2
    ensures r.entries[0].address == primary && r.entries[0].prefixLength == DecimalValue(prefix)
    ensures r.entries[1] == LinkLocalEntry(linkLocal)
    ensures secondaries.Ok? ==> r.entries[2..] == secondaries.value
  {
    var head := NewIPAddress(primary, prefix, PyNone);
    var linkLocalEntry := LinkLocalEntry(linkLocal);
    match secondaries
    case Fail(e) => Appended([head, linkLocalEntry], Some(e))
    case Ok(more) =>
      assert ([head, linkLocalEntry] + more)[1..] == [linkLocalEntry] + more;
      Appended([head, linkLocalEntry] + more, None)
  }

  /**
   * NX-OS `show ipv6 interface` (`out`), unless IPv6 is disabled: the primary
   * address, then the link-local one, then the secondary block; every
   * pattern must match, and what was appended before an exception stays.
   */
  function NxosIpv6(out: string): (r: Appended)
    ensures Contains(out, "IPv6 is disabled") ==> r == Appended([], None)
    ensures !Contains(out, "IPv6 is disabled") && r.error.None? ==>
      |r.entries| >= 2 && r.entries[0].primary && r.entries[1].prefixLength == 64 && Secondary(r.entries[1..])
    ensures r.error.Some? ==> r.error.value.NoMatch? && r.entries == []
    ensures !Contains(out, "IPv6 is disabled") ==>
      (r.error.None? <==> Search(out, NxosIpv6AddressAt).Some? && NxosIpv6Prefix(out).Some? && Search(out, NxosLinkLocalAt).Some?)
    ensures !Contains(out, "IPv6 is disabled") && r.error.None? ==>
      && r.entries[0].address == Search(out, NxosIpv6AddressAt).value
      && r.entries[0].prefixLength == DecimalValue(NxosIpv6Prefix(out).value)
      && r.entries[1].address == Search(out, NxosLinkLocalAt).value
      && NxosSecondaries(out).Ok? && r.entries[2..] == NxosSecondaries(out).value
  {
    if Contains(out, "IPv6 is disabled") then Appended([], None)
    else
      match Search(out, NxosIpv6AddressAt)
      case None => Appended([], Some(NoMatch("IPv6 address: (\\S+)")))
      case Some(primary) =>
        match NxosIpv6Prefix(out)
        case None => Appended([], Some(NoMatch("IPv6 subnet:  \\S+/(\\d{1,3})")))
        case Some(prefix) =>
          match Search(out, NxosLinkLocalAt)
          case None => Appended([], Some(NoMatch("IPv6 link-local address: (\\S+)")))
          case Some(linkLocal) =>
            LinkLocalHeading(out);
            NxosIpv6Found(primary, prefix, linkLocal, NxosSecondaries(out))
  }

  /** Where the link-local pattern matches, its caption is in the output, so the secondary block always has an end. */
  lemma LinkLocalHeading(out: string)
    requires Search(out, NxosLinkLocalAt).Some?
    ensures Contains(out, "IPv6 link-local address")
  {
    hide Search, Find, Lit, RunEnd, OccursAt, StartsWith;
    var i :| 0 <= i <= |out| && NxosLinkLocalAt(out, i).Some?;
    var heading := "IPv6 link-local address";
    StartsWithConcat(heading, ": ");
    assert heading + ": " == "IPv6 link-local address: ";
    OccursPrefix(out, heading + ": ", heading, i);
  }

  /** VRP `display ip interface` (`out`): one entry per address when any is configured. */
  function HuaweiIpv4(out: string): (r: seq<IPAddress>)
    ensures !Contains(out, "Internet Address is") ==> r == []
    ensures Contains(out, "Internet Address is") ==> |r| == |HuaweiIpv4All(out)|
    ensures Contains(out, "Internet Address is") ==> forall k :: 0 <= k < |r| ==>
      var c := HuaweiIpv4All(out)[k];
      r[k].address == c.address && r[k].prefixLength == DecimalValue(c.prefix) && (r[k].primary <==> c.marker != " Sub")
  {
    if Contains(out, "Internet Address is") then Ipv4Entries(HuaweiIpv4All(out)) else []
  }

  /** The VRP IPv6 entries once the link-local address matched: that one, then the global ones, none primary. */
  function HuaweiIpv6Found(linkLocal: string, globals: seq<AddressCapture>): (r: seq<IPAddress>)
    requires forall k :: 0 <= k < |globals| ==> |globals[k].prefix| >= 1 && AllDigits(globals[k].prefix)
    ensures |r| == 1 + |globals| && r[0].address == linkLocal && r[0].prefixLength == 64 && Secondary(r)
    ensures forall k :: 0 <= k < |globals| ==>
      r[k + 1].address == globals[k].address && r[k + 1].prefixLength == DecimalValue(globals[k].prefix)
  {
    var more := SecondaryEntries(globals);
    assert forall k :: 0 <= k < |globals| ==> ([LinkLocalEntry(linkLocal)] + more)[k + 1] == more[k];
    [LinkLocalEntry(linkLocal)] + more
  }

  /** VRP `display ipv6 interface` (`out`), when IPv6 is configured: the link-local address, then the global ones, none primary. */
  function HuaweiIpv6(out: string): (r: Appended)
    ensures Contains(out, "The IPv6 address does not exist") ==> r == Appended([], None)
    ensures r.error.None? && !Contains(out, "The IPv6 address does not exist") ==>
      |r.entries| == 1 + |HuaweiIpv6All(out)| && r.entries[0].prefixLength == 64
    ensures Secondary(r.entries)
    ensures r.error.Some? ==> r.error.value.NoMatch? && r.entries == []
    ensures !Contains(out, "The IPv6 address does not exist") ==> (r.error.None? <==> Search(out, HuaweiLinkLocalAt).Some?)
    ensures r.error.None? && !Contains(out, "The IPv6 address does not exist") ==>
      && r.entries[0].address == Search(out, HuaweiLinkLocalAt).value
      && forall k :: 0 <= k < |HuaweiIpv6All(out)| ==>
        r.entries[k + 1].address == HuaweiIpv6All(out)[k].address &&
        r.entries[k + 1].prefixLength == DecimalValue(HuaweiIpv6All(out)[k].prefix)
  {
    if Contains(out, "The IPv6 address does not exist") then Appended([], None)
    else
      match Search(out, HuaweiLinkLocalAt)
      case None => Appended([], Some(NoMatch("link-local address is ([0-9A-Fa-f:]+)")))
      case Some(linkLocal) => Appended(HuaweiIpv6Found(linkLocal, HuaweiIpv6All(out)), None)
  }

  /** The step's outcome once both outputs are parsed: the IPv4 entries, then the IPv6 ones, are appended. */
  function AddressesRead(s: InterfaceState, v4: seq<IPAddress>, v6: Appended, w: Wire): (r: Outcome)
    ensures AddressesAppended(s, r.state) && r.wire == w && r.error == v6.error
    ensures r.state.ipv4Addresses[|s.ipv4Addresses|..] == v4 && r.state.ipv6Addresses[|s.ipv6Addresses|..] == v6.entries
  {
    Outcome(s.(ipv4Addresses := s.ipv4Addresses + v4, ipv6Addresses := s.ipv6Addresses + v6.entries), w, v6.error)
  }

  /** One interface of `get_interfaces_ip_addresses`: two commands, then the addresses the outputs report. */
  function IpStep(nos: string, vars: map<string, string>, s: InterfaceState, w: Wire): (r: Outcome)
    ensures w.sent <= r.wire.sent && |r.wire.sent| <= |w.sent| + 2
  {
    match Command(vars, "show ipv4 interface", [s.name])
    case Fail(e) => Outcome(s, w, Some(e))
    case Ok(c4) =>
      var (w1, out4) := Send(w, c4);
      if out4.Fail? then Outcome(s, w1, Some(out4.error))
      else match Command(vars, "show ipv6 interface", [s.name])
      case Fail(e) => Outcome(s, w1, Some(e))
      case Ok(c6) =>
        var (w2, out6) := Send(w1, c6);
        if out6.Fail? then Outcome(s, w2, Some(out6.error))
        else AddressesParsed(nos, s, out4.value, out6.value, w2)
  }

  /** The step's outcome once both commands have answered: the outputs parsed by the device's own patterns. */
  function AddressesParsed(nos: string, s: InterfaceState, out4: string, out6: string, w: Wire): Outcome {
    if nos == Nxos then AddressesRead(s, NxosIpv4(out4), NxosIpv6(out6), w)
    else if nos == Huawei then AddressesRead(s, HuaweiIpv4(out4), HuaweiIpv6(out6), w)
    else Outcome(s, w, Some(UnsupportedNOS(nos)))
  }

  function IpStepper(nos: string, vars: map<string, string>): (InterfaceState, Wire) -> Outcome {
    (s, w) => IpStep(nos, vars, s, w)
  }

  /** `get_interfaces_ip_addresses` over `sts` from position 0 with the session `w`. */
  function IpRun(nos: string, vars: map<string, string>, sts: seq<InterfaceState>, w: Wire): (r: Run)
    ensures |r.states| == |sts| && w.sent <= r.wire.sent
  {
    RunFromLogs(IpStepper(nos, vars), sts, 0, w);
    RunFrom(IpStepper(nos, vars), sts, 0, w)
  }

  /** One interface's step only adds addresses at the end of its lists. */
  lemma IpStepAppends(nos: string, vars: map<string, string>, s: InterfaceState, w: Wire)
    ensures AddressesAppended(s, IpStep(nos, vars, s, w).state)
  {
    hide NxosIpv4;
    hide NxosIpv6;
    hide HuaweiIpv4;
    hide HuaweiIpv6;
    hide Command;
    hide Send;
  }

  /** Addresses are only ever added at the end of the lists, and no other attribute changes. */
  lemma IpRunAppends(nos: string, vars: map<string, string>, sts: seq<InterfaceState>, w: Wire)
    ensures |IpRun(nos, vars, sts, w).states| == |sts|
    ensures forall k :: 0 <= k < |sts| ==> AddressesAppended(sts[k], IpRun(nos, vars, sts, w).states[k])
  {
    hide IpStep;
    forall s: InterfaceState, v: Wire ensures AddressesAppended(s, IpStep(nos, vars, s, v).state) {
      IpStepAppends(nos, vars, s, v);
    }
    RunFromKeeps(IpStepper(nos, vars), AddressesAppended, AddressesAppended, sts, 0, w);
  }

  /** Every interface sends its IPv4 command, then its IPv6 one, and consumes one reply for each, whatever the operating system. */
  lemma IpCommands(nos: string, vars: map<string, string>, s: InterfaceState, w: Wire)
    requires Command(vars, "show ipv4 interface", [s.name]).Ok? && Command(vars, "show ipv6 interface", [s.name]).Ok?
    requires |w.pending| >= 2
    ensures IpStep(nos, vars, s, w).wire == Wire(w.pending[2..],
      w.sent + [Command(vars, "show ipv4 interface", [s.name]).value, Command(vars, "show ipv6 interface", [s.name]).value])
  {
    hide NxosIpv4, NxosIpv6, HuaweiIpv4, HuaweiIpv6, Command;
    assert w.pending[1..][1..] == w.pending[2..];
  }

  /** An operating system other than NX-OS and VRP raises once the first interface's two commands are sent. */
  lemma IpUnsupported(nos: string, vars: map<string, string>, s: InterfaceState, w: Wire)
    requires nos != Nxos && nos != Huawei
    ensures IpStep(nos, vars, s, w).state == s
    ensures IpStep(nos, vars, s, w).error.Some?
    ensures var c4 := Command(vars, "show ipv4 interface", [s.name]);
      var c6 := Command(vars, "show ipv6 interface", [s.name]);
      c4.Ok? && c6.Ok? && |w.pending| >= 2 ==>
        IpStep(nos, vars, s, w) == Outcome(s, Wire(w.pending[2..], w.sent + [c4.value, c6.value]), Some(UnsupportedNOS(nos)))
  {
    hide Command;
    if |w.pending| >= 2 {
      assert w.pending[1..][1..] == w.pending[2..];
    }
  }

  /** Appends one IPv4 entry per match, in order. */
  method AppendIpv4(ifc: SwitchInterface, found: seq<AddressCapture>)
    requires forall k :: 0 <= k < |found| ==> |found[k].prefix| >= 1 && AllDigits(found[k].prefix)
    modifies ifc`ipv4Addresses
    ensures ifc.ipv4Addresses == old(ifc.ipv4Addresses) + Ipv4Entries(found)
  {
    for k := 0 to |found|
      invariant ifc.ipv4Addresses == old(ifc.ipv4Addresses) + Ipv4Entries(found[..k])
    {
      var c := found[k];
      assert Ipv4Entries(found[..k + 1]) == Ipv4Entries(found[..k]) + [NewIPAddress(c.address, c.prefix, PyStr(c.marker))];
      ifc.ipv4Addresses := ifc.ipv4Addresses + [NewIPAddress(c.address, c.prefix, PyStr(c.marker))];
    }
    assert found[..|found|] == found;
  }

  /** Appends one non-primary IPv6 entry per match, in order. */
  method AppendSecondaryIpv6(ifc: SwitchInterface, found: seq<AddressCapture>)
    requires forall k :: 0 <= k < |found| ==> |found[k].prefix| >= 1 && AllDigits(found[k].prefix)
    modifies ifc`ipv6Addresses
    ensures ifc.ipv6Addresses == old(ifc.ipv6Addresses) + SecondaryEntries(found)
  {
    for k := 0 to |found|
      invariant ifc.ipv6Addresses == old(ifc.ipv6Addresses) + SecondaryEntries(found[..k])
    {
      var c := found[k];
      assert SecondaryEntries(found[..k + 1]) == SecondaryEntries(found[..k]) + [NewIPAddress(c.address, c.prefix, PyBool(true))];
      ifc.ipv6Addresses := ifc.ipv6Addresses + [NewIPAddress(c.address, c.prefix, PyBool(true))];
    }
    assert found[..|found|] == found;
  }

  /** Appends the IPv4 addresses of NX-OS `show ip interface`. */
  method UpdateNxosIpv4(ifc: SwitchInterface, out: string)
    modifies ifc`ipv4Addresses
    ensures ifc.ipv4Addresses == old(ifc.ipv4Addresses) + NxosIpv4(out)
  {
    if !Contains(out, "IP is disabled") {
      AppendIpv4(ifc, NxosIpv4All(out));
    }
  }

  /** Appends the entries of the NX-OS secondary IPv6 block, if there is one. */
  method AppendNxosSecondaries(ifc: SwitchInterface, out: string) returns (err: Option<Error>)
    modifies ifc`ipv6Addresses
    ensures NxosSecondaries(out).Ok? ==>
      ifc.ipv6Addresses == old(ifc.ipv6Addresses) + NxosSecondaries(out).value && err.None?
    ensures NxosSecondaries(out).Fail? ==> ifc.ipv6Addresses == old(ifc.ipv6Addresses) && err == Some(NxosSecondaries(out).error)
  {
    var secStart := Find(out, "Secondary configured addresses", 0);
    if secStart != -1 {
      var secEnd := Index(out, "IPv6 link-local address");
      if secEnd.Fail? {
        return Some(secEnd.error);
      }
      AppendSecondaryIpv6(ifc, HexSlashAll(Slice(out, secStart, secEnd.value)));
    } else {
      assert old(ifc.ipv6Addresses) + [] == old(ifc.ipv6Addresses);
    }
    return None;
  }

  /** Appends the primary and link-local IPv6 addresses, then the secondary block. */
  method AppendNxosFound(ifc: SwitchInterface, primary: string, prefix: string, linkLocal: string, out: string)
    returns (err: Option<Error>)
    requires 1 <= |prefix| && AllDigits(prefix)
    modifies ifc`ipv6Addresses
    ensures ifc.ipv6Addresses == old(ifc.ipv6Addresses) + NxosIpv6Found(primary, prefix, linkLocal, NxosSecondaries(out)).entries
    ensures err == NxosIpv6Found(primary, prefix, linkLocal, NxosSecondaries(out)).error
  {
    hide NxosSecondaries, NewIPAddress, LinkLocalEntry, NxosIpv6Found;
    ghost var before := ifc.ipv6Addresses;
    ghost var known := [NewIPAddress(primary, prefix, PyNone), LinkLocalEntry(linkLocal)];
    ifc.ipv6Addresses := ifc.ipv6Addresses + [NewIPAddress(primary, prefix, PyNone)];
    ifc.ipv6Addresses := ifc.ipv6Addresses + [LinkLocalEntry(linkLocal)];
    assert ifc.ipv6Addresses == before + known;
    err := AppendNxosSecondaries(ifc, out);
    ghost var sec := NxosSecondaries(out);
    NxosIpv6FoundParts(primary, prefix, linkLocal, sec);
    assert sec.Ok? ==> ifc.ipv6Addresses == before + (known + sec.value);
  }

  /** `NxosIpv6Found` in pieces: the two known entries, then the block when it was read. */
  lemma NxosIpv6FoundParts(primary: string, prefix: string, linkLocal: string, secondaries: Result<seq<IPAddress>>)
    requires 1 <= |prefix| && AllDigits(prefix)
    requires secondaries.Ok? ==> Secondary(secondaries.value)
    ensures var r := NxosIpv6Found(primary, prefix, linkLocal, secondaries);
      var known := [NewIPAddress(primary, prefix, PyNone), LinkLocalEntry(linkLocal)];
      && (secondaries.Ok? ==> r == Appended(known + secondaries.value, None))
      && (secondaries.Fail? ==> r == Appended(known, Some(secondaries.error)))
  {
  }

  /** Appends the IPv6 addresses of NX-OS `show ipv6 interface`. */
  method UpdateNxosIpv6(ifc: SwitchInterface, out: string) returns (err: Option<Error>)
    modifies ifc`ipv6Addresses
    ensures ifc.ipv6Addresses == old(ifc.ipv6Addresses) + NxosIpv6(out).entries
    ensures err == NxosIpv6(out).error
  {
    hide Search, NxosIpv6Prefix, NxosSecondaries, NxosIpv6Found, Contains;
    if Contains(out, "IPv6 is disabled") {
      return None;
    }
    var primary := Search(out, NxosIpv6AddressAt);
    if primary.None? {
      return Some(NoMatch("IPv6 address: (\\S+)"));
    }
    var prefix := NxosIpv6Prefix(out);
    if prefix.None? {
      return Some(NoMatch("IPv6 subnet:  \\S+/(\\d{1,3})"));
    }
    var linkLocal := Search(out, NxosLinkLocalAt);
    if linkLocal.None? {
      return Some(NoMatch("IPv6 link-local address: (\\S+)"));
    }
    err := AppendNxosFound(ifc, primary.value, prefix.value, linkLocal.value, out);
  }

  /** Appends the IPv4 addresses of VRP `display ip interface`. */
  method UpdateHuaweiIpv4(ifc: SwitchInterface, out: string)
    modifies ifc`ipv4Addresses
    ensures ifc.ipv4Addresses == old(ifc.ipv4Addresses) + HuaweiIpv4(out)
  {
    if Contains(out, "Internet Address is") {
      AppendIpv4(ifc, HuaweiIpv4All(out));
    }
  }

  /** Appends the IPv6 addresses of VRP `display ipv6 interface`. */
  method UpdateHuaweiIpv6(ifc: SwitchInterface, out: string) returns (err: Option<Error>)
    modifies ifc`ipv6Addresses
    ensures ifc.ipv6Addresses == old(ifc.ipv6Addresses) + HuaweiIpv6(out).entries
    ensures err == HuaweiIpv6(out).error
  {
    if Contains(out, "The IPv6 address does not exist") {
      return None;
    }
    var linkLocal := Search(out, HuaweiLinkLocalAt);
    if linkLocal.None? {
      return Some(NoMatch("link-local address is ([0-9A-Fa-f:]+)"));
    }
    AppendHuaweiFound(ifc, linkLocal.value, HuaweiIpv6All(out));
    return None;
  }

  /** Appends the VRP link-local entry, then one entry per global address. */
  method AppendHuaweiFound(ifc: SwitchInterface, linkLocal: string, globals: seq<AddressCapture>)
    requires forall k :: 0 <= k < |globals| ==> |globals[k].prefix| >= 1 && AllDigits(globals[k].prefix)
    modifies ifc`ipv6Addresses
    ensures ifc.ipv6Addresses == old(ifc.ipv6Addresses) + HuaweiIpv6Found(linkLocal, globals)
  {
    ifc.ipv6Addresses := ifc.ipv6Addresses + [LinkLocalEntry(linkLocal)];
    AppendSecondaryIpv6(ifc, globals);
    assert ifc.ipv6Addresses == old(ifc.ipv6Addresses) + ([LinkLocalEntry(linkLocal)] + SecondaryEntries(globals));
  }

  /** Reads and appends the addresses of one interface. */
  method UpdateAddresses(ifc: SwitchInterface, nos: string, vars: map<string, string>, conn: Connection) returns (err: Option<Error>)
    modifies ifc, conn
    ensures Outcome(ifc.State(), conn.Value(), err) == IpStep(nos, vars, old(ifc.State()), old(conn.Value()))
  {
    hide AddressesParsed, Command;
    var c4 := Command(vars, "show ipv4 interface", [ifc.name]);
    if c4.Fail? {
      return Some(c4.error);
    }
    var out4 := conn.SendCommand(c4.value);
    if out4.Fail? {
      return Some(out4.error);
    }
    var c6 := Command(vars, "show ipv6 interface", [ifc.name]);
    if c6.Fail? {
      return Some(c6.error);
    }
    var out6 := conn.SendCommand(c6.value);
    if out6.Fail? {
      return Some(out6.error);
    }
    err := StoreAddresses(ifc, nos, out4.value, out6.value, conn.Value());
  }

  /** Parses both outputs with the device's patterns and appends what they report, the IPv4 entries first. */
  method StoreAddresses(ifc: SwitchInterface, nos: string, out4: string, out6: string, ghost w: Wire) returns (err: Option<Error>)
    modifies ifc
    ensures Outcome(ifc.State(), w, err) == AddressesParsed(nos, old(ifc.State()), out4, out6, w)
  {
    if nos == Nxos {
      UpdateNxosIpv4(ifc, out4);
      err := UpdateNxosIpv6(ifc, out6);
    } else if nos == Huawei {
      UpdateHuaweiIpv4(ifc, out4);
      err := UpdateHuaweiIpv6(ifc, out6);
    } else {
      err := Some(UnsupportedNOS(nos));
    }
  }

  /** The loop of `get_interfaces_ip_addresses` over the host's current interfaces. */
  method ReadAddresses(host: Host) returns (err: Option<Error>)
    requires host.Valid()
    modifies host.interfaces, host.connection
    ensures Run(StatesOf(host.interfaces), host.connection.Value(), err)
         == IpRun(host.nornirNos, host.vendorVars, old(StatesOf(host.interfaces)), old(host.connection.Value()))
  {
    hide StatesOf;
    hide IpStep;
    var conn := host.connection;
    var ifs := host.interfaces;
    ghost var start := StatesOf(ifs);
    ghost var cur := start;
    ghost var w0 := conn.Value();
    ghost var step := IpStepper(host.nornirNos, host.vendorVars);
    var i := 0;
    while i < |ifs|
      invariant 0 <= i <= |ifs|
      invariant |cur| == |ifs| && forall k :: 0 <= k < |ifs| ==> ifs[k].State() == cur[k]
      invariant RunFrom(step, cur, i, conn.Value()) == RunFrom(step, start, 0, w0)
    {
      err := UpdateAddresses(ifs[i], host.nornirNos, host.vendorVars, conn);
      cur := cur[i := ifs[i].State()];
      if err.Some? {
        assert StatesOf(ifs) == cur;
        return;
      }
      i := i + 1;
    }
    assert StatesOf(ifs) == cur;
    return None;
  }

  /** `get_interfaces_ip_addresses(task, interface_list)`: a given list is rebuilt as routed interfaces. */
  method GetInterfacesIpAddresses(host: Host, interfaceList: seq<string>) returns (err: Option<Error>)
    requires host.Valid()
    modifies host, host.interfaces, host.connection
    ensures host.Valid() && host.vendorVars == old(host.vendorVars)
    ensures Run(StatesOf(host.interfaces), host.connection.Value(), err)
         == IpRun(host.nornirNos, host.vendorVars,
                  if interfaceList != [] then Rebuilt(interfaceList, Routed) else old(StatesOf(host.interfaces)),
                  old(host.connection.Value()))
  {
    hide IpStep;
    if interfaceList != [] {
      host.Rebuild(interfaceList, Routed);
    }
    err := ReadAddresses(host);
  }

  // ---------------------------------------------------------------------------
  // Mode

  /** NX-OS brief line: "routed" wins, then "trunk" or "access" mean switched; anything else is undetermined. */
  function NxosMode(line: string): (r: Option<string>)
    ensures r == Some(Routed) <==> Contains(line, "routed")
    ensures r == Some(Switched) <==> !Contains(line, "routed") && (Contains(line, "trunk") || Contains(line, "access"))
    ensures r.None? <==> !Contains(line, "routed") && !Contains(line, "trunk") && !Contains(line, "access")
  {
    if Contains(line, "routed") then Some(Routed)
    else if Contains(line, "trunk") || Contains(line, "access") then Some(Switched)
    else None
  }

  /** VRP `display interface`: "Switch Port" wins, then "Route Port"; anything else is undetermined. */
  function HuaweiMode(out: string): (r: Option<string>)
    ensures r == Some(Switched) <==> Contains(out, "Switch Port")
    ensures r == Some(Routed) <==> !Contains(out, "Switch Port") && Contains(out, "Route Port")
    ensures r.None? <==> !Contains(out, "Switch Port") && !Contains(out, "Route Port")
  {
    if Contains(out, "Switch Port") then Some(Switched)
    else if Contains(out, "Route Port") then Some(Routed)
    else None
  }

  /** One interface of `get_interfaces_mode`; `brief` is the NX-OS brief table fetched before the loop. */
  function ModeStep(nos: string, vars: map<string, string>, brief: string, s: InterfaceState, w: Wire): (r: Outcome)
    ensures nos != Huawei || s.svi || s.subinterface ==> r.wire == w
    ensures nos == Huawei && !s.svi && !s.subinterface && Command(vars, "show interface", [s.name]).Ok? ==>
      r.wire.sent == w.sent + [Command(vars, "show interface", [s.name]).value]
  {
    if s.svi || s.subinterface then Outcome(s, w, None)
    else if nos == Nxos then
      match Index(brief, CiscoCompactName(s.name))
      case Fail(e) => Outcome(s, w, Some(e))
      case Ok(start) =>
        match NxosMode(BriefLine(brief, start))
        case None => Outcome(s, w, Some(ModeUndetermined(s.name)))
        case Some(m) => Outcome(s.(mode := m), w, None)
    else if nos == Huawei then
      match Command(vars, "show interface", [s.name])
      case Fail(e) => Outcome(s, w, Some(e))
      case Ok(cmd) =>
        var (w1, out) := Send(w, cmd);
        if out.Fail? then Outcome(s, w1, Some(out.error))
        else match HuaweiMode(out.value)
        case None => Outcome(s, w1, Some(ModeUndetermined(s.name)))
        case Some(m) => Outcome(s.(mode := m), w1, None)
    else Outcome(s, w, Some(UnsupportedNOS(nos)))
  }

  function ModeStepper(nos: string, vars: map<string, string>, brief: string): (InterfaceState, Wire) -> Outcome {
    (s, w) => ModeStep(nos, vars, brief, s, w)
  }

  /** Only the mode may differ, and SVIs and subinterfaces keep theirs. */
  predicate ModeOnly(a: InterfaceState, b: InterfaceState) {
    b == a.(mode := b.mode) && (a.svi || a.subinterface ==> b == a)
  }

  /** `ModeOnly`, and every other interface is now routed or switched. */
  predicate ModeAssigned(a: InterfaceState, b: InterfaceState) {
    ModeOnly(a, b) && (!a.svi && !a.subinterface ==> b.mode == Routed || b.mode == Switched)
  }

  /** `get_interfaces_mode(task, interface_list)` on `sts` (rebuilt in the default mode from a non-empty `names`). */
  function ModeTask(nos: string, vars: map<string, string>, names: seq<string>, sts: seq<InterfaceState>, w: Wire): (r: Run)
    ensures nos == Nxos && "show interfaces brief" in vars ==> r.wire.sent == w.sent + [vars["show interfaces brief"]]
    ensures nos != Nxos && nos != Huawei ==> r.wire == w
  {
    var start := if names != [] then Rebuilt(names, Switched) else sts;
    if nos == Nxos then
      match Lookup(vars, "show interfaces brief")
      case Fail(e) => Run(start, w, Some(e))
      case Ok(cmd) =>
        var (w1, out) := Send(w, cmd);
        if out.Fail? then Run(start, w1, Some(out.error))
        else
          RunFromQuiet(ModeStepper(nos, vars, out.value), start, 0, w1);
          RunFrom(ModeStepper(nos, vars, out.value), start, 0, w1)
    else
      assert nos != Huawei ==> RunFrom(ModeStepper(nos, vars, ""), start, 0, w).wire == w by {
        if nos != Huawei { RunFromQuiet(ModeStepper(nos, vars, ""), start, 0, w); }
      }
      RunFrom(ModeStepper(nos, vars, ""), start, 0, w)
  }

  /** One interface's step changes only its mode, and leaves SVIs and subinterfaces alone. */
  lemma ModeStepSound(nos: string, vars: map<string, string>, brief: string, s: InterfaceState, w: Wire)
    ensures ModeOnly(s, ModeStep(nos, vars, brief, s, w).state)
    ensures ModeStep(nos, vars, brief, s, w).error.None? ==> ModeAssigned(s, ModeStep(nos, vars, brief, s, w).state)
  {
  }

  /** SVIs and subinterfaces are left alone; every other interface the task gets to ends up routed or switched. */
  lemma ModeTaskSound(nos: string, vars: map<string, string>, names: seq<string>, sts: seq<InterfaceState>, w: Wire)
    ensures var r := ModeTask(nos, vars, names, sts, w);
      var start := if names != [] then Rebuilt(names, Switched) else sts;
      && |r.states| == |start|
      && (forall k :: 0 <= k < |start| ==> ModeOnly(start[k], r.states[k]))
      && (r.error.None? ==> forall k :: 0 <= k < |start| ==> ModeAssigned(start[k], r.states[k]))
  {
    hide ModeStep;
    var start := if names != [] then Rebuilt(names, Switched) else sts;
    forall brief: string, s: InterfaceState, v: Wire
      ensures ModeOnly(s, ModeStep(nos, vars, brief, s, v).state)
      ensures ModeStep(nos, vars, brief, s, v).error.None? ==> ModeAssigned(s, ModeStep(nos, vars, brief, s, v).state)
    {
      ModeStepSound(nos, vars, brief, s, v);
    }
    if nos == Nxos {
      if "show interfaces brief" in vars {
        var (w1, out) := Send(w, vars["show interfaces brief"]);
        if out.Ok? {
          RunFromKeeps(ModeStepper(nos, vars, out.value), ModeAssigned, ModeOnly, start, 0, w1);
        }
      }
    } else {
      RunFromKeeps(ModeStepper(nos, vars, ""), ModeAssigned, ModeOnly, start, 0, w);
    }
  }


  /** With an operating system other than NX-OS and VRP, any interface other than an SVI or a subinterface raises, sending nothing. */
  lemma ModeUnsupported(nos: string, vars: map<string, string>, brief: string, s: InterfaceState, w: Wire)
    requires nos != Nxos && nos != Huawei && !s.svi && !s.subinterface
    ensures ModeStep(nos, vars, brief, s, w) == Outcome(s, w, Some(UnsupportedNOS(nos)))
  {
  }

  /** An interface whose mode follows from its name sends nothing and is left as it is. */
  lemma ModeSkipsByType(nos: string, vars: map<string, string>, brief: string, s: InterfaceState, w: Wire)
    requires s.svi || s.subinterface
    ensures ModeStep(nos, vars, brief, s, w) == Outcome(s, w, None)
  {
  }

  /** Determines the mode of one interface. */
  method UpdateMode(ifc: SwitchInterface, nos: string, vars: map<string, string>, brief: string, conn: Connection) returns (err: Option<Error>)
    modifies ifc, conn
    ensures Outcome(ifc.State(), conn.Value(), err) == ModeStep(nos, vars, brief, old(ifc.State()), old(conn.Value()))
  {
    hide NxosMode;
    hide HuaweiMode;
    hide Command;
    if ifc.svi || ifc.subinterface {
      return None;
    }
    if nos == Nxos {
      var start := Index(brief, CiscoCompactName(ifc.name));
      if start.Fail? {
        return Some(start.error);
      }
      var line := BriefLine(brief, start.value);
      if Contains(line, "routed") {
        ifc.mode := Routed;
      } else if Contains(line, "trunk") || Contains(line, "access") {
        ifc.mode := Switched;
      } else {
        return Some(ModeUndetermined(ifc.name));
      }
    } else if nos == Huawei {
      var cmd := Command(vars, "show interface", [ifc.name]);
      if cmd.Fail? {
        return Some(cmd.error);
      }
      var out := conn.SendCommand(cmd.value);
      if out.Fail? {
        return Some(out.error);
      }
      if Contains(out.value, "Switch Port") {
        ifc.mode := Switched;
      } else if Contains(out.value, "Route Port") {
        ifc.mode := Routed;
      } else {
        return Some(ModeUndetermined(ifc.name));
      }
    } else {
      return Some(UnsupportedNOS(nos));
    }
    return None;
  }

  /** The loop of `get_interfaces_mode` over the host's current interfaces. */
  method ModeLoop(host: Host, brief: string) returns (err: Option<Error>)
    requires host.Valid()
    modifies host.interfaces, host.connection
    ensures Run(StatesOf(host.interfaces), host.connection.Value(), err)
         == RunFrom(ModeStepper(host.nornirNos, host.vendorVars, brief), old(StatesOf(host.interfaces)), 0, old(host.connection.Value()))
  {
    hide StatesOf;
    hide ModeStep;
    var conn := host.connection;
    var ifs := host.interfaces;
    ghost var start := StatesOf(ifs);
    ghost var cur := start;
    ghost var w0 := conn.Value();
    ghost var step := ModeStepper(host.nornirNos, host.vendorVars, brief);
    var i := 0;
    while i < |ifs|
      invariant 0 <= i <= |ifs|
      invariant |cur| == |ifs| && forall k :: 0 <= k < |ifs| ==> ifs[k].State() == cur[k]
      invariant RunFrom(step, cur, i, conn.Value()) == RunFrom(step, start, 0, w0)
    {
      err := UpdateMode(ifs[i], host.nornirNos, host.vendorVars, brief, conn);
      cur := cur[i := ifs[i].State()];
      if err.Some? {
        assert StatesOf(ifs) == cur;
        return;
      }
      i := i + 1;
    }
    assert StatesOf(ifs) == cur;
    return None;
  }

  /** `get_interfaces_mode(task, interface_list)`; on NX-OS the brief table is fetched once, before the loop. */
  method GetInterfacesMode(host: Host, interfaceList: seq<string>) returns (err: Option<Error>)
    requires host.Valid()
    modifies host, host.interfaces, host.connection
    ensures host.Valid() && host.vendorVars == old(host.vendorVars)
    ensures Run(StatesOf(host.interfaces), host.connection.Value(), err)
         == ModeTask(host.nornirNos, host.vendorVars, interfaceList, old(StatesOf(host.interfaces)), old(host.connection.Value()))
  {
    hide ModeStep;
    if interfaceList != [] {
      host.Rebuild(interfaceList, Switched);
    }
    var brief := "";
    if host.nornirNos == Nxos {
      var cmd := Lookup(host.vendorVars, "show interfaces brief");
      if cmd.Fail? {
        return Some(cmd.error);
      }
      var out := host.connection.SendCommand(cmd.value);
      if out.Fail? {
        return Some(out.error);
      }
      brief := out.value;
    }
    err := ModeLoop(host, brief);
  }

  // ---------------------------------------------------------------------------
  // IP neighbours

  /** The VRF name put into the neighbour commands: the host's, or 'default' when that is falsy. */
  function VrfArgument(vrfName: PyValue): (r: string)
    ensures !Truthy(vrfName) ==> r == "default"
    ensures Truthy(vrfName) ==> r == Text(vrfName)
  {
    if Truthy(vrfName) then Text(vrfName) else "default"
  }

  /** The counter pattern of an operating system: the regular expression, its label and what separates label and number. */
  datatype Counter = Counter(regex: string, caption: string, gap: Gap)

  function NeighborCounter(nos: string): (r: Option<Counter>)
    ensures r.Some? <==> nos == Nxos || nos == Huawei
  {
    if nos == Nxos then Some(Counter("Total number of entries:\\s+(\\d+)", "Total number of entries:", SomeSpaces))
    else if nos == Huawei then Some(Counter("Dynamic:(?:\\s+)?(\\d+)", "Dynamic:", AnySpaces))
    else None
  }

  /** The neighbour count in one output: 0 for an empty output, else the number after the counter's label. */
  function CountNeighbors(out: string, c: Counter): (r: Result<nat>)
    ensures out == "" ==> r == Ok(0)
    ensures out != "" ==> (r.Fail? <==> forall j :: 0 <= j <= |out| ==> CounterAt(out, j, c.caption, c.gap).None?)
    ensures out != "" && r.Ok? ==> FirstCounter(out, c.caption, c.gap, r.value)
    ensures r.Fail? ==> r.error == NoMatch(c.regex)
  {
    if out == "" then Ok(0)
    else match SearchCounter(out, c.caption, c.gap)
    case None => Fail(NoMatch(c.regex))
    case Some(n) => Ok(n)
  }

  /** With an operating system other than NX-OS and VRP, a routed interface raises once both neighbour commands are sent. */
  lemma NeighborsUnsupported(nos: string, vars: map<string, string>, vrfName: PyValue, s: InterfaceState, w: Wire)
    requires nos != Nxos && nos != Huawei && s.mode == Routed
    ensures var c4 := Command(vars, "show ipv4 neighbors interface", [s.name, VrfArgument(vrfName)]);
      var c6 := Command(vars, "show ipv6 neighbors interface", [s.name, VrfArgument(vrfName)]);
      c4.Ok? && c6.Ok? && |w.pending| >= 2 ==>
        NeighborsStep(nos, vars, vrfName, s, w) == Outcome(s, Wire(w.pending[2..], w.sent + [c4.value, c6.value]), Some(UnsupportedNOS(nos)))
  {
    hide Command, VrfArgument;
    if |w.pending| >= 2 {
      assert w.pending[1..][1..] == w.pending[2..];
    }
  }

  /** One interface of `get_interfaces_ip_neighbors`. */
  function NeighborsStep(nos: string, vars: map<string, string>, vrfName: PyValue, s: InterfaceState, w: Wire): (r: Outcome)
    ensures w.sent <= r.wire.sent && |r.wire.sent| <= |w.sent| + 2
  {
    if s.mode != Routed then Outcome(s.(ipv4Neighbors := Some(0), ipv6Neighbors := Some(0)), w, None)
    else
      var vrf := VrfArgument(vrfName);
      match Command(vars, "show ipv4 neighbors interface", [s.name, vrf])
      case Fail(e) => Outcome(s, w, Some(e))
      case Ok(c4) =>
        var (w1, out4) := Send(w, c4);
        if out4.Fail? then Outcome(s, w1, Some(out4.error))
        else match Command(vars, "show ipv6 neighbors interface", [s.name, vrf])
        case Fail(e) => Outcome(s, w1, Some(e))
        case Ok(c6) =>
          var (w2, out6) := Send(w1, c6);
          if out6.Fail? then Outcome(s, w2, Some(out6.error))
          else NeighborsCounted(nos, out4.value, out6.value, s, w2)
  }

  /** The end of one interface's neighbour step: both outputs counted, the IPv4 count stored first. */
  function NeighborsCounted(nos: string, out4: string, out6: string, s: InterfaceState, w: Wire): (r: Outcome)
    ensures r.wire == w
    ensures NeighborCounter(nos).None? ==> r == Outcome(s, w, Some(UnsupportedNOS(nos)))
    ensures NeighborCounter(nos).Some? ==>
      var c := NeighborCounter(nos).value;
      && (CountNeighbors(out4, c).Fail? ==> r == Outcome(s, w, Some(CountNeighbors(out4, c).error)))
      && (CountNeighbors(out4, c).Ok? ==> r.state.ipv4Neighbors == Some(CountNeighbors(out4, c).value))
      && (CountNeighbors(out4, c).Ok? && CountNeighbors(out6, c).Fail? ==> r.error == Some(CountNeighbors(out6, c).error))
      && (CountNeighbors(out4, c).Ok? && CountNeighbors(out6, c).Ok? ==>
            r.error.None? && r.state.ipv6Neighbors == Some(CountNeighbors(out6, c).value))
  {
    match NeighborCounter(nos)
    case None => Outcome(s, w, Some(UnsupportedNOS(nos)))
    case Some(c) =>
      match CountNeighbors(out4, c)
      case Fail(e) => Outcome(s, w, Some(e))
      case Ok(n4) =>
        var s1 := s.(ipv4Neighbors := Some(n4));
        match CountNeighbors(out6, c)
        case Fail(e) => Outcome(s1, w, Some(e))
        case Ok(n6) => Outcome(s1.(ipv6Neighbors := Some(n6)), w, None)
  }

  function NeighborsStepper(nos: string, vars: map<string, string>, vrfName: PyValue): (InterfaceState, Wire) -> Outcome {
    (s, w) => NeighborsStep(nos, vars, vrfName, s, w)
  }

  /** Only the neighbour counters may differ. */
  predicate NeighborsOnly(a: InterfaceState, b: InterfaceState) {
    b == a.(ipv4Neighbors := b.ipv4Neighbors, ipv6Neighbors := b.ipv6Neighbors)
  }

  /** `NeighborsOnly`, both counters are set, and a non-routed interface counts none. */
  predicate NeighborsAssigned(a: InterfaceState, b: InterfaceState) {
    NeighborsOnly(a, b) && b.ipv4Neighbors.Some? && b.ipv6Neighbors.Some? &&
    (a.mode != Routed ==> b.ipv4Neighbors == Some(0) && b.ipv6Neighbors == Some(0))
  }

  /** A non-routed interface gets zero neighbours without any command being sent. */
  lemma NeighborsSkipSwitched(nos: string, vars: map<string, string>, vrfName: PyValue, s: InterfaceState, w: Wire)
    requires s.mode != Routed
    ensures NeighborsStep(nos, vars, vrfName, s, w).wire == w
    ensures NeighborsStep(nos, vars, vrfName, s, w).state.ipv4Neighbors == Some(0)
    ensures NeighborsStep(nos, vars, vrfName, s, w).state.ipv6Neighbors == Some(0)
  {
  }

  /** A routed interface sends the IPv4 then the IPv6 neighbour command, both naming the interface and the VRF. */
  lemma NeighborsCommands(nos: string, vars: map<string, string>, vrfName: PyValue, s: InterfaceState, w: Wire)
    requires s.mode == Routed && |w.pending| >= 2
    requires Command(vars, "show ipv4 neighbors interface", [s.name, VrfArgument(vrfName)]).Ok?
    requires Command(vars, "show ipv6 neighbors interface", [s.name, VrfArgument(vrfName)]).Ok?
    ensures NeighborsStep(nos, vars, vrfName, s, w).wire.sent == w.sent + [
      Command(vars, "show ipv4 neighbors interface", [s.name, VrfArgument(vrfName)]).value,
      Command(vars, "show ipv6 neighbors interface", [s.name, VrfArgument(vrfName)]).value]
  {
  }

  /** `get_interfaces_ip_neighbors` over `sts` from position 0 with the session `w`. */
  function NeighborsRun(nos: string, vars: map<string, string>, vrfName: PyValue, sts: seq<InterfaceState>, w: Wire): (r: Run)
    ensures |r.states| == |sts| && w.sent <= r.wire.sent
  {
    RunFromLogs(NeighborsStepper(nos, vars, vrfName), sts, 0, w);
    RunFrom(NeighborsStepper(nos, vars, vrfName), sts, 0, w)
  }

  /** One interface's step changes only its two counters, and sets both when it raises nothing. */
  lemma NeighborsStepSound(nos: string, vars: map<string, string>, vrfName: PyValue, s: InterfaceState, w: Wire)
    ensures NeighborsOnly(s, NeighborsStep(nos, vars, vrfName, s, w).state)
    ensures NeighborsStep(nos, vars, vrfName, s, w).error.None? ==> NeighborsAssigned(s, NeighborsStep(nos, vars, vrfName, s, w).state)
  {
    hide CountNeighbors, Command, Send, NeighborCounter, VrfArgument;
  }

  /** Only the counters change; when nothing is raised every interface has both, and non-routed ones have zero. */
  lemma NeighborsRunSound(nos: string, vars: map<string, string>, vrfName: PyValue, sts: seq<InterfaceState>, w: Wire)
    ensures var r := NeighborsRun(nos, vars, vrfName, sts, w);
      && |r.states| == |sts|
      && (forall k :: 0 <= k < |sts| ==> NeighborsOnly(sts[k], r.states[k]))
      && (r.error.None? ==> forall k :: 0 <= k < |sts| ==> NeighborsAssigned(sts[k], r.states[k]))
  {
    hide NeighborsStep;
    forall s: InterfaceState, v: Wire
      ensures NeighborsOnly(s, NeighborsStep(nos, vars, vrfName, s, v).state)
      ensures NeighborsStep(nos, vars, vrfName, s, v).error.None? ==> NeighborsAssigned(s, NeighborsStep(nos, vars, vrfName, s, v).state)
    {
      NeighborsStepSound(nos, vars, vrfName, s, v);
    }
    RunFromKeeps(NeighborsStepper(nos, vars, vrfName), NeighborsAssigned, NeighborsOnly, sts, 0, w);
  }

  /** Counts the neighbours of one interface. */
  method UpdateNeighbors(ifc: SwitchInterface, nos: string, vars: map<string, string>, vrfName: PyValue, conn: Connection)
    returns (err: Option<Error>)
    modifies ifc, conn
    ensures Outcome(ifc.State(), conn.Value(), err) == NeighborsStep(nos, vars, vrfName, old(ifc.State()), old(conn.Value()))
  {
    hide Command, Send, NeighborsCounted;
    if ifc.mode != Routed {
      ifc.ipv4Neighbors := Some(0);
      ifc.ipv6Neighbors := Some(0);
      return None;
    }
    ghost var s := ifc.State();
    var vrf := if Truthy(vrfName) then Text(vrfName) else "default";
    assert vrf == VrfArgument(vrfName);
    var c4 := Command(vars, "show ipv4 neighbors interface", [ifc.name, vrf]);
    if c4.Fail? {
      return Some(c4.error);
    }
    var out4 := conn.SendCommand(c4.value);
    if out4.Fail? {
      return Some(out4.error);
    }
    var c6 := Command(vars, "show ipv6 neighbors interface", [ifc.name, vrf]);
    if c6.Fail? {
      return Some(c6.error);
    }
    var out6 := conn.SendCommand(c6.value);
    if out6.Fail? {
      return Some(out6.error);
    }
    assert ifc.State() == s;
    err := StoreNeighbors(ifc, nos, out4.value, out6.value, conn.Value());
  }

  /** Counts the neighbours in both outputs and stores the counts, the IPv4 one first. */
  method StoreNeighbors(ifc: SwitchInterface, nos: string, out4: string, out6: string, ghost w: Wire) returns (err: Option<Error>)
    modifies ifc
    ensures Outcome(ifc.State(), w, err) == NeighborsCounted(nos, out4, out6, old(ifc.State()), w)
  {
    hide CountNeighbors;
    var counter := NeighborCounter(nos);
    if counter.None? {
      return Some(UnsupportedNOS(nos));
    }
    var n4 := CountNeighbors(out4, counter.value);
    if n4.Fail? {
      return Some(n4.error);
    }
    ifc.ipv4Neighbors := Some(n4.value);
    var n6 := CountNeighbors(out6, counter.value);
    if n6.Fail? {
      return Some(n6.error);
    }
    ifc.ipv6Neighbors := Some(n6.value);
    return None;
  }

  /** The loop of `get_interfaces_ip_neighbors` over the host's current interfaces. */
  method NeighborsLoop(host: Host) returns (err: Option<Error>)
    requires host.Valid()
    modifies host.interfaces, host.connection
    ensures Run(StatesOf(host.interfaces), host.connection.Value(), err)
         == NeighborsRun(host.nornirNos, host.vendorVars, host.vrfName, old(StatesOf(host.interfaces)), old(host.connection.Value()))
  {
    hide StatesOf;
    hide NeighborsStep, NeighborsCounted, CountNeighbors, Command, Send;
    var conn := host.connection;
    var ifs := host.interfaces;
    ghost var start := StatesOf(ifs);
    ghost var cur := start;
    ghost var w0 := conn.Value();
    ghost var step := NeighborsStepper(host.nornirNos, host.vendorVars, host.vrfName);
    var i := 0;
    while i < |ifs|
      invariant 0 <= i <= |ifs|
      invariant |cur| == |ifs| && forall k :: 0 <= k < |ifs| ==> ifs[k].State() == cur[k]
      invariant RunFrom(step, cur, i, conn.Value()) == RunFrom(step, start, 0, w0)
    {
      err := UpdateNeighbors(ifs[i], host.nornirNos, host.vendorVars, host.vrfName, conn);
      cur := cur[i := ifs[i].State()];
      if err.Some? {
        assert StatesOf(ifs) == cur;
        return;
      }
      i := i + 1;
    }
    assert StatesOf(ifs) == cur;
    return None;
  }

  /** `get_interfaces_ip_neighbors(task, interface_list)`: a given list is rebuilt as routed interfaces. */
  method GetInterfacesIpNeighbors(host: Host, interfaceList: seq<string>) returns (err: Option<Error>)
    requires host.Valid()
    modifies host, host.interfaces, host.connection
    ensures host.Valid() && host.vendorVars == old(host.vendorVars)
    ensures Run(StatesOf(host.interfaces), host.connection.Value(), err)
         == NeighborsRun(host.nornirNos, host.vendorVars, host.vrfName,
                         if interfaceList != [] then Rebuilt(interfaceList, Routed) else old(StatesOf(host.interfaces)),
                         old(host.connection.Value()))
  {
    hide NeighborsStep;
    if interfaceList != [] {
      host.Rebuild(interfaceList, Routed);
    }
    err := NeighborsLoop(host);
  }
}
