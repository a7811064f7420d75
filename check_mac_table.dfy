/**
 * Counting the MAC addresses learned on each interface: NX-OS tables are
 * counted by their lines, VRP tables report a total. An SVI is looked up by
 * its VLAN, a routed interface learns none, any other interface is looked up
 * by name.
 */
module CheckMacTable {
  import opened Wrappers
  import opened PyText
  import opened Patterns
  import opened SwitchObjects
  import opened Device
  import opened CheckInterfaces

  // ---------------------------------------------------------------------------
  // `count_macs`

  /**
   * NX-OS: no "---" delimiter means an empty table; otherwise the table runs
   * from the newline that ends the delimiter's line, and every line of it
   * once stripped is one MAC, so an empty body still counts one.
   */
  function NxosMacCount(table: string): (r: Result<nat>)
    ensures !Contains(table, "---") ==> r == Ok(0)
    ensures r.Fail? ==> r == Fail(SubstringNotFound("\n"))
    ensures var d := Find(table, "---", 0);
      d != -1 ==> (r.Fail? <==> forall j :: d <= j < |table| ==> table[j] != '\n')
    ensures var d := Find(table, "---", 0);
      d != -1 && r.Ok? ==>
        (r.value >= 1 &&
         exists e :: d <= e < |table| && table[e] == '\n' && (forall j :: d <= j < e ==> table[j] != '\n') &&
           r.value == multiset(Strip(table[e..]))['\n'] + 1)
  {
    var d := Find(table, "---", 0);
    if d == -1 then Ok(0)
    else
      var e := Find(table, "\n", d);
      if e == -1 then
        assert forall j :: d <= j < |table| ==> table[j] != '\n' by {
          forall j | d <= j < |table| ensures table[j] != '\n' { OccursAtChar(table, '\n', j); }
        }
        Fail(SubstringNotFound("\n"))
      else
        assert table[e] == '\n' by { OccursAtChar(table, '\n', e); }
        assert forall j :: d <= j < e ==> table[j] != '\n' by {
          forall j | d <= j < e ensures table[j] != '\n' { OccursAtChar(table, '\n', j); }
        }
        SplitCount(Strip(table[e..]), '\n');
        Ok(|Split(Strip(table[e..]), '\n')|)
  }

  const MacTotalRegex := "Total items: (\\d+)"

  /** VRP: the number after the first "Total items: ". */
  function HuaweiMacCount(table: string): (r: Result<nat>)
    ensures r.Fail? <==> forall j :: 0 <= j <= |table| ==> CounterAt(table, j, "Total items: ", Adjacent).None?
    ensures r.Fail? ==> r.error == NoMatch(MacTotalRegex)
    ensures r.Ok? ==> FirstCounter(table, "Total items: ", Adjacent, r.value)
  {
    hide CounterAt;
    match SearchCounter(table, "Total items: ", Adjacent)
    case None => Fail(NoMatch(MacTotalRegex))
    case Some(n) => Ok(n)
  }

  /** `count_macs(nos, mac_table)`: only NX-OS and VRP tables can be counted. */
  function CountMacs(nos: string, table: string): (r: Result<nat>)
    ensures r.Fail? && r.error.UnsupportedNOS? <==> nos != Nxos && nos != Huawei
    ensures r.Fail? && r.error.UnsupportedNOS? ==> r.error.nos == nos
    ensures nos == Nxos ==> r == NxosMacCount(table)
    ensures nos == Huawei ==> r == HuaweiMacCount(table)
  {
    if nos == Nxos then NxosMacCount(table)
    else if nos == Huawei then HuaweiMacCount(table)
    else Fail(UnsupportedNOS(nos))
  }

  /** The table body starts at the first newline after the delimiter. */
  lemma NxosTableStart(table: string, e: nat)
    requires Contains(table, "---")
    requires Find(table, "---", 0) <= e < |table| && table[e] == '\n'
    requires forall j :: Find(table, "---", 0) <= j < e ==> table[j] != '\n'
    ensures Find(table, "---", 0) != -1 && Find(table, "\n", Find(table, "---", 0)) == e
  {
    ContainsFound(table, "---");
    FindChar(table, '\n', Find(table, "---", 0), e);
  }

  /** Once the delimiter and the newline after it are found, the count is the number of lines of the stripped rest. */
  lemma NxosCountLines(table: string, e: nat)
    requires Find(table, "---", 0) != -1 && Find(table, "\n", Find(table, "---", 0)) == e
    ensures e <= |table| && NxosMacCount(table) == Ok(|Split(Strip(table[e..]), '\n')|)
  {
    hide Find, Strip, Split;
    assert OccursAt(table, "\n", e);
  }

  /** An NX-OS table whose delimiter line is followed by whitespace only still counts one MAC. */
  lemma NxosEmptyBodyCountsOne(table: string, e: nat)
    requires Contains(table, "---")
    requires Find(table, "---", 0) <= e < |table| && table[e] == '\n'
    requires forall j :: Find(table, "---", 0) <= j < e ==> table[j] != '\n'
    requires forall j :: e <= j < |table| ==> IsSpace(table[j])
    ensures NxosMacCount(table) == Ok(1)
  {
    hide Find, Strip, Split, NxosMacCount;
    NxosTableStart(table, e);
    NxosCountLines(table, e);
    StripBlank(table[e..]);
    SplitCount([], '\n');
  }

  /** A VRP table that starts with its total reports exactly that total. */
  lemma HuaweiTotalRead(n: nat, rest: string)
    requires rest == [] || !IsDigit(rest[0])
    ensures HuaweiMacCount("Total items: " + DecimalText(n) + rest) == Ok(n)
  {
    hide CounterAt;
    SearchCounterAtStart("Total items: ", DecimalText(n), rest);
    DecimalRoundTrip(n);
  }

  // ---------------------------------------------------------------------------
  // One interface

  const VlanRegex := "(?i)^vlan(?:if)?(\\d+)$"

  /** Sends the command `key` filled in with `arg`, and counts the MACs in the table that comes back. */
  function Counted(nos: string, vars: map<string, string>, key: string, arg: string, s: InterfaceState, w: Wire): (r: Outcome)
    ensures r.state == s || r.state == s.(macsLearned := r.state.macsLearned)
    ensures r.error.None? ==> r.state.macsLearned.Some?
    ensures var c := Command(vars, key, [arg]);
      c.Fail? ==> r == Outcome(s, w, Some(c.error))
    ensures var c := Command(vars, key, [arg]);
      c.Ok? && w.pending == [] ==> r == Outcome(s, Wire([], w.sent + [c.value]), Some(NoReply(c.value)))
    ensures var c := Command(vars, key, [arg]);
      c.Ok? && w.pending != [] ==>
        && r.wire == Wire(w.pending[1..], w.sent + [c.value])
        && var n := CountMacs(nos, w.pending[0]);
          && (n.Ok? ==> r.state == s.(macsLearned := Some(n.value)) && r.error.None?)
          && (n.Fail? ==> r.state == s && r.error == Some(n.error))
  {
    match Command(vars, key, [arg])
    case Fail(e) => Outcome(s, w, Some(e))
    case Ok(c) =>
      var (w1, out) := Send(w, c);
      if out.Fail? then Outcome(s, w1, Some(out.error))
      else match CountMacs(nos, out.value)
      case Fail(e) => Outcome(s, w1, Some(e))
      case Ok(n) => Outcome(s.(macsLearned := Some(n)), w1, None)
  }

  /** One interface of `get_interfaces_macs`, with the operating system `nos`. */
  function MacStep(nos: string, vars: map<string, string>, s: InterfaceState, w: Wire): (r: Outcome)
    ensures w.sent <= r.wire.sent && |r.wire.sent| <= |w.sent| + 1
    ensures !s.svi && s.mode == Routed ==> r.wire == w
  {
    if s.svi then
      match VlanNumber(s.name)
      case None => Outcome(s, w, Some(NoMatch(VlanRegex)))
      case Some(vlan) => Counted(nos, vars, "show mac table vlan", vlan, s, w)
    else if s.mode == Routed then Outcome(s.(macsLearned := Some(0)), w, None)
    else Counted(nos, vars, "show mac table interface", s.name, s, w)
  }

  function MacStepper(nos: string, vars: map<string, string>): (InterfaceState, Wire) -> Outcome {
    (s, w) => MacStep(nos, vars, s, w)
  }

  /** `get_interfaces_macs` over `sts` from position 0 with the session `w`. */
  function MacRun(nos: string, vars: map<string, string>, sts: seq<InterfaceState>, w: Wire): (r: Run)
    ensures |r.states| == |sts| && w.sent <= r.wire.sent
  {
    RunFromLogs(MacStepper(nos, vars), sts, 0, w);
    RunFrom(MacStepper(nos, vars), sts, 0, w)
  }

  /** Only the MAC count may differ. */
  predicate MacsOnly(a: InterfaceState, b: InterfaceState) {
    b == a.(macsLearned := b.macsLearned)
  }

  /** `MacsOnly`, the count is set, and a routed interface that is not an SVI counts none. */
  predicate MacsAssigned(a: InterfaceState, b: InterfaceState) {
    MacsOnly(a, b) && b.macsLearned.Some? && (!a.svi && a.mode == Routed ==> b.macsLearned == Some(0))
  }

  /** One interface's step changes only its MAC count, and sets it when it raises nothing. */
  lemma MacStepSound(nos: string, vars: map<string, string>, s: InterfaceState, w: Wire)
    ensures MacsOnly(s, MacStep(nos, vars, s, w).state)
    ensures MacStep(nos, vars, s, w).error.None? ==> MacsAssigned(s, MacStep(nos, vars, s, w).state)
  {
    hide CountMacs;
    hide Command;
    hide Send;
    hide VlanNumber;
  }

  /** Only the MAC counts change; when nothing is raised every interface has one, and routed ones that are not SVIs have zero. */
  lemma MacRunSound(nos: string, vars: map<string, string>, sts: seq<InterfaceState>, w: Wire)
    ensures var r := MacRun(nos, vars, sts, w);
      && |r.states| == |sts|
      && (forall k :: 0 <= k < |sts| ==> MacsOnly(sts[k], r.states[k]))
      && (r.error.None? ==> forall k :: 0 <= k < |sts| ==> MacsAssigned(sts[k], r.states[k]))
  {
    hide MacStep;
    forall s: InterfaceState, v: Wire
      ensures MacsOnly(s, MacStep(nos, vars, s, v).state)
      ensures MacStep(nos, vars, s, v).error.None? ==> MacsAssigned(s, MacStep(nos, vars, s, v).state)
    {
      MacStepSound(nos, vars, s, v);
    }
    RunFromKeeps(MacStepper(nos, vars), MacsAssigned, MacsOnly, sts, 0, w);
  }

  /**
   * Over routed interfaces that are not SVIs nothing is sent and nothing is
   * raised, whatever the operating system: each simply counts zero.
   */
  lemma {:induction false} MacRoutedOnly(nos: string, vars: map<string, string>, sts: seq<InterfaceState>, i: nat, w: Wire)
    requires i <= |sts|
    requires forall k :: i <= k < |sts| ==> !sts[k].svi && sts[k].mode == Routed
    ensures RunFrom(MacStepper(nos, vars), sts, i, w).wire == w
    ensures RunFrom(MacStepper(nos, vars), sts, i, w).error.None?
    ensures forall k :: i <= k < |sts| ==> RunFrom(MacStepper(nos, vars), sts, i, w).states[k] == sts[k].(macsLearned := Some(0))
    decreases |sts| - i
  {
    if i < |sts| {
      var o := MacStep(nos, vars, sts[i], w);
      assert o == Outcome(sts[i].(macsLearned := Some(0)), w, None);
      MacRoutedOnly(nos, vars, sts[i := o.state], i + 1, w);
    }
  }

  /** An SVI asks for its VLAN's table by number; an interface that is neither an SVI nor routed asks for its own table by name. */
  lemma MacCommand(nos: string, vars: map<string, string>, s: InterfaceState, w: Wire)
    requires w.pending != []
    ensures s.svi && VlanNumber(s.name).Some? && Command(vars, "show mac table vlan", [VlanNumber(s.name).value]).Ok? ==>
      MacStep(nos, vars, s, w).wire.sent == w.sent + [Command(vars, "show mac table vlan", [VlanNumber(s.name).value]).value]
    ensures !s.svi && s.mode != Routed && Command(vars, "show mac table interface", [s.name]).Ok? ==>
      MacStep(nos, vars, s, w).wire.sent == w.sent + [Command(vars, "show mac table interface", [s.name]).value]
  {
    hide CountMacs;
  }

  // ---------------------------------------------------------------------------
  // The task

  /** Counts the MACs of one interface. */
  method UpdateMacs(ifc: SwitchInterface, nos: string, vars: map<string, string>, conn: Connection) returns (err: Option<Error>)
    modifies ifc, conn
    ensures Outcome(ifc.State(), conn.Value(), err) == MacStep(nos, vars, old(ifc.State()), old(conn.Value()))
  {
    hide CountMacs;
    hide Command;
    hide VlanNumber;
    var key, arg;
    if ifc.svi {
      var vlan := VlanNumber(ifc.name);
      if vlan.None? {
        return Some(NoMatch(VlanRegex));
      }
      key, arg := "show mac table vlan", vlan.value;
    } else if ifc.mode == Routed {
      ifc.macsLearned := Some(0);
      return None;
    } else {
      key, arg := "show mac table interface", ifc.name;
    }
    var cmd := Command(vars, key, [arg]);
    if cmd.Fail? {
      return Some(cmd.error);
    }
    var table := conn.SendCommand(cmd.value);
    if table.Fail? {
      return Some(table.error);
    }
    var n := CountMacs(nos, table.value);
    if n.Fail? {
      return Some(n.error);
    }
    ifc.macsLearned := Some(n.value);
    return None;
  }

  /** The loop of `get_interfaces_macs` over the host's current interfaces, counting with the operating system `nos`. */
  method MacLoop(host: Host, nos: string) returns (err: Option<Error>)
    requires host.Valid()
    modifies host.interfaces, host.connection
    ensures Run(StatesOf(host.interfaces), host.connection.Value(), err)
         == MacRun(nos, host.vendorVars, old(StatesOf(host.interfaces)), old(host.connection.Value()))
  {
    hide StatesOf;
    hide MacStep;
    var conn := host.connection;
    var ifs := host.interfaces;
    ghost var start := StatesOf(ifs);
    ghost var cur := start;
    ghost var w0 := conn.Value();
    ghost var step := MacStepper(nos, host.vendorVars);
    var i := 0;
    while i < |ifs|
      invariant 0 <= i <= |ifs|
      invariant |cur| == |ifs| && forall k :: 0 <= k < |ifs| ==> ifs[k].State() == cur[k]
      invariant RunFrom(step, cur, i, conn.Value()) == RunFrom(step, start, 0, w0)
    {
      err := UpdateMacs(ifs[i], nos, host.vendorVars, conn);
      cur := cur[i := ifs[i].State()];
      if err.Some? {
        assert StatesOf(ifs) == cur;
        return;
      }
      i := i + 1;
    }
    assert StatesOf(ifs) == cur;
    return None;
  }

  /** `get_interfaces_macs(task, interface_list)`: tables are counted by the host's platform. */
  method GetInterfacesMacs(host: Host, interfaceList: seq<string>) returns (err: Option<Error>)
    requires host.Valid()
    modifies host, host.interfaces, host.connection
    ensures host.Valid() && host.vendorVars == old(host.vendorVars)
    ensures Run(StatesOf(host.interfaces), host.connection.Value(), err)
         == MacRun(host.platform, host.vendorVars,
                   if interfaceList != [] then Rebuilt(interfaceList, Switched) else old(StatesOf(host.interfaces)),
                   old(host.connection.Value()))
  {
    hide MacStep;
    if interfaceList != [] {
      host.Rebuild(interfaceList, Switched);
    }
    err := MacLoop(host, host.platform);
  }
}
