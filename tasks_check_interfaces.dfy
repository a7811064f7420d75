/**
 * The second copy of the interface checking tasks. Its status task and its
 * name abbreviation behave exactly as those of `CheckInterfaces`; its IP
 * address task differs only in rebuilding a given interface list in the
 * default mode rather than as routed interfaces.
 */
module TasksCheckInterfaces {
  import opened Wrappers
  import opened SwitchObjects
  import opened Device
  import opened CheckInterfaces

  /** `get_interfaces_ip_addresses(task, interface_list)`: a given list is rebuilt in the default mode. */
  method GetInterfacesIpAddresses(host: Host, interfaceList: seq<string>) returns (err: Option<Error>)
    requires host.Valid()
    modifies host, host.interfaces, host.connection
    ensures host.Valid() && host.vendorVars == old(host.vendorVars)
    ensures Run(StatesOf(host.interfaces), host.connection.Value(), err)
         == IpRun(host.nornirNos, host.vendorVars,
                  if interfaceList != [] then Rebuilt(interfaceList, Switched) else old(StatesOf(host.interfaces)),
                  old(host.connection.Value()))
  {
    hide IpStep;
    if interfaceList != [] {
      host.Rebuild(interfaceList, Switched);
    }
    err := ReadAddresses(host);
  }

  /** The two interfaces differ in their mode at most. */
  predicate SameButMode(a: InterfaceState, b: InterfaceState) {
    b == a.(mode := b.mode)
  }

  /** One interface's IP step never reads the mode. */
  lemma IpStepIgnoresMode(nos: string, vars: map<string, string>, s: InterfaceState, t: InterfaceState, w: Wire)
    requires SameButMode(s, t)
    ensures SameButMode(IpStep(nos, vars, s, w).state, IpStep(nos, vars, t, w).state)
    ensures IpStep(nos, vars, s, w).wire == IpStep(nos, vars, t, w).wire
    ensures IpStep(nos, vars, s, w).error == IpStep(nos, vars, t, w).error
  {
    hide NxosIpv4, NxosIpv6, HuaweiIpv4, HuaweiIpv6, Command, Send, AddressesRead, AddressesAppended;
    assert s.name == t.name;
    forall v4, v6, v ensures SameButMode(AddressesRead(s, v4, v6, v).state, AddressesRead(t, v4, v6, v).state) {
      AddressesReadIgnoresMode(s, t, v4, v6, v);
    }
  }

  /** Appending the addresses read keeps two states alike but for their mode. */
  lemma AddressesReadIgnoresMode(s: InterfaceState, t: InterfaceState, v4: seq<IPAddress>, v6: Appended, w: Wire)
    requires SameButMode(s, t)
    ensures SameButMode(AddressesRead(s, v4, v6, w).state, AddressesRead(t, v4, v6, w).state)
  {
    hide AddressesAppended;
  }

  /**
   * Both copies of the IP address task, given the same interface names, send
   * the same commands, raise the same exception and read the same addresses;
   * the interfaces they leave behind differ in their mode at most, and only
   * where a name is neither an SVI nor a subinterface.
   */
  lemma IpVariantsAgree(nos: string, vars: map<string, string>, names: seq<string>, w: Wire)
    ensures var a := IpRun(nos, vars, Rebuilt(names, Switched), w);
      var b := IpRun(nos, vars, Rebuilt(names, Routed), w);
      && a.wire == b.wire && a.error == b.error && |a.states| == |b.states| == |names|
      && (forall k :: 0 <= k < |names| ==> SameButMode(a.states[k], b.states[k]))
      && (forall k :: 0 <= k < |names| ==> b.states[k].mode == Routed)
      && (forall k :: 0 <= k < |names| ==> (a.states[k].mode == Routed <==> IsSvi(names[k]) || IsSubinterface(names[k])))
  {
    hide IpStep;
    var a0 := Rebuilt(names, Switched);
    var b0 := Rebuilt(names, Routed);
    forall s, t, v | SameButMode(s, t)
      ensures SameButMode(IpStep(nos, vars, s, v).state, IpStep(nos, vars, t, v).state)
      ensures IpStep(nos, vars, s, v).wire == IpStep(nos, vars, t, v).wire
      ensures IpStep(nos, vars, s, v).error == IpStep(nos, vars, t, v).error
    {
      IpStepIgnoresMode(nos, vars, s, t, v);
    }
    RunFromAlike(IpStepper(nos, vars), SameButMode, a0, b0, 0, w);
    IpRunAppends(nos, vars, a0, w);
    IpRunAppends(nos, vars, b0, w);
  }
}
