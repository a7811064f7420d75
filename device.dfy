/**
 * The host a task runs against and its CLI session. The session is a queue
 * of canned outputs handed out in order, one per command sent, together with
 * the log of the commands sent so far; a command sent when the queue is
 * empty gets no reply.
 */
module Device {
  import opened Wrappers
  import opened PyText
  import opened SwitchObjects

  // ---------------------------------------------------------------------------
  // The session

  /** The session as a value: outputs still to be returned, and every command sent so far. */
  datatype Wire = Wire(pending: seq<string>, sent: seq<string>)

  /** `connection.send_command(cmd)`: the command is logged and answered with the next output, if any. */
  function Send(w: Wire, cmd: string): (r: (Wire, Result<string>))
    ensures r.0.sent == w.sent + [cmd]
    ensures r.1.Ok? <==> w.pending != []
    ensures r.1.Ok? ==> [r.1.value] + r.0.pending == w.pending
    ensures r.1.Fail? ==> r.0.pending == [] && r.1.error == NoReply(cmd)
  {
    if w.pending == [] then (Wire([], w.sent + [cmd]), Fail(NoReply(cmd)))
    else (Wire(w.pending[1..], w.sent + [cmd]), Ok(w.pending[0]))
  }

  /** A CLI session whose replies are scripted. */
  class Connection {
    var pending: seq<string>
    var sent: seq<string>

    function Value(): Wire
      reads this
    {
      Wire(pending, sent)
    }

    /** A session that will answer with `outputs`, in order. */
    constructor (outputs: seq<string>)
      ensures Value() == Wire(outputs, [])
    {
      pending := outputs;
      sent := [];
    }

    method SendCommand(cmd: string) returns (r: Result<string>)
      modifies this
      ensures (Value(), r) == Send(old(Value()), cmd)
    {
      sent := sent + [cmd];
      if pending == [] {
        r := Fail(NoReply(cmd));
      } else {
        r := Ok(pending[0]);
        pending := pending[1..];
      }
    }
  }

  // ---------------------------------------------------------------------------
  // The host

  /** `vendor_vars[key]`: the vendor's command for `key`. */
  function Lookup(vars: map<string, string>, key: string): (r: Result<string>)
    ensures r.Ok? <==> key in vars
    ensures r.Ok? ==> r.value == vars[key]
    ensures r.Fail? ==> r.error == MissingKey(key)
  {
    if key in vars then Ok(vars[key]) else Fail(MissingKey(key))
  }

  /** `vendor_vars[key].format(*args)`: the vendor's command template for `key`, filled in. */
  function Command(vars: map<string, string>, key: string, args: seq<string>): (r: Result<string>)
    ensures key !in vars ==> r == Fail(MissingKey(key))
    ensures key in vars ==> r == Format(vars[key], args)
  {
    var template :- Lookup(vars, key);
    Format(template, args)
  }

  /** What `Command` gives for a template made of brace-free pieces around its fields. */
  lemma CommandFills(vars: map<string, string>, key: string, pieces: seq<string>, args: seq<string>)
    requires key in vars && |pieces| == |args| + 1 && vars[key] == Template(pieces)
    requires forall k :: 0 <= k < |pieces| ==> BraceFree(pieces[k])
    ensures Command(vars, key, args) == Ok(Interleave(pieces, args))
  {
    FormatFills(pieces, args);
  }

  /** The attributes of each interface, in list order. */
  ghost function StatesOf(ifs: seq<SwitchInterface>): (r: seq<InterfaceState>)
    reads ifs
    ensures |r| == |ifs| && forall k :: 0 <= k < |ifs| ==> r[k] == ifs[k].State()
  {
    seq(|ifs|, k reads ifs requires 0 <= k < |ifs| => ifs[k].State())
  }

  /** No interface object appears twice in the list. */
  predicate Distinct(ifs: seq<SwitchInterface>) {
    forall j, k :: 0 <= j < k < |ifs| ==> ifs[j] != ifs[k]
  }

  /** The interfaces `[SwitchInterface(x, mode) for x in names]` start out with. */
  function Rebuilt(names: seq<string>, mode: string): (r: seq<InterfaceState>)
    ensures |r| == |names|
    ensures forall k :: 0 <= k < |names| ==> r[k] == InitialState(names[k], mode)
  {
    seq(|names|, k requires 0 <= k < |names| => InitialState(names[k], mode))
  }

  /** `task.host`: its platform, inventory data and session. */
  class Host {
    const platform: string
    const nornirNos: string
    var vendorVars: map<string, string>
    const vrfName: PyValue
    var interfaces: seq<SwitchInterface>
    const connection: Connection

    predicate Valid()
      reads this
    {
      Distinct(interfaces)
    }

    constructor (platform: string, nornirNos: string, vendorVars: map<string, string>, vrfName: PyValue,
                 interfaces: seq<SwitchInterface>, connection: Connection)
      requires Distinct(interfaces)
      ensures Valid()
      ensures this.platform == platform && this.nornirNos == nornirNos && this.vendorVars == vendorVars
      ensures this.vrfName == vrfName && this.interfaces == interfaces && this.connection == connection
    {
      this.platform := platform;
      this.nornirNos := nornirNos;
      this.vendorVars := vendorVars;
      this.vrfName := vrfName;
      this.interfaces := interfaces;
      this.connection := connection;
    }

    /** `task.host['interfaces'] = [SwitchInterface(x, mode) for x in names]`. */
    method Rebuild(names: seq<string>, mode: string)
      modifies this
      ensures Valid() && StatesOf(interfaces) == Rebuilt(names, mode)
      ensures forall k :: 0 <= k < |interfaces| ==> fresh(interfaces[k])
      ensures vendorVars == old(vendorVars)
    {
      var ifs: seq<SwitchInterface> := [];
      for i := 0 to |names|
        modifies {}
        invariant |ifs| == i && Distinct(ifs)
        invariant forall k :: 0 <= k < i ==> fresh(ifs[k]) && ifs[k].State() == InitialState(names[k], mode)
      {
        var ifc := new SwitchInterface(names[i], mode);
        ifs := ifs + [ifc];
      }
      interfaces := ifs;
    }
  }

  /** How a task over the interface list ended: the interfaces' attributes, the session, and the exception if one was raised. */
  datatype Run = Run(states: seq<InterfaceState>, wire: Wire, error: Option<Error>)

  /** How one interface's step ended: its attributes (assigned as far as the step got), the session, and the exception if any. */
  datatype Outcome = Outcome(state: InterfaceState, wire: Wire, error: Option<Error>)

  /**
   * `for interface in task.host['interfaces']: step(interface)` from position
   * `i` on: each interface in list order, stopping at the first exception.
   */
  function RunFrom(step: (InterfaceState, Wire) -> Outcome, sts: seq<InterfaceState>, i: nat, w: Wire): (r: Run)
    requires i <= |sts|
    ensures |r.states| == |sts|
    ensures forall k :: 0 <= k < i ==> r.states[k] == sts[k]
    decreases |sts| - i
  {
    if i == |sts| then Run(sts, w, None)
    else
      var o := step(sts[i], w);
      if o.error.Some? then Run(sts[i := o.state], o.wire, o.error)
      else RunFrom(step, sts[i := o.state], i + 1, o.wire)
  }

  /**
   * What each step guarantees of the interface it handles holds for the
   * whole list: `done` for every interface when the run ends without an
   * exception, and `touched` (which an untouched interface also satisfies)
   * for every interface in any case.
   */
  lemma {:induction false} RunFromKeeps(step: (InterfaceState, Wire) -> Outcome,
                                        done: (InterfaceState, InterfaceState) -> bool,
                                        touched: (InterfaceState, InterfaceState) -> bool,
                                        sts: seq<InterfaceState>, i: nat, w: Wire)
    requires i <= |sts|
    requires forall s, v :: step(s, v).error.None? ==> done(s, step(s, v).state)
    requires forall s, v :: touched(s, step(s, v).state)
    requires forall k :: i <= k < |sts| ==> touched(sts[k], sts[k])
    ensures forall k :: i <= k < |sts| ==> touched(sts[k], RunFrom(step, sts, i, w).states[k])
    ensures RunFrom(step, sts, i, w).error.None? ==> forall k :: i <= k < |sts| ==> done(sts[k], RunFrom(step, sts, i, w).states[k])
    decreases |sts| - i
  {
    if i < |sts| {
      var o := step(sts[i], w);
      if o.error.None? {
        RunFromKeeps(step, done, touched, sts[i := o.state], i + 1, o.wire);
      }
    }
  }

  /** A run whose steps never touch the session leaves it as it was. */
  lemma {:induction false} RunFromQuiet(step: (InterfaceState, Wire) -> Outcome, sts: seq<InterfaceState>, i: nat, w: Wire)
    requires i <= |sts|
    requires forall s, v :: step(s, v).wire == v
    ensures RunFrom(step, sts, i, w).wire == w
    decreases |sts| - i
  {
    if i < |sts| {
      var o := step(sts[i], w);
      if o.error.None? {
        RunFromQuiet(step, sts[i := o.state], i + 1, o.wire);
      }
    }
  }

  /**
   * Two runs over lists related pointwise by `alike` end alike: the same
   * session and exception, and related attributes, as long as each step
   * treats related interfaces alike.
   */
  lemma {:induction false} RunFromAlike(step: (InterfaceState, Wire) -> Outcome, alike: (InterfaceState, InterfaceState) -> bool,
                                        a: seq<InterfaceState>, b: seq<InterfaceState>, i: nat, w: Wire)
    requires i <= |a| == |b|
    requires forall k :: 0 <= k < |a| ==> alike(a[k], b[k])
    requires forall s, t, v :: alike(s, t) ==>
      alike(step(s, v).state, step(t, v).state) && step(s, v).wire == step(t, v).wire && step(s, v).error == step(t, v).error
    ensures RunFrom(step, a, i, w).wire == RunFrom(step, b, i, w).wire
    ensures RunFrom(step, a, i, w).error == RunFrom(step, b, i, w).error
    ensures forall k :: 0 <= k < |a| ==> alike(RunFrom(step, a, i, w).states[k], RunFrom(step, b, i, w).states[k])
    decreases |a| - i
  {
    if i < |a| {
      var o := step(a[i], w);
      var p := step(b[i], w);
      if o.error.None? {
        RunFromAlike(step, alike, a[i := o.state], b[i := p.state], i + 1, o.wire);
      }
    }
  }

  /** Commands are only ever added to the session's log, as long as every step only adds to it. */
  lemma {:induction false} RunFromLogs(step: (InterfaceState, Wire) -> Outcome, sts: seq<InterfaceState>, i: nat, w: Wire)
    requires i <= |sts|
    requires forall s: InterfaceState, v: Wire :: v.sent <= step(s, v).wire.sent
    ensures w.sent <= RunFrom(step, sts, i, w).wire.sent
    decreases |sts| - i
  {
    if i < |sts| {
      var o := step(sts[i], w);
      if o.error.None? {
        RunFromLogs(step, sts[i := o.state], i + 1, o.wire);
      }
    }
  }
}
