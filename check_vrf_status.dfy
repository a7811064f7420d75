/**
 * Whether a VRF exists on a device: the vendor's VRF pattern, filled in with
 * the VRF name, is searched for in the `show vrf` output. Regular expression
 * search itself stays abstract: `matches(pattern, text)` says whether
 * `re.search(pattern, text)` finds a match.
 */
module CheckVrfStatus {
  import opened Wrappers
  import opened PyText
  import opened Device

  const PresentTail := " is " + "present" + " on a device"
  const AbsentTail := " is " + "not found" + " on a device"

  predicate EndsWith(s: string, suffix: string) {
    |suffix| <= |s| && s[|s| - |suffix|..] == suffix
  }

  /** The sentence `find_vrf` returns about `name`: `"VRF {} is present on a device".format(name)` or its "not found" twin. */
  function Verdict(name: string, present: bool): (r: string)
    ensures Format(VerdictTemplate(present), [name]) == Ok(r)
  {
    VerdictFormats(name, present);
    "VRF " + name + (if present then PresentTail else AbsentTail)
  }

  /** The `find_vrf` message templates, "VRF {} is present on a device" and "VRF {} is not found on a device". */
  function VerdictTemplate(present: bool): string {
    "VRF " + "{}" + (if present then PresentTail else AbsentTail)
  }

  lemma VerdictFormats(name: string, present: bool)
    ensures Format(VerdictTemplate(present), [name]) == Ok("VRF " + name + (if present then PresentTail else AbsentTail))
  {
    hide Format;
    var tail := if present then PresentTail else AbsentTail;
    var pieces := ["VRF ", tail];
    assert Template(pieces[1..]) == tail;
    assert BraceFree(pieces[0]) && BraceFree(pieces[1]);
    FormatFills(pieces, [name]);
    assert Interleave(pieces, [name]) == "VRF " + name + tail by {
      assert Interleave(pieces[1..], []) == tail;
    }
  }

  /** Reads a verdict back: the VRF name and whether it was found. */
  function ParseVerdict(msg: string): (r: Option<(string, bool)>)
    ensures r.Some? ==> Verdict(r.value.0, r.value.1) == msg
  {
    if !StartsWith(msg, "VRF ") then None
    else if |msg| >= 4 + |PresentTail| && EndsWith(msg, PresentTail) then
      var name := msg[4..|msg| - |PresentTail|];
      assert msg == msg[..4] + name + msg[|msg| - |PresentTail|..];
      Some((name, true))
    else if |msg| >= 4 + |AbsentTail| && EndsWith(msg, AbsentTail) then
      var name := msg[4..|msg| - |AbsentTail|];
      assert msg == msg[..4] + name + msg[|msg| - |AbsentTail|..];
      Some((name, false))
    else None
  }

  /** A verdict names its VRF and its finding unambiguously; in particular the two verdicts about one name differ. */
  lemma VerdictRoundTrip(name: string, present: bool)
    ensures ParseVerdict(Verdict(name, present)) == Some((name, present))
    ensures Verdict(name, true) != Verdict(name, false)
  {
    var msg := Verdict(name, present);
    assert msg[..4] == "VRF ";
    if present {
      assert msg[|msg| - |PresentTail|..] == PresentTail;
      assert msg[4..|msg| - |PresentTail|] == name;
    } else {
      assert msg[|msg| - |PresentTail|] == 's';
      assert !EndsWith(msg, PresentTail);
      assert msg[|msg| - |AbsentTail|..] == AbsentTail;
      assert msg[4..|msg| - |AbsentTail|] == name;
    }
    assert Verdict(name, true)[|Verdict(name, true)| - 1 - |PresentTail| + 1..] == PresentTail;
    assert |Verdict(name, true)| != |Verdict(name, false)|;
  }

  /** A found VRF's verdict says "present", a missing one's says "not found". */
  lemma VerdictWords(name: string)
    ensures Contains(Verdict(name, true), "present")
    ensures Contains(Verdict(name, false), "not found")
  {
    hide Find, Format, VerdictTemplate;
    OccursInMiddle("VRF " + name + " is ", "present", " on a device");
    assert Verdict(name, true) == ("VRF " + name + " is ") + "present" + " on a device";
    OccursInMiddle("VRF " + name + " is ", "not found", " on a device");
    assert Verdict(name, false) == ("VRF " + name + " is ") + "not found" + " on a device";
  }

  /** The verdict on the text to check, which is `None` when neither a connection nor an output was given. */
  function Decide(vrfName: string, vendor: map<string, string>, matches: (string, string) -> bool, text: Option<string>): (r: Result<string>)
    ensures "vrf regexp" !in vendor ==> r == Fail(MissingKey("vrf regexp"))
    ensures "vrf regexp" in vendor && Format(vendor["vrf regexp"], [vrfName]).Fail? ==> r == Format(vendor["vrf regexp"], [vrfName])
    ensures r.Fail? && "vrf regexp" in vendor && Format(vendor["vrf regexp"], [vrfName]).Ok? ==> text.None? && r.error == NotText
    ensures r.Ok? ==>
      (text.Some? && ParseVerdict(r.value) == Some((vrfName, matches(Format(vendor["vrf regexp"], [vrfName]).value, text.value))))
  {
    var pattern :- Command(vendor, "vrf regexp", [vrfName]);
    if text.None? then Fail(NotText)
    else
      VerdictRoundTrip(vrfName, matches(pattern, text.value));
      Ok(Verdict(vrfName, matches(pattern, text.value)))
  }

  /**
   * `find_vrf(vrf_name, vendor_dict, connection, output)`: `session` is the
   * connection's session when a connection is given, and is returned as the
   * command leaves it.
   */
  function FindVrf(vrfName: string, vendor: map<string, string>, matches: (string, string) -> bool,
                   session: Option<Wire>, output: Option<string>): (r: (Option<Wire>, Result<string>))
    ensures session.None? ==> r == (None, Decide(vrfName, vendor, matches, output))
    ensures session.Some? && "show vrf" !in vendor ==> r == (session, Fail(MissingKey("show vrf")))
    ensures session.Some? && "show vrf" in vendor ==>
      var (w, reply) := Send(session.value, vendor["show vrf"]);
      && r.0 == Some(w)
      && (reply.Fail? ==> r.1 == Fail(reply.error))
      && (reply.Ok? ==> r.1 == Decide(vrfName, vendor, matches, Some(reply.value)))
  {
    if session.None? then (None, Decide(vrfName, vendor, matches, output))
    else match Lookup(vendor, "show vrf")
    case Fail(e) => (session, Fail(e))
    case Ok(cmd) =>
      var (w, reply) := Send(session.value, cmd);
      match reply
      case Fail(e) => (Some(w), Fail(e))
      case Ok(text) => (Some(w), Decide(vrfName, vendor, matches, Some(text)))
  }

  /** With a connection the `output` argument is never looked at. */
  lemma OutputIgnoredWithConnection(vrfName: string, vendor: map<string, string>, matches: (string, string) -> bool,
                                    w: Wire, o1: Option<string>, o2: Option<string>)
    ensures FindVrf(vrfName, vendor, matches, Some(w), o1) == FindVrf(vrfName, vendor, matches, Some(w), o2)
  {
    hide Decide;
  }
}
