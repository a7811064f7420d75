/**
 * The switch data model: interfaces with the characteristics the checking
 * tasks fill in, IP addresses, BGP neighbours and their address families.
 */
module SwitchObjects {
  import opened Wrappers
  import opened PyText

  // ---------------------------------------------------------------------------
  // Python values that attributes may hold

  /** A Python value as stored in an attribute; floats and lists are kept as their printed text. */
  datatype PyValue = PyNone | PyBool(b: bool) | PyInt(i: int) | PyStr(s: string)

  /** Python truthiness. */
  predicate Truthy(v: PyValue) {
    match v
    case PyNone => false
    case PyBool(b) => b
    case PyInt(i) => i != 0
    case PyStr(s) => s != ""
  }

  /** `str(v)`, which is also what `'{}'.format(v)` inserts. */
  function Text(v: PyValue): string {
    match v
    case PyNone => "None"
    case PyBool(b) => if b then "True" else "False"
    case PyInt(i) => IntText(i)
    case PyStr(s) => s
  }

  // ---------------------------------------------------------------------------
  // Interfaces

  const Switched := "switched"
  const Routed := "routed"

  /** A name that marks a switch virtual interface: "VLAN" occurs in its upper-cased form. */
  predicate IsSvi(name: string) { Contains(Upper(name), "VLAN") }

  /** A name that marks a subinterface: it holds a dot. */
  predicate IsSubinterface(name: string) { '.' in name }

  /** A name that marks a link aggregation group. */
  predicate IsLag(name: string) {
    (StartsWith(name, "port-channel") || StartsWith(name, "Eth-Trunk")) && '.' !in name
  }

  /** An address on an interface; the address itself is kept as opaque text. */
  datatype IPAddress = IPAddress(address: string, prefixLength: nat, primary: bool)

  /**
   * Attributes that steps outside this model assign (general characteristics,
   * switchport configuration, VRF binding, LAG membership) and that only the
   * report reads; `None` stands for an attribute that was never assigned.
   */
  datatype Details = Details(
    description: Option<PyValue>, macAddress: Option<PyValue>, mtu: Option<PyValue>,
    speed: Option<PyValue>, duplex: Option<PyValue>, loadIn: Option<PyValue>, loadOut: Option<PyValue>,
    vrf: Option<PyValue>, switchMode: Option<PyValue>, pvid: Option<PyValue>, vlanList: Option<PyValue>,
    member: Option<PyValue>, members: Option<seq<string>>)

  const NoDetails := Details(None, None, None, None, None, None, None, None, None, None, None, None, None)

  /** The value of every attribute of a `SwitchInterface`; `None` marks one never assigned. */
  datatype InterfaceState = InterfaceState(
    name: string,
    ipv4Addresses: seq<IPAddress>,
    ipv6Addresses: seq<IPAddress>,
    mode: string,
    svi: bool,
    subinterface: bool,
    lag: bool,
    adminStatus: Option<string>,
    operStatus: Option<string>,
    ipv4Neighbors: Option<nat>,
    ipv6Neighbors: Option<nat>,
    macsLearned: Option<nat>,
    details: Details)

  /** The attributes of `SwitchInterface(name, mode)` right after construction. */
  function InitialState(name: string, mode: string): (r: InterfaceState)
    ensures r.name == name && r.ipv4Addresses == [] && r.ipv6Addresses == []
    ensures r.svi <==> exists k :: OccursAt(Upper(name), "VLAN", k)
    ensures r.subinterface <==> exists k :: 0 <= k < |name| && name[k] == '.'
    ensures r.lag <==> (StartsWith(name, "port-channel") || StartsWith(name, "Eth-Trunk")) && !r.subinterface
    ensures !(r.lag && r.subinterface)
    ensures r.svi || r.subinterface ==> r.mode == Routed
    ensures !r.svi && !r.subinterface ==> r.mode == mode
    ensures r.adminStatus.None? && r.operStatus.None? && r.macsLearned.None?
    ensures r.ipv4Neighbors.None? && r.ipv6Neighbors.None? && r.details == NoDetails
  {
    var svi := IsSvi(name);
    var sub := IsSubinterface(name);
    InterfaceState(name, [], [], if svi || sub then Routed else mode, svi, sub, IsLag(name),
                   None, None, None, None, None, NoDetails)
  }

  /** A switch interface, whose attributes the checking tasks assign one by one. */
  class SwitchInterface {
    var name: string
    var ipv4Addresses: seq<IPAddress>
    var ipv6Addresses: seq<IPAddress>
    var mode: string
    var svi: bool
    var subinterface: bool
    var lag: bool
    var adminStatus: Option<string>
    var operStatus: Option<string>
    var ipv4Neighbors: Option<nat>
    var ipv6Neighbors: Option<nat>
    var macsLearned: Option<nat>
    var details: Details

    /** All attributes at once. */
    function State(): InterfaceState
      reads this
    {
      InterfaceState(name, ipv4Addresses, ipv6Addresses, mode, svi, subinterface, lag,
                     adminStatus, operStatus, ipv4Neighbors, ipv6Neighbors, macsLearned, details)
    }

    /** `SwitchInterface(name, mode)`; pass `Switched` for the default mode. */
    constructor (name: string, mode: string)
      ensures State() == InitialState(name, mode)
    {
      this.name := name;
      ipv4Addresses := [];
      ipv6Addresses := [];
      this.mode := mode;
      if IsSvi(name) {
        svi := true;
        this.mode := Routed;
      } else {
        svi := false;
      }
      if IsSubinterface(name) {
        subinterface := true;
        this.mode := Routed;
      } else {
        subinterface := false;
      }
      lag := IsLag(name);
      adminStatus, operStatus := None, None;
      ipv4Neighbors, ipv6Neighbors, macsLearned := None, None, None;
      details := NoDetails;
    }
  }

  // ---------------------------------------------------------------------------
  // IP addresses

  /** `IPAddress(address, prefix_length, secondary)`: primary exactly when `secondary` is falsy. */
  function NewIPAddress(address: string, prefixLength: string, secondary: PyValue): (r: IPAddress)
    requires |prefixLength| >= 1 && AllDigits(prefixLength)
    ensures r.address == address
    ensures r.primary <==> !Truthy(secondary)
    ensures r.prefixLength == DecimalValue(prefixLength) && r.prefixLength < Pow10(|prefixLength|)
  {
    DecimalBound(prefixLength);
    IPAddress(address, DecimalValue(prefixLength), !Truthy(secondary))
  }

  /** `int()` loses nothing of a prefix length written without a superfluous leading zero. */
  lemma PrefixLengthText(address: string, prefixLength: string, secondary: PyValue)
    requires |prefixLength| >= 1 && AllDigits(prefixLength)
    ensures DecimalText(NewIPAddress(address, prefixLength, secondary).prefixLength) == prefixLength || prefixLength[0] == '0'
  {
    DecimalCanonical(prefixLength);
  }

  /** A digit string without a superfluous leading zero is the decimal text of its value. */
  lemma {:induction false} DecimalCanonical(d: string)
    requires |d| >= 1 && AllDigits(d)
    ensures d[0] != '0' ==> DecimalText(DecimalValue(d)) == d
    decreases |d|
  {
    if d[0] != '0' && |d| > 1 {
      var init := d[..|d| - 1];
      DecimalCanonical(init);
      var n := DecimalValue(d);
      var m := DecimalValue(init);
      var last := d[|d| - 1] as int - '0' as int;
      assert n == m * 10 + last;
      assert m >= 1 by { LeadingDigitPositive(init); }
      assert n / 10 == m && n % 10 == last;
      assert DecimalText(n) == DecimalText(m) + [DigitChar(last)];
      assert d == init + [d[|d| - 1]];
    }
  }

  /** A digit string that starts with a non-zero digit has a positive value. */
  lemma {:induction false} LeadingDigitPositive(d: string)
    requires |d| >= 1 && AllDigits(d) && d[0] != '0'
    ensures DecimalValue(d) >= 1
    decreases |d|
  {
    if |d| > 1 {
      LeadingDigitPositive(d[..|d| - 1]);
    }
  }

  /** `str(IPAddress)`: address, '/', prefix length, and " (P)" for a primary address. */
  function AddressText(a: IPAddress): (r: string)
    ensures StartsWith(r, a.address + "/")
  {
    a.address + "/" + DecimalText(a.prefixLength) + (if a.primary then " (P)" else "")
  }

  /** Reads back the text `AddressText` writes: the address runs up to the first '/'. */
  function ParseAddressText(s: string): (r: Option<IPAddress>)
    ensures r.Some? ==> '/' !in r.value.address
  {
    var i := Find(s, "/", 0);
    if i == -1 then None
    else
      assert forall k :: 0 <= k < i ==> s[k] != '/' by {
        forall k | 0 <= k < i ensures s[k] != '/' { OccursAtChar(s, '/', k); }
      }
      var rest := s[i + 1..];
      var primary := |rest| >= 4 && rest[|rest| - 4..] == " (P)";
      var digits := if primary then rest[..|rest| - 4] else rest;
      if |digits| >= 1 && AllDigits(digits) then Some(IPAddress(s[..i], DecimalValue(digits), primary))
      else None
  }

  /** Rendering an address loses nothing when the address holds no '/'. */
  lemma AddressTextRoundTrip(a: IPAddress)
    requires '/' !in a.address
    ensures ParseAddressText(AddressText(a)) == Some(a)
  {
    hide Find, DecimalText, DecimalValue;
    var s := AddressText(a);
    var d := DecimalText(a.prefixLength);
    var tail := if a.primary then " (P)" else "";
    var i := |a.address|;
    assert s == a.address + ("/" + d + tail);
    forall j | 0 <= j < i ensures s[j] != '/' {
      assert s[j] == a.address[j];
    }
    FindChar(s, '/', 0, i);
    assert s[..i] == a.address;
    assert s[i + 1..] == d + tail;
    MarkerRead(d, a.primary);
    DecimalRoundTrip(a.prefixLength);
  }

  /** The " (P)" marker is recognised exactly when it was written after the prefix length. */
  lemma MarkerRead(d: string, primary: bool)
    requires |d| >= 1 && AllDigits(d)
    ensures var rest := d + (if primary then " (P)" else "");
      (|rest| >= 4 && rest[|rest| - 4..] == " (P)") == primary &&
      (if primary then rest[..|rest| - 4] else rest) == d
  {
    var rest := d + (if primary then " (P)" else "");
    if primary {
      assert rest[|rest| - 4..] == " (P)";
      assert rest[..|rest| - 4] == d;
    } else if |rest| >= 4 {
      assert rest[|rest| - 4..][3] == d[|d| - 1];
    }
  }

  // ---------------------------------------------------------------------------
  // BGP

  /** The AFI name an address family stores: 'v4'/'v6' become 'ipv4 unicast'/'ipv6 unicast', anything else is kept. */
  function AfTypeName(afType: string): (r: string)
    ensures afType == "v4" ==> r == "ipv4 unicast"
    ensures afType == "v6" ==> r == "ipv6 unicast"
    ensures afType != "v4" && afType != "v6" ==> r == afType
  {
    if afType == "v4" || afType == "v6" then "ip" + afType + " unicast" else afType
  }

  /** Naming an address family twice changes nothing. */
  lemma AfTypeNameIdempotent(afType: string)
    ensures AfTypeName(AfTypeName(afType)) == AfTypeName(afType)
  {
    if afType == "v4" || afType == "v6" {
      assert AfTypeName(afType)[..3] == "ipv";
    }
  }

  /** An address family of a BGP neighbour with its route counters. */
  class AddressFamily {
    var afType: string
    var learnedRoutes: int
    var sentRoutes: int

    constructor (afType: string)
      ensures this.afType == AfTypeName(afType)
      ensures learnedRoutes == 0 && sentRoutes == 0
    {
      if afType == "v4" || afType == "v6" {
        this.afType := "ip" + afType + " unicast";
      } else {
        this.afType := afType;
      }
      learnedRoutes := 0;
      sentRoutes := 0;
    }
  }

  /** A BGP neighbour: its address and one slot per address family. */
  class BGPNeighbor {
    var address: string
    var af: map<string, Option<AddressFamily>>

    constructor (address: string)
      ensures this.address == address
      ensures af == map["ipv4" := None, "ipv6" := None]
    {
      this.address := address;
      af := map["ipv4" := None, "ipv6" := None];
    }
  }
}
