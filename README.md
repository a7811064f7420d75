# nornir_bindings switch interface checks, modelled in Dafny

This project models the part of nornir_bindings that reads switch CLI output
and turns it into `SwitchInterface` records, and the part that renders the
final report. It covers:

- the interface and IP address data model (`utils/switch_objects.py`);
- the per-vendor Nornir tasks in both copies (`operations/` and `tasks/`).
  They read interface status, L2/L3 mode, IPv4/IPv6 addresses, ARP/ND
  neighbour counts and learned-MAC counts from NX-OS (`nxos`) and Huawei VRP
  (`huawei_vrpv8`) output;
- the VRF presence check (`tasks/check_vrf_status.py`);
- the vendor-catalogue choice and the report of `check_switch_interfaces`
  (`bindings/switch_interfaces_check.py`).

How the model is built:

- `task.host` is a `Host` object. It holds the platform, the `nornir_nos`
  inventory entry, the vendor command catalogue, the VRF name, the interface
  list and a `Connection`.
- The connection is a scripted CLI session: it hands out canned outputs in
  order, one per command sent, and logs every command. Its pure value is a
  `Wire`. Because the log is part of the state, "no command is sent" can be
  stated and proved.
- Every interface is a `SwitchInterface` object whose fields the tasks assign
  in place. Python attributes that appear only once a task assigns them are
  `Option` fields. `None` means the attribute was never assigned, and reading
  one in the report raises `AttributeError`.
- Each task is modelled twice, and the two are proved equal:
  - a pure step function per interface, run over the list by `Device.RunFrom`.
    The run stops at the first exception, as the Python loop does;
  - an imperative method that loops over `host.interfaces` and updates the
    objects in place. Its `ensures` ties the final objects, the session and
    the raised exception to that run.
- Python exceptions are values of `Error`:
  - `UnsupportedNOS`;
  - `ValueError` from `str.index`;
  - `AttributeError`;
  - `KeyError` on the catalogue;
  - a failed regular expression match, whose `.group` is called on `None`;
  - `TypeError` for `re.search` on `None`.
- Regular expressions are hand-written anchored matchers, one per pattern the
  source uses. A generic leftmost `Search` and `FindAll` run them.
- Python's `find`, `index`, slicing, `strip`, `split`, `upper`, `int`, `str`
  and `str.format` are modelled with their exact edge cases:
  - `find` returns -1, and slicing to -1 drops the last character;
  - `''.split('\n')` is one piece;
  - `{}` fields take the next argument, and an unmatched brace is an error.

## Model

| member | source | states |
|---|---|---|
| SwitchObjects.InitialState | utils/switch_objects.py:19-38 | a new interface has empty address lists; `svi` holds iff "VLAN" occurs in the upper-cased name; `subinterface` holds iff the name has a '.'; `lag` holds iff the name starts with 'port-channel' or 'Eth-Trunk' and has no '.', so `lag` and `subinterface` never hold together; SVIs and subinterfaces are routed; any other interface keeps the mode it was given |
| SwitchObjects.SwitchInterface.constructor | utils/switch_objects.py:19-38 | the constructor's fields are exactly `InitialState(name, mode)` |
| SwitchObjects.NewIPAddress | utils/switch_objects.py:54-60 | `primary` holds iff the `secondary` argument is falsy (`None`, `''`, False, 0); the prefix length is the integer value of its digits, and is below 10^digits |
| SwitchObjects.PrefixLengthText | utils/switch_objects.py:56-63 | `str(int(p)) == p` for a prefix length written without a leading zero |
| SwitchObjects.DecimalCanonical | utils/switch_objects.py:56-63 | a digit string that does not start with '0' is the decimal text of its value |
| SwitchObjects.ParseAddressText | utils/switch_objects.py:62-66 | a parsed address never contains '/' |
| SwitchObjects.AddressText | utils/switch_objects.py:62-66 | `str(IPAddress)` starts with the address and a '/' |
| SwitchObjects.AddressTextRoundTrip | utils/switch_objects.py:62-66 | `str(IPAddress)` (address, '/', prefix length, and ' (P)' iff primary) can be read back to the same address, prefix length and primary flag |
| SwitchObjects.AfTypeName | utils/switch_objects.py:87-91 | 'v4' and 'v6' become 'ipv4 unicast' and 'ipv6 unicast'; any other value is kept |
| SwitchObjects.AfTypeNameIdempotent | utils/switch_objects.py:87-91 | naming an address family twice gives the same name as naming it once |
| SwitchObjects.AddressFamily.constructor | utils/switch_objects.py:87-93 | the AFI name is `AfTypeName(af_type)` and both route counters start at 0 |
| SwitchObjects.BGPNeighbor.constructor | utils/switch_objects.py:76-78 | both address-family slots, 'ipv4' and 'ipv6', start as `None` |
| PyText.Find | operations/check_interfaces.py:49 | `str.find`: -1 exactly when no occurrence exists at or after `start`, otherwise the leftmost occurrence |
| PyText.Index | operations/check_interfaces.py:47 | `str.index`: raises ValueError iff the substring is absent, otherwise gives the leftmost occurrence |
| PyText.Contains | operations/check_interfaces.py:52 | `sub in s` holds iff the substring occurs at some position |
| PyText.FindIsLeftmost | operations/check_interfaces.py:49 | any occurrence with no earlier occurrence from `start` is the one `find` returns |
| PyText.Slice | operations/check_interfaces.py:50 | Python slicing: an in-range slice is the subsequence, and `s[i:-1]` drops the final character |
| PyText.Strip | operations/check_mac_table.py:36 | `strip()` leaves no whitespace at either end, and takes away only a leading and a trailing whitespace run |
| PyText.StripBlank | operations/check_mac_table.py:36 | a whitespace-only string strips to '' |
| PyText.Split | operations/check_mac_table.py:36 | `split(sep)` gives at least one piece, and no piece holds the separator |
| PyText.JoinOn | operations/check_mac_table.py:36 | joining pieces starts with the first piece, followed by the separator when there are more |
| PyText.SplitCount | operations/check_mac_table.py:36 | `split(sep)` gives one more piece than there are separators |
| PyText.JoinSplit | operations/check_mac_table.py:36 | joining the pieces of a split gives back the string |
| PyText.SplitJoin | operations/check_mac_table.py:36 | splitting a join of separator-free pieces gives back the pieces |
| PyText.Upper | utils/switch_objects.py:24 | `upper()` maps each character through the ASCII upper-casing and keeps the length |
| PyText.DecimalText | utils/switch_objects.py:63 | `str(n)` is a non-empty digit string with no leading zero unless n is 0 |
| PyText.DecimalValue | utils/switch_objects.py:56 | `int(d)` of k digits without a leading zero is at least 10^(k-1) |
| PyText.DecimalRoundTrip | utils/switch_objects.py:56-63 | `int(str(n)) == n` |
| PyText.DecimalBound | utils/switch_objects.py:56 | the value of k digits is below 10^k |
| PyText.FormatBraceFreePrefix | operations/check_interfaces.py:101-105 | `str.format` copies a brace-free prefix unchanged |
| PyText.Format | operations/check_interfaces.py:101-105 | `str.format` either gives the formatted text or raises a format error (an unmatched brace, or a missing argument) |
| PyText.FormatFills | operations/check_interfaces.py:101-105 | a template of brace-free pieces around `{}` fields, filled with one argument per field, interleaves pieces and arguments |
| Patterns.Leftmost | operations/check_interfaces.py:119-124 | the leftmost position where the pattern matches: it matches there and nowhere before; None iff it matches nowhere |
| Patterns.Search | operations/check_interfaces.py:119-124 | `re.search`: None iff the pattern matches at no position; otherwise the groups of the leftmost match, every earlier position failing to match |
| Patterns.FindAll | operations/check_interfaces.py:114 | `re.findall`: empty iff the pattern matches nowhere from `from`; every element is the groups of a real match |
| Patterns.FindAllScan | operations/check_interfaces.py:114 | `re.findall` scans left to right: the elements are the groups of matches at increasing positions, the first is the leftmost match, each later one is the first match at or after where the previous ended (one further on after an empty match), and no match is skipped, so the list is complete and in order |
| Patterns.ScanCons | operations/check_interfaces.py:114 | a leftmost match followed by a complete scan from where it ends is a complete scan from the start |
| Patterns.FindAllScanned | operations/check_interfaces.py:114 | the result of `findall` is a complete, ordered left-to-right scan |
| Patterns.FindAllKeeps | operations/check_interfaces.py:114-117 | what every match captures, every element of `findall` satisfies |
| Patterns.SearchKeeps | operations/check_interfaces.py:119-124 | what every match captures, the result of `search` satisfies |
| Patterns.Lit | operations/check_interfaces.py:108-113 | a literal piece of a pattern matches iff the literal occurs there, and ends right after it |
| Patterns.DottedQuad | operations/check_interfaces.py:110 | `\d{1,3}\.\d{1,3}\.\d{1,3}\.\d{1,3}` ends right before the character that follows it |
| Patterns.SomeDigits | operations/check_interfaces.py:113 | `\d{1,max}` takes 1 to `max` digits, and fails iff no digit stands there |
| Patterns.OptionalLit | operations/check_interfaces.py:113 | `( secondary)?` captures the marker iff it occurs, and '' otherwise |
| Patterns.NxosIpv4All | operations/check_interfaces.py:108-114 | NX-OS IPv4 `findall`: each capture has a prefix of 1-2 digits and a marker that is ' secondary' or ''; empty iff nothing matches; the captures are every non-overlapping match, left to right |
| Patterns.HuaweiIpv4All | operations/check_interfaces.py:139-142 | VRP IPv4 `findall`: a prefix of 1-2 digits and a marker that is ' Sub' or ''; empty iff nothing matches; every non-overlapping match, left to right |
| Patterns.NxosIpv6AddressAt | operations/check_interfaces.py:119-120 | `IPv6 address: (\S+)` captures a non-empty token |
| Patterns.NxosLinkLocalAt | operations/check_interfaces.py:123-124 | `IPv6 link-local address: (\S+)` captures a non-empty token |
| Patterns.NxosIpv6Prefix | operations/check_interfaces.py:121-122 | `IPv6 subnet:  \S+/(\d{1,3})` captures 1-3 digits of the leftmost match, and None iff nothing matches |
| Patterns.HexSlashAll | operations/check_interfaces.py:132-133 | `([0-9A-Fa-f:]+)/(\d{1,3})` `findall`: a non-empty address and 1-3 prefix digits per capture; empty iff nothing matches; every non-overlapping match, left to right |
| Patterns.HuaweiLinkLocalAt | operations/check_interfaces.py:147-149 | `link-local address is ([0-9A-Fa-f:]+)` captures a non-empty address |
| Patterns.HuaweiIpv6All | operations/check_interfaces.py:150-152 | the VRP global IPv6 `findall`: a non-empty address and 1-3 prefix digits per capture; empty iff nothing matches; every non-overlapping match, left to right |
| Patterns.SearchCounter | operations/check_interfaces.py:211-213 | `int(re.search(label gap (\d+)).group(1))`: None iff no position matches; otherwise the number of the leftmost match |
| Patterns.SearchCounterAtStart | operations/check_mac_table.py:38 | a caption at the start of the text, right before a run of digits, is the match found, and its number is those digits' value |
| Patterns.StatusWordAt | operations/check_interfaces.py:62-63 | `\s+(\*?(down\|up))` captures 'down', 'up', '*down' or '*up' |
| Patterns.HuaweiStatusAt | operations/check_interfaces.py:62-63 | the VRP brief pattern for one interface name gives a status word |
| Patterns.VlanNumber | operations/check_mac_table.py:48-49 | `(?i)^vlan(?:if)?(\d+)$`: a match is the digits ending the name (before an optional final newline), after a case-insensitive 'vlan' and an optional 'if' |
| Patterns.VlanNumberFound | operations/check_mac_table.py:48-49 | every name of that shape matches: 'vlan' in any case, an optional 'if' in any case, digits and an optional final newline give back exactly those digits |
| Device.Send | operations/check_interfaces.py:100-105 | sending logs the command; it answers with the next scripted output, or fails with no reply when none is left |
| Device.Connection.SendCommand | operations/check_interfaces.py:100-105 | the session object changes exactly as `Send` says |
| Device.Lookup | operations/check_interfaces.py:101 | `vendor_vars[key]`: KeyError iff the key is absent |
| Device.Command | operations/check_interfaces.py:101-102 | `vendor_vars[key].format(*args)`: KeyError for a missing key, otherwise the formatted template |
| Device.CommandFills | operations/check_interfaces.py:101-102 | a command template of brace-free pieces is filled with the arguments in order |
| Device.Rebuilt | operations/check_interfaces.py:36-37 | `[SwitchInterface(x, mode) for x in names]`, one per name, in order |
| Device.Host.Rebuild | operations/check_interfaces.py:36-37 | the host's interfaces are replaced by fresh objects in the state `Rebuilt(names, mode)` |
| Device.RunFrom | operations/check_interfaces.py:42-77 | the loop over the interfaces keeps every interface before the current position as it is |
| Device.RunFromKeeps | operations/check_interfaces.py:42-77 | what each step guarantees of its interface holds for every interface of the run, and for all of them when nothing is raised |
| Device.RunFromQuiet | operations/check_interfaces.py:42-77 | a loop whose steps send nothing leaves the session as it was |
| Device.RunFromAlike | operations/check_interfaces.py:94-99 | runs over pointwise-related lists end with the same session and exception, and related interfaces |
| Device.RunFromLogs | operations/check_interfaces.py:99-105 | commands are only ever added to the session log |
| CheckInterfaces.CiscoCompactName | operations/check_interfaces.py:7-20 | a name containing 'Ethernet' becomes 'Eth' + the name after 8 characters; otherwise one containing 'port-channel' becomes 'Po' + the name after 12; otherwise the name is kept; never longer than the full name |
| CheckInterfaces.CompactNameKeepsSuffix | operations/check_interfaces.py:7-20 | a name starting with 'Ethernet' keeps everything after it behind 'Eth'; one starting with 'port-channel' (and holding no 'Ethernet') keeps it behind 'Po'; a name holding neither is kept |
| CheckInterfaces.BriefLine | operations/check_interfaces.py:47-50 | the interface's brief line runs to the next newline; on the last line, where `find` gives -1, it stops one character short of the end |
| CheckInterfaces.NxosStatus | operations/check_interfaces.py:51-60 | ' up ' gives up/up; otherwise 'Administratively down' gives down/down; otherwise up/down; admin down always implies oper down |
| CheckInterfaces.HuaweiStatus | operations/check_interfaces.py:64-72 | admin status is down iff the status is '*down'; oper status is down iff the status is '*down' or 'down'; admin down implies oper down |
| CheckInterfaces.BriefName | operations/check_interfaces.py:43-46 | the name looked up in the brief table is the compacted name on NX-OS and the full name otherwise |
| CheckInterfaces.HuaweiStatusTable | operations/check_interfaces.py:64-72 | '*down' gives down/down, 'down' gives up/down and any other status word gives up/up |
| CheckInterfaces.StatusStep | operations/check_interfaces.py:43-75 | the looked-up name missing from the table raises ValueError naming it; otherwise the brief line starting at its first occurrence gives the NX-OS status, or the VRP status of the leftmost pattern match (no match raises), or UnsupportedNOS for any other OS; a status is always consistent |
| CheckInterfaces.StatusOutcome | operations/check_interfaces.py:42-77 | reading one status sends nothing |
| CheckInterfaces.StatusTask | operations/check_interfaces.py:23-78 | one state per interface (the rebuilt list when names are given); a missing 'show interfaces brief' entry raises KeyError before anything is sent or changed |
| CheckInterfaces.StatusTaskSound | operations/check_interfaces.py:23-78 | exactly one command, the brief table, is sent; only the status attributes change; with no exception every interface gets a consistent status |
| CheckInterfaces.StatusUnsupported | operations/check_interfaces.py:44-75 | any other OS assigns nothing and raises on the first interface: UnsupportedNOS when its name is in the table, ValueError naming it otherwise |
| CheckInterfaces.UpdateStatus | operations/check_interfaces.py:43-75 | the interface object changes exactly as `StatusOutcome` says |
| CheckInterfaces.StatusLoop | operations/check_interfaces.py:42-77 | the loop leaves the objects, the session and the exception exactly as the pure run does |
| CheckInterfaces.CheckInterfacesStatus | operations/check_interfaces.py:23-78 | `check_interfaces_status`, with a non-empty list rebuilt in the default mode, equals `StatusTask` |
| CheckInterfaces.Ipv4Entries | operations/check_interfaces.py:115-117 | one entry per match, in order; primary iff the match has no marker |
| CheckInterfaces.SecondaryEntries | operations/check_interfaces.py:134-136 | one entry per match, in order, none of them primary |
| CheckInterfaces.LinkLocalEntry | operations/check_interfaces.py:127-128 | a link-local entry has prefix length 64 and is not primary |
| CheckInterfaces.NxosIpv4 | operations/check_interfaces.py:107-117 | 'IP is disabled' gives no entries; otherwise one entry per `findall` match, in order, with the match's address, the value of its prefix digits, and primary iff it has no ' secondary' marker; every prefix is at most 99 |
| CheckInterfaces.NxosSecondaries | operations/check_interfaces.py:129-136 | no secondary heading gives no entries; with the heading, ValueError iff the link-local heading is absent; the entries are all non-primary |
| CheckInterfaces.NxosSecondaryBlock | operations/check_interfaces.py:129-136 | with both headings, the entries are one per `findall` match in the text from the secondary heading up to the link-local heading, in order, each with the match's address and prefix value |
| CheckInterfaces.NxosIpv6Found | operations/check_interfaces.py:125-136 | the list is the primary address with its prefix value, then the link-local entry (prefix 64), then the secondary block's entries; a failing secondary block raises after the first two are appended |
| CheckInterfaces.NxosIpv6 | operations/check_interfaces.py:118-136 | 'IPv6 is disabled' gives nothing; otherwise nothing raises iff all three patterns match, and then the list is the leftmost address match with the leftmost prefix, the leftmost link-local address, then the secondary block; a missing pattern raises before anything is appended |
| CheckInterfaces.LinkLocalHeading | operations/check_interfaces.py:123-131 | where the link-local pattern matches, its heading occurs, so the secondary block's `index` never raises after it |
| CheckInterfaces.HuaweiIpv4 | operations/check_interfaces.py:138-145 | without 'Internet Address is' there are no entries; otherwise one entry per `findall` match, in order, with its address, prefix value, and primary iff it has no ' Sub' marker |
| CheckInterfaces.HuaweiIpv6Found | operations/check_interfaces.py:147-157 | the link-local address first (prefix 64), then each global capture in order with its address and prefix value; none primary |
| CheckInterfaces.HuaweiIpv6 | operations/check_interfaces.py:146-157 | no entries when the address does not exist; otherwise nothing raises iff the link-local pattern matches, and then the list is its leftmost match, then every global match in order with its prefix value, none primary; a missing link-local raises with nothing appended |
| CheckInterfaces.AddressesRead | operations/check_interfaces.py:106-157 | the IPv4 entries, then the IPv6 entries, are appended at the ends of the lists; nothing else changes |
| CheckInterfaces.IpStep | operations/check_interfaces.py:100-160 | one interface sends at most two commands, only added to the session log |
| CheckInterfaces.IpCommands | operations/check_interfaces.py:100-105 | with both templates present and two outputs waiting, the step sends the IPv4 and then the IPv6 command and consumes both outputs |
| CheckInterfaces.IpRun | operations/check_interfaces.py:99-171 | one state per interface; the loop only adds to the session log |
| CheckInterfaces.IpStepAppends | operations/check_interfaces.py:99-160 | one interface's step only appends to its address lists |
| CheckInterfaces.IpRunAppends | operations/check_interfaces.py:99-160 | over the whole loop, addresses are only appended and no other attribute changes |
| CheckInterfaces.IpUnsupported | operations/check_interfaces.py:158-160 | any other OS leaves the interface as it was and raises; when both commands can be sent, it sends both and then raises UnsupportedNOS |
| CheckInterfaces.AppendIpv4 | operations/check_interfaces.py:115-117 | appends `Ipv4Entries` of the matches to the IPv4 list in place |
| CheckInterfaces.AppendSecondaryIpv6 | operations/check_interfaces.py:134-136 | appends the non-primary entries to the IPv6 list in place |
| CheckInterfaces.UpdateNxosIpv4 | operations/check_interfaces.py:107-117 | the IPv4 list gains exactly `NxosIpv4(out)` |
| CheckInterfaces.AppendNxosSecondaries | operations/check_interfaces.py:129-136 | the IPv6 list gains the secondary block, or is unchanged when it raises |
| CheckInterfaces.AppendNxosFound | operations/check_interfaces.py:125-136 | the IPv6 list gains exactly `NxosIpv6Found(...)`, with its error |
| CheckInterfaces.UpdateNxosIpv6 | operations/check_interfaces.py:118-136 | the IPv6 list gains exactly `NxosIpv6(out)`, with its error |
| CheckInterfaces.UpdateHuaweiIpv4 | operations/check_interfaces.py:138-145 | the IPv4 list gains exactly `HuaweiIpv4(out)` |
| CheckInterfaces.UpdateHuaweiIpv6 | operations/check_interfaces.py:146-157 | the IPv6 list gains exactly `HuaweiIpv6(out)`, with its error |
| CheckInterfaces.AppendHuaweiFound | operations/check_interfaces.py:147-157 | the IPv6 list gains exactly `HuaweiIpv6Found(...)` |
| CheckInterfaces.UpdateAddresses | operations/check_interfaces.py:100-160 | one interface object and the session change exactly as `IpStep` says |
| CheckInterfaces.StoreAddresses | operations/check_interfaces.py:106-160 | the interface object changes exactly as the parsed outputs say, for NX-OS, for VRP, or not at all with UnsupportedNOS |
| CheckInterfaces.ReadAddresses | operations/check_interfaces.py:99-171 | the loop equals the pure run `IpRun` |
| CheckInterfaces.GetInterfacesIpAddresses | operations/check_interfaces.py:81-172 | `get_interfaces_ip_addresses`: a non-empty list is rebuilt as routed interfaces, then `IpRun` |
| CheckInterfaces.NxosMode | operations/check_interfaces.py:254-260 | 'routed' gives routed; otherwise 'trunk' or 'access' gives switched; otherwise undetermined, so ValueError |
| CheckInterfaces.HuaweiMode | operations/check_interfaces.py:264-270 | 'Switch Port' gives switched; otherwise 'Route Port' gives routed; otherwise undetermined |
| CheckInterfaces.ModeStep | operations/check_interfaces.py:242-273 | only VRP sends a command, one per interface that is neither SVI nor subinterface, and that command is `show interface` for it |
| CheckInterfaces.ModeTask | operations/check_interfaces.py:233-274 | on NX-OS exactly the brief-table command is sent; an unsupported OS sends nothing |
| CheckInterfaces.ModeUnsupported | operations/check_interfaces.py:271-273 | any other OS raises UnsupportedNOS on an interface that is neither SVI nor subinterface, sending nothing and changing nothing |
| CheckInterfaces.ModeTaskSound | operations/check_interfaces.py:233-274 | only the mode changes; SVIs and subinterfaces keep theirs; with no exception every other interface is routed or switched |
| CheckInterfaces.ModeSkipsByType | operations/check_interfaces.py:242-245 | an SVI or subinterface sends nothing and is left as it is |
| CheckInterfaces.UpdateMode | operations/check_interfaces.py:242-273 | one interface and the session change exactly as `ModeStep` says |
| CheckInterfaces.ModeLoop | operations/check_interfaces.py:241-273 | the loop equals the pure run of `ModeStep` |
| CheckInterfaces.GetInterfacesMode | operations/check_interfaces.py:233-274 | `get_interfaces_mode` equals `ModeTask`; on NX-OS the brief table is fetched once, before the loop |
| CheckInterfaces.VrfArgument | operations/check_interfaces.py:202-203 | a falsy VRF name becomes 'default'; any other is used as it prints |
| CheckInterfaces.NeighborCounter | operations/check_interfaces.py:210-216 | a counter pattern exists exactly for NX-OS and VRP |
| CheckInterfaces.CountNeighbors | operations/check_interfaces.py:217-227 | an empty output counts 0; otherwise it raises iff the pattern matches nowhere, and the count is the number of the leftmost match |
| CheckInterfaces.NeighborsSkipSwitched | operations/check_interfaces.py:195-199 | a non-routed interface gets 0/0 neighbours and sends nothing |
| CheckInterfaces.NeighborsCommands | operations/check_interfaces.py:202-209 | a routed interface sends the IPv4, then the IPv6 neighbour command, both naming the interface and the VRF |
| CheckInterfaces.NeighborsUnsupported | operations/check_interfaces.py:202-216 | any other OS on a routed interface sends both neighbour commands and then raises UnsupportedNOS, changing nothing |
| CheckInterfaces.NeighborsStep | operations/check_interfaces.py:194-227 | one interface sends at most two commands, only added to the session log |
| CheckInterfaces.NeighborsCounted | operations/check_interfaces.py:210-227 | sends nothing; no counter for the OS raises UnsupportedNOS; an IPv4 count that raises changes nothing; otherwise the IPv4 count is stored, then an IPv6 failure raises, and otherwise the IPv6 count is stored too |
| CheckInterfaces.NeighborsRun | operations/check_interfaces.py:193-229 | one state per interface; the loop only adds to the session log |
| CheckInterfaces.NeighborsRunSound | operations/check_interfaces.py:193-229 | only the counters change; with no exception every interface has both counters, and non-routed ones have 0 |
| CheckInterfaces.UpdateNeighbors | operations/check_interfaces.py:194-227 | one interface and the session change exactly as `NeighborsStep` says |
| CheckInterfaces.StoreNeighbors | operations/check_interfaces.py:210-227 | the counts are read and stored as `NeighborsCounted` says: IPv4 first, so an IPv6 failure leaves the IPv4 count stored |
| CheckInterfaces.NeighborsLoop | operations/check_interfaces.py:193-229 | the loop equals `NeighborsRun` |
| CheckInterfaces.GetInterfacesIpNeighbors | operations/check_interfaces.py:175-230 | `get_interfaces_ip_neighbors`: a non-empty list is rebuilt as routed interfaces, then `NeighborsRun` |
| TasksCheckInterfaces.GetInterfacesIpAddresses | tasks/check_interfaces.py:62-126 | the second copy rebuilds a non-empty list in the default mode, not routed, then runs `IpRun` |
| TasksCheckInterfaces.IpStepIgnoresMode | tasks/check_interfaces.py:67-126 | the address step never reads the mode: interfaces that differ only in mode get the same commands, outcome and addresses |
| TasksCheckInterfaces.IpVariantsAgree | tasks/check_interfaces.py:63-64 | rebuilding as switched or as routed gives the same session, exception and addresses; only the mode differs, and the switched copy is routed exactly for SVIs and subinterfaces |
| CheckMacTable.NxosMacCount | operations/check_mac_table.py:29-36 | no '---' counts 0; no newline after it raises ValueError; otherwise the count is the number of newlines in the stripped text after the delimiter line, plus one, so at least 1 |
| CheckMacTable.NxosTableStart | operations/check_mac_table.py:30-35 | the table body starts at the first newline after the first '---' |
| CheckMacTable.NxosCountLines | operations/check_mac_table.py:30-36 | with the delimiter and newline found, the count is the number of lines of the stripped rest |
| CheckMacTable.NxosEmptyBodyCountsOne | operations/check_mac_table.py:35-36 | a delimiter line followed by whitespace only still counts 1 |
| CheckMacTable.HuaweiMacCount | operations/check_mac_table.py:37-38 | the number of the leftmost 'Total items: N' match; no match anywhere raises |
| CheckMacTable.HuaweiTotalRead | operations/check_mac_table.py:37-38 | a table that starts with 'Total items: N' counts exactly N |
| CheckMacTable.CountMacs | operations/check_mac_table.py:20-41 | NX-OS counts as `NxosMacCount`, VRP as `HuaweiMacCount`; UnsupportedNOS is raised exactly for any other OS, and names that OS |
| CheckMacTable.Counted | operations/check_mac_table.py:47-63 | a missing template raises KeyError; no reply raises after logging the command; otherwise one output is consumed and a count that succeeds sets the MAC count and nothing else, while one that raises changes nothing |
| CheckMacTable.MacStep | operations/check_mac_table.py:47-63 | one interface sends at most one command, only added to the log; a routed non-SVI sends nothing |
| CheckMacTable.MacRun | operations/check_mac_table.py:46-63 | one state per interface; the loop only adds to the session log |
| CheckMacTable.MacStepSound | operations/check_mac_table.py:47-63 | one step changes only the MAC count, and sets it when nothing is raised |
| CheckMacTable.MacRunSound | operations/check_mac_table.py:46-63 | only MAC counts change; with no exception every interface has one, and routed non-SVIs have 0 |
| CheckMacTable.MacRoutedOnly | operations/check_mac_table.py:54-57 | over routed non-SVIs nothing is sent and nothing raised, for any OS, and each count is 0 |
| CheckMacTable.MacCommand | operations/check_mac_table.py:47-63 | an SVI asks for its VLAN's table by number; a switched interface asks for its own table by name |
| CheckMacTable.UpdateMacs | operations/check_mac_table.py:47-63 | one interface and the session change exactly as `MacStep` says |
| CheckMacTable.MacLoop | operations/check_mac_table.py:46-63 | the loop equals `MacRun` |
| CheckMacTable.GetInterfacesMacs | operations/check_mac_table.py:42-63 | a non-empty list is rebuilt in the default mode, then `MacRun` counts by the host's platform |
| TasksCheckMacTable.GetInterfacesMacs | tasks/check_mac_table.py:22-44 | the second copy is the same loop, but counts by the host's `nornir_nos` |
| CheckVrfStatus.Verdict | tasks/check_vrf_status.py:7-10 | the verdict is the template "VRF {} is present on a device" or "VRF {} is not found on a device", formatted with the name |
| CheckVrfStatus.ParseVerdict | tasks/check_vrf_status.py:7-10 | a verdict read back gives a name and finding that render to the same message |
| CheckVrfStatus.VerdictRoundTrip | tasks/check_vrf_status.py:7-10 | a verdict gives back its VRF name and finding, so the two verdicts about one name differ |
| CheckVrfStatus.VerdictWords | tasks/check_vrf_status.py:8-10 | a found VRF's verdict contains 'present'; a missing one's contains 'not found' |
| CheckVrfStatus.Decide | tasks/check_vrf_status.py:7-10 | KeyError without 'vrf regexp'; the format error of a bad template; TypeError when there is no text; otherwise a verdict whose finding is whether the filled-in pattern matches |
| CheckVrfStatus.FindVrf | tasks/check_vrf_status.py:4-10 | with a connection, 'show vrf' is sent and its reply is what is checked; without one, `output` is checked |
| CheckVrfStatus.OutputIgnoredWithConnection | tasks/check_vrf_status.py:5-6 | with a connection, the `output` argument makes no difference |
| SwitchInterfacesCheck.CatalogueKey | bindings/switch_interfaces_check.py:23-29 | 'nxos' and 'huawei_vrpv8' are the only platforms with an entry; any other raises UnsupportedNOS naming the platform |
| SwitchInterfacesCheck.CatalogueKeyRoundTrip | bindings/switch_interfaces_check.py:23-26 | the two platforms get different entries, each naming its platform back |
| SwitchInterfacesCheck.VendorVars | bindings/switch_interfaces_check.py:23-29 | the catalogue entry of the platform; UnsupportedNOS first, then KeyError for a missing entry |
| SwitchInterfacesCheck.SelectVendorVars | bindings/switch_interfaces_check.py:23-29 | `host['vendor_vars']` becomes that entry, and is unchanged when the choice raises |
| SwitchInterfacesCheck.FirstMissing | bindings/switch_interfaces_check.py:53-97 | the first attribute in reading order that was never assigned, or None iff all are assigned |
| SwitchInterfacesCheck.FirstMissingAppend | bindings/switch_interfaces_check.py:53-97 | the first missing attribute of two reading orders one after the other |
| SwitchInterfacesCheck.Then | bindings/switch_interfaces_check.py:53-97 | text written in two parts succeeds iff both do, and is their concatenation |
| SwitchInterfacesCheck.ThenReads | bindings/switch_interfaces_check.py:53-97 | two parts read their attributes one after the other |
| SwitchInterfacesCheck.Fields | bindings/switch_interfaces_check.py:53-97 | attributes read in order: AttributeError for the first unassigned one, otherwise the printed value of each |
| SwitchInterfacesCheck.HeadLines | bindings/switch_interfaces_check.py:53-58 | every interface's block starts with its name line; it reads description, admin/oper status, MAC and MTU, in that order |
| SwitchInterfacesCheck.LoadLine | bindings/switch_interfaces_check.py:59-64 | the speed/duplex/load line appears iff oper status is 'up' and the interface is neither SVI nor subinterface |
| SwitchInterfacesCheck.AddressLine | bindings/switch_interfaces_check.py:66-75 | 'No IPv4/IPv6 addresses' iff the list is empty |
| SwitchInterfacesCheck.AddressList | bindings/switch_interfaces_check.py:67-73 | `', '.join(str(x) for x in addresses)` is empty iff there are no addresses, and otherwise starts with the first address's text |
| SwitchInterfacesCheck.AddressLines | bindings/switch_interfaces_check.py:65-78 | the address and neighbour lines appear iff the interface is routed |
| SwitchInterfacesCheck.VrfLine | bindings/switch_interfaces_check.py:79-81 | the VRF line appears iff the interface is routed and its `vrf` is truthy |
| SwitchInterfacesCheck.MacLine | bindings/switch_interfaces_check.py:82-84 | the MAC line appears iff the interface is switched or an SVI |
| SwitchInterfacesCheck.VlanLine | bindings/switch_interfaces_check.py:85-90 | the VLAN line appears iff the interface is switched; the allowed list is read only for a 'trunk' |
| SwitchInterfacesCheck.LagLine | bindings/switch_interfaces_check.py:91-97 | a LAG lists its members; a non-SVI, non-subinterface port with a truthy `member` names its LAG; otherwise nothing |
| SwitchInterfacesCheck.ThenAll | bindings/switch_interfaces_check.py:52-97 | parts written in order succeed iff all do, and the text starts with the first part |
| SwitchInterfacesCheck.ThenAllReads | bindings/switch_interfaces_check.py:52-97 | parts read their attributes part after part |
| SwitchInterfacesCheck.SectionsRead | bindings/switch_interfaces_check.py:53-97 | each section reads exactly its own attributes, in order |
| SwitchInterfacesCheck.Block | bindings/switch_interfaces_check.py:53-97 | one interface's block fails with AttributeError for the first unassigned attribute it reads, otherwise starts with the interface's name line |
| SwitchInterfacesCheck.BlocksAppend | bindings/switch_interfaces_check.py:52-97 | the blocks of a joined list are the blocks of each part, one after the other |
| SwitchInterfacesCheck.Blocks | bindings/switch_interfaces_check.py:52-97 | the blocks of all interfaces succeed iff every interface's block does, and then start with the first one's |
| SwitchInterfacesCheck.ThenAllAppend | bindings/switch_interfaces_check.py:52-97 | writing two runs of parts one after the other is writing the joined run |
| SwitchInterfacesCheck.ThenAllFirstFailure | bindings/switch_interfaces_check.py:52-97 | a run of parts that fails fails with the error of its first failing part, every part before it having succeeded |
| SwitchInterfacesCheck.ThenAssociative | bindings/switch_interfaces_check.py:52-97 | writing parts one after the other does not depend on grouping, failures included |
| SwitchInterfacesCheck.ReportFirstFailure | bindings/switch_interfaces_check.py:51-97 | the report fails iff some interface's block fails, and then with the first one; otherwise it starts with its header |
| SwitchInterfacesCheck.Report | bindings/switch_interfaces_check.py:51-98 | the report is the header followed by the blocks, and raises exactly the blocks' error |
| SwitchInterfacesCheck.RenderReport | bindings/switch_interfaces_check.py:51-98 | the `result +=` loop over the host's interfaces builds exactly `Report` |

## Left out

- The copies in tasks/check_interfaces.py:7-59 (`cisco_compact_name`, `check_interfaces_status`) and tasks/check_mac_table.py:8-21 (`count_macs`) are the same code as operations/check_interfaces.py:7-78 and operations/check_mac_table.py:20-41. They are modelled once, by `CheckInterfaces.CiscoCompactName`, `CheckInterfaces.CheckInterfacesStatus` and `CheckMacTable.CountMacs`.
- I/O and the Nornir framework: reading `operations/vendor_vars.json`, `get_connection`, `task.run` and `nornir.run` fan-out across hosts. The catalogue is a map parameter and the connection a scripted session.
- `SwitchInterfacesCheck.RenderReport`: the sub-tasks the binding runs first (bindings/switch_interfaces_check.py:30-50) are not modelled. Several of them are not part of this model: `sanitize_interface_list`, `get_interfaces_general_info`, `get_interfaces_vlan_list`, `get_interfaces_vrf_binding` and `find_lag_hierarchy`. The attributes they assign (description, MAC, MTU, speed, duplex, load, VRF, switchport mode, PVID, VLAN list, LAG members) are inputs of the report and are never assigned by the model.
- The `result` progress strings the tasks return, including the unformatted and character-joined strings at tasks/check_interfaces.py:127-137. They are diagnostics, and the report is the text that is modelled.
- `ipaddress.ip_address` (utils/switch_objects.py:55,63,77): addresses are opaque text, with no validation, compression or normalisation. `SwitchObjects.AddressTextRoundTrip` therefore needs an address without '/'.
- `SwitchObjects.NewIPAddress`: requires a non-empty digit string. `int()` on anything else (ValueError) cannot arise from the patterns, which capture digits only.
- Unicode: `\d`, `upper()` and `(?i)` are modelled on ASCII; `\s` and `strip()` use the `str.isspace` set.
- Regular expressions: only the patterns the source uses are modelled. In the VRP status pattern, the interface name is inserted into the pattern; only '.' is treated as a metacharacter there.
- `PyText.Format`: only automatic `{}` fields and `{{`/`}}`; numbered or named fields and format specs are not modelled.
- `CheckVrfStatus.FindVrf`: the VRF template is a vendor regular expression, so matching is an abstract predicate `matches(pattern, text)`.
- The VRF stubs `get_vrf_interfaces`, `get_vrf_ll_neighbors` and `get_vrf_bgp_status` (tasks/check_vrf_status.py:13-22) are `pass` bodies with nothing to state.
- `CheckInterfaces.GetInterfacesIpNeighbors`: `task.host['vrf_name']` is a host field; a missing inventory key is not modelled.
- The test fixtures under tests/cmd_outputs are not part of this model, and no fixture output is reproduced. The properties the tests check on them are stated for all inputs instead: `CheckMacTable.HuaweiTotalRead` and `CheckMacTable.NxosEmptyBodyCountsOne` for MAC counts, `Patterns.VlanNumberFound` for SVI names, `CheckInterfaces.HuaweiStatusTable` for VRP status words, and the `...Unsupported` lemmas for an unknown OS.
- `Device.Host.Valid` requires the interfaces to be distinct objects, which Python does not enforce; a list holding one object twice is not modelled.
- `CheckInterfaces.IpStep`: its own contract states only what is sent; its effect on the interface is stated by `IpStepAppends`, `IpCommands` and `IpUnsupported`, and by `UpdateAddresses`, which is proved equal to it.
- `CheckInterfaces.NeighborsStep`: its own contract states only what is sent; its effect is stated by `NeighborsStepSound`, `NeighborsCommands` and `NeighborsUnsupported`, and by `UpdateNeighbors`.
- `CheckMacTable.MacStep`: its own contract states only what is sent; its effect is stated by `MacStepSound` and `MacCommand`, and by `UpdateMacs`.
- `CheckInterfaces.IpRun`: its own contract states only the length and the log; what the loop assigns is stated by `IpRunAppends`.
- `CheckInterfaces.NeighborsRun`: its own contract states only the length and the log; what the loop assigns is stated by `NeighborsRunSound`.
- `CheckMacTable.MacRun`: its own contract states only the length and the log; what the loop assigns is stated by `MacRunSound`.
- `CheckInterfaces.StatusTask`: its own contract states the length and the missing-key case; what it assigns and sends is stated by `StatusTaskSound`.
- `CheckInterfaces.ModeTask`: its own contract states what is sent; what it assigns is stated by `ModeTaskSound`.
- `PyText.Format`: its own contract states only the kind of error; what it produces is stated by `PyText.FormatBraceFreePrefix` and `PyText.FormatFills`.
- `PyText.JoinOn`: its own contract states only the first piece and separator; `PyText.JoinSplit` and `PyText.SplitJoin` state that it inverts `Split`.
- BGP neighbours and address families: only their constructors exist in the source, and only those are modelled.
- `Device.Send`: a command sent when no scripted output is left fails with `NoReply`; a real session's timeouts and transport errors are not modelled.
- `utils/runner.py`, `utils/nornir_utils.py`, `bindings/tors_vrf_check.py` and the binding's `execute`/`__main__`: prompts, inventory files and live-device runs.
