/**
 * The regular expressions of the checking code, each written out as an
 * anchored matcher: a function that tries the pattern at one position and
 * reports where the match ends and what its groups captured. `Search` and
 * `FindAll` then scan positions left to right as `re.search` and
 * `re.findall` do. Where a pattern could backtrack, the comment on its
 * matcher says why the deterministic reading gives the same match.
 */
module Patterns {
  import opened Wrappers
  import opened PyText

  /** A match at some position: the position where it ends and what it captured. */
  datatype Hit<T> = Hit(end: nat, value: T)

  // ---------------------------------------------------------------------------
  // Scanning

  /** The leftmost position at or after `from` where `m` matches. */
  function Leftmost<T>(t: string, from: nat, m: (string, nat) -> Option<Hit<T>>): (r: Option<nat>)
    ensures r.Some? ==> from <= r.value <= |t| && m(t, r.value).Some?
    ensures r.Some? ==> forall j :: from <= j < r.value ==> m(t, j).None?
    ensures r.None? ==> forall j :: from <= j <= |t| ==> m(t, j).None?
    decreases |t| + 1 - from
  {
    if from > |t| then None
    else if m(t, from).Some? then Some(from)
    else Leftmost(t, from + 1, m)
  }

  /** `m` matches at some position in `t[from..]` and captures `v` there. */
  ghost predicate CapturedFrom<T>(t: string, from: nat, m: (string, nat) -> Option<Hit<T>>, v: T) {
    exists i :: from <= i <= |t| && m(t, i).Some? && m(t, i).value.value == v
  }

  /** No position of `t` in `[lo, hi)` starts a match of `m`. */
  ghost predicate NoMatchIn<T>(t: string, m: (string, nat) -> Option<Hit<T>>, lo: nat, hi: nat) {
    forall j :: lo <= j < hi && j <= |t| ==> m(t, j).None?
  }

  /** `v` is captured by the leftmost match of `m` at or after `from`. */
  ghost predicate FirstCapture<T>(t: string, from: nat, m: (string, nat) -> Option<Hit<T>>, v: T) {
    exists i :: from <= i <= |t| && m(t, i).Some? && m(t, i).value.value == v && NoMatchIn(t, m, from, i)
  }

  /** `re.search(p, t)` and its groups: the captures of the leftmost match, if any. */
  function Search<T>(t: string, m: (string, nat) -> Option<Hit<T>>): (r: Option<T>)
    ensures r.None? <==> forall j :: 0 <= j <= |t| ==> m(t, j).None?
    ensures r.Some? ==> FirstCapture(t, 0, m, r.value)
  {
    match Leftmost(t, 0, m)
    case None => None
    case Some(i) =>
      assert NoMatchIn(t, m, 0, i);
      Some(m(t, i).value.value)
  }

  /** Where scanning resumes after the match `h` found at `i`: its end, or one further for an empty match. */
  function Resume<T>(i: nat, h: Hit<T>): (r: nat)
    ensures r > i
  {
    if h.end > i then h.end else i + 1
  }

  /**
   * `r` is what `re.findall` reports from `from` on, the matches starting at
   * the positions `s`: each match is the leftmost one at or after the point
   * where the previous match ended, and no match starts after the last one.
   */
  ghost predicate ScanAt<T>(t: string, from: nat, m: (string, nat) -> Option<Hit<T>>, r: seq<T>, s: seq<nat>) {
    && |s| == |r|
    && NoMatchIn(t, m, from, if s == [] then |t| + 1 else s[0])
    && forall k :: 0 <= k < |s| ==>
      && from <= s[k] <= |t| && m(t, s[k]).Some? && r[k] == m(t, s[k]).value.value
      && (k + 1 < |s| ==> Resume(s[k], m(t, s[k]).value) <= s[k + 1])
      && NoMatchIn(t, m, Resume(s[k], m(t, s[k]).value), if k + 1 < |s| then s[k + 1] else |t| + 1)
  }

  /** `r` is the list of captures of successive non-overlapping leftmost matches from `from` on. */
  ghost predicate Scanned<T>(t: string, from: nat, m: (string, nat) -> Option<Hit<T>>, r: seq<T>) {
    exists s :: ScanAt(t, from, m, r, s)
  }

  /** `re.findall(p, t[from:])`: the captures of successive non-overlapping matches, left to right. */
  function FindAll<T>(t: string, from: nat, m: (string, nat) -> Option<Hit<T>>): (r: seq<T>)
    ensures r == [] <==> forall j :: from <= j <= |t| ==> m(t, j).None?
    ensures forall k :: 0 <= k < |r| ==> CapturedFrom(t, from, m, r[k])
    decreases |t| + 1 - from
  {
    match Leftmost(t, from, m)
    case None => []
    case Some(i) =>
      var h := m(t, i).value;
      var next := Resume(i, h);
      var rest := FindAll(t, next, m);
      assert forall k :: 0 <= k < |rest| ==> CapturedFrom(t, from, m, rest[k]) by {
        forall k | 0 <= k < |rest| ensures CapturedFrom(t, from, m, rest[k]) {
          var j :| next <= j <= |t| && m(t, j).Some? && m(t, j).value.value == rest[k];
        }
      }
      [h.value] + rest
  }

  /** `FindAll` reports every non-overlapping leftmost match, in order, and nothing else. */
  lemma {:induction false} FindAllScan<T>(t: string, from: nat, m: (string, nat) -> Option<Hit<T>>) returns (s: seq<nat>)
    ensures ScanAt(t, from, m, FindAll(t, from, m), s)
    decreases |t| + 1 - from
  {
    match Leftmost(t, from, m)
    case None =>
      s := [];
    case Some(i) =>
      var h := m(t, i).value;
      var s' := FindAllScan(t, Resume(i, h), m);
      s := [i] + s';
      ScanCons(t, from, i, m, FindAll(t, Resume(i, h), m), s');
  }

  /** A leftmost match at `i` followed by the scan from where it ends is the scan from `from`. */
  lemma ScanCons<T>(t: string, from: nat, i: nat, m: (string, nat) -> Option<Hit<T>>, rest: seq<T>, s': seq<nat>)
    requires from <= i <= |t| && m(t, i).Some? && NoMatchIn(t, m, from, i)
    requires ScanAt(t, Resume(i, m(t, i).value), m, rest, s')
    ensures ScanAt(t, from, m, [m(t, i).value.value] + rest, [i] + s')
  {
    var h := m(t, i).value;
    var next := Resume(i, h);
    var r := [h.value] + rest;
    var s := [i] + s';
    forall k | 0 <= k < |s|
      ensures from <= s[k] <= |t| && m(t, s[k]).Some? && r[k] == m(t, s[k]).value.value
      ensures k + 1 < |s| ==> Resume(s[k], m(t, s[k]).value) <= s[k + 1]
      ensures NoMatchIn(t, m, Resume(s[k], m(t, s[k]).value), if k + 1 < |s| then s[k + 1] else |t| + 1)
    {
      if k > 0 {
        assert s[k] == s'[k - 1] && r[k] == rest[k - 1];
        if k + 1 < |s| { assert s[k + 1] == s'[k]; }
      } else if |s'| > 0 {
        assert s[1] == s'[0];
      }
    }
  }

  /** `FindAll` is the `findall` scan. */
  lemma FindAllScanned<T>(t: string, from: nat, m: (string, nat) -> Option<Hit<T>>)
    ensures Scanned(t, from, m, FindAll(t, from, m))
  {
    var s := FindAllScan(t, from, m);
  }

  /** Whatever every match of `m` in `t[from..]` captures, every element of `FindAll` satisfies. */
  lemma FindAllKeeps<T>(t: string, from: nat, m: (string, nat) -> Option<Hit<T>>, p: T -> bool)
    requires forall j :: from <= j <= |t| && m(t, j).Some? ==> p(m(t, j).value.value)
    ensures forall k :: 0 <= k < |FindAll(t, from, m)| ==> p(FindAll(t, from, m)[k])
  {
    var r := FindAll(t, from, m);
    forall k | 0 <= k < |r| ensures p(r[k]) {
      var j :| from <= j <= |t| && m(t, j).Some? && m(t, j).value.value == r[k];
    }
  }

  /** Whatever every match of `m` in `t` captures, the result of `Search` satisfies. */
  lemma SearchKeeps<T>(t: string, m: (string, nat) -> Option<Hit<T>>, p: T -> bool)
    requires forall j :: 0 <= j <= |t| && m(t, j).Some? ==> p(m(t, j).value.value)
    ensures Search(t, m).Some? ==> p(Search(t, m).value)
  {
    if Search(t, m).Some? {
      var j :| 0 <= j <= |t| && m(t, j).Some? && m(t, j).value.value == Search(t, m).value;
    }
  }

  // ---------------------------------------------------------------------------
  // Building blocks; each returns the position where its part of the match ends

  /** A literal piece of a pattern. */
  function Lit(t: string, i: nat, lit: string): (r: Option<nat>)
    ensures r.Some? <==> OccursAt(t, lit, i)
    ensures r.Some? ==> r.value == i + |lit| <= |t|
  {
    if OccursAt(t, lit, i) then Some(i + |lit|) else None
  }

  /**
   * `\d{1,3}` followed by the non-digit `follow` (which is not consumed).
   * Backtracking cannot help: a shorter run of digits would be followed by a
   * digit, not by `follow`, so the run must be whole.
   */
  function Octet(t: string, i: nat, follow: char): (r: Option<nat>)
    requires !IsDigit(follow)
    ensures r.Some? ==> i < r.value < |t| && r.value - i <= 3 && t[r.value] == follow
    ensures r.Some? ==> AllDigits(t[i..r.value])
  {
    if i > |t| then None
    else
      var e := RunEnd(t, i, IsDigit);
      if 1 <= e - i <= 3 && e < |t| && t[e] == follow then
        assert AllDigits(t[i..e]);
        Some(e)
      else None
  }

  /** `\d{1,3}\.\d{1,3}\.\d{1,3}\.\d{1,3}` followed by the non-digit `follow` (not consumed). */
  function DottedQuad(t: string, i: nat, follow: char): (r: Option<nat>)
    requires !IsDigit(follow)
    ensures r.Some? ==> i < r.value < |t| && t[r.value] == follow
  {
    var a :- Octet(t, i, '.');
    var b :- Octet(t, a + 1, '.');
    var c :- Octet(t, b + 1, '.');
    Octet(t, c + 1, follow)
  }

  /** `\d{1,max}` at the end of a pattern: as many digits as there are, up to `max`. */
  function SomeDigits(t: string, i: nat, max: nat): (r: Option<nat>)
    requires max >= 1
    ensures r.Some? ==> i < r.value <= |t| && r.value - i <= max && AllDigits(t[i..r.value])
    ensures r.None? <==> (i >= |t| || !IsDigit(t[i]))
  {
    if i > |t| then None
    else
      var e := RunEnd(t, i, IsDigit);
      if e == i then None
      else
        var d := if e - i > max then i + max else e;
        assert AllDigits(t[i..d]);
        Some(d)
  }

  /** `(lit)?` at the end of a pattern: the end of the match and the group's text ('' when absent). */
  function OptionalLit(t: string, i: nat, lit: string): (r: (nat, string))
    requires |lit| > 0
    ensures r.1 == lit || r.1 == ""
    ensures r.1 == lit <==> OccursAt(t, lit, i)
    ensures r.0 == i + |r.1|
  {
    if OccursAt(t, lit, i) then (i + |lit|, lit) else (i, "")
  }

  predicate NotSpace(c: char) { !IsSpace(c) }

  /** The class `[0-9A-Fa-f:]`. */
  predicate IsHexOrColon(c: char) {
    IsDigit(c) || 'a' <= c <= 'f' || 'A' <= c <= 'F' || c == ':'
  }

  // ---------------------------------------------------------------------------
  // Addresses

  /** The groups of an address pattern: the address, its prefix length and an optional marker. */
  datatype AddressCapture = AddressCapture(address: string, prefix: string, marker: string)

  /** A well-formed capture: a non-empty digit prefix of at most `max` digits, and a marker that is `marker` or ''. */
  predicate WellFormed(c: AddressCapture, max: nat, marker: string) {
    1 <= |c.prefix| <= max && AllDigits(c.prefix) && (c.marker == "" || c.marker == marker)
  }

  /**
   * NX-OS `show ip interface`:
   * `IP address: (\d{1,3}\.\d{1,3}\.\d{1,3}\.\d{1,3}), IP subnet: \d{1,3}\.\d{1,3}\.\d{1,3}\.\d{1,3}/(\d{1,2})( secondary)?`
   */
  function NxosIpv4At(t: string, i: nat): (r: Option<Hit<AddressCapture>>)
    ensures r.Some? ==> WellFormed(r.value.value, 2, " secondary")
  {
    var a0 :- Lit(t, i, "IP address: ");
    var a1 :- DottedQuad(t, a0, ',');
    var b0 :- Lit(t, a1, ", IP subnet: ");
    var b1 :- DottedQuad(t, b0, '/');
    var p0 :- Lit(t, b1, "/");
    var p1 :- SomeDigits(t, p0, 2);
    var (end, marker) := OptionalLit(t, p1, " secondary");
    Some(Hit(end, AddressCapture(t[a0..a1], t[p0..p1], marker)))
  }

  /** Huawei `display ip interface`: `Internet Address is (\d{1,3}\.\d{1,3}\.\d{1,3}\.\d{1,3})/(\d{1,2})( Sub)?` */
  function HuaweiIpv4At(t: string, i: nat): (r: Option<Hit<AddressCapture>>)
    ensures r.Some? ==> WellFormed(r.value.value, 2, " Sub")
  {
    var a0 :- Lit(t, i, "Internet Address is ");
    var a1 :- DottedQuad(t, a0, '/');
    var p0 :- Lit(t, a1, "/");
    var p1 :- SomeDigits(t, p0, 2);
    var (end, marker) := OptionalLit(t, p1, " Sub");
    Some(Hit(end, AddressCapture(t[a0..a1], t[p0..p1], marker)))
  }

  /** `caption(\S+)`: the run of non-space characters right after `caption`. */
  function TokenAfter(t: string, i: nat, caption: string): (r: Option<Hit<string>>)
    ensures r.Some? ==> |r.value.value| >= 1
    ensures r.Some? ==> OccursAt(t, caption, i)
  {
    var p :- Lit(t, i, caption);
    var e := RunEnd(t, p, NotSpace);
    if e == p then None else Some(Hit(e, t[p..e]))
  }

  /** NX-OS `show ipv6 interface`: `IPv6 address: (\S+)` */
  function NxosIpv6AddressAt(t: string, i: nat): (r: Option<Hit<string>>)
    ensures r.Some? ==> |r.value.value| >= 1
  {
    TokenAfter(t, i, "IPv6 address: ")
  }

  /** NX-OS `show ipv6 interface`: `IPv6 link-local address: (\S+)` */
  function NxosLinkLocalAt(t: string, i: nat): (r: Option<Hit<string>>)
    ensures r.Some? ==> |r.value.value| >= 1
  {
    TokenAfter(t, i, "IPv6 link-local address: ")
  }

  /** A `/` at `q` that is followed by a digit. */
  predicate SlashDigit(t: string, q: int) {
    0 <= q && q + 1 < |t| && t[q] == '/' && IsDigit(t[q + 1])
  }

  /** The last `q` in `[lo, j)` with `SlashDigit(t, q)`. */
  function LastSlashDigit(t: string, lo: nat, j: nat): (r: Option<nat>)
    ensures r.Some? ==> lo <= r.value < j && SlashDigit(t, r.value)
    ensures r.Some? ==> forall q :: r.value < q < j ==> !SlashDigit(t, q)
    ensures r.None? ==> forall q :: lo <= q < j ==> !SlashDigit(t, q)
    decreases j
  {
    if j <= lo then None
    else if SlashDigit(t, j - 1) then Some(j - 1)
    else LastSlashDigit(t, lo, j - 1)
  }

  /**
   * NX-OS `show ipv6 interface`: `IPv6 subnet:  \S+/(\d{1,3})`. The greedy
   * `\S+` gives back characters until a `/` followed by a digit: that is the
   * last such `/` inside the token after the caption, past its first character.
   */
  function NxosIpv6SubnetAt(t: string, i: nat): (r: Option<Hit<string>>)
    ensures r.Some? ==> 1 <= |r.value.value| <= 3 && AllDigits(r.value.value)
  {
    var p :- Lit(t, i, "IPv6 subnet:  ");
    var e := RunEnd(t, p, NotSpace);
    var q :- LastSlashDigit(t, p + 1, e);
    var d :- SomeDigits(t, q + 1, 3);
    Some(Hit(d, t[q + 1..d]))
  }

  /**
   * `([0-9A-Fa-f:]+)/(\d{1,3})`. The class does not contain `/`, so the
   * address is the whole run of hexadecimal digits and colons.
   */
  function HexSlashAt(t: string, i: nat): (r: Option<Hit<AddressCapture>>)
    ensures r.Some? ==> WellFormed(r.value.value, 3, "") && |r.value.value.address| >= 1
  {
    if i > |t| then None
    else
      var e := RunEnd(t, i, IsHexOrColon);
      if e == i then None
      else
        var p :- Lit(t, e, "/");
        var d :- SomeDigits(t, p, 3);
        Some(Hit(d, AddressCapture(t[i..e], t[p..d], "")))
  }

  /** Huawei `display ipv6 interface`: `link-local address is ([0-9A-Fa-f:]+)` */
  function HuaweiLinkLocalAt(t: string, i: nat): (r: Option<Hit<string>>)
    ensures r.Some? ==> |r.value.value| >= 1
  {
    var p :- Lit(t, i, "link-local address is ");
    var e := RunEnd(t, p, IsHexOrColon);
    if e == p then None else Some(Hit(e, t[p..e]))
  }

  /** Huawei `display ipv6 interface`: `([0-9A-Fa-f:]+), subnet is [0-9A-Fa-f:]+/(\d{1,3})` */
  function HuaweiIpv6At(t: string, i: nat): (r: Option<Hit<AddressCapture>>)
    ensures r.Some? ==> WellFormed(r.value.value, 3, "") && |r.value.value.address| >= 1
  {
    if i > |t| then None
    else
      var e := RunEnd(t, i, IsHexOrColon);
      if e == i then None
      else
        var p :- Lit(t, e, ", subnet is ");
        var f := RunEnd(t, p, IsHexOrColon);
        if f == p then None
        else
          var q :- Lit(t, f, "/");
          var d :- SomeDigits(t, q, 3);
          Some(Hit(d, AddressCapture(t[i..e], t[q..d], "")))
  }

  /** `findall` of the NX-OS IPv4 pattern. */
  function NxosIpv4All(t: string): (r: seq<AddressCapture>)
    ensures forall k :: 0 <= k < |r| ==> WellFormed(r[k], 2, " secondary")
    ensures r == [] <==> forall j :: 0 <= j <= |t| ==> NxosIpv4At(t, j).None?
    ensures Scanned(t, 0, NxosIpv4At, r)
  {
    FindAllScanned(t, 0, NxosIpv4At);
    FindAllKeeps(t, 0, NxosIpv4At, c => WellFormed(c, 2, " secondary"));
    FindAll(t, 0, NxosIpv4At)
  }

  /** `findall` of the Huawei IPv4 pattern. */
  function HuaweiIpv4All(t: string): (r: seq<AddressCapture>)
    ensures forall k :: 0 <= k < |r| ==> WellFormed(r[k], 2, " Sub")
    ensures r == [] <==> forall j :: 0 <= j <= |t| ==> HuaweiIpv4At(t, j).None?
    ensures Scanned(t, 0, HuaweiIpv4At, r)
  {
    FindAllScanned(t, 0, HuaweiIpv4At);
    FindAllKeeps(t, 0, HuaweiIpv4At, c => WellFormed(c, 2, " Sub"));
    FindAll(t, 0, HuaweiIpv4At)
  }

  /** `findall` of `([0-9A-Fa-f:]+)/(\d{1,3})`. */
  function HexSlashAll(t: string): (r: seq<AddressCapture>)
    ensures forall k :: 0 <= k < |r| ==> WellFormed(r[k], 3, "") && |r[k].address| >= 1
    ensures r == [] <==> forall j :: 0 <= j <= |t| ==> HexSlashAt(t, j).None?
    ensures Scanned(t, 0, HexSlashAt, r)
  {
    FindAllScanned(t, 0, HexSlashAt);
    FindAllKeeps(t, 0, HexSlashAt, c => WellFormed(c, 3, "") && |c.address| >= 1);
    FindAll(t, 0, HexSlashAt)
  }

  /** `findall` of the Huawei global IPv6 pattern. */
  function HuaweiIpv6All(t: string): (r: seq<AddressCapture>)
    ensures forall k :: 0 <= k < |r| ==> WellFormed(r[k], 3, "") && |r[k].address| >= 1
    ensures r == [] <==> forall j :: 0 <= j <= |t| ==> HuaweiIpv6At(t, j).None?
    ensures Scanned(t, 0, HuaweiIpv6At, r)
  {
    FindAllScanned(t, 0, HuaweiIpv6At);
    FindAllKeeps(t, 0, HuaweiIpv6At, c => WellFormed(c, 3, "") && |c.address| >= 1);
    FindAll(t, 0, HuaweiIpv6At)
  }

  /** `re.search(r'IPv6 subnet:  \S+/(\d{1,3})', t).group(1)`, or None. */
  function NxosIpv6Prefix(t: string): (r: Option<string>)
    ensures r.Some? ==> 1 <= |r.value| <= 3 && AllDigits(r.value)
    ensures r.None? <==> forall j :: 0 <= j <= |t| ==> NxosIpv6SubnetAt(t, j).None?
    ensures r.Some? ==> FirstCapture(t, 0, NxosIpv6SubnetAt, r.value)
  {
    SearchKeeps(t, NxosIpv6SubnetAt, d => 1 <= |d| <= 3 && AllDigits(d));
    Search(t, NxosIpv6SubnetAt)
  }

  // ---------------------------------------------------------------------------
  // Counters

  /** What may stand between a counter's caption and its digits. */
  datatype Gap =
    | Adjacent        // `caption(\d+)`
    | AnySpaces       // `caption(?:\s+)?(\d+)`
    | SomeSpaces      // `caption\s+(\d+)`

  /**
   * A counter: `caption`, the gap, then `(\d+)`, read as a number. A greedy
   * `\s+` can give back only spaces, and a space is not a digit, so the gap
   * is the whole run of spaces.
   */
  function CounterAt(t: string, i: nat, caption: string, gap: Gap): (r: Option<Hit<nat>>)
  {
    var p :- Lit(t, i, caption);
    var s := if gap == Adjacent then p else RunEnd(t, p, IsSpace);
    if gap == SomeSpaces && s == p then None
    else
      var d := RunEnd(t, s, IsDigit);
      if d == s then None
      else
        assert AllDigits(t[s..d]);
        Some(Hit(d, DecimalValue(t[s..d])))
  }

  /** `v` is the value of the leftmost counter in `t`. */
  ghost predicate FirstCounter(t: string, caption: string, gap: Gap, v: nat) {
    exists j :: 0 <= j <= |t| && CounterAt(t, j, caption, gap).Some? && CounterAt(t, j, caption, gap).value.value == v
      && forall i :: 0 <= i < j ==> CounterAt(t, i, caption, gap).None?
  }

  /** `int(re.search(caption gap (\d+), t).group(1))`, or None when there is no match. */
  function SearchCounter(t: string, caption: string, gap: Gap): (r: Option<nat>)
    ensures r.None? <==> forall j :: 0 <= j <= |t| ==> CounterAt(t, j, caption, gap).None?
    ensures r.Some? ==> FirstCounter(t, caption, gap, r.value)
  {
    var m := (s, j) => CounterAt(s, j, caption, gap);
    assert forall j :: m(t, j) == CounterAt(t, j, caption, gap);
    var l := Leftmost(t, 0, m);
    if l.Some? then
      assert CounterAt(t, l.value, caption, gap).Some?;
      Search(t, m)
    else
      Search(t, m)
  }

  /** A caption at the very start, right before a run of digits, is the match `re.search` finds. */
  lemma SearchCounterAtStart(caption: string, digits: string, rest: string)
    requires |digits| >= 1 && AllDigits(digits)
    requires rest == [] || !IsDigit(rest[0])
    ensures SearchCounter(caption + digits + rest, caption, Adjacent) == Some(DecimalValue(digits))
  {
    var t := caption + digits + rest;
    CounterAtFront(caption, digits, rest);
    var m := (s, j) => CounterAt(s, j, caption, Adjacent);
    assert m(t, 0).Some?;
    assert Leftmost(t, 0, m) == Some(0);
  }

  /** The counter read right at the caption at position 0. */
  lemma CounterAtFront(caption: string, digits: string, rest: string)
    requires |digits| >= 1 && AllDigits(digits)
    requires rest == [] || !IsDigit(rest[0])
    ensures CounterAt(caption + digits + rest, 0, caption, Adjacent) == Some(Hit(|caption| + |digits|, DecimalValue(digits)))
  {
    hide RunEnd, DecimalValue, AllDigits;
    var t := caption + digits + rest;
    assert OccursAt(t, caption, 0) by { assert t[..|caption|] == caption; }
    DigitsThenStop(caption, digits, rest);
  }

  /** The digits written right after a caption run up to what follows them. */
  lemma DigitsThenStop(caption: string, digits: string, rest: string)
    requires |digits| >= 1 && AllDigits(digits)
    requires rest == [] || !IsDigit(rest[0])
    ensures var t := caption + digits + rest;
      RunEnd(t, |caption|, IsDigit) == |caption| + |digits| && t[|caption|..|caption| + |digits|] == digits
  {
    hide RunEnd;
    var t := caption + digits + rest;
    var d := |caption| + |digits|;
    forall k | |caption| <= k < d ensures IsDigit(t[k]) {
      assert t[k] == digits[k - |caption|];
    }
    if d < |t| { assert t[d] == rest[0]; }
    RunEndAt(t, |caption|, d, IsDigit);
    assert t[|caption|..d] == digits;
  }

  // ---------------------------------------------------------------------------
  // Huawei brief-table status

  /** The interface name used as a pattern: its `.` matches any character but a newline. */
  predicate NamePatternAt(t: string, i: nat, name: string) {
    i + |name| <= |t| &&
    forall k :: 0 <= k < |name| ==> if name[k] == '.' then t[i + k] != '\n' else t[i + k] == name[k]
  }

  /** `(down|up)`, trying `down` first. */
  function WordAt(t: string, p: nat): (r: Option<Hit<string>>)
    ensures r.Some? ==> r.value.value == "down" || r.value.value == "up"
  {
    if OccursAt(t, "down", p) then Some(Hit(p + 4, "down"))
    else if OccursAt(t, "up", p) then Some(Hit(p + 2, "up"))
    else None
  }

  /** What the status group `\*?(down|up)` can capture. */
  predicate IsStatusWord(w: string) {
    w == "down" || w == "up" || w == "*down" || w == "*up"
  }

  /** `\s+(\*?(down|up))`: the second group is returned. */
  function StatusWordAt(t: string, p: nat): (r: Option<Hit<string>>)
    ensures r.Some? ==> IsStatusWord(r.value.value)
  {
    if p > |t| then None
    else
      var s := RunEnd(t, p, IsSpace);
      if s == p then None
      else if s < |t| && t[s] == '*' && WordAt(t, s + 1).Some? then
        var w := WordAt(t, s + 1).value;
        Some(Hit(w.end, if w.value == "down" then "*down" else "*up"))
      else WordAt(t, s)
  }

  /** No newline in `t[a..b]`. */
  predicate NoNewline(t: string, a: nat, b: nat) {
    forall k :: a <= k < b && k < |t| ==> t[k] != '\n'
  }

  /** A `)` at `r` can close the group opened at `q`: no newline in between, and a status word after it. */
  predicate ClosesAt(t: string, q: nat, r: nat) {
    r < |t| && t[r] == ')' && NoNewline(t, q + 1, r) && StatusWordAt(t, r + 1).Some?
  }

  /**
   * The closing parenthesis the greedy `\(.+\)` settles on, for an opening one
   * at `q`: the last `)` in `t[q + 2..j]` with no newline before it and a
   * status word after it.
   */
  function LastCloseParen(t: string, q: nat, j: nat): (r: Option<nat>)
    ensures r.Some? ==> q + 2 <= r.value < j
    ensures r.Some? ==> ClosesAt(t, q, r.value)
    decreases j
  {
    if j <= q + 2 then None
    else if ClosesAt(t, q, j - 1) then Some(j - 1)
    else LastCloseParen(t, q, j - 1)
  }

  /**
   * Huawei `display interface brief`: `<name>(\(.+\))?\s+(\*?(down|up))`.
   * The optional group is tried first, with its greedy `.+`; without it the
   * status word must follow the name directly.
   */
  function HuaweiStatusAt(t: string, i: nat, name: string): (r: Option<Hit<string>>)
    ensures r.Some? ==> IsStatusWord(r.value.value)
  {
    if !NamePatternAt(t, i, name) then None
    else
      var q := i + |name|;
      var paren := if q < |t| && t[q] == '(' then LastCloseParen(t, q, |t|) else None;
      if paren.Some? then StatusWordAt(t, paren.value + 1) else StatusWordAt(t, q)
  }

  // ---------------------------------------------------------------------------
  // VLAN number of an SVI

  /** `re.match(r'(?i)^vlan(?:if)?(\d+)$', name).group(1)`, or None when it does not match. */
  function VlanNumber(name: string): (r: Option<string>)
    ensures r.Some? ==> |r.value| >= 1 && AllDigits(r.value)
    ensures r.Some? ==> |name| >= 4 && Upper(name[..4]) == "VLAN"
    ensures r.Some? ==> 4 + |r.value| <= |name| <= 7 + |r.value|
    ensures r.Some? ==> name[|name| - |r.value|..] == r.value || name[|name| - |r.value| - 1..] == r.value + "\n"
  {
    if |name| < 4 || Upper(name[..4]) != "VLAN" then None
    else
      var p := if |name| >= 6 && Upper(name[4..6]) == "IF" then 6 else 4;
      var d := RunEnd(name, p, IsDigit);
      if d > p && (d == |name| || (d == |name| - 1 && name[d] == '\n')) then
        assert AllDigits(name[p..d]);
        assert d == |name| - 1 ==> name[d - (d - p)..] == name[p..d] + "\n";
        Some(name[p..d])
      else None
  }

  /** Every name of the form `vlan` [`if`] digits [newline], in any case, is read. */
  lemma VlanNumberFound(p: string, mid: string, digits: string, suffix: string)
    requires |p| == 4 && Upper(p) == "VLAN"
    requires mid == "" || (|mid| == 2 && Upper(mid) == "IF")
    requires |digits| >= 1 && AllDigits(digits)
    requires suffix == "" || suffix == "\n"
    ensures VlanNumber(p + mid + digits + suffix) == Some(digits)
  {
    var name := p + mid + digits + suffix;
    assert name[..4] == p;
    var q := 4 + |mid|;
    if mid == "" {
      if |name| >= 6 {
        assert !IsDigit('I');
        assert Upper(name[4..6])[0] == Upper([name[4]])[0];
        assert name[4] == digits[0];
      }
    } else {
      assert name[4..6] == mid;
    }
    assert name[q..q + |digits|] == digits;
    RunEndAt(name, q, q + |digits|, IsDigit);
  }
}
