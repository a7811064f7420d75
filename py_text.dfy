/**
 * The parts of Python's `str` that the checking code relies on, with Python's
 * own edge cases: `find`/`index`/`in`, slicing with negative and out-of-range
 * bounds, `strip()`, `split(sep)`, `upper()`, `str(int)`, `int(digits)`,
 * `sep.join(...)` and `str.format` with automatically numbered `{}` fields.
 */
module PyText {
  import opened Wrappers

  // ---------------------------------------------------------------------------
  // Searching: `sub in s`, `s.find(sub, start)`, `s.index(sub)`

  /** `sub` occurs in `s` starting at position `i`. */
  predicate OccursAt(s: string, sub: string, i: int) {
    0 <= i && i + |sub| <= |s| && s[i..i + |sub|] == sub
  }

  /** Python's `s.find(sub, start)`: the leftmost occurrence at or after `start`, or -1. */
  function Find(s: string, sub: string, start: nat): (r: int)
    ensures r == -1 || (start <= r && OccursAt(s, sub, r))
    ensures forall j :: start <= j < (if r == -1 then |s| + 1 else r) ==> !OccursAt(s, sub, j)
    decreases |s| - start
  {
    if start + |sub| > |s| then -1
    else if s[start..start + |sub|] == sub then start
    else Find(s, sub, start + 1)
  }

  /** Python's `sub in s`. */
  predicate Contains(s: string, sub: string)
    ensures Contains(s, sub) <==> exists i :: OccursAt(s, sub, i)
  {
    Find(s, sub, 0) != -1
  }

  /** Python's `s.index(sub)`: like `find`, but a missing substring raises ValueError. */
  function Index(s: string, sub: string): (r: Result<nat>)
    ensures r.Ok? <==> Contains(s, sub)
    ensures r.Ok? ==> OccursAt(s, sub, r.value) && forall j :: 0 <= j < r.value ==> !OccursAt(s, sub, j)
    ensures r.Fail? ==> r.error == SubstringNotFound(sub)
  {
    var i := Find(s, sub, 0);
    if i == -1 then Fail(SubstringNotFound(sub)) else Ok(i)
  }

  /** A one-character pattern occurs exactly where that character stands. */
  lemma OccursAtChar(s: string, c: char, j: int)
    ensures OccursAt(s, [c], j) <==> 0 <= j < |s| && s[j] == c
  {
    if 0 <= j < |s| {
      assert s[j..j + 1] == [s[j]];
    }
  }

  /** The leftmost occurrence is the one `find` reports. */
  lemma FindIsLeftmost(s: string, sub: string, start: nat, k: nat)
    requires start <= k && OccursAt(s, sub, k)
    requires forall j :: start <= j < k ==> !OccursAt(s, sub, j)
    ensures Find(s, sub, start) == k
  {
  }

  predicate StartsWith(s: string, prefix: string) {
    |prefix| <= |s| && s[..|prefix|] == prefix
  }

  /** `find` of one character gives the first position, at or after `start`, that holds it. */
  lemma FindChar(s: string, c: char, start: nat, e: nat)
    requires start <= e < |s| && s[e] == c
    requires forall j :: start <= j < e ==> s[j] != c
    ensures Find(s, [c], start) == e
  {
    OccursAtChar(s, c, e);
    forall j | start <= j < e ensures !OccursAt(s, [c], j) {
      OccursAtChar(s, c, j);
    }
    FindIsLeftmost(s, [c], start, e);
  }

  /** A substring that occurs is found. */
  lemma ContainsFound(s: string, sub: string)
    requires Contains(s, sub)
    ensures Find(s, sub, 0) != -1
  {
    var i :| OccursAt(s, sub, i);
  }

  /** A string starts with each of its prefixes. */
  lemma StartsWithConcat(a: string, b: string)
    ensures StartsWith(a + b, a)
  {
    assert (a + b)[..|a|] == a;
  }

  /** A prefix of a prefix is a prefix. */
  lemma StartsWithTrans(s: string, p: string, q: string)
    requires StartsWith(s, p) && StartsWith(p, q)
    ensures StartsWith(s, q)
  {
    assert s[..|q|] == s[..|p|][..|q|];
  }

  /** Where a string occurs, so does each of its prefixes. */
  lemma OccursPrefix(s: string, p: string, q: string, i: int)
    requires OccursAt(s, p, i) && StartsWith(p, q)
    ensures OccursAt(s, q, i)
  {
    assert s[i..i + |q|] == s[i..i + |p|][..|q|];
  }

  /** The middle part of a concatenation occurs right after the first part. */
  lemma OccursInMiddle(a: string, b: string, c: string)
    ensures OccursAt(a + b + c, b, |a|)
  {
    assert (a + b + c)[|a|..|a| + |b|] == b;
  }

  // ---------------------------------------------------------------------------
  // Slicing: `s[i:j]`

  /** How Python normalises one slice bound against a string of length `n`. */
  function SliceBound(i: int, n: nat): (r: nat)
    ensures r <= n
    ensures 0 <= i <= n ==> r == i
    ensures i < 0 && 0 <= i + n ==> r == n + i
    ensures i + n < 0 ==> r == 0
    ensures n < i ==> r == n
  {
    if i < 0 then (if i + n < 0 then 0 else i + n) else if i > n then n else i
  }

  /** Python's `s[i:j]`: negative bounds count from the end, and an empty range gives ''. */
  function Slice(s: string, i: int, j: int): (r: string)
    ensures |r| <= |s|
    ensures 0 <= i <= j <= |s| ==> r == s[i..j]
    ensures 0 <= i < |s| && j == -1 ==> r == s[i..|s| - 1]
  {
    var a, b := SliceBound(i, |s|), SliceBound(j, |s|);
    if a < b then s[a..b] else []
  }

  // ---------------------------------------------------------------------------
  // Character classes and runs

  /** `str.isspace()` for one character: the characters `strip()` removes and `\s` matches. */
  predicate IsSpace(c: char) {
    || c == ' '
    || '\t' <= c <= '\r'
    || '\U{1c}' <= c <= '\U{1f}'
    || c == '\U{85}' || c == '\U{a0}' || c == '\U{1680}'
    || '\U{2000}' <= c <= '\U{200a}'
    || c == '\U{2028}' || c == '\U{2029}' || c == '\U{202f}' || c == '\U{205f}' || c == '\U{3000}'
  }

  predicate IsDigit(c: char) {
    '0' <= c <= '9'
  }

  predicate AllDigits(d: string) {
    forall k :: 0 <= k < |d| ==> IsDigit(d[k])
  }

  /** The end of the longest run of characters satisfying `p` that starts at `i`. */
  function RunEnd(s: string, i: nat, p: char -> bool): (e: nat)
    requires i <= |s|
    ensures i <= e <= |s|
    ensures forall k :: i <= k < e ==> p(s[k])
    ensures e == |s| || !p(s[e])
    decreases |s| - i
  {
    if i == |s| || !p(s[i]) then i else RunEnd(s, i + 1, p)
  }

  /** A run of `p` from `i` that stops at `e` ends at `e`. */
  lemma {:induction false} RunEndAt(s: string, i: nat, e: nat, p: char -> bool)
    requires i <= e <= |s|
    requires forall k :: i <= k < e ==> p(s[k])
    requires e == |s| || !p(s[e])
    ensures RunEnd(s, i, p) == e
    decreases e - i
  {
    if i < e {
      RunEndAt(s, i + 1, e, p);
    }
  }

  /** The start of the longest run of characters satisfying `p` that ends at `j`, stopping at `lo`. */
  function RunStart(s: string, lo: nat, j: nat, p: char -> bool): (b: nat)
    requires lo <= j <= |s|
    ensures lo <= b <= j
    ensures forall k :: b <= k < j ==> p(s[k])
    ensures b == lo || !p(s[b - 1])
    decreases j
  {
    if j == lo || !p(s[j - 1]) then j else RunStart(s, lo, j - 1, p)
  }

  // ---------------------------------------------------------------------------
  // `s.strip()`

  /** `s.strip()`: `s` without its leading and trailing whitespace. */
  function Strip(s: string): (r: string)
    ensures r == [] || (!IsSpace(r[0]) && !IsSpace(r[|r| - 1]))
    ensures exists a :: StrippedAt(s, r, a)
  {
    var a := RunEnd(s, 0, IsSpace);
    var b := RunStart(s, a, |s|, IsSpace);
    assert StrippedAt(s, s[a..b], a);
    s[a..b]
  }

  /** A string of whitespace only strips to nothing. */
  lemma StripBlank(s: string)
    requires forall j :: 0 <= j < |s| ==> IsSpace(s[j])
    ensures Strip(s) == []
  {
    assert RunEnd(s, 0, IsSpace) == |s|;
  }

  /** `r` stands in `s` at `a`, with only whitespace before and after it. */
  ghost predicate StrippedAt(s: string, r: string, a: int) {
    && 0 <= a && a + |r| <= |s| && s[a..a + |r|] == r
    && (forall k :: 0 <= k < a ==> IsSpace(s[k]))
    && (forall k :: a + |r| <= k < |s| ==> IsSpace(s[k]))
  }

  // ---------------------------------------------------------------------------
  // `s.split(sep)` and `sep.join(parts)` for a one-character separator

  /** Python's `s.split(sep)`: the pieces between separators, always at least one. */
  function Split(s: string, sep: char): (parts: seq<string>)
    ensures |parts| >= 1
    ensures forall k, j :: 0 <= k < |parts| && 0 <= j < |parts[k]| ==> parts[k][j] != sep
    decreases |s|
  {
    var i := Find(s, [sep], 0);
    if i == -1 then
      assert forall j :: 0 <= j < |s| ==> s[j] != sep by {
        forall j | 0 <= j < |s| ensures s[j] != sep { OccursAtChar(s, sep, j); }
      }
      [s]
    else
      assert forall j :: 0 <= j < i ==> s[j] != sep by {
        forall j | 0 <= j < i ensures s[j] != sep { OccursAtChar(s, sep, j); }
      }
      [s[..i]] + Split(s[i + 1..], sep)
  }

  /** Joins one or more pieces with a one-character separator. */
  function JoinOn(parts: seq<string>, sep: char): (r: string)
    requires |parts| >= 1
    ensures StartsWith(r, parts[0])
    ensures |parts| > 1 ==> |r| > |parts[0]| && r[|parts[0]|] == sep
  {
    if |parts| == 1 then parts[0] else parts[0] + [sep] + JoinOn(parts[1..], sep)
  }

  /** `split` produces one more piece than there are separators. */
  lemma {:induction false} SplitCount(s: string, sep: char)
    ensures |Split(s, sep)| == multiset(s)[sep] + 1
    decreases |s|
  {
    var i := Find(s, [sep], 0);
    if i == -1 {
      assert sep !in multiset(s) by {
        if sep in s {
          var j :| 0 <= j < |s| && s[j] == sep;
          OccursAtChar(s, sep, j);
        }
      }
    } else {
      OccursAtChar(s, sep, i);
      assert sep !in multiset(s[..i]) by {
        if sep in s[..i] {
          var j :| 0 <= j < i && s[j] == sep;
          OccursAtChar(s, sep, j);
        }
      }
      assert s == s[..i] + [sep] + s[i + 1..];
      assert multiset(s) == multiset(s[..i]) + multiset([sep]) + multiset(s[i + 1..]);
      SplitCount(s[i + 1..], sep);
    }
  }

  /** Joining the pieces of a split gives back the original string. */
  lemma {:induction false} JoinSplit(s: string, sep: char)
    ensures JoinOn(Split(s, sep), sep) == s
    decreases |s|
  {
    hide Find;
    var i := Find(s, [sep], 0);
    if i == -1 {
      assert Split(s, sep) == [s];
    } else {
      OccursAtChar(s, sep, i);
      var rest := s[i + 1..];
      JoinSplit(rest, sep);
      assert Split(s, sep) == [s[..i]] + Split(rest, sep);
      assert s == s[..i] + [sep] + rest;
    }
  }

  /** Splitting a join of separator-free pieces gives back the pieces. */
  lemma {:induction false} SplitJoin(parts: seq<string>, sep: char)
    requires |parts| >= 1
    requires forall k :: 0 <= k < |parts| ==> sep !in parts[k]
    ensures Split(JoinOn(parts, sep), sep) == parts
    decreases |parts|
  {
    var s := JoinOn(parts, sep);
    var p := parts[0];
    forall j | 0 <= j < |p| ensures !OccursAt(s, [sep], j) {
      OccursAtChar(s, sep, j);
      assert s[j] == p[j];
    }
    if |parts| == 1 {
      assert Find(s, [sep], 0) == -1 by {
        forall j | 0 <= j < |s| + 1 ensures !OccursAt(s, [sep], j) { OccursAtChar(s, sep, j); }
      }
    } else {
      OccursAtChar(s, sep, |p|);
      FindIsLeftmost(s, [sep], 0, |p|);
      assert s[..|p|] == p;
      assert s[|p| + 1..] == JoinOn(parts[1..], sep);
      SplitJoin(parts[1..], sep);
    }
  }

  /** Python's `sep.join(parts)` for a string separator. */
  function Join(sep: string, parts: seq<string>): string {
    if parts == [] then "" else if |parts| == 1 then parts[0] else parts[0] + sep + Join(sep, parts[1..])
  }

  // ---------------------------------------------------------------------------
  // `s.upper()` on ASCII letters

  function UpperChar(c: char): char {
    if 'a' <= c <= 'z' then (c as int - 32) as char else c
  }

  /** `s.upper()`, restricted to the ASCII letters. */
  function Upper(s: string): (r: string)
    ensures |r| == |s|
    ensures forall k :: 0 <= k < |s| ==> r[k] == UpperChar(s[k])
  {
    seq(|s|, k requires 0 <= k < |s| => UpperChar(s[k]))
  }

  // ---------------------------------------------------------------------------
  // `int(digits)` and `str(n)`

  /** `int(d)` for a string of ASCII digits. */
  function DecimalValue(d: string): (r: nat)
    requires AllDigits(d)
    ensures |d| >= 1 && d[0] != '0' ==> Pow10(|d| - 1) <= r
    decreases |d|
  {
    if d == [] then 0 else DecimalValue(d[..|d| - 1]) * 10 + (d[|d| - 1] as int - '0' as int)
  }

  /** `10 ** n`. */
  function Pow10(n: nat): (r: nat)
    ensures r >= 1
  {
    if n == 0 then 1 else 10 * Pow10(n - 1)
  }

  /** `n` decimal digits stand for a value below `10 ** n`. */
  lemma {:induction false} DecimalBound(d: string)
    requires AllDigits(d)
    ensures DecimalValue(d) < Pow10(|d|)
    decreases |d|
  {
    if d != [] {
      DecimalBound(d[..|d| - 1]);
    }
  }

  function DigitChar(n: nat): (c: char)
    requires n < 10
    ensures IsDigit(c) && c as int - '0' as int == n
  {
    ('0' as int + n) as char
  }

  /** `str(n)` for a natural number: its shortest decimal form. */
  function DecimalText(n: nat): (d: string)
    ensures |d| >= 1 && AllDigits(d)
    ensures d[0] == '0' ==> n == 0 && d == "0"
    decreases n
  {
    if n < 10 then [DigitChar(n)] else DecimalText(n / 10) + [DigitChar(n % 10)]
  }

  /** `int(str(n)) == n`. */
  lemma {:induction false} DecimalRoundTrip(n: nat)
    ensures DecimalValue(DecimalText(n)) == n
    decreases n
  {
    if n >= 10 {
      var d := DecimalText(n);
      assert d[..|d| - 1] == DecimalText(n / 10);
      DecimalRoundTrip(n / 10);
    }
  }

  /** `str(i)` for any integer. */
  function IntText(i: int): string {
    if i < 0 then "-" + DecimalText(-i) else DecimalText(i)
  }

  // ---------------------------------------------------------------------------
  // `template.format(*args)` with automatically numbered fields

  predicate BraceFree(s: string) {
    forall k :: 0 <= k < |s| ==> s[k] != '{' && s[k] != '}'
  }

  function Prepend(p: string, r: Result<string>): Result<string> {
    if r.Ok? then Ok(p + r.value) else r
  }

  /**
   * `template.format(*args)`: each `{}` takes the next argument (too few
   * arguments is an error, extra ones are ignored), `{{` and `}}` stand for
   * single braces, and any other brace is a format error.
   */
  function Format(template: string, args: seq<string>): (r: Result<string>)
    ensures r.Fail? ==> r.error == BadFormat
    decreases |template|
  {
    if template == [] then Ok([])
    else if StartsWith(template, "{{") then Prepend("{", Format(template[2..], args))
    else if StartsWith(template, "}}") then Prepend("}", Format(template[2..], args))
    else if StartsWith(template, "{}") then
      if args == [] then Fail(BadFormat) else Prepend(args[0], Format(template[2..], args[1..]))
    else if template[0] == '{' || template[0] == '}' then Fail(BadFormat)
    else Prepend([template[0]], Format(template[1..], args))
  }

  /** The template `pieces[0] {} pieces[1] {} ... {} pieces[n]`. */
  function Template(pieces: seq<string>): string
    requires |pieces| >= 1
  {
    if |pieces| == 1 then pieces[0] else pieces[0] + "{}" + Template(pieces[1..])
  }

  /** The text `pieces[0] args[0] pieces[1] ... args[n-1] pieces[n]`. */
  function Interleave(pieces: seq<string>, args: seq<string>): string
    requires |pieces| == |args| + 1
  {
    if |pieces| == 1 then pieces[0] else pieces[0] + args[0] + Interleave(pieces[1..], args[1..])
  }

  lemma {:induction false} FormatBraceFreePrefix(p: string, t: string, args: seq<string>)
    requires BraceFree(p)
    ensures Format(p + t, args) == Prepend(p, Format(t, args))
    decreases |p|
  {
    if p != [] {
      assert (p + t)[1..] == p[1..] + t;
      assert !StartsWith(p + t, "{{") && !StartsWith(p + t, "}}") && !StartsWith(p + t, "{}") by {
        assert (p + t)[0] == p[0];
      }
      FormatBraceFreePrefix(p[1..], t, args);
      assert Format(p + t, args) == Prepend([p[0]], Prepend(p[1..], Format(t, args)));
      if Format(t, args).Ok? {
        assert [p[0]] + (p[1..] + Format(t, args).value) == p + Format(t, args).value;
      }
    } else {
      assert p + t == t;
      if Format(t, args).Ok? {
        assert p + Format(t, args).value == Format(t, args).value;
      }
    }
  }

  /** Filling a template of brace-free pieces with exactly as many arguments as fields. */
  lemma {:induction false} FormatFills(pieces: seq<string>, args: seq<string>)
    requires |pieces| == |args| + 1
    requires forall k :: 0 <= k < |pieces| ==> BraceFree(pieces[k])
    ensures Format(Template(pieces), args) == Ok(Interleave(pieces, args))
    decreases |pieces|
  {
    if |pieces| == 1 {
      FormatBraceFreePrefix(pieces[0], "", args);
      assert pieces[0] + "" == pieces[0];
    } else {
      var rest := Template(pieces[1..]);
      assert Template(pieces) == pieces[0] + ("{}" + rest);
      FormatBraceFreePrefix(pieces[0], "{}" + rest, args);
      var field := "{}" + rest;
      assert field[..2] == "{}" && field[2..] == rest;
      assert Format(field, args) == Prepend(args[0], Format(rest, args[1..]));
      FormatFills(pieces[1..], args[1..]);
      var tail := Interleave(pieces[1..], args[1..]);
      assert pieces[0] + (args[0] + tail) == pieces[0] + args[0] + tail;
    }
  }
}
