/**
 * The Python string operations the core relies on: str.strip, str.lower,
 * str.startswith, str.lstrip(chars), str.split(sep), sep.join(parts), and the
 * decimal rendering and parsing of non-negative integers (str(i), int(s)).
 */
module Text {
  import opened Values

  /** str.isspace() for one character: the characters Python's str.strip()
      removes when called without arguments. */
  predicate IsSpace(c: char) {
    var n := c as int;
    (0x09 <= n <= 0x0D) || (0x1C <= n <= 0x20) || n == 0x85 || n == 0xA0 || n == 0x1680
    || (0x2000 <= n <= 0x200A) || n == 0x2028 || n == 0x2029 || n == 0x202F
    || n == 0x205F || n == 0x3000
  }

  function LStripSpace(s: string): string {
    if s != [] && IsSpace(s[0]) then LStripSpace(s[1..]) else s
  }

  function RStripSpace(s: string): string {
    if s != [] && IsSpace(s[|s| - 1]) then RStripSpace(s[..|s| - 1]) else s
  }

  /** str.strip(): drop leading and trailing whitespace. */
  function Strip(s: string): string {
    RStripSpace(LStripSpace(s))
  }

  /** A string without whitespace is its own strip(). */
  lemma StripWithoutSpace(s: string)
    requires forall i :: 0 <= i < |s| ==> !IsSpace(s[i])
    ensures Strip(s) == s
  {
    assert LStripSpace(s) == s;
  }

  /** str.lower() on the ASCII letters; every other character is kept. */
  function LowerChar(c: char): char {
    if 'A' <= c <= 'Z' then (c as int - 'A' as int + 'a' as int) as char else c
  }

  function Lower(s: string): string {
    seq(|s|, i requires 0 <= i < |s| => LowerChar(s[i]))
  }

  predicate StartsWith(s: string, p: string) {
    |p| <= |s| && s[..|p|] == p
  }

  /** str.lstrip(chars): drop every leading character that occurs in chars. */
  function LStripChars(s: string, chars: string): string {
    if s != [] && s[0] in chars then LStripChars(s[1..], chars) else s
  }

  /** lstrip leaves a suffix that does not start with one of the characters,
      and every character it drops is one of them. */
  lemma {:induction false} LStripCharsSpec(s: string, chars: string)
    ensures var r := LStripChars(s, chars);
      |r| <= |s| && r == s[|s| - |r|..] && (r == [] || r[0] !in chars)
      && forall i :: 0 <= i < |s| - |r| ==> s[i] in chars
    decreases |s|
  {
    if s != [] && s[0] in chars {
      LStripCharsSpec(s[1..], chars);
    }
  }

  /** Whether sep occurs in s starting at position i. */
  predicate OccursAt(s: string, sep: string, i: nat) {
    i + |sep| <= |s| && s[i..i + |sep|] == sep
  }

  /** The first position at or after `from` where sep occurs, as str.find. */
  function FindFrom(s: string, sep: string, from: nat): (r: Option<nat>)
    ensures r.Some? ==> from <= r.value && OccursAt(s, sep, r.value)
    decreases |s| - from
  {
    if from + |sep| > |s| then None
    else if s[from..from + |sep|] == sep then Some(from)
    else FindFrom(s, sep, from + 1)
  }

  /** find answers the first occurrence at or after `from`, or that there
      is none. */
  lemma {:induction false} FindFromSpec(s: string, sep: string, from: nat)
    ensures FindFrom(s, sep, from).Some? ==>
      forall j :: from <= j < FindFrom(s, sep, from).value ==> !OccursAt(s, sep, j)
    ensures FindFrom(s, sep, from).None? ==> forall j :: from <= j ==> !OccursAt(s, sep, j)
    decreases |s| - from
  {
    if from + |sep| <= |s| && s[from..from + |sep|] != sep {
      FindFromSpec(s, sep, from + 1);
    }
  }

  /** str.split(sep) for a non-empty separator: the pieces between the
      non-overlapping occurrences of sep, found left to right. */
  function Split(s: string, sep: string): (parts: seq<string>)
    requires |sep| > 0
    ensures |parts| >= 1
    decreases |s|
  {
    match FindFrom(s, sep, 0)
    case None => [s]
    case Some(i) => [s[..i]] + Split(s[i + |sep|..], sep)
  }

  /** sep.join(parts). */
  function Join(sep: string, parts: seq<string>): string
    decreases |parts|
  {
    if parts == [] then ""
    else if |parts| == 1 then parts[0]
    else parts[0] + sep + Join(sep, parts[1..])
  }

  /** No character of t occurs in s. */
  predicate Avoids(s: string, t: string) {
    forall i :: 0 <= i < |s| ==> s[i] !in t
  }

  lemma OccurrenceStartsWithFirstChar(s: string, sep: string)
    requires |sep| > 0
    ensures forall i: nat :: OccursAt(s, sep, i) ==> s[i] == sep[0]
  {
    forall i: nat | OccursAt(s, sep, i) ensures s[i] == sep[0] {
      assert s[i..i + |sep|][0] == s[i];
    }
  }

  /** The first occurrence of sep is the first position holding sep's first
      character, when sep does occur there. */
  lemma FindFirstOccurrence(s: string, sep: string, i: nat)
    requires |sep| > 0 && OccursAt(s, sep, i)
    requires forall j :: 0 <= j < i ==> s[j] != sep[0]
    ensures FindFrom(s, sep, 0) == Some(i)
  {
    OccurrenceStartsWithFirstChar(s, sep);
    FindFromSpec(s, sep, 0);
  }

  lemma FindNoOccurrence(s: string, sep: string)
    requires |sep| > 0 && Avoids(s, sep)
    ensures FindFrom(s, sep, 0) == None
  {
    OccurrenceStartsWithFirstChar(s, sep);
    FindFromSpec(s, sep, 0);
  }

  /** Splitting a join gives the parts back when no part contains a character
      of the separator. */
  lemma {:induction false} SplitJoin(parts: seq<string>, sep: string)
    requires |sep| > 0 && |parts| >= 1
    requires forall k :: 0 <= k < |parts| ==> Avoids(parts[k], sep)
    ensures Split(Join(sep, parts), sep) == parts
    decreases |parts|
  {
    var p := parts[0];
    var s := Join(sep, parts);
    assert Avoids(p, sep);
    if |parts| == 1 {
      FindNoOccurrence(s, sep);
    } else {
      var rest := Join(sep, parts[1..]);
      assert s == p + sep + rest;
      assert s[|p|..|p| + |sep|] == sep;
      forall j | 0 <= j < |p| ensures s[j] != sep[0] {
        assert s[j] == p[j];
      }
      FindFirstOccurrence(s, sep, |p|);
      assert s[..|p|] == p;
      assert s[|p| + |sep|..] == rest;
      SplitJoin(parts[1..], sep);
    }
  }

  /** Joining the pieces of a split gives the string back. */
  lemma {:induction false} JoinSplit(s: string, sep: string)
    requires |sep| > 0
    ensures Join(sep, Split(s, sep)) == s
    decreases |s|
  {
    match FindFrom(s, sep, 0)
    case None =>
    case Some(i) =>
      var rest := s[i + |sep|..];
      var tail := Split(rest, sep);
      JoinSplit(rest, sep);
      assert Split(s, sep) == [s[..i]] + tail;
      assert ([s[..i]] + tail)[1..] == tail;
      assert s == s[..i] + sep + rest;
  }

  /** A join of two or more pieces is the join of all but the last, the
      separator and the last piece. */
  lemma {:induction false} JoinSnoc(parts: seq<string>, sep: string)
    requires |parts| >= 2
    ensures Join(sep, parts[..|parts| - 1]) + sep + parts[|parts| - 1] == Join(sep, parts)
    decreases |parts|
  {
    var n := |parts|;
    if n == 2 {
      assert parts[..1] == [parts[0]];
      assert parts[1..] == [parts[1]];
    } else {
      var tail := parts[1..];
      JoinSnoc(tail, sep);
      assert tail[..|tail| - 1] == parts[1..n - 1];
      assert parts[..n - 1][1..] == parts[1..n - 1];
      assert tail[|tail| - 1] == parts[n - 1];
    }
  }

  /** The first piece of a split is the text before the first separator:
      it is empty only when s starts with the separator, and it is never the
      separator itself. */
  lemma SplitHead(s: string, sep: string)
    requires |sep| > 0 && |Split(s, sep)| >= 2
    ensures Split(s, sep)[0] != sep
    ensures Split(s, sep)[0] == [] ==> StartsWith(s, sep)
  {
    match FindFrom(s, sep, 0)
    case None =>
    case Some(i) =>
      assert Split(s, sep)[0] == s[..i];
      if i == |sep| {
        assert s[0..|sep|] == s[..i];
      }
      if i == 0 {
        assert s[..|sep|] == sep;
      }
  }

  // ---------------------------------------------------------------------------
  // Decimal integers
  // ---------------------------------------------------------------------------

  predicate IsDigit(c: char) { '0' <= c <= '9' }

  predicate IsAsciiAlnum(c: char) {
    IsDigit(c) || ('a' <= c <= 'z') || ('A' <= c <= 'Z')
  }

  function DigitChar(d: nat): char
    requires d < 10
  {
    ('0' as int + d) as char
  }

  function DigitValue(c: char): nat
    requires IsDigit(c)
  {
    c as int - '0' as int
  }

  /** str(n) for n >= 0. */
  function NatToString(n: nat): (s: string)
    ensures |s| >= 1 && forall i :: 0 <= i < |s| ==> IsDigit(s[i])
  {
    if n < 10 then [DigitChar(n)] else NatToString(n / 10) + [DigitChar(n % 10)]
  }

  /** int(s) for a non-empty string of ASCII digits (leading zeros allowed). */
  function DigitsValue(s: string): nat
    requires forall i :: 0 <= i < |s| ==> IsDigit(s[i])
  {
    if s == [] then 0 else DigitsValue(s[..|s| - 1]) * 10 + DigitValue(s[|s| - 1])
  }

  /** int(str(n)) == n. */
  lemma {:induction false} DigitsValueOfNatToString(n: nat)
    ensures DigitsValue(NatToString(n)) == n
  {
    var s := NatToString(n);
    if n >= 10 {
      assert s[..|s| - 1] == NatToString(n / 10);
      DigitsValueOfNatToString(n / 10);
    }
  }

  lemma NatToStringInjective(m: nat, n: nat)
    requires NatToString(m) == NatToString(n)
    ensures m == n
  {
    DigitsValueOfNatToString(m);
    DigitsValueOfNatToString(n);
  }
}
