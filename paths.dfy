/**
 * The flat-key syntax shared by flatten_dict and inflate_dict: a path is a
 * sequence of segments, each a dict key or a list index; a list index is
 * written as the opening bracket, the decimal index and the closing bracket,
 * and segments are joined by the path separator.
 */
module Paths {
  import opened Values
  import opened Text

  /** A path segment, as the Node of inflate_dict's unravel: a dict key
      (struc_type 'dict') or a list index (struc_type 'list'). */
  datatype Seg = KeySeg(key: string) | IdxSeg(index: nat)

  /** list_brackets. Each bracket is one character that is not an ASCII letter
      or digit, so that the backslash unravel puts before it in its pattern
      makes it a literal character. */
  datatype Brackets = Brackets(open: char, close: char)

  predicate ValidBrackets(br: Brackets) {
    !IsAsciiAlnum(br.open) && !IsAsciiAlnum(br.close)
  }

  /** path_sep: a non-empty string. */
  type Separator = s: string | |s| > 0 witness "."

  /** The text of one segment in a flat key. */
  function SegText(s: Seg, br: Brackets): string {
    match s
    case KeySeg(k) => k
    case IdxSeg(i) => [br.open] + NatToString(i) + [br.close]
  }

  /** The length of the run of ASCII digits that starts at position `from`. */
  function DigitRun(s: string, from: nat): (n: nat)
    requires from <= |s|
    ensures from + n <= |s|
    ensures forall j :: from <= j < from + n ==> IsDigit(s[j])
    ensures from + n == |s| || !IsDigit(s[from + n])
    decreases |s| - from
  {
    if from < |s| && IsDigit(s[from]) then 1 + DigitRun(s, from + 1) else 0
  }

  /** The index pattern `\<open>(\d+)\<close>` matches at the start of k with
      the n digits after the opening bracket. */
  predicate IndexMatch(k: string, br: Brackets, n: nat) {
    1 <= n && n + 2 <= |k| && k[0] == br.open
    && (forall j :: 1 <= j <= n ==> IsDigit(k[j]))
    && k[n + 1] == br.close
  }

  /** unravel's classification of one piece of a key: re.match of the index
      pattern, which is anchored at the start only, so that "(3)x" is the
      index 3. */
  function ParseSeg(k: string, br: Brackets): (r: Seg)
    requires ValidBrackets(br)
    ensures r.IdxSeg? <==> exists n :: IndexMatch(k, br, n)
    ensures r.KeySeg? ==> r.key == k
    ensures forall n :: IndexMatch(k, br, n) ==> r == IdxSeg(DigitsValue(k[1..n + 1]))
  {
    if |k| >= 1 && k[0] == br.open then
      var n := DigitRun(k, 1);
      if n >= 1 && n + 2 <= |k| && k[n + 1] == br.close then
        assert IndexMatch(k, br, n);
        assert forall m: nat :: IndexMatch(k, br, m) ==> m == n;
        IdxSeg(DigitsValue(k[1..n + 1]))
      else
        assert forall m: nat :: !IndexMatch(k, br, m);
        KeySeg(k)
    else KeySeg(k)
  }

  /** unravel(key, path_sep, list_brackets): one leading separator character
      is removed (key[1:], whatever the separator's length), the rest is split
      on the separator, and each piece is classified. */
  function Unravel(key: string, sep: Separator, br: Brackets): (segs: seq<Seg>)
    requires ValidBrackets(br)
    ensures |segs| >= 1
    ensures var body := if StartsWith(key, sep) then key[1..] else key;
      |segs| == |Split(body, sep)|
      && forall i :: 0 <= i < |segs| ==> segs[i] == ParseSeg(Split(body, sep)[i], br)
  {
    var body := if StartsWith(key, sep) then key[1..] else key;
    var pieces := Split(body, sep);
    seq(|pieces|, i requires 0 <= i < |pieces| => ParseSeg(pieces[i], br))
  }

  /** The member of v that path p leads to, if any: a key segment selects a
      dict member, an index segment a list element. */
  function Lookup(v: Value, p: seq<Seg>): Option<Value>
    decreases |p|
  {
    if p == [] then Some(v)
    else match p[0]
      case KeySeg(k) => if v.Map? && HasKey(v.entries, k) then Lookup(Get(v.entries, k), p[1..]) else None
      case IdxSeg(i) => if v.List? && i < |v.items| then Lookup(v.items[i], p[1..]) else None
  }

  /** Pieces without separator characters, joined by the separator, unravel
      piece by piece when the first piece is not empty. */
  lemma UnravelJoin(texts: seq<string>, sep: Separator, br: Brackets)
    requires ValidBrackets(br) && |texts| >= 1 && texts[0] != []
    requires forall k :: 0 <= k < |texts| ==> Avoids(texts[k], sep)
    ensures Unravel(Join(sep, texts), sep, br) == seq(|texts|, i requires 0 <= i < |texts| => ParseSeg(texts[i], br))
  {
    var key := Join(sep, texts);
    assert key[0] == texts[0][0] by {
      if |texts| > 1 { assert key == texts[0] + sep + Join(sep, texts[1..]); }
    }
    assert !StartsWith(key, sep) by {
      assert key[0] !in sep;
      assert |sep| > |key| || key[..|sep|][0] == key[0];
    }
    SplitJoin(texts, sep);
  }

  /** The text of an index segment reads back as that index. */
  lemma ParseIndexText(i: nat, br: Brackets)
    requires ValidBrackets(br)
    ensures ParseSeg(SegText(IdxSeg(i), br), br) == IdxSeg(i)
  {
    var t := SegText(IdxSeg(i), br);
    var d := NatToString(i);
    assert t[1..|d| + 1] == d;
    assert IndexMatch(t, br, |d|);
    DigitsValueOfNatToString(i);
  }

  /** A key that does not start with the index pattern reads back as itself. */
  lemma ParseKeyText(k: string, br: Brackets)
    requires ValidBrackets(br) && forall n :: !IndexMatch(k, br, n)
    ensures ParseSeg(SegText(KeySeg(k), br), br) == KeySeg(k)
  {
  }

  /** Two different indices have different texts. */
  lemma IndexTextInjective(i: nat, j: nat, br: Brackets)
    requires SegText(IdxSeg(i), br) == SegText(IdxSeg(j), br)
    ensures i == j
  {
    var a := NatToString(i);
    var b := NatToString(j);
    assert |a| == |b|;
    assert a == SegText(IdxSeg(i), br)[1..|a| + 1];
    assert b == SegText(IdxSeg(j), br)[1..|b| + 1];
    NatToStringInjective(i, j);
  }
}
