/**
 * toml_null_stripper: TOML has no null, so before a document is written as
 * TOML every "", None and {} is removed from it. Nested dicts and lists of a
 * dict, and the dicts of a list, are stripped first; a list nested directly
 * in a list only has its own dict and list members stripped, and keeps its
 * scalar members, blank or not.
 */
module TomlStrip {
  import opened Values

  /** The values `v not in (u"", None, {})` rejects. Python's == makes 0,
      False and [] different from all three. */
  predicate IsBlank(v: Value) {
    v == Str("") || v == Null || v == Map([])
  }

  /** `a` is `b` with some elements deleted. */
  predicate Subsequence<T(==)>(a: seq<T>, b: seq<T>)
    decreases |b|
  {
    a == [] || (b != [] && ((a[0] == b[0] && Subsequence(a[1..], b[1..])) || Subsequence(a, b[1..])))
  }

  /** The loop of the dict branch: keep the pairs whose value is not blank. */
  function DropBlankEntries(m: seq<(string, Value)>): (r: seq<(string, Value)>)
    ensures |r| <= |m|
  {
    if m == [] then []
    else (if IsBlank(m[0].1) then [] else [m[0]]) + DropBlankEntries(m[1..])
  }

  /** The loop of the list branch: keep the members that are not blank. */
  function DropBlankItems(m: seq<Value>): (r: seq<Value>)
    ensures |r| <= |m|
  {
    if m == [] then []
    else (if IsBlank(m[0]) then [] else [m[0]]) + DropBlankItems(m[1..])
  }

  /** A dict or list after toml_null_stripper; a scalar is left as it is,
      which is what the dict branch does with a scalar value. */
  function StripValue(v: Value): (r: Value)
    ensures r.Map? <==> v.Map?
    ensures r.List? <==> v.List?
    ensures !v.IsContainer() ==> r == v
    decreases v, 0
  {
    match v
    case Map(es) =>
      Map(DropBlankEntries(seq(|es|, i requires 0 <= i < |es| => (es[i].0, StripValue(es[i].1)))))
    case List(xs) =>
      List(DropBlankItems(seq(|xs|, i requires 0 <= i < |xs| => StripMember(xs[i]))))
    case _ => v
  }

  /** A member of a list before the blank test: a dict is stripped, and a
      list has only its dict and list members stripped. */
  function StripMember(x: Value): (r: Value)
    ensures r.Map? <==> x.Map?
    ensures r.List? <==> x.List?
    ensures x.List? ==> |r.items| == |x.items|
    ensures !x.IsContainer() ==> r == x
    decreases x, 1
  {
    match x
    case Map(_) => StripValue(x)
    case List(ys) =>
      List(seq(|ys|, j requires 0 <= j < |ys| => if ys[j].IsContainer() then StripValue(ys[j]) else ys[j]))
    case _ => x
  }

  /** toml_null_stripper(input). */
  function TomlNullStripper(v: Value): (r: Result<Value>)
    ensures r.Err? <==> !v.IsContainer()
    ensures r.Err? ==> r.error == TypeError
    ensures r.Ok? ==> (r.value.Map? <==> v.Map?) && (r.value.List? <==> v.List?)
  {
    if v.IsContainer() then Ok(StripValue(v)) else Err(TypeError)
  }

  // ---------------------------------------------------------------------------
  // The filters keep exactly the non-blank elements, in order
  // ---------------------------------------------------------------------------

  lemma {:induction false} DropBlankEntriesSpec(m: seq<(string, Value)>)
    ensures Subsequence(DropBlankEntries(m), m)
    ensures forall p :: p in DropBlankEntries(m) <==> p in m && !IsBlank(p.1)
  {
    if m != [] {
      DropBlankEntriesSpec(m[1..]);
      var r := DropBlankEntries(m);
      if IsBlank(m[0].1) {
        assert r == DropBlankEntries(m[1..]);
      } else {
        assert r[0] == m[0] && r[1..] == DropBlankEntries(m[1..]);
      }
      forall p ensures p in r <==> p in m && !IsBlank(p.1) {
        assert p in m <==> p == m[0] || p in m[1..];
      }
    }
  }

  lemma {:induction false} DropBlankItemsSpec(m: seq<Value>)
    ensures Subsequence(DropBlankItems(m), m)
    ensures forall x :: x in DropBlankItems(m) <==> x in m && !IsBlank(x)
    ensures forall x :: multiset(DropBlankItems(m))[x] == if IsBlank(x) then 0 else multiset(m)[x]
  {
    if m != [] {
      DropBlankItemsSpec(m[1..]);
      var r := DropBlankItems(m);
      assert m == [m[0]] + m[1..];
      if IsBlank(m[0]) {
        assert r == DropBlankItems(m[1..]);
      } else {
        assert r == [m[0]] + DropBlankItems(m[1..]);
      }
      forall x ensures x in r <==> x in m && !IsBlank(x) {
        assert x in m <==> x == m[0] || x in m[1..];
      }
    }
  }

  /** The dict branch keeps the surviving keys in their original order, and
      a key survives exactly when its value, once stripped, is not blank. */
  lemma StrippedDict(es: seq<(string, Value)>)
    ensures var m := seq(|es|, i requires 0 <= i < |es| => (es[i].0, StripValue(es[i].1)));
      var r := StripValue(Map(es)).entries;
      && Subsequence(r, m)
      && (forall k, w :: (k, w) in r <==> (exists i :: 0 <= i < |es| && es[i].0 == k && w == StripValue(es[i].1)) && !IsBlank(w))
  {
    var m := seq(|es|, i requires 0 <= i < |es| => (es[i].0, StripValue(es[i].1)));
    DropBlankEntriesSpec(m);
    forall k, w ensures (k, w) in m <==> exists i :: 0 <= i < |es| && es[i].0 == k && w == StripValue(es[i].1) {
      if (k, w) in m {
        var i :| 0 <= i < |m| && m[i] == (k, w);
        assert es[i].0 == k;
      }
      if exists i :: 0 <= i < |es| && es[i].0 == k && w == StripValue(es[i].1) {
        var i :| 0 <= i < |es| && es[i].0 == k && w == StripValue(es[i].1);
        assert m[i] == (k, w);
      }
    }
  }

  /** The list branch keeps the surviving members in their original order,
      each as many times as it occurs; no member of the result is blank. */
  lemma StrippedList(xs: seq<Value>)
    ensures var m := seq(|xs|, i requires 0 <= i < |xs| => StripMember(xs[i]));
      var r := StripValue(List(xs)).items;
      && Subsequence(r, m)
      && (forall x :: x in r <==> x in m && !IsBlank(x))
      && (forall x :: multiset(r)[x] == if IsBlank(x) then 0 else multiset(m)[x])
  {
    DropBlankItemsSpec(seq(|xs|, i requires 0 <= i < |xs| => StripMember(xs[i])));
  }

  // ---------------------------------------------------------------------------
  // Particular values
  // ---------------------------------------------------------------------------

  /** 0, False and [] are not blank: a dict keeps them. */
  lemma FalsyScalarsKept(k: string)
    ensures StripValue(Map([(k, Int(0))])) == Map([(k, Int(0))])
    ensures StripValue(Map([(k, Bool(false))])) == Map([(k, Bool(false))])
    ensures StripValue(Map([(k, List([]))])) == Map([(k, List([]))])
  {
    assert StripValue(List([])) == List([]);
  }

  /** "", None and {} are dropped, and so is a dict that empties out. */
  lemma BlankValuesDropped(k: string, j: string)
    ensures StripValue(Map([(k, Str(""))])) == Map([])
    ensures StripValue(Map([(k, Null)])) == Map([])
    ensures StripValue(Map([(k, Map([]))])) == Map([])
    ensures StripValue(Map([(k, Map([(j, Null)]))])) == Map([])
  {
    assert StripValue(Map([])) == Map([]);
    assert StripValue(Map([(j, Null)])) == Map([]);
  }

  /** The null scalars of a list inside a list survive. */
  lemma NestedListKeepsBlanks()
    ensures StripValue(List([List([Null, Str("")])])) == List([List([Null, Str("")])])
  {
    assert StripMember(List([Null, Str("")])) == List([Null, Str("")]);
  }

  /** A scalar input raises TypeError. */
  lemma ScalarRejected(s: string)
    ensures TomlNullStripper(Str(s)) == Err(TypeError)
    ensures TomlNullStripper(Null) == Err(TypeError)
  {
  }

  // ---------------------------------------------------------------------------
  // Idempotence
  // ---------------------------------------------------------------------------

  lemma {:induction false} DropBlankEntriesIdempotent(m: seq<(string, Value)>)
    ensures DropBlankEntries(DropBlankEntries(m)) == DropBlankEntries(m)
  {
    if m != [] {
      DropBlankEntriesIdempotent(m[1..]);
      var t := DropBlankEntries(m[1..]);
      if IsBlank(m[0].1) {
        assert DropBlankEntries(m) == t;
      } else {
        assert DropBlankEntries(m) == [m[0]] + t;
        assert DropBlankEntries([m[0]] + t) == [m[0]] + DropBlankEntries(t) by {
          assert ([m[0]] + t)[1..] == t;
        }
      }
    }
  }

  lemma {:induction false} DropBlankItemsIdempotent(m: seq<Value>)
    ensures DropBlankItems(DropBlankItems(m)) == DropBlankItems(m)
  {
    if m != [] {
      DropBlankItemsIdempotent(m[1..]);
      var t := DropBlankItems(m[1..]);
      if IsBlank(m[0]) {
        assert DropBlankItems(m) == t;
      } else {
        assert DropBlankItems(m) == [m[0]] + t;
        assert DropBlankItems([m[0]] + t) == [m[0]] + DropBlankItems(t) by {
          assert ([m[0]] + t)[1..] == t;
        }
      }
    }
  }

  /** Stripping a stripped dict or list changes nothing. */
  lemma {:induction false} StripIdempotent(v: Value)
    ensures StripValue(StripValue(v)) == StripValue(v)
    decreases v, 0
  {
    match v
    case Map(es) =>
      var m := seq(|es|, i requires 0 <= i < |es| => (es[i].0, StripValue(es[i].1)));
      var r := DropBlankEntries(m);
      DropBlankEntriesSpec(m);
      forall t | 0 <= t < |r| ensures StripValue(r[t].1) == r[t].1 {
        assert r[t] in m;
        var i :| 0 <= i < |m| && m[i] == r[t];
        StripIdempotent(es[i].1);
      }
      assert seq(|r|, t requires 0 <= t < |r| => (r[t].0, StripValue(r[t].1))) == r;
      DropBlankEntriesIdempotent(m);
    case List(xs) =>
      var m := seq(|xs|, i requires 0 <= i < |xs| => StripMember(xs[i]));
      var r := DropBlankItems(m);
      forall t | 0 <= t < |r| ensures StripMember(r[t]) == r[t] {
        assert r[t] in m by { DropBlankItemsSpec(m); }
        var i :| 0 <= i < |m| && m[i] == r[t];
        MemberIdempotent(xs[i]);
      }
      assert seq(|r|, t requires 0 <= t < |r| => StripMember(r[t])) == r;
      DropBlankItemsIdempotent(m);
    case _ =>
  }

  lemma {:induction false} MemberIdempotent(x: Value)
    ensures StripMember(StripMember(x)) == StripMember(x)
    decreases x, 1
  {
    match x
    case Map(_) => StripIdempotent(x);
    case List(ys) =>
      var r := StripMember(x).items;
      forall j | 0 <= j < |ys| && ys[j].IsContainer() ensures StripValue(r[j]) == r[j] {
        StripIdempotent(ys[j]);
      }
    case _ =>
  }
}
