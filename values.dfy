/**
 * The value model shared by the schema engine and the path codec: the
 * JSON-like trees that rickle loads from YAML, JSON, TOML, XML, INI and ENV
 * documents, together with the error kinds that the modelled Python code can
 * raise and the ordered (insertion-order) string-keyed maps it works on.
 */
module Values {

  datatype Option<+T> = None | Some(value: T) {
    function GetOr(default: T): T {
      match this
      case Some(v) => v
      case None => default
    }
  }

  /** The Python exceptions the modelled code raises. UnrepresentableKey stands
      for the one place where Python stores a non-string key in a dict, which a
      string-keyed map cannot hold. */
  datatype PyError = ValueError | KeyError | TypeError | AttributeError | UnrepresentableKey

  /** A computation that either yields a value or raises. */
  datatype Result<+T> = Ok(value: T) | Err(error: PyError) {
    predicate IsFailure() { Err? }
    function PropagateFailure<U>(): Result<U>
      requires Err?
    {
      Err(error)
    }
    function Extract(): T
      requires Ok?
    {
      value
    }
  }

  /** A Python value as loaded from a configuration document. A float is
      opaque: only its kind matters to the core, and it carries the text that
      Python's str() gives for it. A dict is an association list in insertion
      order. */
  datatype Value =
    | Null
    | Bool(b: bool)
    | Int(i: int)
    | Float(repr: string)
    | Str(s: string)
    | List(items: seq<Value>)
    | Map(entries: seq<(string, Value)>)
  {
    predicate IsContainer() { List? || Map? }
  }

  // ---------------------------------------------------------------------------
  // Ordered string-keyed maps (Python dicts) as association lists
  // ---------------------------------------------------------------------------

  /** The keys of an association list, in insertion order. */
  function Keys<V>(es: seq<(string, V)>): (ks: seq<string>)
    ensures |ks| == |es|
    ensures forall i :: 0 <= i < |es| ==> ks[i] == es[i].0
  {
    if es == [] then [] else [es[0].0] + Keys(es[1..])
  }

  predicate HasKey<V>(es: seq<(string, V)>, k: string) {
    exists i :: 0 <= i < |es| && es[i].0 == k
  }

  /** Every key occurs once, as in a Python dict. */
  predicate DistinctKeys<V>(es: seq<(string, V)>) {
    forall i, j :: 0 <= i < j < |es| ==> es[i].0 != es[j].0
  }

  /** The position of the first entry with key k. */
  function IndexOf<V>(es: seq<(string, V)>, k: string): (i: nat)
    requires HasKey(es, k)
    ensures i < |es| && es[i].0 == k
    ensures forall j :: 0 <= j < i ==> es[j].0 != k
  {
    if es[0].0 == k then 0 else 1 + IndexOf(es[1..], k)
  }

  /** d[k] for a key that is present. */
  function Get<V>(es: seq<(string, V)>, k: string): V
    requires HasKey(es, k)
  {
    es[IndexOf(es, k)].1
  }

  /** d[k] = v: a present key keeps its position and takes the new value; an
      absent key is appended. */
  function Put<V>(es: seq<(string, V)>, k: string, v: V): (r: seq<(string, V)>)
    ensures HasKey(es, k) ==> |r| == |es| && r[IndexOf(es, k)] == (k, v)
    ensures HasKey(es, k) ==> forall j :: 0 <= j < |es| && j != IndexOf(es, k) ==> r[j] == es[j]
    ensures !HasKey(es, k) ==> r == es + [(k, v)]
  {
    if HasKey(es, k) then es[IndexOf(es, k) := (k, v)] else es + [(k, v)]
  }

  lemma PutKeepsDistinct<V>(es: seq<(string, V)>, k: string, v: V)
    requires DistinctKeys(es)
    ensures DistinctKeys(Put(es, k, v))
    ensures HasKey(Put(es, k, v), k)
    ensures forall k' :: HasKey(Put(es, k, v), k') <==> HasKey(es, k') || k' == k
  {
    var r := Put(es, k, v);
    assert r[if HasKey(es, k) then IndexOf(es, k) else |es|].0 == k;
    forall k' | HasKey(r, k') ensures HasKey(es, k') || k' == k {
      var i :| 0 <= i < |r| && r[i].0 == k';
      if i < |es| && r[i] == es[i] {
        assert es[i].0 == k';
      }
    }
    forall k' | HasKey(es, k') ensures HasKey(r, k') {
      var i :| 0 <= i < |es| && es[i].0 == k';
      assert r[i].0 == k';
    }
  }

  /** After d[k] = v, d[k] is v and every other key keeps its presence and
      its value. */
  lemma GetPut<V>(es: seq<(string, V)>, k: string, v: V)
    ensures HasKey(Put(es, k, v), k) && Get(Put(es, k, v), k) == v
    ensures forall k' :: k' != k ==> (HasKey(Put(es, k, v), k') <==> HasKey(es, k'))
    ensures forall k' :: k' != k && HasKey(es, k') ==> Get(Put(es, k, v), k') == Get(es, k')
  {
    var r := Put(es, k, v);
    var at := if HasKey(es, k) then IndexOf(es, k) else |es|;
    assert r[at] == (k, v);
    assert IndexOf(r, k) == at;
    forall k' | k' != k && HasKey(r, k') ensures HasKey(es, k') {
      var i :| 0 <= i < |r| && r[i].0 == k';
      assert r[i] == es[i];
    }
    forall k' | k' != k && HasKey(es, k') ensures HasKey(r, k') && Get(r, k') == Get(es, k') {
      var i := IndexOf(es, k');
      assert r[i] == es[i];
      assert IndexOf(r, k') == i;
    }
  }

  /** Building a dict by assignments keeps its keys distinct. */
  lemma {:induction false} PutAllKeepsDistinct<V>(acc: seq<(string, V)>, kvs: seq<(string, V)>)
    requires DistinctKeys(acc)
    ensures DistinctKeys(PutAll(acc, kvs))
    decreases |kvs|
  {
    if kvs != [] {
      PutKeepsDistinct(acc, kvs[0].0, kvs[0].1);
      PutAllKeepsDistinct(Put(acc, kvs[0].0, kvs[0].1), kvs[1..]);
    }
  }

  /** Every entry of a dict built by assignments was there before or was
      assigned. */
  lemma {:induction false} PutAllFrom<V>(acc: seq<(string, V)>, kvs: seq<(string, V)>)
    ensures forall e :: e in PutAll(acc, kvs) ==> e in acc || e in kvs
    decreases |kvs|
  {
    if kvs != [] {
      var acc' := Put(acc, kvs[0].0, kvs[0].1);
      PutAllFrom(acc', kvs[1..]);
      forall e | e in acc' ensures e in acc || e in kvs {
        var i :| 0 <= i < |acc'| && acc'[i] == e;
        if i < |acc| && acc'[i] == acc[i] {
        } else {
          assert e == kvs[0];
        }
      }
      forall e | e in kvs[1..] ensures e in kvs {
      }
    }
  }

  /** When every assignment to k assigns v, and there is one or k already
      maps to v, the dict built by the assignments maps k to v. */
  lemma {:induction false} PutAllGet<V>(acc: seq<(string, V)>, kvs: seq<(string, V)>, k: string, v: V)
    requires forall e :: e in kvs && e.0 == k ==> e.1 == v
    requires (k, v) in kvs || (HasKey(acc, k) && Get(acc, k) == v)
    ensures HasKey(PutAll(acc, kvs), k) && Get(PutAll(acc, kvs), k) == v
    decreases |kvs|
  {
    if kvs != [] {
      var acc' := Put(acc, kvs[0].0, kvs[0].1);
      GetPut(acc, kvs[0].0, kvs[0].1);
      if kvs[0].0 == k {
        assert kvs[0] in kvs;
      } else {
        assert (k, v) in kvs ==> (k, v) in kvs[1..];
      }
      forall e | e in kvs[1..] && e.0 == k ensures e.1 == v {
        assert e in kvs;
      }
      PutAllGet(acc', kvs[1..], k, v);
    }
  }

  /** Every dict inside v, v included, has distinct keys: v is a value a
      Python program can hold. */
  predicate WellKeyed(v: Value) {
    match v
    case Map(es) => DistinctKeys(es) && forall i :: 0 <= i < |es| ==> WellKeyed(es[i].1)
    case List(xs) => forall i :: 0 <= i < |xs| ==> WellKeyed(xs[i])
    case _ => true
  }

  /** The dict a loop of `d[k] = v` assignments builds from an empty dict. */
  function PutAll<V>(acc: seq<(string, V)>, kvs: seq<(string, V)>): seq<(string, V)>
    decreases |kvs|
  {
    if kvs == [] then acc else PutAll(Put(acc, kvs[0].0, kvs[0].1), kvs[1..])
  }

  /** When no key repeats, building a dict from a list of pairs keeps every
      pair, in order. */
  lemma {:induction false} PutAllDistinct<V>(acc: seq<(string, V)>, kvs: seq<(string, V)>)
    requires DistinctKeys(acc + kvs)
    ensures PutAll(acc, kvs) == acc + kvs
    decreases |kvs|
  {
    if kvs != [] {
      forall i | 0 <= i < |acc| ensures acc[i].0 != kvs[0].0 {
        assert (acc + kvs)[i] == acc[i] && (acc + kvs)[|acc|] == kvs[0];
      }
      assert acc + kvs == (acc + [kvs[0]]) + kvs[1..];
      PutAllDistinct(acc + [kvs[0]], kvs[1..]);
    }
  }
}
