/** The JSON-compatible trees the metadata engine works on. A JSON object is
    a Python dict: its entries keep insertion order and assigning to a key
    that is already there keeps that key's position. */
module Json {
  import opened Wrappers
  import opened Sequences

  /** Numbers are only copied or replaced by the engine, so they stay integers. */
  datatype Value =
    | Null
    | Bool(b: bool)
    | Number(n: int)
    | Str(s: string)
    | Arr(items: seq<Value>)
    | Obj(entries: seq<Entry>)

  datatype Entry = Entry(key: string, value: Value)

  /** The keys of an object, in dict order. */
  function Keys(es: seq<Entry>): (ks: seq<string>)
    ensures |ks| == |es|
    ensures forall i :: 0 <= i < |es| ==> ks[i] == es[i].key
  {
    if es == [] then [] else [es[0].key] + Keys(es[1..])
  }

  /** `key in d`, then `d[key]`: the value of the first entry with the key. */
  function Lookup(es: seq<Entry>, key: string): (r: Option<Value>)
    ensures r.None? <==> key !in Keys(es)
  {
    if es == [] then None
    else if es[0].key == key then Some(es[0].value)
    else Lookup(es[1..], key)
  }

  /** `d[key] = value`: replaces the value of a present key in place, or
      appends a new entry at the end. */
  function Put(es: seq<Entry>, key: string, value: Value): (r: seq<Entry>)
    ensures Keys(r) == if key in Keys(es) then Keys(es) else Keys(es) + [key]
    ensures Lookup(r, key) == Some(value)
  {
    if es == [] then [Entry(key, value)]
    else if es[0].key == key then [Entry(key, value)] + es[1..]
    else [es[0]] + Put(es[1..], key, value)
  }

  /** Null, a boolean, a number or a string: a value the merge can only
      copy or replace. */
  predicate IsScalar(v: Value)
  {
    !v.Obj? && !v.Arr?
  }

  /** No key occurs twice, as in every dict. */
  predicate UniqueKeys(es: seq<Entry>)
  {
    forall i, j :: 0 <= i < j < |es| ==> es[i].key != es[j].key
  }

  /** Every object in the tree has unique keys: what `json.loads` produces. */
  predicate WellFormed(v: Value)
  {
    match v
    case Arr(items) => forall i :: 0 <= i < |items| ==> WellFormed(items[i])
    case Obj(es) =>
      UniqueKeys(es) && forall i :: 0 <= i < |es| ==> WellFormed(es[i].value)
    case _ => true
  }

  /** All values of an entry list are well formed. */
  predicate WellFormedValues(es: seq<Entry>)
  {
    forall i :: 0 <= i < |es| ==> WellFormed(es[i].value)
  }

  /** Assigning to one key leaves every other key's value alone. */
  lemma {:induction false} LookupPut(es: seq<Entry>, key: string, value: Value, other: string)
    requires other != key
    ensures Lookup(Put(es, key, value), other) == Lookup(es, other)
  {
    if es != [] && es[0].key != key {
      LookupPut(es[1..], key, value, other);
      assert Put(es, key, value)[1..] == Put(es[1..], key, value);
    }
  }

  /** Assigning keeps keys unique. */
  lemma PutUnique(es: seq<Entry>, key: string, value: Value)
    requires UniqueKeys(es)
    ensures UniqueKeys(Put(es, key, value))
  {
    var r := Put(es, key, value);
    var ks, rs := Keys(es), Keys(r);
    forall i, j | 0 <= i < j < |r| ensures r[i].key != r[j].key {
      assert rs[i] == r[i].key && rs[j] == r[j].key;
      if j < |es| {
        assert rs[i] == ks[i] && rs[j] == ks[j];
      } else {
        assert rs[i] == ks[i] && rs[j] == key && key !in ks;
      }
    }
  }

  /** Assigning a well-formed value keeps every value well formed. */
  lemma {:induction false} PutWellFormedValues(es: seq<Entry>, key: string, value: Value)
    requires WellFormedValues(es) && WellFormed(value)
    ensures WellFormedValues(Put(es, key, value))
  {
    if es != [] && es[0].key != key {
      PutWellFormedValues(es[1..], key, value);
      var r := Put(es, key, value);
      assert r == [es[0]] + Put(es[1..], key, value);
      forall i | 0 <= i < |r| ensures WellFormed(r[i].value) {
        if i > 0 { assert r[i] == Put(es[1..], key, value)[i - 1]; }
      }
    }
  }

  /** Writing back the value a key already has changes nothing. */
  lemma {:induction false} PutSame(es: seq<Entry>, key: string)
    requires key in Keys(es)
    ensures Put(es, key, Lookup(es, key).value) == es
  {
    if es[0].key != key {
      assert Keys(es) == [es[0].key] + Keys(es[1..]);
      PutSame(es[1..], key);
    }
  }

  /** Assigning a key the list does not hold appends one entry. */
  lemma {:induction false} PutNew(es: seq<Entry>, key: string, value: Value)
    requires key !in Keys(es)
    ensures Put(es, key, value) == es + [Entry(key, value)]
  {
    if es != [] {
      assert Keys(es) == [es[0].key] + Keys(es[1..]);
      PutNew(es[1..], key, value);
      ConsAppend(es, [Entry(key, value)]);
    }
  }

  /** A lookup that succeeds found one of the entries. */
  lemma {:induction false} LookupFound(es: seq<Entry>, key: string) returns (i: nat)
    requires Lookup(es, key).Some?
    ensures i < |es| && es[i] == Entry(key, Lookup(es, key).value)
  {
    if es[0].key == key {
      i := 0;
    } else {
      var j := LookupFound(es[1..], key);
      i := j + 1;
    }
  }

  /** In a dict, the lookup of an entry's key finds that entry. */
  lemma {:induction false} LookupUnique(es: seq<Entry>, i: nat)
    requires UniqueKeys(es) && i < |es|
    ensures Lookup(es, es[i].key) == Some(es[i].value)
  {
    if i > 0 {
      assert es[0].key != es[i].key;
      LookupUnique(es[1..], i - 1);
    }
  }
}
