/** The recursive merge `Meta._update_dict_recursively(dst, src)`: a pure
    specification `Merge`, the step-by-step method `UpdateRecursively` that
    follows the source's loops and is proved equal to it, and the properties
    of the merge. */
module RecursiveMerge {
  import opened Wrappers
  import opened Json
  import opened Sequences

  /** The merge fails only when a dict destination meets a source that is not
      a dict, because it calls `src.items()`. */
  datatype MergeError = NotAMapping

  /** What `_update_dict_recursively(dst, src)` returns:
      dict over dict merges key by key, list over list of the same length
      merges position by position, and otherwise the source replaces the
      destination. */
  function Merge(dst: Value, src: Value): (r: Result<Value, MergeError>)
    decreases src
  {
    match dst
    case Obj(des) =>
      if src.Obj? then
        var es :- MergeEntries(des, src.entries);
        Ok(Obj(es))
      else Err(NotAMapping)
    case Arr(ds) =>
      if src.Arr? && |src.items| == |ds| then
        var items :- MergeItems(ds, src.items);
        Ok(Arr(items))
      else Ok(src)
    case _ => Ok(src)
  }

  /** The loop over `src.items()`: each source entry in turn is merged into
      the present value of its key, or inserted. */
  function MergeEntries(acc: seq<Entry>, ses: seq<Entry>): (r: Result<seq<Entry>, MergeError>)
    decreases ses
  {
    if ses == [] then Ok(acc)
    else
      var e := ses[0];
      var found := Lookup(acc, e.key);
      var v :- if found.Some? then Merge(found.value, e.value) else Ok(e.value);
      MergeEntries(Put(acc, e.key, v), ses[1..])
  }

  /** The loop over `range(len(dst))`, in index order. */
  function MergeItems(ds: seq<Value>, ss: seq<Value>): (r: Result<seq<Value>, MergeError>)
    requires |ds| == |ss|
    decreases ss
  {
    if ss == [] then Ok([])
    else
      var head :- Merge(ds[0], ss[0]);
      var tail :- MergeItems(ds[1..], ss[1..]);
      Ok([head] + tail)
  }

  /** The source keys a destination with keys `known` does not have, in
      source order: the keys the merge appends. */
  function NewKeys(known: seq<string>, ses: seq<Entry>): seq<string>
  {
    if ses == [] then []
    else (if ses[0].key in known then [] else [ses[0].key]) + NewKeys(known, ses[1..])
  }

  /** True when some source entry meets a present key whose merge fails. */
  predicate Conflict(des: seq<Entry>, ses: seq<Entry>)
  {
    exists i :: 0 <= i < |ses| && ses[i].key in Keys(des)
      && Merge(Lookup(des, ses[i].key).value, ses[i].value).Err?
  }

  /** `_update_dict_recursively` as the source runs it: a loop over the
      source entries or the positions, recursing into nested values. */
  method UpdateRecursively(dst: Value, src: Value) returns (r: Result<Value, MergeError>)
    ensures r == Merge(dst, src)
    decreases src
  {
    if dst.Obj? {
      if !src.Obj? {
        return Err(NotAMapping);
      }
      var es := dst.entries;
      for i := 0 to |src.entries|
        invariant MergeEntries(dst.entries, src.entries) == MergeEntries(es, src.entries[i..])
      {
        var e := src.entries[i];
        assert src.entries[i..][0] == e && src.entries[i..][1..] == src.entries[i + 1..];
        var v: Value;
        var found := Lookup(es, e.key);
        if found.Some? {
          var m := UpdateRecursively(found.value, e.value);
          if m.Err? {
            return Err(m.error);
          }
          v := m.value;
        } else {
          v := e.value;
        }
        es := Put(es, e.key, v);
      }
      return Ok(Obj(es));
    } else if dst.Arr? && src.Arr? && |src.items| == |dst.items| {
      var items := dst.items;
      assert Prefixed([], MergeItems(dst.items, src.items)) == MergeItems(dst.items, src.items) by {
        var whole := MergeItems(dst.items, src.items);
        if whole.Ok? {
          assert [] + whole.value == whole.value;
        }
      }
      assert dst.items[0..] == dst.items && src.items[0..] == src.items;
      for i := 0 to |items|
        invariant |items| == |dst.items|
        invariant items[i..] == dst.items[i..]
        invariant MergeItems(dst.items, src.items)
               == Prefixed(items[..i], MergeItems(dst.items[i..], src.items[i..]))
      {
        assert dst.items[i..][0] == items[i] && dst.items[i..][1..] == dst.items[i + 1..];
        assert src.items[i..][0] == src.items[i] && src.items[i..][1..] == src.items[i + 1..];
        var m := UpdateRecursively(items[i], src.items[i]);
        if m.Err? {
          return Err(m.error);
        }
        ghost var tail := MergeItems(dst.items[i + 1..], src.items[i + 1..]);
        assert MergeItems(dst.items[i..], src.items[i..]) == Prefixed([m.value], tail);
        assert Prefixed(items[..i], Prefixed([m.value], tail)) == Prefixed(items[..i] + [m.value], tail) by {
          if tail.Ok? {
            assert items[..i] + ([m.value] + tail.value) == items[..i] + [m.value] + tail.value;
          }
        }
        assert items[..i] + [m.value] == items[i := m.value][..i + 1];
        items := items[i := m.value];
      }
      assert items[..|items|] + [] == items;
      return Ok(Arr(items));
    } else {
      return Ok(src);
    }
  }

  /** A result with a prefix of already merged items put in front. */
  function Prefixed(done: seq<Value>, rest: Result<seq<Value>, MergeError>): Result<seq<Value>, MergeError>
  {
    match rest
    case Ok(t) => Ok(done + t)
    case Err(e) => Err(e)
  }

  /** Dict over dict, key by key: a destination key the source lacks keeps
      its value, a key only in the source gets the source's value, and a key
      in both gets the merge of the two values. */
  lemma {:induction false} MergeMapsAt(des: seq<Entry>, ses: seq<Entry>, k: string)
    requires UniqueKeys(ses)
    requires Merge(Obj(des), Obj(ses)).Ok?
    ensures Merge(Obj(des), Obj(ses)).value.Obj?
    ensures var res := Merge(Obj(des), Obj(ses)).value.entries;
      && (k !in Keys(ses) ==> Lookup(res, k) == Lookup(des, k))
      && (k in Keys(ses) && k !in Keys(des) ==> Lookup(res, k) == Lookup(ses, k))
      && (k in Keys(ses) && k in Keys(des) ==>
            Lookup(res, k).Some? && Merge(Lookup(des, k).value, Lookup(ses, k).value) == Ok(Lookup(res, k).value))
    decreases ses
  {
    if ses != [] {
      var e, rest := ses[0], ses[1..];
      assert Keys(ses) == [e.key] + Keys(rest);
      var found := Lookup(des, e.key);
      var v := (if found.Some? then Merge(found.value, e.value) else Ok(e.value)).value;
      var acc := Put(des, e.key, v);
      assert UniqueKeys(rest);
      assert Merge(Obj(des), Obj(ses)) == Merge(Obj(acc), Obj(rest));
      MergeMapsAt(acc, rest, k);
      if k == e.key {
        assert k !in Keys(rest) by {
          forall j | 0 <= j < |rest| ensures rest[j].key != k {
            assert rest[j] == ses[j + 1];
          }
        }
      } else {
        LookupPut(des, e.key, v, k);
        assert k in Keys(des) <==> Lookup(acc, k).Some?;
      }
    }
  }

  /** Dict over dict, the key order: the destination's keys stay where they
      were, and the source's new keys follow in source order. */
  lemma {:induction false} MergeMapsKeys(des: seq<Entry>, ses: seq<Entry>)
    requires UniqueKeys(ses)
    requires Merge(Obj(des), Obj(ses)).Ok?
    ensures Merge(Obj(des), Obj(ses)).value.Obj?
    ensures Keys(Merge(Obj(des), Obj(ses)).value.entries) == Keys(des) + NewKeys(Keys(des), ses)
    decreases ses
  {
    if ses != [] {
      var e, rest := ses[0], ses[1..];
      var found := Lookup(des, e.key);
      var v := (if found.Some? then Merge(found.value, e.value) else Ok(e.value)).value;
      var acc := Put(des, e.key, v);
      assert UniqueKeys(rest);
      assert Merge(Obj(des), Obj(ses)) == Merge(Obj(acc), Obj(rest));
      MergeMapsKeys(acc, rest);
      var res := Keys(Merge(Obj(acc), Obj(rest)).value.entries);
      assert res == Keys(acc) + NewKeys(Keys(acc), rest);
      if e.key in Keys(des) {
        assert Keys(acc) == Keys(des);
        assert NewKeys(Keys(des), ses) == NewKeys(Keys(des), rest);
      } else {
        assert Keys(acc) == Keys(des) + [e.key];
        assert e.key !in Keys(rest) by {
          forall j | 0 <= j < |rest| ensures rest[j].key != e.key {
            assert rest[j] == ses[j + 1];
          }
        }
        NewKeysIgnores(Keys(des), e.key, rest);
        assert NewKeys(Keys(des), ses) == [e.key] + NewKeys(Keys(des), rest);
        ConcatAssoc(Keys(des), [e.key], NewKeys(Keys(des), rest));
      }
    }
  }

  /** A known key that the remaining source does not hold changes nothing
      about which source keys are new. */
  lemma {:induction false} NewKeysIgnores(known: seq<string>, k: string, ses: seq<Entry>)
    requires k !in Keys(ses)
    ensures NewKeys(known + [k], ses) == NewKeys(known, ses)
  {
    if ses != [] {
      assert Keys(ses) == [ses[0].key] + Keys(ses[1..]);
      NewKeysIgnores(known, k, ses[1..]);
    }
  }

  /** Dict over dict fails exactly when a key present on both sides fails to
      merge (a dict in the destination against a non-dict in the source, at
      any depth). */
  lemma {:induction false} MergeMapsFails(des: seq<Entry>, ses: seq<Entry>)
    requires UniqueKeys(ses)
    ensures Merge(Obj(des), Obj(ses)).Err? <==> Conflict(des, ses)
    decreases ses
  {
    if ses != [] {
      var e, rest := ses[0], ses[1..];
      var found := Lookup(des, e.key);
      var first := if found.Some? then Merge(found.value, e.value) else Ok(e.value);
      if first.Err? {
        assert e == ses[0];
      } else {
        var acc := Put(des, e.key, first.value);
        assert UniqueKeys(rest);
        MergeMapsFails(acc, rest);
        assert Merge(Obj(des), Obj(ses)) == Merge(Obj(acc), Obj(rest));
        ConflictStep(des, ses, first.value);
      }
    }
  }

  /** Once the first source entry has merged, the remaining conflicts are
      those of the rest against the updated destination. */
  lemma ConflictStep(des: seq<Entry>, ses: seq<Entry>, v: Value)
    requires UniqueKeys(ses) && ses != []
    requires ses[0].key in Keys(des) ==> Merge(Lookup(des, ses[0].key).value, ses[0].value) == Ok(v)
    ensures Conflict(des, ses) <==> Conflict(Put(des, ses[0].key, v), ses[1..])
  {
    var e, rest := ses[0], ses[1..];
    var acc := Put(des, e.key, v);
    forall j | 0 <= j < |rest|
      ensures (rest[j].key in Keys(acc) && Merge(Lookup(acc, rest[j].key).value, rest[j].value).Err?)
          <==> (ses[j + 1].key in Keys(des) && Merge(Lookup(des, ses[j + 1].key).value, ses[j + 1].value).Err?)
    {
      assert rest[j] == ses[j + 1];
      assert rest[j].key != e.key;
      LookupPut(des, e.key, v, rest[j].key);
    }
    if Conflict(des, ses) {
      var i :| 0 <= i < |ses| && ses[i].key in Keys(des)
        && Merge(Lookup(des, ses[i].key).value, ses[i].value).Err?;
      assert i > 0;
      assert rest[i - 1] == ses[i];
    }
    if Conflict(acc, rest) {
      var j :| 0 <= j < |rest| && rest[j].key in Keys(acc)
        && Merge(Lookup(acc, rest[j].key).value, rest[j].value).Err?;
      assert ses[j + 1] == rest[j];
    }
  }

  /** List over list of the same length: the result has that length and each
      position holds the merge of the two items there; it fails exactly when
      one position fails. */
  lemma MergeListsAt(ds: seq<Value>, ss: seq<Value>)
    requires |ds| == |ss|
    ensures var r := Merge(Arr(ds), Arr(ss));
      && (r.Ok? ==>
            && r.value.Arr? && |r.value.items| == |ds|
            && forall i :: 0 <= i < |ds| ==> Merge(ds[i], ss[i]) == Ok(r.value.items[i]))
      && (r.Err? <==> exists i :: 0 <= i < |ds| && Merge(ds[i], ss[i]).Err?)
  {
    MergeItemsAt(ds, ss);
  }

  lemma {:induction false} MergeItemsAt(ds: seq<Value>, ss: seq<Value>)
    requires |ds| == |ss|
    ensures var r := MergeItems(ds, ss);
      && (r.Ok? ==>
            && |r.value| == |ds|
            && forall i :: 0 <= i < |ds| ==> Merge(ds[i], ss[i]) == Ok(r.value[i]))
      && (r.Err? <==> exists i :: 0 <= i < |ds| && Merge(ds[i], ss[i]).Err?)
    decreases ss
  {
    if ss != [] {
      var head := Merge(ds[0], ss[0]);
      if head.Ok? {
        MergeItemsAt(ds[1..], ss[1..]);
        var tail := MergeItems(ds[1..], ss[1..]);
        assert MergeItems(ds, ss) == Prefixed([head.value], tail);
        if tail.Ok? {
          var r := [head.value] + tail.value;
          forall i | 0 <= i < |ds| ensures Merge(ds[i], ss[i]) == Ok(r[i]) {
            if i > 0 {
              assert ds[1..][i - 1] == ds[i] && ss[1..][i - 1] == ss[i] && r[i] == tail.value[i - 1];
            }
          }
        } else {
          var j :| 0 <= j < |ds[1..]| && Merge(ds[1..][j], ss[1..][j]).Err?;
          assert ds[1..][j] == ds[j + 1] && ss[1..][j] == ss[j + 1];
        }
        if exists i :: 0 <= i < |ds| && Merge(ds[i], ss[i]).Err? {
          var i :| 0 <= i < |ds| && Merge(ds[i], ss[i]).Err?;
          assert ds[1..][i - 1] == ds[i] && ss[1..][i - 1] == ss[i];
        }
      }
    }
  }

  /** The outcome of each branch of the merge: a dict destination gives a
      dict or, against a non-dict source, a failure; a list over a list of its
      length gives a list of that length; anything else is replaced by the
      source. */
  lemma MergeOutcome(dst: Value, src: Value)
    ensures dst.Obj? && !src.Obj? ==> Merge(dst, src) == Err(NotAMapping)
    ensures dst.Obj? && Merge(dst, src).Ok? ==> Merge(dst, src).value.Obj?
    ensures dst.Arr? && src.Arr? && |src.items| == |dst.items| && Merge(dst, src).Ok? ==>
      Merge(dst, src).value.Arr? && |Merge(dst, src).value.items| == |dst.items|
    ensures !dst.Obj? && !(dst.Arr? && src.Arr? && |src.items| == |dst.items|) ==> Merge(dst, src) == Ok(src)
  {
    if dst.Arr? && src.Arr? && |src.items| == |dst.items| {
      MergeListsAt(dst.items, src.items);
    }
  }

  /** Merging well-formed trees gives a well-formed tree: every dict of the
      result still has unique keys. */
  lemma {:induction false} MergeWellFormed(dst: Value, src: Value)
    requires WellFormed(dst) && WellFormed(src)
    requires Merge(dst, src).Ok?
    ensures WellFormed(Merge(dst, src).value)
    decreases src, 1
  {
    match dst
    case Obj(des) =>
      MergeEntriesWellFormed(des, src.entries);
    case Arr(ds) =>
      if src.Arr? && |src.items| == |ds| {
        MergeListsAt(ds, src.items);
        var r := Merge(dst, src).value;
        forall i | 0 <= i < |r.items| ensures WellFormed(r.items[i]) {
          MergeWellFormed(ds[i], src.items[i]);
        }
      }
    case _ =>
  }

  lemma {:induction false} MergeEntriesWellFormed(acc: seq<Entry>, ses: seq<Entry>)
    requires UniqueKeys(acc) && WellFormedValues(acc) && WellFormedValues(ses)
    requires MergeEntries(acc, ses).Ok?
    ensures UniqueKeys(MergeEntries(acc, ses).value) && WellFormedValues(MergeEntries(acc, ses).value)
    decreases ses, 0
  {
    if ses != [] {
      var e := ses[0];
      assert WellFormed(e.value);
      var found := Lookup(acc, e.key);
      var v: Value;
      if found.Some? {
        var i := LookupFound(acc, e.key);
        assert WellFormed(acc[i].value);
        MergeWellFormed(found.value, e.value);
        v := Merge(found.value, e.value).value;
      } else {
        v := e.value;
      }
      PutUnique(acc, e.key, v);
      PutWellFormedValues(acc, e.key, v);
      assert WellFormedValues(ses[1..]) by {
        forall j | 0 <= j < |ses[1..]| ensures WellFormed(ses[1..][j].value) {
          assert ses[1..][j] == ses[j + 1];
        }
      }
      MergeEntriesWellFormed(Put(acc, e.key, v), ses[1..]);
    }
  }

  /** Merging a well-formed tree over itself changes nothing: loading the
      same document twice is the same as loading it once. */
  lemma {:induction false} MergeSelf(v: Value)
    requires WellFormed(v)
    ensures Merge(v, v) == Ok(v)
    decreases v
  {
    match v
    case Obj(es) =>
      forall i | 0 <= i < |es|
        ensures Lookup(es, es[i].key) == Some(es[i].value)
        ensures Merge(es[i].value, es[i].value) == Ok(es[i].value)
      {
        LookupUnique(es, i);
        MergeSelf(es[i].value);
      }
      MergeEntriesPresent(es, es);
    case Arr(items) =>
      forall i | 0 <= i < |items| ensures Merge(items[i], items[i]) == Ok(items[i]) {
        MergeSelf(items[i]);
      }
      MergeListsAt(items, items);
      assert Merge(v, v).value.items == items;
    case _ =>
  }

  /** Source entries that the accumulator already holds, each of which merges
      over itself unchanged, leave the accumulator as it is. */
  lemma {:induction false} MergeEntriesPresent(acc: seq<Entry>, ses: seq<Entry>)
    requires forall i :: 0 <= i < |ses| ==> Lookup(acc, ses[i].key) == Some(ses[i].value)
    requires forall i :: 0 <= i < |ses| ==> Merge(ses[i].value, ses[i].value) == Ok(ses[i].value)
    ensures MergeEntries(acc, ses) == Ok(acc)
    decreases ses
  {
    if ses != [] {
      var e := ses[0];
      PutSame(acc, e.key);
      assert Put(acc, e.key, e.value) == acc;
      forall i | 0 <= i < |ses[1..]|
        ensures Lookup(acc, ses[1..][i].key) == Some(ses[1..][i].value)
        ensures Merge(ses[1..][i].value, ses[1..][i].value) == Ok(ses[1..][i].value)
      {
        assert ses[1..][i] == ses[i + 1];
      }
      MergeEntriesPresent(acc, ses[1..]);
    }
  }

  /** Merging a dict into the empty dict `{}` gives that dict back, entry for
      entry and in the same order: the start of every load. */
  lemma MergeIntoEmpty(src: Value)
    requires src.Obj? && UniqueKeys(src.entries)
    ensures Merge(Obj([]), src) == Ok(src)
  {
    MergeEntriesFresh([], src.entries);
    assert [] + src.entries == src.entries;
  }

  /** Source entries with unique keys the accumulator lacks are appended. */
  lemma {:induction false} MergeEntriesFresh(acc: seq<Entry>, ses: seq<Entry>)
    requires UniqueKeys(ses)
    requires forall i :: 0 <= i < |ses| ==> ses[i].key !in Keys(acc)
    ensures MergeEntries(acc, ses) == Ok(acc + ses)
    decreases ses
  {
    if ses != [] {
      var e := ses[0];
      assert e.key !in Keys(acc);
      PutNew(acc, e.key, e.value);
      var acc' := acc + [e];
      assert MergeEntries(acc, ses) == MergeEntries(acc', ses[1..]);
      assert Keys(acc') == Keys(acc) + [e.key];
      forall i | 0 <= i < |ses[1..]| ensures ses[1..][i].key !in Keys(acc') {
        assert ses[1..][i] == ses[i + 1];
        assert ses[i + 1].key != e.key;
      }
      assert UniqueKeys(ses[1..]);
      MergeEntriesFresh(acc', ses[1..]);
      AppendHead(acc, ses);
    } else {
      assert acc + ses == acc;
    }
  }
}
