/** The inheritance-aware loader `Meta._load(args, meta_filenames)`. The
    metadata folder becomes a store from document name to parsed document;
    reading `<name>.json` and parsing it are outside the model, and a name the
    store lacks is a file that does not exist. */
module Loader {
  import opened Wrappers
  import opened Json
  import opened Strings
  import opened RecursiveMerge

  /** The metadata folder: document name to parsed JSON document. */
  type Store = map<string, Value>

  /** The key through which a document names the documents it inherits from. */
  const ParentKey: string := "__parent__"

  datatype LoadError =
    | NotFound(name: string)     // `open` of the document's file fails
    | BadParent(name: string)    // its `__parent__` is not a string, so it has no `split`
    | TooDeep(name: string)      // the parent chain is deeper than the bound (a cycle recurses forever)
    | MergeFailed(name: string)  // merging it raised, because `items()` met a non-dict

  /** The document's own `__parent__` value, when it is a dict that has one. */
  function ParentOf(doc: Value): Option<Value>
  {
    if doc.Obj? && ParentKey in Keys(doc.entries) then Lookup(doc.entries, ParentKey) else None
  }

  /** The merge, with its failure reported against the document being merged. */
  function MergeDocument(dst: Value, doc: Value, name: string): Result<Value, LoadError>
  {
    match Merge(dst, doc)
    case Ok(v) => Ok(v)
    case Err(_) => Err(MergeFailed(name))
  }

  /** What `_load(args, names)` returns: the comma-separated documents, each
      resolved against its parents, merged in turn over `{}`. `depth` bounds
      how many parent levels may be followed. */
  function Loaded(store: Store, names: string, depth: nat): (r: Result<Value, LoadError>)
    decreases depth, 2, 0
  {
    LoadAll(store, Split(names, ','), Obj([]), depth)
  }

  /** The loop over the document names, `acc` being the running `meta`. */
  function LoadAll(store: Store, names: seq<string>, acc: Value, depth: nat): (r: Result<Value, LoadError>)
    decreases depth, 1, |names|
  {
    if names == [] then Ok(acc)
    else
      var doc :- Resolved(store, names[0], depth);
      var next :- MergeDocument(acc, doc, names[0]);
      LoadAll(store, names[1..], next, depth)
  }

  /** One document, merged over its resolved `__parent__` when it has one. */
  function Resolved(store: Store, name: string, depth: nat): (r: Result<Value, LoadError>)
    decreases depth, 0, 0
  {
    if name !in store then Err(NotFound(name))
    else
      var doc := store[name];
      match ParentOf(doc)
      case None => Ok(doc)
      case Some(parent) =>
        if !parent.Str? then Err(BadParent(name))
        else if depth == 0 then Err(TooDeep(name))
        else
          var base :- Loaded(store, parent.s, depth - 1);
          MergeDocument(base, doc, name)
  }

  /** `_load` as the source runs it: a loop over `split(',')` that rebinds
      the accumulator, recursing for each `__parent__`. */
  method Load(store: Store, names: string, depth: nat) returns (r: Result<Value, LoadError>)
    ensures r == Loaded(store, names, depth)
    decreases depth
  {
    var meta := Obj([]);
    var filenames := Split(names, ',');
    for i := 0 to |filenames|
      invariant Loaded(store, names, depth) == LoadAll(store, filenames[i..], meta, depth)
    {
      var filename := filenames[i];
      assert filenames[i..][0] == filename && filenames[i..][1..] == filenames[i + 1..];
      if filename !in store {
        return Err(NotFound(filename));
      }
      var metaParent := store[filename];
      if metaParent.Obj? && ParentKey in Keys(metaParent.entries) {
        var parent := Lookup(metaParent.entries, ParentKey).value;
        if !parent.Str? {
          return Err(BadParent(filename));
        }
        if depth == 0 {
          return Err(TooDeep(filename));
        }
        var base := Load(store, parent.s, depth - 1);
        if base.Err? {
          return Err(base.error);
        }
        var merged := UpdateRecursively(base.value, metaParent);
        if merged.Err? {
          return Err(MergeFailed(filename));
        }
        metaParent := merged.value;
      }
      var next := UpdateRecursively(meta, metaParent);
      if next.Err? {
        return Err(MergeFailed(filename));
      }
      meta := next.value;
    }
    return Ok(meta);
  }

  /** Every document of the folder is a well-formed tree, as `json.loads`
      gives. */
  ghost predicate StoreWellFormed(store: Store)
  {
    forall n :: n in store ==> WellFormed(store[n])
  }

  /** The loop over a list of names splits at any point into the loop over
      its first part and then the loop over the rest. */
  lemma {:induction false} LoadAllConcat(store: Store, xs: seq<string>, ys: seq<string>, acc: Value, depth: nat)
    ensures LoadAll(store, xs + ys, acc, depth)
         == match LoadAll(store, xs, acc, depth)
            case Err(e) => Err(e)
            case Ok(a) => LoadAll(store, ys, a, depth)
  {
    if xs == [] {
      assert xs + ys == ys;
    } else {
      assert (xs + ys)[0] == xs[0] && (xs + ys)[1..] == xs[1..] + ys;
      var doc := Resolved(store, xs[0], depth);
      if doc.Ok? {
        var next := MergeDocument(acc, doc.value, xs[0]);
        if next.Ok? {
          LoadAllConcat(store, xs[1..], ys, next.value, depth);
        }
      }
    }
  }

  /** Appending one more name to the list merges that document, resolved
      against its parents, over what the list loaded before. */
  lemma LoadedAppend(store: Store, names: string, name: string, depth: nat)
    requires ',' !in name
    ensures Loaded(store, names + "," + name, depth)
         == match Loaded(store, names, depth)
            case Err(e) => Err(e)
            case Ok(acc) =>
              match Resolved(store, name, depth)
              case Err(e) => Err(e)
              case Ok(doc) => MergeDocument(acc, doc, name)
  {
    SplitAround(names, name, ',');
    SplitWithoutSep(name, ',');
    assert names + "," + name == names + [','] + name;
    LoadAllConcat(store, Split(names, ','), [name], Obj([]), depth);
  }

  /** With well-formed documents, a successful load is a well-formed dict:
      the accumulator starts as `{}` and merging over a dict keeps a dict. */
  lemma {:induction false} LoadedWellFormed(store: Store, names: string, depth: nat)
    requires StoreWellFormed(store)
    ensures Loaded(store, names, depth).Ok? ==>
      Loaded(store, names, depth).value.Obj? && WellFormed(Loaded(store, names, depth).value)
    decreases depth, 2, 0
  {
    LoadAllWellFormed(store, Split(names, ','), Obj([]), depth);
  }

  lemma {:induction false} LoadAllWellFormed(store: Store, names: seq<string>, acc: Value, depth: nat)
    requires StoreWellFormed(store) && acc.Obj? && WellFormed(acc)
    ensures LoadAll(store, names, acc, depth).Ok? ==>
      LoadAll(store, names, acc, depth).value.Obj? && WellFormed(LoadAll(store, names, acc, depth).value)
    decreases depth, 1, |names|
  {
    if names != [] {
      ResolvedWellFormed(store, names[0], depth);
      var doc := Resolved(store, names[0], depth);
      if doc.Ok? && Merge(acc, doc.value).Ok? {
        MergeOutcome(acc, doc.value);
        MergeWellFormed(acc, doc.value);
        LoadAllWellFormed(store, names[1..], Merge(acc, doc.value).value, depth);
      }
    }
  }

  lemma {:induction false} ResolvedWellFormed(store: Store, name: string, depth: nat)
    requires StoreWellFormed(store)
    ensures Resolved(store, name, depth).Ok? ==> WellFormed(Resolved(store, name, depth).value)
    decreases depth, 0, 0
  {
    if name in store {
      var doc := store[name];
      match ParentOf(doc)
      case None =>
      case Some(parent) =>
        if parent.Str? && depth > 0 {
          LoadedWellFormed(store, parent.s, depth - 1);
          var base := Loaded(store, parent.s, depth - 1);
          if base.Ok? && Merge(base.value, doc).Ok? {
            MergeWellFormed(base.value, doc);
          }
        }
    }
  }

  /** Loading a single name gives that document, resolved against its
      parents, exactly; a document that is not a dict fails to merge into
      `{}`. */
  lemma LoadedSingle(store: Store, name: string, depth: nat)
    requires StoreWellFormed(store)
    requires ',' !in name
    ensures Loaded(store, name, depth)
         == match Resolved(store, name, depth)
            case Err(e) => Err(e)
            case Ok(doc) => if doc.Obj? then Ok(doc) else Err(MergeFailed(name))
  {
    SplitWithoutSep(name, ',');
    ResolvedWellFormed(store, name, depth);
    var doc := Resolved(store, name, depth);
    if doc.Ok? {
      MergeOutcome(Obj([]), doc.value);
      if doc.value.Obj? {
        MergeIntoEmpty(doc.value);
        assert LoadAll(store, [name][1..], doc.value, depth) == Ok(doc.value);
      }
    }
  }

  /** Later documents win: after `names,name`, a key of the last document
      whose value is a scalar has that value, and a key the last document
      lacks keeps the value the earlier names gave it. */
  lemma LoadedLaterWins(store: Store, names: string, name: string, depth: nat, k: string)
    requires StoreWellFormed(store)
    requires ',' !in name
    requires Loaded(store, names + "," + name, depth).Ok?
    ensures Loaded(store, names, depth).Ok? && Resolved(store, name, depth).Ok?
    ensures var r := Loaded(store, names + "," + name, depth).value;
      var doc := Resolved(store, name, depth).value;
      var before := Loaded(store, names, depth).value;
      && r.Obj? && doc.Obj? && before.Obj?
      && (k in Keys(doc.entries) && IsScalar(Lookup(doc.entries, k).value) ==>
            Lookup(r.entries, k) == Lookup(doc.entries, k))
      && (k !in Keys(doc.entries) ==> Lookup(r.entries, k) == Lookup(before.entries, k))
  {
    LoadedAppend(store, names, name, depth);
    LoadedWellFormed(store, names, depth);
    ResolvedWellFormed(store, name, depth);
    var before := Loaded(store, names, depth).value;
    var doc := Resolved(store, name, depth).value;
    MergeOutcome(before, doc);
    ScalarWins(before.entries, doc.entries, k);
  }

  /** A document merged over its parents: the result keeps the document's
      own `__parent__` string, a scalar the document sets wins over the
      inherited one, and a key the document lacks is inherited unchanged. */
  lemma ResolvedInherits(store: Store, name: string, depth: nat, k: string)
    requires name in store && WellFormed(store[name])
    requires ParentOf(store[name]).Some?
    requires Resolved(store, name, depth).Ok?
    ensures ParentOf(store[name]).value.Str? && depth > 0
    ensures var doc := store[name];
      var parents := ParentOf(doc).value.s;
      var r := Resolved(store, name, depth).value;
      && Loaded(store, parents, depth - 1).Ok?
      && Loaded(store, parents, depth - 1).value.Obj?
      && r.Obj?
      && Lookup(r.entries, ParentKey) == Some(Str(parents))
      && (k in Keys(doc.entries) && IsScalar(Lookup(doc.entries, k).value) ==>
            Lookup(r.entries, k) == Lookup(doc.entries, k))
      && (k !in Keys(doc.entries) ==>
            Lookup(r.entries, k) == Lookup(Loaded(store, parents, depth - 1).value.entries, k))
  {
    var doc := store[name];
    var parents := ParentOf(doc).value.s;
    LoadAllIsMap(store, Split(parents, ','), Obj([]), depth - 1);
    var base := Loaded(store, parents, depth - 1).value;
    assert Merge(base, doc) == Ok(Resolved(store, name, depth).value);
    assert Lookup(doc.entries, ParentKey) == Some(Str(parents));
    MergeOverParent(base, doc, k);
  }

  /** The merge of a document that names its parents over the loaded
      parents. */
  lemma MergeOverParent(base: Value, doc: Value, k: string)
    requires base.Obj? && doc.Obj? && UniqueKeys(doc.entries)
    requires Lookup(doc.entries, ParentKey).Some? && Lookup(doc.entries, ParentKey).value.Str?
    requires Merge(base, doc).Ok?
    ensures var r := Merge(base, doc).value;
      && r.Obj?
      && Lookup(r.entries, ParentKey) == Lookup(doc.entries, ParentKey)
      && (k in Keys(doc.entries) && IsScalar(Lookup(doc.entries, k).value) ==>
            Lookup(r.entries, k) == Lookup(doc.entries, k))
      && (k !in Keys(doc.entries) ==> Lookup(r.entries, k) == Lookup(base.entries, k))
  {
    ScalarWins(base.entries, doc.entries, k);
    ScalarWins(base.entries, doc.entries, ParentKey);
  }

  /** The accumulator stays a dict: a load that succeeds gives a dict. */
  lemma {:induction false} LoadAllIsMap(store: Store, names: seq<string>, acc: Value, depth: nat)
    requires acc.Obj?
    ensures LoadAll(store, names, acc, depth).Ok? ==> LoadAll(store, names, acc, depth).value.Obj?
    decreases |names|
  {
    if names != [] {
      var doc := Resolved(store, names[0], depth);
      if doc.Ok? && Merge(acc, doc.value).Ok? {
        MergeOutcome(acc, doc.value);
        LoadAllIsMap(store, names[1..], Merge(acc, doc.value).value, depth);
      }
    }
  }

  /** Dict over dict: a scalar of the source wins, and a key the source
      lacks keeps the destination's value. */
  lemma ScalarWins(des: seq<Entry>, ses: seq<Entry>, k: string)
    requires UniqueKeys(ses)
    requires Merge(Obj(des), Obj(ses)).Ok?
    ensures var r := Merge(Obj(des), Obj(ses)).value;
      && r.Obj?
      && (k in Keys(ses) && IsScalar(Lookup(ses, k).value) ==> Lookup(r.entries, k) == Lookup(ses, k))
      && (k !in Keys(ses) ==> Lookup(r.entries, k) == Lookup(des, k))
  {
    MergeMapsAt(des, ses, k);
    if k in Keys(ses) && k in Keys(des) {
      MergeOutcome(Lookup(des, k).value, Lookup(ses, k).value);
    }
  }

  /** A name without a document makes the whole load fail; when it is the
      first name, the failure names it. */
  lemma LoadedMissing(store: Store, names: string, depth: nat, i: nat)
    requires i < |Split(names, ',')|
    requires Split(names, ',')[i] !in store
    ensures Loaded(store, names, depth).Err?
    ensures i == 0 ==> Loaded(store, names, depth) == Err(NotFound(Split(names, ',')[0]))
  {
    LoadAllMissing(store, Split(names, ','), Obj([]), depth, i);
  }

  lemma {:induction false} LoadAllMissing(store: Store, names: seq<string>, acc: Value, depth: nat, i: nat)
    requires i < |names| && names[i] !in store
    ensures LoadAll(store, names, acc, depth).Err?
    ensures i == 0 ==> LoadAll(store, names, acc, depth) == Err(NotFound(names[0]))
    decreases i
  {
    if i > 0 {
      var doc := Resolved(store, names[0], depth);
      if doc.Ok? {
        var next := MergeDocument(acc, doc.value, names[0]);
        if next.Ok? {
          assert names[1..][i - 1] == names[i];
          LoadAllMissing(store, names[1..], next.value, depth, i - 1);
        }
      }
    }
  }

  /** A ranking of the documents under which every parent a document names
      ranks strictly below it: the `__parent__` references have no cycle. */
  ghost predicate Acyclic(store: Store, rank: map<string, nat>)
  {
    forall n :: n in store ==>
      && n in rank
      && (ParentOf(store[n]).Some? && ParentOf(store[n]).value.Str? ==>
            forall j :: 0 <= j < |Split(ParentOf(store[n]).value.s, ',')| ==>
              var p := Split(ParentOf(store[n]).value.s, ',')[j];
              p in store ==> p in rank && rank[p] < rank[n])
  }

  /** Every name of the list that has a document ranks below `depth`. */
  ghost predicate WithinDepth(store: Store, rank: map<string, nat>, names: seq<string>, depth: nat)
  {
    forall j :: 0 <= j < |names| && names[j] in store ==> names[j] in rank && rank[names[j]] < depth
  }

  /** Without parent cycles the depth bound is never the reason a load fails,
      once it exceeds the rank of every requested document: the bound stands
      in for the unbounded recursion of the source. */
  lemma {:induction false} LoadedNotTooDeep(store: Store, rank: map<string, nat>, names: string, depth: nat)
    requires Acyclic(store, rank)
    requires WithinDepth(store, rank, Split(names, ','), depth)
    ensures !(Loaded(store, names, depth).Err? && Loaded(store, names, depth).error.TooDeep?)
    decreases depth, 2, 0
  {
    LoadAllNotTooDeep(store, rank, Split(names, ','), Obj([]), depth);
  }

  lemma {:induction false} LoadAllNotTooDeep(store: Store, rank: map<string, nat>, names: seq<string>, acc: Value, depth: nat)
    requires Acyclic(store, rank)
    requires WithinDepth(store, rank, names, depth)
    ensures !(LoadAll(store, names, acc, depth).Err? && LoadAll(store, names, acc, depth).error.TooDeep?)
    decreases depth, 1, |names|
  {
    if names != [] {
      assert names[0] in store ==> rank[names[0]] < depth;
      ResolvedNotTooDeep(store, rank, names[0], depth);
      var doc := Resolved(store, names[0], depth);
      if doc.Ok? {
        var next := MergeDocument(acc, doc.value, names[0]);
        if next.Ok? {
          assert WithinDepth(store, rank, names[1..], depth) by {
            forall j | 0 <= j < |names[1..]| && names[1..][j] in store
              ensures names[1..][j] in rank && rank[names[1..][j]] < depth
            {
              assert names[1..][j] == names[j + 1];
            }
          }
          LoadAllNotTooDeep(store, rank, names[1..], next.value, depth);
        }
      }
    }
  }

  lemma {:induction false} ResolvedNotTooDeep(store: Store, rank: map<string, nat>, name: string, depth: nat)
    requires Acyclic(store, rank)
    requires name in store ==> name in rank && rank[name] < depth
    ensures !(Resolved(store, name, depth).Err? && Resolved(store, name, depth).error.TooDeep?)
    decreases depth, 0, 0
  {
    if name in store {
      var doc := store[name];
      var parent := ParentOf(doc);
      if parent.Some? && parent.value.Str? {
        assert depth > 0;
        var parents := Split(parent.value.s, ',');
        assert WithinDepth(store, rank, parents, depth - 1) by {
          forall j | 0 <= j < |parents| && parents[j] in store
            ensures parents[j] in rank && rank[parents[j]] < depth - 1
          {
          }
        }
        LoadedNotTooDeep(store, rank, parent.value.s, depth - 1);
      }
    }
  }

  /** Without parent cycles, every depth bound above the ranks of the
      requested documents gives the same result: once it is large enough,
      the bound does not change what is loaded. */
  lemma {:induction false} LoadedIndep(store: Store, rank: map<string, nat>, names: string, d: nat, e: nat)
    requires Acyclic(store, rank)
    requires WithinDepth(store, rank, Split(names, ','), d) && d <= e
    ensures Loaded(store, names, d) == Loaded(store, names, e)
    decreases d, 2, 0
  {
    LoadAllIndep(store, rank, Split(names, ','), Obj([]), d, e);
  }

  lemma {:induction false} LoadAllIndep(store: Store, rank: map<string, nat>, names: seq<string>, acc: Value, d: nat, e: nat)
    requires Acyclic(store, rank)
    requires WithinDepth(store, rank, names, d) && d <= e
    ensures LoadAll(store, names, acc, d) == LoadAll(store, names, acc, e)
    decreases d, 1, |names|
  {
    if names != [] {
      assert names[0] in store ==> rank[names[0]] < d;
      ResolvedIndep(store, rank, names[0], d, e);
      var doc := Resolved(store, names[0], d);
      if doc.Ok? {
        var next := MergeDocument(acc, doc.value, names[0]);
        if next.Ok? {
          assert WithinDepth(store, rank, names[1..], d) by {
            forall j | 0 <= j < |names[1..]| && names[1..][j] in store
              ensures names[1..][j] in rank && rank[names[1..][j]] < d
            {
              assert names[1..][j] == names[j + 1];
            }
          }
          LoadAllIndep(store, rank, names[1..], next.value, d, e);
        }
      }
    }
  }

  lemma {:induction false} ResolvedIndep(store: Store, rank: map<string, nat>, name: string, d: nat, e: nat)
    requires Acyclic(store, rank)
    requires (name in store ==> name in rank && rank[name] < d) && d <= e
    ensures Resolved(store, name, d) == Resolved(store, name, e)
    decreases d, 0, 0
  {
    if name in store {
      var doc := store[name];
      var parent := ParentOf(doc);
      if parent.Some? && parent.value.Str? {
        assert d > 0;
        var parents := Split(parent.value.s, ',');
        assert WithinDepth(store, rank, parents, d - 1) by {
          forall j | 0 <= j < |parents| && parents[j] in store
            ensures parents[j] in rank && rank[parents[j]] < d - 1
          {
          }
        }
        LoadedIndep(store, rank, parent.value.s, d - 1, e - 1);
      }
    }
  }
}
