/** The read side of the `Meta` object: building it from the metadata folder,
    and the dotted addresses `meta["a.b.0"]`, `"a.b" in meta` and
    `meta.len("a.b")`, which walk the merged tree one segment at a time. */
module Metadata {
  import opened Wrappers
  import opened Json
  import opened Strings
  import opened RecursiveMerge
  import opened Loader

  /** The Python exceptions an address can raise. */
  datatype Error =
    | KeyError(key: string)        // a dict lacks the segment; `__getitem__` re-raises it with the whole address
    | ValueError(segment: string)  // a list step whose segment `int()` rejects
    | IndexError(index: int)       // a list step out of range
    | TypeError                    // a step into a scalar, or `len` of a scalar

  // ---------------------------------------------------------------------
  // `int(segment)`

  predicate IsDigit(c: char)
  {
    '0' <= c <= '9'
  }

  /** One or more decimal digits. */
  predicate AllDigits(s: string)
  {
    |s| > 0 && forall i :: 0 <= i < |s| ==> IsDigit(s[i])
  }

  /** The number a string of decimal digits denotes, most significant first. */
  function DigitsValue(s: string): nat
    requires forall i :: 0 <= i < |s| ==> IsDigit(s[i])
  {
    if |s| == 0 then 0
    else
      assert IsDigit(s[|s| - 1]);
      DigitsValue(s[..|s| - 1]) * 10 + (s[|s| - 1] as int - '0' as int)
  }

  /** `int(segment)` on a list step: an optional sign followed by decimal
      digits; anything else raises `ValueError`. */
  function ParseInt(seg: string): (r: Option<int>)
  {
    if |seg| > 0 && (seg[0] == '-' || seg[0] == '+') then
      if AllDigits(seg[1..]) then
        var n: int := DigitsValue(seg[1..]);
        Some(if seg[0] == '-' then -n else n)
      else None
    else if AllDigits(seg) then Some(DigitsValue(seg))
    else None
  }

  /** The decimal spelling of a natural number, as `str(n)` writes it. */
  function ShowNat(n: nat): (s: string)
    ensures AllDigits(s)
  {
    (if n < 10 then "" else ShowNat(n / 10)) + [('0' as int + n % 10) as char]
  }

  /** The decimal spelling of an integer, as `str(i)` writes it. */
  function ShowInt(i: int): string
  {
    if i < 0 then "-" + ShowNat(-i) else ShowNat(i)
  }

  /** Reading back the digits of `str(n)` gives `n`. */
  lemma {:induction false} DigitsShowNat(n: nat)
    ensures DigitsValue(ShowNat(n)) == n
  {
    var s := ShowNat(n);
    var p := if n < 10 then "" else ShowNat(n / 10);
    assert s[..|s| - 1] == p;
    if n >= 10 {
      DigitsShowNat(n / 10);
    }
  }

  /** `int(str(i)) == i`: every list index can be written as a segment. */
  lemma ParseShow(i: int)
    ensures ParseInt(ShowInt(i)) == Some(i)
  {
    if i < 0 {
      DigitsShowNat(-i);
      assert ("-" + ShowNat(-i))[1..] == ShowNat(-i);
    } else {
      DigitsShowNat(i);
      assert IsDigit(ShowNat(i)[0]);
    }
  }

  // ---------------------------------------------------------------------
  // Walking an address

  /** One step of the address: `current[int(seg)]` when the current value
      is a list (a negative index counts from the end), `current[seg]`
      otherwise. */
  function Step(v: Value, seg: string): (r: Result<Value, Error>)
  {
    match v
    case Arr(items) =>
      (match ParseInt(seg)
       case None => Err(ValueError(seg))
       case Some(i) => Element(items, i))
    case Obj(es) =>
      if seg in Keys(es) then Ok(Lookup(es, seg).value) else Err(KeyError(seg))
    case _ => Err(TypeError)
  }

  /** `items[i]`, a negative `i` counting from the end. */
  function Element(items: seq<Value>, i: int): Result<Value, Error>
  {
    if -|items| <= i < |items| then Ok(items[if i < 0 then i + |items| else i])
    else Err(IndexError(i))
  }

  /** All the steps in turn; the first error ends the walk. */
  function Walk(v: Value, segs: seq<string>): (r: Result<Value, Error>)
    decreases |segs|
  {
    if segs == [] then Ok(v)
    else
      var next :- Step(v, segs[0]);
      Walk(next, segs[1..])
  }

  /** `meta[index]`: the address split at '.', walked from the root; a
      missing key is reported against the whole address. */
  function Indexed(meta: Value, index: string): (r: Result<Value, Error>)
  {
    match Walk(meta, Split(index, '.'))
    case Err(KeyError(_)) => Err(KeyError(index))
    case walked => walked
  }

  /** `index in meta`: true when the walk succeeds, false when a key is
      missing; any other error escapes. */
  function Present(meta: Value, index: string): (r: Result<bool, Error>)
  {
    match Walk(meta, Split(index, '.'))
    case Ok(_) => Ok(true)
    case Err(KeyError(_)) => Ok(false)
    case Err(e) => Err(e)
  }

  /** Python's `len` of a value, when it has one. */
  function Size(v: Value): Option<nat>
  {
    match v
    case Obj(es) => Some(|es|)
    case Arr(items) => Some(|items|)
    case Str(s) => Some(|s|)
    case _ => None
  }

  /** `meta.len(index)`: `len(meta[index])`. */
  function Length(meta: Value, index: string): (r: Result<nat, Error>)
  {
    var v :- Indexed(meta, index);
    match Size(v)
    case Some(n) => Ok(n)
    case None => Err(TypeError)
  }

  /** What `Meta(args)` holds: the loaded documents when the folder exists,
      `{}` (after a warning) when it does not. */
  function Initial(store: Store, folderExists: bool, metadata: string, depth: nat): Result<Value, LoadError>
  {
    if folderExists then Loaded(store, metadata, depth) else Ok(Obj([]))
  }

  // ---------------------------------------------------------------------
  // The object

  class Meta {
    var meta: Value

    constructor (meta: Value)
      ensures this.meta == meta
    {
      this.meta := meta;
    }

    /** `Meta(args)`: load the comma-separated `metadata` documents when the
        folder exists; a loading error escapes the constructor. */
    static method Init(store: Store, folderExists: bool, metadata: string, depth: nat)
      returns (r: Result<Meta, LoadError>)
      ensures r.Ok? <==> Initial(store, folderExists, metadata, depth).Ok?
      ensures r.Ok? ==> fresh(r.value) && r.value.meta == Initial(store, folderExists, metadata, depth).value
      ensures r.Err? ==> r.error == Initial(store, folderExists, metadata, depth).error
    {
      var contents: Value;
      if folderExists {
        var loaded := Load(store, metadata, depth);
        if loaded.Err? {
          return Err(loaded.error);
        }
        contents := loaded.value;
      } else {
        contents := Obj([]);
      }
      var m := new Meta(contents);
      return Ok(m);
    }

    /** The loop `__getitem__` and `__contains__` both run: one step per
        '.'-separated segment. */
    method Descend(index: string) returns (r: Result<Value, Error>)
      ensures r == Walk(meta, Split(index, '.'))
    {
      var current := meta;
      var segs := Split(index, '.');
      for i := 0 to |segs|
        invariant Walk(meta, segs) == Walk(current, segs[i..])
      {
        var idx := segs[i];
        assert segs[i..][0] == idx && segs[i..][1..] == segs[i + 1..];
        if current.Arr? {
          var parsed := ParseInt(idx);
          if parsed.None? {
            return Err(ValueError(idx));
          }
          var k := parsed.value;
          if k < -|current.items| || k >= |current.items| {
            return Err(IndexError(k));
          }
          if k < 0 {
            k := k + |current.items|;
          }
          current := current.items[k];
        } else if current.Obj? {
          if idx !in Keys(current.entries) {
            return Err(KeyError(idx));
          }
          current := Lookup(current.entries, idx).value;
        } else {
          return Err(TypeError);
        }
      }
      assert segs[|segs|..] == [];
      return Ok(current);
    }

    /** `meta[index]`. */
    method Get(index: string) returns (r: Result<Value, Error>)
      ensures r == Indexed(meta, index)
    {
      r := Descend(index);
      if r.Err? && r.error.KeyError? {
        r := Err(KeyError(index));
      }
    }

    /** `index in meta`. */
    method Contains(index: string) returns (r: Result<bool, Error>)
      ensures r == Present(meta, index)
    {
      var walked := Descend(index);
      if walked.Ok? {
        return Ok(true);
      } else if walked.error.KeyError? {
        return Ok(false);
      }
      return Err(walked.error);
    }

    /** `meta.len(index)`. */
    method Len(index: string) returns (r: Result<nat, Error>)
      ensures r == Length(meta, index)
    {
      var v := Get(index);
      if v.Err? {
        return Err(v.error);
      }
      match v.value
      case Obj(es) => r := Ok(|es|);
      case Arr(items) => r := Ok(|items|);
      case Str(s) => r := Ok(|s|);
      case _ => r := Err(TypeError);
    }
  }

  // ---------------------------------------------------------------------
  // Properties

  /** `in` agrees with `[]`: an address is present exactly when reading it
      succeeds, absent exactly when reading it raises `KeyError`, and
      otherwise both raise the same error. */
  lemma PresentIndexed(meta: Value, index: string)
    ensures Present(meta, index) == Ok(true) <==> Indexed(meta, index).Ok?
    ensures Present(meta, index) == Ok(false) <==> Indexed(meta, index) == Err(KeyError(index))
    ensures Present(meta, index).Err? ==>
      Indexed(meta, index).Err? && Present(meta, index).error == Indexed(meta, index).error
  {
  }

  /** Walking a path in two parts is walking the first part and then the
      second from where it ended. */
  lemma {:induction false} WalkAppend(v: Value, a: seq<string>, b: seq<string>)
    ensures Walk(v, a + b) == match Walk(v, a)
                              case Err(e) => Err(e)
                              case Ok(w) => Walk(w, b)
    decreases |a|
  {
    if a == [] {
      assert a + b == b;
    } else {
      var ab := a + b;
      assert ab[0] == a[0] && ab[1..] == a[1..] + b;
      if Step(v, a[0]).Ok? {
        WalkAppend(Step(v, a[0]).value, a[1..], b);
      }
    }
  }

  /** The address `a.b` read from the root is the address `b` read from
      `meta[a]`; and when `a` is missing, so is `a.b`. */
  lemma Dotted(meta: Value, a: string, b: string)
    ensures Indexed(meta, a).Ok? ==>
      && Present(meta, a + "." + b) == Present(Indexed(meta, a).value, b)
      && (Indexed(Indexed(meta, a).value, b).Ok? ==>
            Indexed(meta, a + "." + b) == Indexed(Indexed(meta, a).value, b))
    ensures Indexed(meta, a) == Err(KeyError(a)) ==> Present(meta, a + "." + b) == Ok(false)
  {
    assert a + "." + b == a + ['.'] + b;
    SplitAround(a, b, '.');
    WalkAppend(meta, Split(a, '.'), Split(b, '.'));
  }

  /** A segment without '.' on a dict is a plain key lookup. */
  lemma SingleKey(es: seq<Entry>, key: string)
    requires '.' !in key
    ensures Indexed(Obj(es), key) == if key in Keys(es) then Ok(Lookup(es, key).value) else Err(KeyError(key))
    ensures Present(Obj(es), key) == Ok(key in Keys(es))
  {
    SplitWithoutSep(key, '.');
    var ks: seq<string> := [key];
    assert ks[1..] == [];
    assert Walk(Obj(es), ks) == match Step(Obj(es), key)
                                case Err(e) => Err(e)
                                case Ok(w) => Ok(w);
  }

  /** On a list, the segment `str(i)` selects the element `i` counts to from
      the front (`i >= 0`) or from the back (`i < 0`), and any other `i`
      raises `IndexError`. */
  lemma ListIndex(items: seq<Value>, i: int)
    ensures Step(Arr(items), ShowInt(i))
         == if -|items| <= i < |items| then Ok(items[i % |items|]) else Err(IndexError(i))
  {
    ParseShow(i);
    ElementMod(items, i);
  }

  /** `items[i]` in Python is the element at `i` modulo the length. */
  lemma ElementMod(items: seq<Value>, i: int)
    ensures Element(items, i) == if -|items| <= i < |items| then Ok(items[i % |items|]) else Err(IndexError(i))
  {
    var n := |items|;
    if -n <= i < 0 {
      ModWrap(i, n);
    } else if 0 <= i < n {
      assert i % n == i;
    }
  }

  /** Python's negative list index is Euclidean remainder. */
  lemma ModWrap(i: int, n: int)
    requires -n <= i < 0
    ensures i % n == i + n
  {
  }

  /** Without a metadata folder the object is `{}`: every address is
      missing. */
  lemma EmptyHasNothing(index: string)
    ensures Indexed(Obj([]), index) == Err(KeyError(index))
    ensures Present(Obj([]), index) == Ok(false)
    ensures Length(Obj([]), index) == Err(KeyError(index))
  {
    var segs := Split(index, '.');
    assert Step(Obj([]), segs[0]) == Err(KeyError(segs[0]));
  }

  /** A step from a well-formed value lands on a well-formed value. */
  lemma StepWellFormed(v: Value, seg: string)
    requires WellFormed(v) && Step(v, seg).Ok?
    ensures WellFormed(Step(v, seg).value)
  {
    if v.Obj? {
      var i := LookupFound(v.entries, seg);
      assert v.entries[i].value == Step(v, seg).value;
    }
  }

  /** The source of a merge wins at every scalar leaf: a scalar that the
      merged-in tree has at some path is what the merged tree has there. */
  lemma {:induction false} WalkMergeScalar(dst: Value, src: Value, segs: seq<string>)
    requires WellFormed(src) && Merge(dst, src).Ok?
    requires Walk(src, segs).Ok? && IsScalar(Walk(src, segs).value)
    ensures Walk(Merge(dst, src).value, segs) == Walk(src, segs)
    decreases segs
  {
    var m := Merge(dst, src).value;
    MergeOutcome(dst, src);
    if segs != [] {
      var seg, rest := segs[0], segs[1..];
      var c := Step(src, seg).value;
      StepWellFormed(src, seg);
      if dst.Obj? {
        MergeMapsAt(dst.entries, src.entries, seg);
        if seg in Keys(dst.entries) {
          var lm := Lookup(m.entries, seg).value;
          assert Step(m, seg) == Ok(lm);
          WalkMergeScalar(Lookup(dst.entries, seg).value, c, rest);
        } else {
          assert Step(m, seg) == Step(src, seg);
        }
      } else if dst.Arr? && src.Arr? && |src.items| == |dst.items| {
        MergeListsAt(dst.items, src.items);
        var i := ParseInt(seg).value;
        var k := if i < 0 then i + |src.items| else i;
        assert Step(m, seg) == Ok(m.items[k]);
        WalkMergeScalar(dst.items[k], src.items[k], rest);
      }
    }
  }

  /** Later documents win at every address: when the last of the loaded
      names sets a scalar at an address, the object reads that scalar
      there, whatever the earlier documents held. */
  lemma LaterWinsAt(store: Store, names: string, name: string, depth: nat, index: string)
    requires StoreWellFormed(store) && ',' !in name
    requires Loaded(store, names + "," + name, depth).Ok?
    ensures Resolved(store, name, depth).Ok?
    ensures var doc := Resolved(store, name, depth).value;
      Indexed(doc, index).Ok? && IsScalar(Indexed(doc, index).value) ==>
        Indexed(Loaded(store, names + "," + name, depth).value, index) == Indexed(doc, index)
  {
    LoadedAppend(store, names, name, depth);
    ResolvedWellFormed(store, name, depth);
    var doc := Resolved(store, name, depth).value;
    var before := Loaded(store, names, depth).value;
    if Indexed(doc, index).Ok? && IsScalar(Indexed(doc, index).value) {
      WalkMergeScalar(before, doc, Split(index, '.'));
    }
  }
}
