# mell metadata engine in Dafny

`mell` is a static site generator. It renders templates against metadata:
a tree of JSON values built from documents in a metadata folder. This
project models the part of `mell/main.py` that builds and reads that tree.
It also models the small string helper `unindent` from `tests/utils.py`.

The model covers these parts of class `Meta`:

- `Meta._update_dict_recursively`, the recursive merge. A dict merges key
  by key. Lists of equal length merge element by element. In every other
  case the source replaces the destination. When the destination is a dict
  and the source is not, the source program fails, because it calls
  `src.items()`; the model returns an error there.
- `Meta._load`, the loader. It reads the comma-separated document names in
  order and merges each document over what came before. Each document is
  first merged over its own `__parent__` documents, which are loaded
  recursively. The folder is a map from document name to parsed document.
  A name missing from the map is a file that does not exist.
- `Meta.__init__`. It loads the documents when the folder exists, and
  otherwise holds `{}`.
- `Meta.__getitem__`, `Meta.__contains__` and `Meta.len`. They walk a
  dotted address such as `a.b.0`. A list step uses `int(segment)`; any
  other step is a key lookup. `__getitem__` re-raises a missing key with
  the whole address. `__contains__` answers `False` only for a missing key
  and lets every other error escape.

Modules:

| file | module | contents |
|---|---|---|
| wrappers.dfy | `Wrappers` | `Option` and `Result` |
| sequences.dfy | `Sequences` | small sequence identities |
| strings.dfy | `Strings` | `str.split` and `str.join` with a one-character separator |
| json.dfy | `Json` | the `Value` tree; dict entries in insertion order; dict lookup and assignment |
| merge.dfy | `RecursiveMerge` | the merge as a function, the looping method, and their properties |
| loader.dfy | `Loader` | `_load` as a function and as a looping method, and its properties |
| meta.dfy | `Metadata` | class `Meta`: construction, the address walk and `get`/`in`/`len` |
| unindent.dfy | `TestUtils` | `unindent` and its line-by-line properties |

The loops of the source are methods with loop invariants:

- `RecursiveMerge.UpdateRecursively`
- `Loader.Load`
- `Metadata.Meta.Descend`

Each of them is proved equal to a specification function: `Merge`,
`Loaded` or `Walk`. The properties are lemmas about those functions.

Each source function has one defining Dafny function:

- `_update_dict_recursively` is `RecursiveMerge.Merge`. Its dict loop is `MergeEntries` and its list loop is `MergeItems`.
- `_load` is `Loader.Loaded`. Its loop over the names is `LoadAll`, and one document with its parents is `Resolved`.
- `__init__` is `Metadata.Initial`.
- One step of the address walk is `Metadata.Step`, using `ParseInt` for `int()`. The whole walk is `Walk`.
- `__getitem__` is `Indexed`, `__contains__` is `Present` and `len` is `Length`.
- `str.split` and `str.join` are `Strings.Split` and `Strings.Join`.
- `unindent` is `TestUtils.Unindent`.

The merge is modelled on values, not on shared mutable dicts. The source
inserts source subtrees into the destination by reference, so the two can
share nodes. In `_load` that sharing cannot be observed. Every document is
parsed fresh from its file, merged once, and never read again.

## Model

| member | source | states |
|---|---|---|
| Strings.JoinSplit | mell/main.py:255 | joining the pieces of `s.split(sep)` with `sep` gives `s` back |
| Strings.SplitPieces | mell/main.py:255 | no piece of a split contains the separator |
| Strings.SplitWithoutSep | mell/main.py:255 | a string without the separator splits into exactly itself |
| Strings.SplitJoin | tests/utils.py:118-119 | splitting a join of separator-free pieces gives the pieces back |
| Strings.SplitAround | mell/main.py:293 | splitting `a + sep + b` gives the pieces of `a` followed by the pieces of `b` |
| Json.Keys | mell/main.py:272-273 | the keys of a dict: same length as its entries, key `i` belongs to entry `i` |
| Json.Lookup | mell/main.py:273-274 | `dst[key]` finds nothing exactly when the key is absent |
| Json.Put | mell/main.py:274-276 | `dst[key] = v`: the key then maps to `v`; an existing key keeps its position, a new key goes at the end |
| Json.LookupPut | mell/main.py:274-276 | assigning to one key leaves the value of every other key unchanged |
| Json.PutUnique | mell/main.py:274-276 | assignment keeps the keys of a dict unique |
| Json.PutWellFormedValues | mell/main.py:274-276 | assigning a well-formed value keeps every value of the dict well-formed |
| Json.PutSame | mell/main.py:274 | assigning a key its current value changes nothing |
| Json.PutNew | mell/main.py:276 | assigning a new key appends an entry at the end |
| Json.LookupFound | mell/main.py:273-274 | a successful lookup returns the value of an entry at some index with that key |
| Json.LookupUnique | mell/main.py:273-274 | in a dict with unique keys, looking up an entry's key finds that entry |
| RecursiveMerge.UpdateRecursively | mell/main.py:269-286 | the source's loops over `src.items()` and `range(len(dst))` compute exactly the merge |
| RecursiveMerge.MergeMapsAt | mell/main.py:271-276 | dict over dict: a key only in the destination keeps its value, a key only in the source gets the source's value, and a key in both gets the merge of the two values |
| RecursiveMerge.MergeMapsKeys | mell/main.py:271-276 | dict over dict: the result's keys are the destination's keys in their order, followed by the new source keys in source order |
| RecursiveMerge.NewKeysIgnores | mell/main.py:275-276 | a known key that the source lacks does not change which source keys are new |
| RecursiveMerge.MergeMapsFails | mell/main.py:271-276 | dict over dict fails exactly when some key of both sides fails to merge |
| RecursiveMerge.ConflictStep | mell/main.py:272-276 | once the first source entry has merged, the remaining failures are those of the remaining entries against the updated dict |
| RecursiveMerge.MergeListsAt | mell/main.py:278-281 | list over list of equal length: same length, each element is the merge of the elements at that index, and it fails exactly when one element pair fails |
| RecursiveMerge.MergeItemsAt | mell/main.py:279-281 | the element loop: the result has the same length and element `i` is the merge of the two elements at `i`; it fails exactly when one of them fails |
| RecursiveMerge.MergeOutcome | mell/main.py:271-286 | dict over non-dict fails; dict over dict gives a dict; equal-length lists give a list of that length; every other case gives the source |
| RecursiveMerge.MergeWellFormed | mell/main.py:269-286 | merging well-formed trees gives a well-formed tree: every dict keeps unique keys |
| RecursiveMerge.MergeEntriesWellFormed | mell/main.py:272-276 | the loop over source entries keeps keys unique and values well-formed |
| RecursiveMerge.MergeSelf | mell/main.py:269-286 | the merge is idempotent: merging a tree over itself succeeds and gives that tree |
| RecursiveMerge.MergeEntriesPresent | mell/main.py:272-274 | source entries that already sit in the destination with values that merge to themselves leave the destination unchanged |
| RecursiveMerge.MergeIntoEmpty | mell/main.py:253 | merging a dict into `{}` gives that dict |
| RecursiveMerge.MergeEntriesFresh | mell/main.py:275-276 | source entries whose keys the destination lacks are appended in source order |
| Loader.Load | mell/main.py:251-267 | the loop over the names, with its recursion for `__parent__`, computes exactly `Loaded` |
| Loader.LoadAllConcat | mell/main.py:255-265 | the loop over a list of names is the loop over its first part followed by the loop over the rest |
| Loader.LoadedAppend | mell/main.py:255-265 | loading `names,name` merges the resolved document `name` over the result of loading `names` |
| Loader.LoadedWellFormed | mell/main.py:251-267 | with well-formed documents, a successful load gives a well-formed dict |
| Loader.LoadAllWellFormed | mell/main.py:255-265 | the loop keeps the accumulator a well-formed dict |
| Loader.ResolvedWellFormed | mell/main.py:258-263 | a document resolved against its parents is well-formed |
| Loader.LoadedSingle | mell/main.py:253-265 | loading one name gives that document resolved against its parents; a document that is not a dict fails |
| Loader.LoadedLaterWins | mell/main.py:255-265 | later documents win: a scalar set by the last document is the result's value, and a key the last document lacks keeps its earlier value |
| Loader.ResolvedInherits | mell/main.py:261-263 | a document with a parent: the result keeps the document's own `__parent__`, a scalar the document sets wins over the inherited one, and a key the document lacks is inherited unchanged |
| Loader.MergeOverParent | mell/main.py:263 | merging a document over its loaded parents keeps the document's `__parent__` and its scalars |
| Loader.LoadAllIsMap | mell/main.py:253-265 | starting from a dict, a successful loop gives a dict |
| Loader.ScalarWins | mell/main.py:271-276 | dict over dict: a scalar in the source wins, and a key the source lacks keeps the destination's value |
| Loader.LoadedMissing | mell/main.py:256-258 | a name without a document makes the whole load fail, and when it is the first name the error names it |
| Loader.LoadAllMissing | mell/main.py:255-258 | the same, for the loop over a list of names |
| Loader.LoadedNotTooDeep | mell/main.py:261-262 | without `__parent__` cycles, a depth bound above every requested document's rank never stops the load |
| Loader.LoadAllNotTooDeep | mell/main.py:255-262 | the same, for the loop over a list of names |
| Loader.ResolvedNotTooDeep | mell/main.py:261-263 | the same, for one document and its parents |
| Loader.LoadedIndep | mell/main.py:261-262 | without `__parent__` cycles, any two depth bounds above every requested document's rank give the same load result |
| Loader.LoadAllIndep | mell/main.py:255-262 | the same, for the loop over a list of names |
| Loader.ResolvedIndep | mell/main.py:261-263 | the same, for one document and its parents |
| Metadata.ShowNat | mell/main.py:295 | the decimal spelling of a number is one or more digits |
| Metadata.DigitsShowNat | mell/main.py:295 | reading back the digits of `str(n)` gives `n` |
| Metadata.ParseShow | mell/main.py:295 | `int(str(i)) == i` for every integer, negative ones included |
| Metadata.ListIndex | mell/main.py:294-295 | on a list, segment `str(i)` selects element `i` modulo the length when `-len <= i < len`, and otherwise raises `IndexError(i)` |
| Metadata.ElementMod | mell/main.py:295 | a Python list index is the element at the index modulo the length, inside the range |
| Metadata.Meta.Init | mell/main.py:242-249 | the object holds the loaded documents when the folder exists and `{}` when it does not; a load error escapes |
| Metadata.Meta.constructor | mell/main.py:242-249 | the object holds the given tree |
| Metadata.Meta.Descend | mell/main.py:293-297 | the loop over the dotted segments computes exactly the walk `Walk` |
| Metadata.Meta.Get | mell/main.py:304-318 | `meta[index]` is the walk's value; a missing key is re-raised with the whole address; other errors are unchanged |
| Metadata.Meta.Contains | mell/main.py:288-302 | `index in meta` is `True` when the walk completes, `False` when a key is missing, and otherwise the walk's error |
| Metadata.Meta.Len | mell/main.py:320-322 | `meta.len(index)` is the size of the dict, list or string found at the address; scalars raise `TypeError` |
| Metadata.PresentIndexed | mell/main.py:288-318 | `in` agrees with `[]`: true exactly when reading succeeds, false exactly when reading raises `KeyError(index)`, and otherwise the same error |
| Metadata.WalkAppend | mell/main.py:293-297 | walking `a + b` walks `a` and then `b` from where `a` ended; an error in `a` ends the walk |
| Metadata.Dotted | mell/main.py:304-318 | address `a.b` from the root is address `b` from `meta[a]`; if `a` is missing, `a.b` is absent |
| Metadata.SingleKey | mell/main.py:312-313 | an address without a dot on a dict is a plain key lookup, and is present exactly when the key is there |
| Metadata.EmptyHasNothing | mell/main.py:247-249 | in the `{}` held without a folder, every address is missing; `len` raises `KeyError` |
| Metadata.StepWellFormed | mell/main.py:294-297 | a step from a well-formed tree lands on a well-formed tree |
| Metadata.WalkMergeScalar | mell/main.py:269-286 | at every address where the merged-in tree has a scalar, the merged tree has the same scalar |
| Metadata.LaterWinsAt | mell/main.py:255-265 | after loading `names,name`, every address where the last document has a scalar reads that scalar |
| TestUtils.Spaces | tests/utils.py:117 | `' ' * n` is `n` spaces |
| TestUtils.StripIndent | tests/utils.py:118 | a line that starts with the `n`-space indent is the indent followed by the result; any other line is unchanged |
| TestUtils.StripIndentSuffix | tests/utils.py:118 | each output line is a suffix of its input line; it is shorter only when `n > 0` and the line starts with the indent, and then exactly `n` shorter |
| TestUtils.KeptLines | tests/utils.py:118-119 | the first line is dropped exactly when the input's first line is empty or is the indent alone; no other line is dropped; each kept line is its stripped input line |
| TestUtils.UnindentLines | tests/utils.py:119 | splitting the result at newlines gives the processed lines; when the only line is dropped the result is `""` |
| TestUtils.LineCount | tests/utils.py:118-119 | the result has as many lines as the input, one fewer when the first line is dropped and was not the only one |
| TestUtils.UnindentZero | tests/utils.py:117-119 | with `n = 0`, `unindent` removes only a leading newline |

## Left out

- Logging, `warn` and the `sys.exit` in `error`: they are output and process exit. The warning `__init__` prints when the folder is missing is not modelled.
- `parse_args`, `new_structure`, `new_style_structure`, `Inflater`, `do_clean`, `do_static`, `do_template`, `do_plugin` and `main` are not part of this model. They parse the command line, touch the file system, drive jinja2 or import plugins.
- `Meta.__repr__` is left out: it is `json.dumps`.
- Reading `<name>.json` and `json.loads` are left out. The folder is a map from name to parsed tree, and malformed JSON is not modelled. Whether the folder exists is a parameter of `Metadata.Meta.Init`.
- Numbers are plain integers. The merge only copies or replaces them; floats are not modelled.
- A JSON object with a repeated key is left out: `json.loads` keeps the last value, while the model's documents are trees whose dicts have unique keys (`WellFormed`).
- Update in place and aliasing: the merge works on values. In `_load` the difference cannot be observed, because each document is fresh and is used once.
- Unbounded `__parent__` recursion: `Loader.Loaded` takes a depth bound, and `TooDeep` stands for the recursion a cycle causes. Without cycles, once the bound exceeds the rank of every requested document, `Loader.LoadedNotTooDeep` shows the result is never `TooDeep` and `Loader.LoadedIndep` shows that any larger bound gives the same result. A bound below that rank can still give `TooDeep` where the source would succeed.
- The Python exception classes when a document is not a dict (`TypeError`, `AttributeError` or a failing merge) are all reported as `MergeFailed`. A non-string `__parent__` is `BadParent`.
- `Metadata.ParseInt` accepts an optional sign followed by ASCII digits. The surrounding whitespace, underscores and non-ASCII digits that Python's `int` also accepts are not modelled.
- `Metadata.Meta.Len`: the size of a dict is its number of entries. This matches `len` on dicts with unique keys, which is what `json.loads` produces. A string's length is its number of characters.
- `TestUtils.Unindent`: `n` is a natural number. A negative `n` is not modelled: Python would then slice from the end.
- Setting values with `--set`, bracket addresses such as `a[2]`, migration and logic scripts, and an attribute-style view of the metadata appear only in tests. No such code exists in `mell/main.py`, so they are left out. The same goes for the plugin signature used in `tests/test_plugin.py`.
- Behaviours of `mell/main.py` that the model keeps as they are:
  - a dict destination with a non-dict source fails (`src.items()` at line 272), instead of the source replacing it;
  - `__parent__` is split on commas only (line 255);
  - a negative list index counts from the end (line 295).
