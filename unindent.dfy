/** The test helper `unindent(n, data)`: it removes an indent of `n` spaces
    from every line that has it, and drops an empty first line, so that an
    indented triple-quoted literal can be compared with generated text. */
module TestUtils {
  import opened Strings

  /** `' ' * n`. */
  function Spaces(n: nat): (s: string)
    ensures |s| == n
    ensures forall i :: 0 <= i < n ==> s[i] == ' '
  {
    if n == 0 then "" else Spaces(n - 1) + " "
  }

  /** `x.startswith(p)`. */
  predicate StartsWith(x: string, p: string)
  {
    |p| <= |x| && x[..|p|] == p
  }

  /** `x[n:] if x.startswith(' ' * n) else x`, for one line. */
  function StripIndent(n: nat, x: string): (y: string)
    ensures StartsWith(x, Spaces(n)) ==> Spaces(n) + y == x
    ensures !StartsWith(x, Spaces(n)) ==> y == x
  {
    if StartsWith(x, Spaces(n)) then
      assert x == x[..n] + x[n..];
      x[n..]
    else x
  }

  /** The list comprehension: every line stripped. */
  function StripAll(n: nat, lines: seq<string>): seq<string>
  {
    seq(|lines|, i requires 0 <= i < |lines| => StripIndent(n, lines[i]))
  }

  /** The processed lines the helper joins: the stripped lines, without the
      first one when it is empty. */
  function Kept(n: nat, data: string): seq<string>
  {
    var lines := StripAll(n, Split(data, '\n'));
    if lines[0] == "" then lines[1..] else lines
  }

  /** `unindent(n, data)`. */
  function Unindent(n: nat, data: string): (r: string)
  {
    Join(Kept(n, data), '\n')
  }

  /** A line loses exactly `n` leading characters when it starts with `n`
      spaces, and nothing otherwise; either way what is left is a suffix of
      the line. */
  lemma StripIndentSuffix(n: nat, x: string)
    ensures var y := StripIndent(n, x);
      && |y| <= |x| && y == x[|x| - |y|..]
      && (|y| < |x| <==> n > 0 && StartsWith(x, Spaces(n)))
      && (StartsWith(x, Spaces(n)) ==> |x| - |y| == n)
  {
  }

  /** The first processed line is dropped exactly when the first input
      line is empty or is the indent alone; no other line is dropped, and
      each kept line is the stripped input line it comes from. */
  lemma KeptLines(n: nat, data: string)
    ensures var lines := Split(data, '\n');
      var drop := lines[0] == "" || lines[0] == Spaces(n);
      && |Kept(n, data)| == |lines| - (if drop then 1 else 0)
      && forall i :: 0 <= i < |Kept(n, data)| ==>
           Kept(n, data)[i] == StripIndent(n, lines[if drop then i + 1 else i])
  {
    var lines := Split(data, '\n');
    var first := StripIndent(n, lines[0]);
    if lines[0] == Spaces(n) {
      assert StartsWith(lines[0], Spaces(n));
      assert first == "";
    } else if first == "" {
      assert Spaces(n) + first == Spaces(n);
      assert !StartsWith(lines[0], Spaces(n));
    }
  }

  /** Splitting the result at newlines gives back the processed lines:
      the helper changes lines and never splits or merges them. When the
      only line is dropped the result is the empty string. */
  lemma {:induction false} UnindentLines(n: nat, data: string)
    ensures Kept(n, data) == [] ==> Unindent(n, data) == ""
    ensures Kept(n, data) != [] ==> Split(Unindent(n, data), '\n') == Kept(n, data)
  {
    var lines := Split(data, '\n');
    var kept := Kept(n, data);
    if kept != [] {
      SplitPieces(data, '\n');
      forall i | 0 <= i < |kept| ensures '\n' !in kept[i] {
        var j := if StripAll(n, lines)[0] == "" then i + 1 else i;
        assert kept[i] == StripIndent(n, lines[j]);
        StripIndentSuffix(n, lines[j]);
        assert '\n' !in lines[j];
        var x, y := lines[j], kept[i];
        forall k | 0 <= k < |y| ensures y[k] != '\n' {
          assert y[k] == x[|x| - |y| + k];
        }
      }
      SplitJoin(kept, '\n');
    }
  }

  /** The output has as many lines as the input, one fewer when the first
      processed line is empty and is not the only one. */
  lemma LineCount(n: nat, data: string)
    ensures var lines := Split(data, '\n');
      var drop := lines[0] == "" || lines[0] == Spaces(n);
      |Split(Unindent(n, data), '\n')| == if drop && |lines| > 1 then |lines| - 1 else |lines|
  {
    KeptLines(n, data);
    UnindentLines(n, data);
  }

  /** With no indent every line is kept as it is, and only a leading
      newline (the empty first line) disappears. */
  lemma UnindentZero(data: string)
    ensures Unindent(0, data) == if |data| > 0 && data[0] == '\n' then data[1..] else data
  {
    var lines := Split(data, '\n');
    assert StripAll(0, lines) == lines by {
      forall i | 0 <= i < |lines| ensures StripIndent(0, lines[i]) == lines[i] {
        assert StartsWith(lines[i], Spaces(0));
      }
    }
    if |data| == 0 {
    } else if data[0] == '\n' {
      assert lines == [""] + Split(data[1..], '\n');
      assert lines[1..] == Split(data[1..], '\n');
      JoinSplit(data[1..], '\n');
    } else {
      assert lines[0] != "";
      JoinSplit(data, '\n');
    }
  }
}
