/** The JavaScript string operations the generator relies on, on `seq<char>`:
    `String.prototype.split` with a one-character separator,
    `Array.prototype.join`, the text after and before the last separator, and the
    newline-terminated concatenation built by the `result += ...\n` loops. */
module Strings {

  /** `s.split(sep)`: the maximal separator-free pieces of `s`, in order.
      There is always at least one piece ("" splits into [""]). */
  function Split(s: string, sep: char): (parts: seq<string>)
    ensures |parts| >= 1
    decreases |s|
  {
    if s == [] then [[]]
    else
      var rest := Split(s[1..], sep);
      if s[0] == sep then [[]] + rest
      else [[s[0]] + rest[0]] + rest[1..]
  }

  /** `parts.join(sep)`: the pieces with `sep` between neighbours; [] joins to "". */
  function Join(parts: seq<string>, sep: string): string
  {
    if |parts| == 0 then ""
    else if |parts| == 1 then parts[0]
    else parts[0] + sep + Join(parts[1..], sep)
  }

  /** Splitting at `sep` and joining with `sep` gives back the string. */
  lemma {:induction false} JoinSplit(s: string, sep: char)
    ensures Join(Split(s, sep), [sep]) == s
    decreases |s|
  {
    if s != [] {
      var rest := Split(s[1..], sep);
      JoinSplit(s[1..], sep);
      if s[0] != sep && |rest| > 1 {
        assert Split(s, sep)[1..] == rest[1..];
      }
    }
  }

  /** A string without the separator is a single piece. */
  lemma {:induction false} SplitWithout(s: string, sep: char)
    requires sep !in s
    ensures Split(s, sep) == [s]
    decreases |s|
  {
    if s != [] {
      SplitWithout(s[1..], sep);
      assert [s[0]] + s[1..] == s;
    }
  }

  /** Each separator occurrence cuts the string: the pieces of `x + sep + y`
      are the pieces of `x` followed by the pieces of `y`. */
  lemma {:induction false} SplitConcat(x: string, y: string, sep: char)
    ensures Split(x + [sep] + y, sep) == Split(x, sep) + Split(y, sep)
    decreases |x|
  {
    var s := x + [sep] + y;
    if x == [] {
      assert s[1..] == y;
    } else {
      assert s[1..] == x[1..] + [sep] + y;
      SplitConcat(x[1..], y, sep);
    }
  }

  /** The text after the last `sep`, or all of `s` when it has none: the
      piece `split(sep).pop()` returns. */
  function LastSegment(s: string, sep: char): string
    decreases |s|
  {
    if s == [] || s[|s| - 1] == sep then []
    else LastSegment(s[..|s| - 1], sep) + [s[|s| - 1]]
  }

  /** The text before the last `sep` (empty when there is none). */
  function Qualifier(s: string, sep: char): string
    decreases |s|
  {
    if s == [] then []
    else if s[|s| - 1] == sep then s[..|s| - 1]
    else Qualifier(s[..|s| - 1], sep)
  }

  /** The last segment is a separator-free suffix: all of `s` when `s` has no
      separator; otherwise shorter than `s` and empty exactly for a trailing
      separator. */
  lemma {:induction false} LastSegmentFacts(s: string, sep: char)
    ensures sep !in LastSegment(s, sep)
    ensures |LastSegment(s, sep)| <= |s| && s == s[..|s| - |LastSegment(s, sep)|] + LastSegment(s, sep)
    ensures sep !in s ==> LastSegment(s, sep) == s
    ensures sep in s ==> |LastSegment(s, sep)| < |s| && (LastSegment(s, sep) == [] <==> s[|s| - 1] == sep)
    decreases |s|
  {
    if s != [] && s[|s| - 1] != sep {
      var init, c := s[..|s| - 1], s[|s| - 1];
      LastSegmentFacts(init, sep);
      var l := LastSegment(init, sep);
      assert LastSegment(s, sep) == l + [c];
      assert sep !in l + [c];
      assert s[..|s| - |l + [c]|] == init[..|init| - |l|];
      assert s == init + [c];
      assert sep in s ==> sep in init;
    }
  }

  /** The qualifier, the separator and the last segment make up the string. */
  lemma {:induction false} QualifierFacts(s: string, sep: char)
    requires sep in s
    ensures s == Qualifier(s, sep) + [sep] + LastSegment(s, sep)
    decreases |s|
  {
    var init, c := s[..|s| - 1], s[|s| - 1];
    assert s == init + [c];
    if c != sep {
      assert sep in init;
      QualifierFacts(init, sep);
      assert Qualifier(s, sep) == Qualifier(init, sep);
      assert LastSegment(s, sep) == LastSegment(init, sep) + [c];
    }
  }

  /** `split(sep).pop()` is the last segment, and the remaining pieces joined
      with `sep` are the qualifier. */
  lemma {:induction false} SplitAtLast(s: string, sep: char)
    ensures Split(s, sep)[|Split(s, sep)| - 1] == LastSegment(s, sep)
    ensures sep in s ==> Join(Split(s, sep)[..|Split(s, sep)| - 1], [sep]) == Qualifier(s, sep)
  {
    LastSegmentFacts(s, sep);
    if sep in s {
      SplitQualified(s, sep);
    } else {
      SplitWithout(s, sep);
    }
  }

  lemma {:induction false} SplitQualified(s: string, sep: char)
    requires sep in s
    ensures Split(s, sep) == Split(Qualifier(s, sep), sep) + [LastSegment(s, sep)]
    ensures Join(Split(Qualifier(s, sep), sep), [sep]) == Qualifier(s, sep)
  {
    var q, l := Qualifier(s, sep), LastSegment(s, sep);
    LastSegmentFacts(s, sep);
    QualifierFacts(s, sep);
    SplitConcat(q, l, sep);
    SplitWithout(l, sep);
    JoinSplit(q, sep);
  }

  /** For a separator-free `s`, the last separator of `q + sep + s` is the one
      put between them: `s` is the last segment and `q` the qualifier. */
  lemma {:induction false} QualifiedSegments(q: string, s: string, sep: char)
    requires sep !in s
    ensures LastSegment(q + [sep] + s, sep) == s
    ensures Qualifier(q + [sep] + s, sep) == q
    decreases |s|
  {
    var t := q + [sep] + s;
    if s == [] {
      assert t[..|t| - 1] == q;
    } else {
      assert t[..|t| - 1] == q + [sep] + s[..|s| - 1];
      QualifiedSegments(q, s[..|s| - 1], sep);
      assert s == s[..|s| - 1] + [s[|s| - 1]];
    }
  }

  /** Every line followed by a newline, in order: what a loop of
      `result += `${line}\n`` builds from an empty string. */
  function Lines(ls: seq<string>): string
  {
    if ls == [] then "" else Lines(ls[..|ls| - 1]) + ls[|ls| - 1] + "\n"
  }

  /** A `;\n` terminator is the `;` of a line followed by its newline. */
  lemma {:induction false} Terminated(head: string)
    ensures head + ";\n" == head + ";" + "\n"
  {
    assert ";\n" == ";" + "\n";
  }

  lemma {:induction false} LinesSnoc(ls: seq<string>, l: string)
    ensures Lines(ls + [l]) == Lines(ls) + (l + "\n")
  {
    assert (ls + [l])[..|ls|] == ls;
  }

  lemma {:induction false} LinesAppend(a: seq<string>, b: seq<string>)
    ensures Lines(a + b) == Lines(a) + Lines(b)
    decreases |b|
  {
    if b != [] {
      assert (a + b)[..|a + b| - 1] == a + b[..|b| - 1];
      LinesAppend(a, b[..|b| - 1]);
    } else {
      assert a + b == a;
    }
  }

  /** Splitting the text at newlines recovers the lines, followed by the
      empty piece after the final newline. */
  lemma {:induction false} SplitLines(ls: seq<string>)
    requires forall k :: 0 <= k < |ls| ==> '\n' !in ls[k]
    ensures Split(Lines(ls), '\n') == ls + [""]
    decreases |ls|
  {
    if ls != [] {
      var first, rest := ls[0], ls[1..];
      assert [first] + rest == ls;
      LinesAppend([first], rest);
      assert Lines([first]) == first + "\n" by {
        assert [first][..0] == [];
      }
      assert Lines(ls) == first + ['\n'] + Lines(rest);
      assert forall k :: 0 <= k < |rest| ==> '\n' !in rest[k] by {
        forall k | 0 <= k < |rest| ensures '\n' !in rest[k] {
          assert rest[k] == ls[k + 1];
        }
      }
      SplitLines(rest);
      SplitConcat(first, Lines(rest), '\n');
      SplitWithout(first, '\n');
      calc {
        Split(Lines(ls), '\n');
        Split(first, '\n') + Split(Lines(rest), '\n');
        [first] + (rest + [""]);
        ls + [""];
      }
    }
  }
}
