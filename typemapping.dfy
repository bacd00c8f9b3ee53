/** What `javaTypeToTs` computes and which import statements it registers,
    stated through the last dot of the type name, and the insertion-ordered
    import set (`context.imports`) as a duplicate-free sequence. */
module TypeMapping {
  import opened Results
  import opened Strings

  /** Target-language names for which no import is needed. */
  const Primitives: seq<string> := ["boolean", "string", "void"]

  /** The message of the Error thrown for a type name ending in a dot. */
  const InvalidType: string := "Invalid type"

  /** The fixed table for dot-free names: boolean, String and void are
      translated, every other name is kept. */
  function MapPrimitive(name: string): (r: string)
    ensures r in Primitives <==> name in ["boolean", "String", "string", "void"]
    ensures r != name ==> name == "String" && r == "string"
  {
    if name == "boolean" then "boolean"
    else if name == "String" then "string"
    else if name == "void" then "void"
    else name
  }

  /** The target-language name of a Java type: the table applied to the
      text after the last dot. */
  function TsName(t: string): string
  {
    MapPrimitive(LastSegment(t, '.'))
  }

  /** A qualified name whose last segment is empty, which the mapper rejects. */
  predicate EndsWithDot(t: string)
  {
    |t| > 0 && t[|t| - 1] == '.'
  }

  /** The outcome of mapping `t`: the error for a trailing dot, the
      target-language name otherwise. */
  function MappedName(t: string): Result<string>
  {
    if EndsWithDot(t) then Err(InvalidType) else Ok(TsName(t))
  }

  function ImportStatement(name: string, pkg: string): string
  {
    "import { " + name + " } from '" + pkg + "'"
  }

  /** The import a qualified, non-primitive type needs: its last segment
      imported from the text before the last dot. */
  function ImportFor(t: string): Option<string>
  {
    if '.' in t && TsName(t) !in Primitives
    then Some(ImportStatement(LastSegment(t, '.'), Qualifier(t, '.')))
    else None
  }

  predicate NoDuplicates(xs: seq<string>)
  {
    forall i, j :: 0 <= i < j < |xs| ==> xs[i] != xs[j]
  }

  /** `Set.prototype.add` on an insertion-ordered set: a new statement is
      appended, one already present leaves the set as it was. */
  function Register(imports: seq<string>, stmt: string): seq<string>
  {
    if stmt in imports then imports else imports + [stmt]
  }

  /** Adding keeps the earlier statements in place, adds nothing twice and
      leaves a set that already holds the statement unchanged. */
  lemma {:induction false} RegisterFacts(imports: seq<string>, stmt: string)
    ensures forall x :: x in Register(imports, stmt) <==> x in imports || x == stmt
    ensures NoDuplicates(imports) ==> NoDuplicates(Register(imports, stmt))
    ensures |imports| <= |Register(imports, stmt)| && Register(imports, stmt)[..|imports|] == imports
    ensures stmt in imports ==> Register(imports, stmt) == imports
  {
  }

  /** The import set after a successful mapping of `t`. */
  function Note(imports: seq<string>, t: string): seq<string>
  {
    match ImportFor(t)
    case None => imports
    case Some(stmt) => Register(imports, stmt)
  }

  /** The import set after mapping every type of `ts`, in order. */
  function Registered(imports: seq<string>, ts: seq<string>): seq<string>
  {
    if ts == [] then imports
    else Note(Registered(imports, ts[..|ts| - 1]), ts[|ts| - 1])
  }

  /** No type of `ts` ends with a dot, so every mapping of them succeeds. */
  predicate AllValid(ts: seq<string>)
  {
    forall k :: 0 <= k < |ts| ==> !EndsWithDot(ts[k])
  }

  /** The types of `ts` before the first one that ends with a dot: those
      the generator maps before the thrown Error stops it. */
  function ValidPrefix(ts: seq<string>): seq<string>
  {
    if ts == [] then []
    else if EndsWithDot(ts[0]) then []
    else [ts[0]] + ValidPrefix(ts[1..])
  }

  /** The valid prefix is a prefix of valid types, all of `ts` exactly when
      `ts` is valid, and otherwise stops just before a type ending in a dot. */
  lemma {:induction false} ValidPrefixFacts(ts: seq<string>)
    ensures AllValid(ValidPrefix(ts))
    ensures |ValidPrefix(ts)| <= |ts| && ValidPrefix(ts) == ts[..|ValidPrefix(ts)|]
    ensures ValidPrefix(ts) == ts <==> AllValid(ts)
    ensures |ValidPrefix(ts)| < |ts| ==> EndsWithDot(ts[|ValidPrefix(ts)|])
    decreases |ts|
  {
    if ts != [] && !EndsWithDot(ts[0]) {
      ValidPrefixFacts(ts[1..]);
      var r := ValidPrefix(ts);
      assert r == [ts[0]] + ValidPrefix(ts[1..]);
      if AllValid(ts) {
        assert AllValid(ts[1..]) by {
          forall k | 0 <= k < |ts| - 1 ensures !EndsWithDot(ts[1..][k]) {
            assert ts[1..][k] == ts[k + 1];
          }
        }
      }
    }
  }

  // ---------------------------------------------------------------------
  // The mapper's promises

  /** A dot-free name maps through the table and needs no import: boolean,
      String and void become boolean, string and void, anything else is
      returned unchanged. */
  lemma {:induction false} MapBareName(t: string)
    requires '.' !in t
    ensures MappedName(t) == Ok(if t == "String" then "string" else t)
    ensures ImportFor(t) == None
  {
    LastSegmentFacts(t, '.');
  }

  /** For `q.s` with a non-empty dot-free `s`, the result is that of `s`
      alone, whatever `q` is, and exactly `import { s } from 'q'` is needed
      unless `s` maps to a primitive. */
  lemma {:induction false} MapQualifiedName(q: string, s: string)
    requires '.' !in s && s != ""
    ensures MappedName(q + "." + s) == MappedName(s)
    ensures ImportFor(q + "." + s) ==
      if MapPrimitive(s) in Primitives then None else Some(ImportStatement(s, q))
  {
    var t := q + "." + s;
    QualifiedSegments(q, s, '.');
    LastSegmentFacts(s, '.');
    assert '.' in t by { assert t[|q|] == '.'; }
  }

  /** A qualified name maps like its last segment, which is dot-free and so
      needs no import of its own; the qualified name needs the import of its
      last segment from its qualifier, unless that maps to a primitive. */
  lemma {:induction false} MapLastSegment(t: string)
    requires '.' in t && !EndsWithDot(t)
    ensures '.' !in LastSegment(t, '.') && |LastSegment(t, '.')| < |t|
    ensures MappedName(t) == MappedName(LastSegment(t, '.')) == Ok(MapPrimitive(LastSegment(t, '.')))
    ensures ImportFor(LastSegment(t, '.')) == None
    ensures ImportFor(t) == if MapPrimitive(LastSegment(t, '.')) in Primitives then None
      else Some(ImportStatement(LastSegment(t, '.'), Qualifier(t, '.')))
  {
    LastSegmentFacts(t, '.');
    var last := LastSegment(t, '.');
    LastSegmentFacts(last, '.');
    assert !EndsWithDot(last);
  }

  /** `java.lang.String`, and any qualified boolean, String or void, maps
      to a primitive and imports nothing. */
  lemma {:induction false} QualifiedPrimitive(q: string, s: string)
    requires s == "boolean" || s == "String" || s == "void"
    ensures ImportFor(q + "." + s) == None
    ensures MappedName(q + "." + s) == Ok(if s == "String" then "string" else s)
  {
    assert '.' !in s;
    MapQualifiedName(q, s);
    MapBareName(s);
    assert MapPrimitive(s) in Primitives;
  }

  /** A name whose last dot-segment is empty fails, and only such a name. */
  lemma {:induction false} TrailingDotFails(t: string)
    ensures MappedName(t).Err? <==> '.' in t && LastSegment(t, '.') == ""
  {
    LastSegmentFacts(t, '.');
  }

  /** Worked case: `java.lang.String` is the primitive string and imports
      nothing. */
  lemma {:induction false} StringExample()
    ensures MappedName("java.lang.String") == Ok("string") && ImportFor("java.lang.String") == None
  {
    assert "java.lang.String" == "java.lang" + "." + "String";
    QualifiedPrimitive("java.lang", "String");
  }

  /** Worked case: `java.util.List` keeps its short name and imports it from
      its package. */
  lemma {:induction false} ListExample()
    ensures MappedName("java.util.List") == Ok("List")
    ensures ImportFor("java.util.List") == Some(ImportStatement("List", "java.util"))
  {
    assert "java.util.List" == "java.util" + "." + "List";
    MapQualifiedName("java.util", "List");
    MapBareName("List");
  }

  // ---------------------------------------------------------------------
  // The import set

  lemma {:induction false} RegisteredAppend(imports: seq<string>, xs: seq<string>, ys: seq<string>)
    ensures Registered(imports, xs + ys) == Registered(Registered(imports, xs), ys)
    decreases |ys|
  {
    if ys == [] {
      assert xs + ys == xs;
    } else {
      assert (xs + ys)[..|xs + ys| - 1] == xs + ys[..|ys| - 1];
      RegisteredAppend(imports, xs, ys[..|ys| - 1]);
    }
  }

  /** Registering keeps the set duplicate-free and in insertion order, and
      adds exactly the imports the mapped types need. */
  lemma {:induction false} RegisteredContents(imports: seq<string>, ts: seq<string>)
    ensures NoDuplicates(imports) ==> NoDuplicates(Registered(imports, ts))
    ensures |imports| <= |Registered(imports, ts)|
    ensures Registered(imports, ts)[..|imports|] == imports
    ensures forall x :: x in Registered(imports, ts) <==>
      x in imports || exists k :: 0 <= k < |ts| && ImportFor(ts[k]) == Some(x)
    decreases |ts|
  {
    if ts != [] {
      var init := ts[..|ts| - 1];
      RegisteredContents(imports, init);
      var before := Registered(imports, init);
      forall x
        ensures x in Registered(imports, ts) <==>
          x in imports || exists k :: 0 <= k < |ts| && ImportFor(ts[k]) == Some(x)
      {
        if x in Registered(imports, ts) && x !in imports && x !in before {
          assert ImportFor(ts[|ts| - 1]) == Some(x);
        }
        if exists k :: 0 <= k < |ts| && ImportFor(ts[k]) == Some(x) {
          var k :| 0 <= k < |ts| && ImportFor(ts[k]) == Some(x);
          if k < |ts| - 1 {
            assert ImportFor(init[k]) == Some(x);
          }
        }
      }
    }
  }

  /** Types whose imports are all present already change nothing. */
  lemma {:induction false} RegisteredPresent(imports: seq<string>, ts: seq<string>)
    requires forall k :: 0 <= k < |ts| && ImportFor(ts[k]).Some? ==> ImportFor(ts[k]).value in imports
    ensures Registered(imports, ts) == imports
    decreases |ts|
  {
    if ts != [] {
      RegisteredPresent(imports, ts[..|ts| - 1]);
    }
  }

  /** Mapping the same types a second time leaves the import set as the
      first pass left it. */
  lemma {:induction false} RegisteredTwice(imports: seq<string>, ts: seq<string>)
    ensures Registered(Registered(imports, ts), ts) == Registered(imports, ts)
  {
    RegisteredContents(imports, ts);
    RegisteredPresent(Registered(imports, ts), ts);
  }

  /** Types that need no import leave the set unchanged. */
  lemma {:induction false} NoImportsNeeded(imports: seq<string>, ts: seq<string>)
    requires forall k :: 0 <= k < |ts| ==> ImportFor(ts[k]) == None
    ensures Registered(imports, ts) == imports
  {
    RegisteredPresent(imports, ts);
  }

  // ---------------------------------------------------------------------
  // Stopping at the first invalid type

  /** The types mapped before a failure in `xs + ys`: all of `xs` and then
      those of `ys` when `xs` is valid, only those of `xs` otherwise. */
  lemma {:induction false} ValidPrefixAppend(xs: seq<string>, ys: seq<string>)
    ensures ValidPrefix(xs + ys) == if AllValid(xs) then xs + ValidPrefix(ys) else ValidPrefix(xs)
    ensures AllValid(xs + ys) <==> AllValid(xs) && AllValid(ys)
    decreases |xs|
  {
    if xs != [] {
      assert (xs + ys)[0] == xs[0];
      assert (xs + ys)[1..] == xs[1..] + ys;
      ValidPrefixAppend(xs[1..], ys);
    } else {
      assert xs + ys == ys;
    }
    if AllValid(xs + ys) {
      forall k | 0 <= k < |ys| ensures !EndsWithDot(ys[k]) {
        assert ys[k] == (xs + ys)[|xs| + k];
      }
    }
  }

  /** The mapper stops at index `i`, the first type ending in a dot. */
  lemma {:induction false} FailAt(ts: seq<string>, i: nat)
    requires i < |ts| && AllValid(ts[..i]) && EndsWithDot(ts[i])
    ensures ValidPrefix(ts) == ts[..i] && !AllValid(ts)
    decreases i
  {
    if i > 0 {
      assert !EndsWithDot(ts[..i][0]);
      assert ts[1..][..i - 1] == ts[..i][1..];
      FailAt(ts[1..], i - 1);
      assert ts[..i] == [ts[0]] + ts[1..][..i - 1];
    }
  }

  /** A block of types `mid` mapped without error after the valid types `done`. */
  lemma {:induction false} StepOk(imports: seq<string>, done: seq<string>, mid: seq<string>)
    requires AllValid(done) && AllValid(mid)
    ensures AllValid(done + mid)
    ensures Registered(Registered(imports, done), ValidPrefix(mid)) == Registered(imports, done + mid)
  {
    ValidPrefixAppend(done, mid);
    ValidPrefixFacts(mid);
    RegisteredAppend(imports, done, mid);
  }

  /** A block of types `mid` whose mapping failed after the valid types
      `done`; `rest` is never reached. */
  lemma {:induction false} StepFail(imports: seq<string>, done: seq<string>, mid: seq<string>, rest: seq<string>)
    requires AllValid(done) && !AllValid(mid)
    ensures !AllValid(done + mid + rest)
    ensures Registered(Registered(imports, done), ValidPrefix(mid))
         == Registered(imports, ValidPrefix(done + mid + rest))
  {
    assert done + mid + rest == done + (mid + rest);
    ValidPrefixAppend(done, mid + rest);
    ValidPrefixAppend(mid, rest);
    RegisteredAppend(imports, done, ValidPrefix(mid));
  }

  /** One emitter step: the types `mid` of one item are mapped after the
      valid types `done`. Either all of them map, and the registrations
      extend to `done + mid`, or one throws, and what was registered is the
      registration of the valid prefix of everything. */
  lemma {:induction false} EmitStep(imports: seq<string>, done: seq<string>, mid: seq<string>, rest: seq<string>)
    requires AllValid(done)
    ensures AllValid(mid) ==>
      AllValid(done + mid) &&
      Registered(Registered(imports, done), ValidPrefix(mid)) == Registered(imports, done + mid)
    ensures !AllValid(mid) ==>
      !AllValid(done + mid + rest) &&
      Registered(Registered(imports, done), ValidPrefix(mid)) == Registered(imports, ValidPrefix(done + mid + rest))
  {
    if AllValid(mid) {
      StepOk(imports, done, mid);
    } else {
      StepFail(imports, done, mid, rest);
    }
  }

  /** A single mapped type as a block. */
  lemma {:induction false} RegisteredOne(imports: seq<string>, t: string)
    ensures Registered(imports, [t]) == Note(imports, t)
    ensures ValidPrefix([t]) == if EndsWithDot(t) then [] else [t]
  {
    assert [t][..0] == [];
  }

  /** One more type of `ts` mapped without error. */
  lemma {:induction false} ValidStep(imports: seq<string>, ts: seq<string>, i: nat)
    requires i < |ts| && AllValid(ts[..i]) && !EndsWithDot(ts[i])
    ensures AllValid(ts[..i + 1])
    ensures Registered(imports, ts[..i + 1]) == Note(Registered(imports, ts[..i]), ts[i])
  {
    assert ts[..i + 1][..i] == ts[..i];
  }
}
