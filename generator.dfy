/** The generator as it runs: the process-wide import set is an object whose
    element list the mapper and the emitters update in place; each emitter
    builds its text with a loop that appends to a local string. */
module Generator {
  import opened Results
  import opened Strings
  import opened TypeMapping
  import opened Descriptors
  import opened Declarations

  /** `context.imports`: a JavaScript `Set<string>`, which keeps its
      elements in insertion order. */
  class ImportSet {
    var elements: seq<string>

    ghost predicate Valid()
      reads this
    {
      NoDuplicates(elements)
    }

    constructor ()
      ensures Valid() && elements == []
    {
      elements := [];
    }

    /** `add`: a statement already present is not added again. */
    method Add(stmt: string)
      requires Valid()
      modifies this
      ensures Valid()
      ensures elements == Register(old(elements), stmt)
    {
      if stmt !in elements {
        elements := elements + [stmt];
      }
    }

    /** `clear`. */
    method Clear()
      modifies this
      ensures Valid() && elements == []
    {
      elements := [];
    }
  }

  /** `javaTypeToTs`: a qualified name is split at its dots; the last piece
      is mapped (recursively), its import is registered unless it maps to a
      primitive, and the last piece is mapped again for the result. An empty
      last piece throws. */
  method JavaTypeToTs(imports: ImportSet, t: string) returns (r: Result<string>)
    requires imports.Valid()
    modifies imports
    ensures imports.Valid()
    ensures r == MappedName(t)
    ensures imports.elements == if r.Ok? then Note(old(imports.elements), t) else old(imports.elements)
    decreases |t|
  {
    if '.' in t {
      var splits := Split(t, '.');
      var last := splits[|splits| - 1];
      var javaPackage := Join(splits[..|splits| - 1], ".");
      SplitAtLast(t, '.');
      LastSegmentFacts(t, '.');
      if last == "" {
        return Err(InvalidType);
      }
      MapLastSegment(t);
      var newType := JavaTypeToTs(imports, last);
      if newType.value !in Primitives {
        imports.Add(ImportStatement(last, javaPackage));
      }
      r := JavaTypeToTs(imports, last);
    } else {
      MapBareName(t);
      r := Ok(MapPrimitive(t));
    }
  }

  /** `generateParameters`: `name: type` for each parameter, in order, joined
      with ", ". */
  method GenerateParameters(imports: ImportSet, params: seq<Param>) returns (r: Result<string>)
    requires imports.Valid()
    modifies imports
    ensures imports.Valid()
    ensures r == if AllValid(ParamTypes(params)) then Ok(ParamList(params)) else Err(InvalidType)
    ensures imports.elements == Registered(old(imports.elements), ValidPrefix(ParamTypes(params)))
  {
    ghost var ts := ParamTypes(params);
    var items: seq<string> := [];
    var i := 0;
    while i < |params|
      invariant 0 <= i <= |params|
      invariant imports.Valid()
      invariant AllValid(ts[..i])
      invariant items == ParamItems(params[..i])
      invariant imports.elements == Registered(old(imports.elements), ts[..i])
    {
      var mapped := JavaTypeToTs(imports, params[i].javaType);
      assert ts[i] == params[i].javaType;
      if mapped.Err? {
        FailAt(ts, i);
        return mapped;
      }
      ValidStep(old(imports.elements), ts, i);
      ParamItemsStep(params, i);
      items := items + [params[i].name + ": " + mapped.value];
      i := i + 1;
    }
    assert ts[..i] == ts;
    assert params[..i] == params;
    ValidPrefixFacts(ts);
    r := Ok(Join(items, ", "));
  }

  /** `generateConstructors`: one `  constructor(<params>);` line each. */
  method GenerateConstructors(imports: ImportSet, constructors: seq<Constructor>) returns (r: Result<string>)
    requires imports.Valid()
    modifies imports
    ensures imports.Valid()
    ensures r == if AllValid(ConstructorRefs(constructors)) then Ok(Lines(ConstructorLines(constructors))) else Err(InvalidType)
    ensures imports.elements == Registered(old(imports.elements), ValidPrefix(ConstructorRefs(constructors)))
  {
    var result := "";
    var i := 0;
    while i < |constructors|
      invariant 0 <= i <= |constructors|
      invariant imports.Valid()
      invariant AllValid(ConstructorRefs(constructors[..i]))
      invariant result == Lines(ConstructorLines(constructors[..i]))
      invariant imports.elements == Registered(old(imports.elements), ConstructorRefs(constructors[..i]))
    {
      ConstructorStep(old(imports.elements), constructors, i);
      var params := GenerateParameters(imports, constructors[i].params);
      if params.Err? {
        return params;
      }
      result := result + ("  constructor(" + params.value + ");\n");
      i := i + 1;
    }
    ConstructorsDone(constructors);
    r := Ok(result);
  }

  /** The loop step of `generateConstructors`: mapping the parameters of the
      `i`-th constructor either extends every invariant by that constructor,
      or throws, leaving the imports of the valid prefix. */
  lemma {:induction false} ConstructorStep(imports: seq<string>, cs: seq<Constructor>, i: nat)
    requires i < |cs| && AllValid(ConstructorRefs(cs[..i]))
    ensures AllValid(ParamTypes(cs[i].params)) ==>
      AllValid(ConstructorRefs(cs[..i + 1])) &&
      Registered(Registered(imports, ConstructorRefs(cs[..i])), ValidPrefix(ParamTypes(cs[i].params)))
        == Registered(imports, ConstructorRefs(cs[..i + 1])) &&
      Lines(ConstructorLines(cs[..i])) + ("  constructor(" + ParamList(cs[i].params) + ");\n")
        == Lines(ConstructorLines(cs[..i + 1]))
    ensures !AllValid(ParamTypes(cs[i].params)) ==>
      !AllValid(ConstructorRefs(cs)) &&
      Registered(Registered(imports, ConstructorRefs(cs[..i])), ValidPrefix(ParamTypes(cs[i].params)))
        == Registered(imports, ValidPrefix(ConstructorRefs(cs)))
  {
    ConstructorRefsAt(cs, i);
    EmitStep(imports, ConstructorRefs(cs[..i]), ParamTypes(cs[i].params), ConstructorRefs(cs[i + 1..]));
    ConstructorLinesStep(cs, i);
    LinesSnoc(ConstructorLines(cs[..i]), ConstructorLine(cs[i]));
    Terminated("  constructor(" + ParamList(cs[i].params) + ")");
  }

  lemma {:induction false} ConstructorsDone(cs: seq<Constructor>)
    ensures AllValid(ConstructorRefs(cs)) ==> ValidPrefix(ConstructorRefs(cs)) == ConstructorRefs(cs)
    ensures cs[..|cs|] == cs
  {
    ValidPrefixFacts(ConstructorRefs(cs));
  }

  /** The callback of `methods.forEach` in `generateClass`: the return type
      is mapped before the parameters, and the method's line is produced. */
  method MethodEntry(imports: ImportSet, m: Method) returns (r: Result<string>)
    requires imports.Valid()
    modifies imports
    ensures imports.Valid()
    ensures r == if AllValid(MethodTypes(m)) then Ok(MethodLine(m) + "\n") else Err(InvalidType)
    ensures imports.elements == Registered(old(imports.elements), ValidPrefix(MethodTypes(m)))
  {
    var isStatic := if m.isStatic then "static " else "";
    MethodTypesStep(old(imports.elements), m);
    var returnType := JavaTypeToTs(imports, m.returnType);
    if returnType.Err? {
      return returnType;
    }
    var params := GenerateParameters(imports, m.params);
    if params.Err? {
      return params;
    }
    MethodTemplate(m, isStatic, params.value, returnType.value);
    r := Ok("  " + isStatic + m.name + "(" + params.value + "): " + returnType.value + ";\n");
  }

  /** The types of a method, return type first, seen one call at a time. */
  lemma {:induction false} MethodTypesStep(imports: seq<string>, m: Method)
    ensures EndsWithDot(m.returnType) ==>
      !AllValid(MethodTypes(m)) && Registered(imports, ValidPrefix(MethodTypes(m))) == imports
    ensures !EndsWithDot(m.returnType) ==>
      (AllValid(MethodTypes(m)) <==> AllValid(ParamTypes(m.params))) &&
      Registered(imports, ValidPrefix(MethodTypes(m)))
        == Registered(Note(imports, m.returnType), ValidPrefix(ParamTypes(m.params)))
  {
    var ret, ps := m.returnType, ParamTypes(m.params);
    assert MethodTypes(m) == [ret] + ps;
    assert ([ret] + ps)[0] == ret && ([ret] + ps)[1..] == ps;
    if !EndsWithDot(ret) {
      assert ValidPrefix([ret] + ps) == [ret] + ValidPrefix(ps);
      RegisteredOne(imports, ret);
      RegisteredAppend(imports, [ret], ValidPrefix(ps));
      ValidPrefixAppend([ret], ps);
    }
  }

  /** The `methods.forEach` loop of `generateClass`. */
  method GenerateMethods(imports: ImportSet, methods: seq<Method>) returns (r: Result<string>)
    requires imports.Valid()
    modifies imports
    ensures imports.Valid()
    ensures r == if AllValid(MethodRefs(methods)) then Ok(Lines(MethodLines(methods))) else Err(InvalidType)
    ensures imports.elements == Registered(old(imports.elements), ValidPrefix(MethodRefs(methods)))
  {
    var result := "";
    var i := 0;
    while i < |methods|
      invariant 0 <= i <= |methods|
      invariant imports.Valid()
      invariant AllValid(MethodRefs(methods[..i]))
      invariant result == Lines(MethodLines(methods[..i]))
      invariant imports.elements == Registered(old(imports.elements), MethodRefs(methods[..i]))
    {
      MethodStep(old(imports.elements), methods, i);
      var line := MethodEntry(imports, methods[i]);
      if line.Err? {
        return line;
      }
      result := result + line.value;
      i := i + 1;
    }
    MethodsDone(methods);
    r := Ok(result);
  }

  /** The loop step of the methods loop. */
  lemma {:induction false} MethodStep(imports: seq<string>, ms: seq<Method>, i: nat)
    requires i < |ms| && AllValid(MethodRefs(ms[..i]))
    ensures AllValid(MethodTypes(ms[i])) ==>
      AllValid(MethodRefs(ms[..i + 1])) &&
      Registered(Registered(imports, MethodRefs(ms[..i])), ValidPrefix(MethodTypes(ms[i])))
        == Registered(imports, MethodRefs(ms[..i + 1])) &&
      Lines(MethodLines(ms[..i])) + (MethodLine(ms[i]) + "\n") == Lines(MethodLines(ms[..i + 1]))
    ensures !AllValid(MethodTypes(ms[i])) ==>
      !AllValid(MethodRefs(ms)) &&
      Registered(Registered(imports, MethodRefs(ms[..i])), ValidPrefix(MethodTypes(ms[i])))
        == Registered(imports, ValidPrefix(MethodRefs(ms)))
  {
    MethodRefsAt(ms, i);
    EmitStep(imports, MethodRefs(ms[..i]), MethodTypes(ms[i]), MethodRefs(ms[i + 1..]));
    MethodLinesStep(ms, i);
    LinesSnoc(MethodLines(ms[..i]), MethodLine(ms[i]));
  }

  lemma {:induction false} MethodsDone(ms: seq<Method>)
    ensures AllValid(MethodRefs(ms)) ==> ValidPrefix(MethodRefs(ms)) == MethodRefs(ms)
    ensures ms[..|ms|] == ms
  {
    ValidPrefixFacts(MethodRefs(ms));
  }

  /** The callback of `fields.forEach` in `generateFields`. */
  method FieldEntry(imports: ImportSet, field: Field) returns (r: Result<string>)
    requires imports.Valid()
    modifies imports
    ensures imports.Valid()
    ensures r == if EndsWithDot(field.javaType) then Err(InvalidType) else Ok(FieldLine(field) + "\n")
    ensures imports.elements == if r.Ok? then Note(old(imports.elements), field.javaType) else old(imports.elements)
  {
    var fieldName := field.name;
    var isStatic := if field.isStatic then "static " else "";
    var fieldType := JavaTypeToTs(imports, field.javaType);
    if fieldType.Err? {
      return fieldType;
    }
    FieldTemplate(field, isStatic, fieldType.value);
    r := Ok("  " + isStatic + fieldName + ": " + fieldType.value + ";\n");
  }

  /** `generateFields`: one `  [static ]name: <type>;` line each. */
  method GenerateFields(imports: ImportSet, fields: seq<Field>) returns (r: Result<string>)
    requires imports.Valid()
    modifies imports
    ensures imports.Valid()
    ensures r == if AllValid(FieldRefs(fields)) then Ok(Lines(FieldLines(fields))) else Err(InvalidType)
    ensures imports.elements == Registered(old(imports.elements), ValidPrefix(FieldRefs(fields)))
  {
    var result := "";
    var i := 0;
    while i < |fields|
      invariant 0 <= i <= |fields|
      invariant imports.Valid()
      invariant AllValid(FieldRefs(fields)[..i])
      invariant result == Lines(FieldLines(fields[..i]))
      invariant imports.elements == Registered(old(imports.elements), FieldRefs(fields)[..i])
    {
      FieldStep(old(imports.elements), fields, i);
      var line := FieldEntry(imports, fields[i]);
      if line.Err? {
        return line;
      }
      result := result + line.value;
      i := i + 1;
    }
    FieldsDone(fields);
    r := Ok(result);
  }

  /** The loop step of `generateFields`. */
  lemma {:induction false} FieldStep(imports: seq<string>, fs: seq<Field>, i: nat)
    requires i < |fs| && AllValid(FieldRefs(fs)[..i])
    ensures !EndsWithDot(fs[i].javaType) ==>
      AllValid(FieldRefs(fs)[..i + 1]) &&
      Note(Registered(imports, FieldRefs(fs)[..i]), fs[i].javaType) == Registered(imports, FieldRefs(fs)[..i + 1]) &&
      Lines(FieldLines(fs[..i])) + (FieldLine(fs[i]) + "\n") == Lines(FieldLines(fs[..i + 1]))
    ensures EndsWithDot(fs[i].javaType) ==>
      !AllValid(FieldRefs(fs)) &&
      Registered(imports, FieldRefs(fs)[..i]) == Registered(imports, ValidPrefix(FieldRefs(fs)))
  {
    var ts := FieldRefs(fs);
    assert ts[i] == fs[i].javaType;
    if EndsWithDot(ts[i]) {
      FailAt(ts, i);
    } else {
      ValidStep(imports, ts, i);
      FieldLinesStep(fs, i);
      LinesSnoc(FieldLines(fs[..i]), FieldLine(fs[i]));
    }
  }

  lemma {:induction false} FieldsDone(fs: seq<Field>)
    ensures AllValid(FieldRefs(fs)) ==> ValidPrefix(FieldRefs(fs)) == FieldRefs(fs)
    ensures FieldRefs(fs)[..|fs|] == FieldRefs(fs) && fs[..|fs|] == fs
  {
    ValidPrefixFacts(FieldRefs(fs));
  }

  /** `generateClass`: the super class is mapped first, then the header is
      started, then come the constructors, the methods, the fields and the
      closing brace. */
  method GenerateClass(imports: ImportSet, d: JavaClass) returns (r: Result<string>)
    requires imports.Valid()
    modifies imports
    ensures imports.Valid()
    ensures r == if AllValid(TypeRefs(d)) then Ok(Declaration(d)) else Err(InvalidType)
    ensures imports.elements == Registered(old(imports.elements), ValidPrefix(TypeRefs(d)))
  {
    ghost var e0 := imports.elements;
    ghost var s, c, m, f := SuperRefs(d), OptConstructorRefs(d), MethodRefs(d.methods), OptFieldRefs(d);
    TypeRefsStages(d);
    DeclarationText(d);

    ClassStage(e0, d, [], s, c + m + f);
    var header := ClassHeader(imports, d);
    if header.Err? {
      return header;
    }
    var result := header.value;

    ClassStage(e0, d, s, c, m + f);
    var constructors := OptionalConstructors(imports, d);
    if constructors.Err? {
      return constructors;
    }
    result := result + constructors.value;

    ClassStage(e0, d, s + c, m, f);
    var methods := GenerateMethods(imports, d.methods);
    if methods.Err? {
      return methods;
    }
    result := result + methods.value;

    ClassStage(e0, d, s + c + m, f, []);
    var fields := OptionalFields(imports, d);
    if fields.Err? {
      return fields;
    }
    result := result + fields.value;

    result := result + "}\n";
    ValidPrefixFacts(TypeRefs(d));
    r := Ok(result);
  }

  /** The class name and the super class clause of `generateClass`, and the
      header line they make: the class name is the last dot-separated piece
      of the descriptor's name, and a super class is mapped only when it is
      present and non-empty. */
  method ClassHeader(imports: ImportSet, d: JavaClass) returns (r: Result<string>)
    requires imports.Valid()
    modifies imports
    ensures imports.Valid()
    ensures r == if AllValid(SuperRefs(d)) then Ok(Header(d) + "\n") else Err(InvalidType)
    ensures imports.elements == Registered(old(imports.elements), ValidPrefix(SuperRefs(d)))
  {
    var splits := Split(d.name, '.');
    SplitAtLast(d.name, '.');
    var className := splits[|splits| - 1];
    var superClass := "";
    SuperStage(old(imports.elements), d);
    if d.superClass.Some? && d.superClass.value != "" {
      var mapped := JavaTypeToTs(imports, d.superClass.value);
      if mapped.Err? {
        return mapped;
      }
      superClass := " extends " + mapped.value;
    }
    HeaderTemplate(d, className, superClass);
    r := Ok("export class " + className + superClass + " {\n");
  }

  /** The constructor block of `generateClass`: nothing when the descriptor
      has no constructor list. */
  method OptionalConstructors(imports: ImportSet, d: JavaClass) returns (r: Result<string>)
    requires imports.Valid()
    modifies imports
    ensures imports.Valid()
    ensures r == if AllValid(OptConstructorRefs(d)) then Ok(Lines(OptConstructorLines(d))) else Err(InvalidType)
    ensures imports.elements == Registered(old(imports.elements), ValidPrefix(OptConstructorRefs(d)))
  {
    if d.constructors.Some? {
      r := GenerateConstructors(imports, d.constructors.value);
    } else {
      r := Ok("");
    }
  }

  /** The field block of `generateClass`: nothing when the descriptor has no
      field list. */
  method OptionalFields(imports: ImportSet, d: JavaClass) returns (r: Result<string>)
    requires imports.Valid()
    modifies imports
    ensures imports.Valid()
    ensures r == if AllValid(OptFieldRefs(d)) then Ok(Lines(OptFieldLines(d))) else Err(InvalidType)
    ensures imports.elements == Registered(old(imports.elements), ValidPrefix(OptFieldRefs(d)))
  {
    if d.fields.Some? {
      r := GenerateFields(imports, d.fields.value);
    } else {
      r := Ok("");
    }
  }

  /** Mapping the super class, if there is one, is the first step. */
  lemma {:induction false} SuperStage(imports: seq<string>, d: JavaClass)
    ensures HasSuper(d) ==> (AllValid(SuperRefs(d)) <==> !EndsWithDot(d.superClass.value))
    ensures AllValid(SuperRefs(d)) ==>
      Registered(imports, SuperRefs(d)) == if HasSuper(d) then Note(imports, d.superClass.value) else imports
    ensures !AllValid(SuperRefs(d)) ==>
      HasSuper(d) && !AllValid(TypeRefs(d)) && Registered(imports, ValidPrefix(TypeRefs(d))) == imports
  {
    TypeRefsStages(d);
    if HasSuper(d) {
      var t := d.superClass.value;
      RegisteredOne(imports, t);
      EmitStep(imports, [], [t], OptConstructorRefs(d) + MethodRefs(d.methods) + OptFieldRefs(d));
    }
  }

  /** A later step of `generateClass`: the types `mid` are mapped after the
      valid types `done`, with `rest` still to come. */
  lemma {:induction false} ClassStage(imports: seq<string>, d: JavaClass, done: seq<string>, mid: seq<string>, rest: seq<string>)
    requires AllValid(done) && done + mid + rest == TypeRefs(d)
    ensures AllValid(mid) ==>
      AllValid(done + mid) &&
      Registered(Registered(imports, done), ValidPrefix(mid)) == Registered(imports, done + mid)
    ensures !AllValid(mid) ==>
      !AllValid(TypeRefs(d)) &&
      Registered(Registered(imports, done), ValidPrefix(mid)) == Registered(imports, ValidPrefix(TypeRefs(d)))
  {
    EmitStep(imports, done, mid, rest);
  }

  /** `generateImports`: each registered statement on its own line, in
      insertion order. */
  method GenerateImports(imports: ImportSet) returns (s: string)
    ensures s == Lines(imports.elements)
  {
    var result := "";
    var i := 0;
    while i < |imports.elements|
      invariant 0 <= i <= |imports.elements|
      invariant result == Lines(imports.elements[..i])
    {
      LinesSnoc(imports.elements[..i], imports.elements[i]);
      assert imports.elements[..i + 1] == imports.elements[..i] + [imports.elements[i]];
      result := result + (imports.elements[i] + "\n");
      i := i + 1;
    }
    assert imports.elements[..i] == imports.elements;
    s := result;
  }

  /** One iteration of the main loop, without the file system: the class
      text is generated, then the import lines, the file text is the imports,
      an empty line and the class, and the import set is cleared. A thrown
      error ends the process before the set is cleared. */
  method ProcessFile(imports: ImportSet, d: JavaClass) returns (r: Result<string>)
    requires imports.Valid()
    modifies imports
    ensures imports.Valid()
    ensures r == FileText(old(imports.elements), d)
    ensures imports.elements ==
      if r.Ok? then [] else Registered(old(imports.elements), ValidPrefix(TypeRefs(d)))
  {
    var result := GenerateClass(imports, d);
    if result.Err? {
      return result;
    }
    ValidPrefixFacts(TypeRefs(d));
    var importLines := GenerateImports(imports);
    r := Ok(importLines + "\n" + result.value);
    imports.Clear();
  }

  /** The main loop over the parsed descriptors, in order, with the import
      set empty at start. Every file that is written holds exactly the text
      of its own descriptor from an empty import set, so no import of one
      descriptor reaches another's file; the first descriptor that throws
      ends the run. */
  method Run(descriptors: seq<JavaClass>) returns (written: seq<string>, thrown: bool)
    ensures |written| <= |descriptors|
    ensures forall k :: 0 <= k < |written| ==> FileText([], descriptors[k]) == Ok(written[k])
    ensures thrown <==> |written| < |descriptors|
    ensures thrown ==> FileText([], descriptors[|written|]).Err?
  {
    ghost var expected := seq(|descriptors|, k requires 0 <= k < |descriptors| => FileText([], descriptors[k]));
    var imports := new ImportSet();
    written := [];
    thrown := false;
    var i := 0;
    while i < |descriptors|
      invariant 0 <= i <= |descriptors| && |written| == i
      invariant imports.Valid() && imports.elements == []
      invariant forall k :: 0 <= k < i ==> expected[k] == Ok(written[k])
    {
      var text := ProcessFile(imports, descriptors[i]);
      if text.Err? {
        thrown := true;
        return;
      }
      WrittenStep(expected, written, text.value);
      written := written + [text.value];
      i := i + 1;
    }
  }

  /** One more file written as expected. */
  lemma {:induction false} WrittenStep(expected: seq<Result<string>>, written: seq<string>, text: string)
    requires |written| < |expected| && expected[|written|] == Ok(text)
    requires forall k :: 0 <= k < |written| ==> expected[k] == Ok(written[k])
    ensures forall k :: 0 <= k < |written| + 1 ==> expected[k] == Ok((written + [text])[k])
  {
  }
}
