/** The text the generator produces for a descriptor, and the order in which
    the type references of a descriptor reach the mapper (and so the order
    of the import statements). */
module Declarations {
  import opened Results
  import opened Strings
  import opened TypeMapping
  import opened Descriptors

  // ---------------------------------------------------------------------
  // Parameters

  function ParamItem(p: Param): string
  {
    p.name + ": " + TsName(p.javaType)
  }

  function ParamItems(ps: seq<Param>): (items: seq<string>)
    ensures |items| == |ps|
  {
    seq(|ps|, k requires 0 <= k < |ps| => ParamItem(ps[k]))
  }

  /** `name: type` for each parameter, in order, separated by ", ". */
  function ParamList(ps: seq<Param>): string
  {
    Join(ParamItems(ps), ", ")
  }

  /** The parameter list is empty exactly when there are no parameters:
      every item holds at least its ": ". */
  lemma {:induction false} ParamListEmpty(ps: seq<Param>)
    ensures ParamList(ps) == "" <==> ps == []
  {
    if ps != [] {
      var items := ParamItems(ps);
      assert items[0] == ps[0].name + ": " + TsName(ps[0].javaType);
      assert |items[0]| >= 2;
      assert |items| == 1 || ParamList(ps) == items[0] + ", " + Join(items[1..], ", ");
    }
  }

  lemma {:induction false} ParamItemsStep(ps: seq<Param>, i: nat)
    requires i < |ps|
    ensures ParamItems(ps[..i + 1]) == ParamItems(ps[..i]) + [ParamItem(ps[i])]
  {
  }

  function ParamTypes(ps: seq<Param>): (ts: seq<string>)
    ensures |ts| == |ps|
  {
    seq(|ps|, k requires 0 <= k < |ps| => ps[k].javaType)
  }

  // ---------------------------------------------------------------------
  // Member lines (without their newline)

  function Modifier(isStatic: bool): string
  {
    if isStatic then "static " else ""
  }

  function ConstructorLine(c: Constructor): string
  {
    "  constructor(" + ParamList(c.params) + ");"
  }

  function MethodLine(m: Method): string
  {
    "  " + Modifier(m.isStatic) + m.name + "(" + ParamList(m.params) + "): " + TsName(m.returnType) + ";"
  }

  function FieldLine(f: Field): string
  {
    "  " + Modifier(f.isStatic) + f.name + ": " + TsName(f.javaType) + ";"
  }

  /** The template strings of the emitters are the lines above, each
      followed by its newline. */
  lemma {:induction false} MethodTemplate(m: Method, modifier: string, params: string, returnType: string)
    requires modifier == Modifier(m.isStatic) && params == ParamList(m.params) && returnType == TsName(m.returnType)
    ensures "  " + modifier + m.name + "(" + params + "): " + returnType + ";\n" == MethodLine(m) + "\n"
  {
    Terminated("  " + modifier + m.name + "(" + params + "): " + returnType);
  }

  lemma {:induction false} FieldTemplate(f: Field, modifier: string, fieldType: string)
    requires modifier == Modifier(f.isStatic) && fieldType == TsName(f.javaType)
    ensures "  " + modifier + f.name + ": " + fieldType + ";\n" == FieldLine(f) + "\n"
  {
    Terminated("  " + modifier + f.name + ": " + fieldType);
  }

  function ConstructorLines(cs: seq<Constructor>): (ls: seq<string>)
    ensures |ls| == |cs|
  {
    seq(|cs|, k requires 0 <= k < |cs| => ConstructorLine(cs[k]))
  }

  function MethodLines(ms: seq<Method>): (ls: seq<string>)
    ensures |ls| == |ms|
  {
    seq(|ms|, k requires 0 <= k < |ms| => MethodLine(ms[k]))
  }

  function FieldLines(fs: seq<Field>): (ls: seq<string>)
    ensures |ls| == |fs|
  {
    seq(|fs|, k requires 0 <= k < |fs| => FieldLine(fs[k]))
  }

  lemma {:induction false} ConstructorLinesStep(cs: seq<Constructor>, i: nat)
    requires i < |cs|
    ensures ConstructorLines(cs[..i + 1]) == ConstructorLines(cs[..i]) + [ConstructorLine(cs[i])]
  {
  }

  lemma {:induction false} MethodLinesStep(ms: seq<Method>, i: nat)
    requires i < |ms|
    ensures MethodLines(ms[..i + 1]) == MethodLines(ms[..i]) + [MethodLine(ms[i])]
  {
  }

  lemma {:induction false} FieldLinesStep(fs: seq<Field>, i: nat)
    requires i < |fs|
    ensures FieldLines(fs[..i + 1]) == FieldLines(fs[..i]) + [FieldLine(fs[i])]
  {
  }

  // ---------------------------------------------------------------------
  // Type references, in the order the generator maps them

  function ConstructorRefs(cs: seq<Constructor>): seq<string>
  {
    if cs == [] then []
    else ConstructorRefs(cs[..|cs| - 1]) + ParamTypes(cs[|cs| - 1].params)
  }

  /** The types one method maps: its return type, then its parameter types. */
  function MethodTypes(m: Method): seq<string>
  {
    [m.returnType] + ParamTypes(m.params)
  }

  function MethodRefs(ms: seq<Method>): seq<string>
  {
    if ms == [] then []
    else MethodRefs(ms[..|ms| - 1]) + MethodTypes(ms[|ms| - 1])
  }

  lemma {:induction false} ConstructorRefsAppend(xs: seq<Constructor>, ys: seq<Constructor>)
    ensures ConstructorRefs(xs + ys) == ConstructorRefs(xs) + ConstructorRefs(ys)
    decreases |ys|
  {
    if ys == [] {
      assert xs + ys == xs;
    } else {
      var init, last := ys[..|ys| - 1], ys[|ys| - 1];
      assert (xs + ys)[..|xs + ys| - 1] == xs + init;
      assert (xs + ys)[|xs + ys| - 1] == last;
      ConstructorRefsAppend(xs, init);
      calc {
        ConstructorRefs(xs + ys);
        ConstructorRefs(xs + init) + ParamTypes(last.params);
        (ConstructorRefs(xs) + ConstructorRefs(init)) + ParamTypes(last.params);
        ConstructorRefs(xs) + (ConstructorRefs(init) + ParamTypes(last.params));
        ConstructorRefs(xs) + ConstructorRefs(ys);
      }
    }
  }


  lemma {:induction false} MethodRefsAppend(xs: seq<Method>, ys: seq<Method>)
    ensures MethodRefs(xs + ys) == MethodRefs(xs) + MethodRefs(ys)
    decreases |ys|
  {
    if ys == [] {
      assert xs + ys == xs;
    } else {
      var init, last := ys[..|ys| - 1], ys[|ys| - 1];
      assert (xs + ys)[..|xs + ys| - 1] == xs + init;
      assert (xs + ys)[|xs + ys| - 1] == last;
      MethodRefsAppend(xs, init);
      calc {
        MethodRefs(xs + ys);
        MethodRefs(xs + init) + MethodTypes(last);
        (MethodRefs(xs) + MethodRefs(init)) + MethodTypes(last);
        MethodRefs(xs) + (MethodRefs(init) + MethodTypes(last));
        MethodRefs(xs) + MethodRefs(ys);
      }
    }
  }


  /** The constructor references split around the `i`-th constructor. */
  lemma {:induction false} ConstructorRefsAt(cs: seq<Constructor>, i: nat)
    requires i < |cs|
    ensures ConstructorRefs(cs[..i + 1]) == ConstructorRefs(cs[..i]) + ParamTypes(cs[i].params)
    ensures ConstructorRefs(cs) == ConstructorRefs(cs[..i]) + ParamTypes(cs[i].params) + ConstructorRefs(cs[i + 1..])
  {
    assert cs[..i + 1][..i] == cs[..i];
    assert cs == cs[..i + 1] + cs[i + 1..];
    ConstructorRefsAppend(cs[..i + 1], cs[i + 1..]);
  }

  /** The method references split around the `i`-th method. */
  lemma {:induction false} MethodRefsAt(ms: seq<Method>, i: nat)
    requires i < |ms|
    ensures MethodRefs(ms[..i + 1]) == MethodRefs(ms[..i]) + MethodTypes(ms[i])
    ensures MethodRefs(ms) == MethodRefs(ms[..i]) + MethodTypes(ms[i]) + MethodRefs(ms[i + 1..])
  {
    assert ms[..i + 1][..i] == ms[..i];
    assert ms == ms[..i + 1] + ms[i + 1..];
    MethodRefsAppend(ms[..i + 1], ms[i + 1..]);
  }

  function FieldRefs(fs: seq<Field>): (ts: seq<string>)
    ensures |ts| == |fs|
  {
    seq(|fs|, k requires 0 <= k < |fs| => fs[k].javaType)
  }

  // ---------------------------------------------------------------------
  // The class declaration

  /** A super class is used only when present and non-empty (JavaScript
      truthiness). */
  predicate HasSuper(d: JavaClass)
  {
    d.superClass.Some? && d.superClass.value != ""
  }

  function ClassName(d: JavaClass): string
  {
    LastSegment(d.name, '.')
  }

  function Header(d: JavaClass): string
  {
    "export class " + ClassName(d) + (if HasSuper(d) then " extends " + TsName(d.superClass.value) else "") + " {"
  }

  function OptConstructorLines(d: JavaClass): seq<string>
  {
    match d.constructors
    case None => []
    case Some(cs) => ConstructorLines(cs)
  }

  function OptFieldLines(d: JavaClass): seq<string>
  {
    match d.fields
    case None => []
    case Some(fs) => FieldLines(fs)
  }

  /** The declaration's lines: header, constructors, methods, fields, close. */
  function DeclLines(d: JavaClass): seq<string>
  {
    [Header(d)] + OptConstructorLines(d) + MethodLines(d.methods) + OptFieldLines(d) + ["}"]
  }

  function Declaration(d: JavaClass): string
  {
    Lines(DeclLines(d))
  }

  function SuperRefs(d: JavaClass): seq<string>
  {
    if HasSuper(d) then [d.superClass.value] else []
  }

  function OptConstructorRefs(d: JavaClass): seq<string>
  {
    match d.constructors
    case None => []
    case Some(cs) => ConstructorRefs(cs)
  }

  function OptFieldRefs(d: JavaClass): seq<string>
  {
    match d.fields
    case None => []
    case Some(fs) => FieldRefs(fs)
  }

  /** Super class, then constructor parameters, then each method's return
      and parameter types, then field types. */
  function TypeRefs(d: JavaClass): seq<string>
  {
    SuperRefs(d) + OptConstructorRefs(d) + MethodRefs(d.methods) + OptFieldRefs(d)
  }

  /** The header template of `generateClass` is the header line followed
      by its newline. */
  lemma {:induction false} HeaderTemplate(d: JavaClass, className: string, superClass: string)
    requires className == ClassName(d)
    requires superClass == if HasSuper(d) then " extends " + TsName(d.superClass.value) else ""
    ensures "export class " + className + superClass + " {\n" == Header(d) + "\n"
  {
    assert " {\n" == " {" + "\n";
  }

  /** The declaration text is the header line, then the constructor, method
      and field blocks, then the closing line, concatenated in the order the
      emitter appends them. */
  lemma {:induction false} DeclarationText(d: JavaClass)
    ensures Declaration(d) ==
      Header(d) + "\n" + Lines(OptConstructorLines(d)) + Lines(MethodLines(d.methods)) + Lines(OptFieldLines(d)) + "}\n"
  {
    var h, c, m, f := [Header(d)], OptConstructorLines(d), MethodLines(d.methods), OptFieldLines(d);
    assert Lines(h) == Header(d) + "\n" by {
      assert h[..0] == [];
    }
    assert Lines(["}"]) == "}\n" by {
      assert ["}"][..0] == [];
    }
    LinesAppend(h, c);
    LinesAppend(h + c, m);
    LinesAppend(h + c + m, f);
    LinesAppend(h + c + m + f, ["}"]);
  }

  /** The type references of a declaration, grouped as the stages of
      `generateClass` see them. */
  lemma {:induction false} TypeRefsStages(d: JavaClass)
    ensures TypeRefs(d) == [] + SuperRefs(d) + (OptConstructorRefs(d) + MethodRefs(d.methods) + OptFieldRefs(d))
    ensures TypeRefs(d) == SuperRefs(d) + OptConstructorRefs(d) + (MethodRefs(d.methods) + OptFieldRefs(d))
    ensures TypeRefs(d) == SuperRefs(d) + OptConstructorRefs(d) + MethodRefs(d.methods) + OptFieldRefs(d) + []
  {
    Regroup(SuperRefs(d), OptConstructorRefs(d), MethodRefs(d.methods), OptFieldRefs(d));
  }

  lemma {:induction false} Regroup(s: seq<string>, c: seq<string>, m: seq<string>, f: seq<string>)
    ensures [] + s + (c + m + f) == s + c + m + f
    ensures s + c + (m + f) == s + c + m + f
    ensures s + c + m + f + [] == s + c + m + f
  {
    assert [] + s == s;
    assert c + m + f == c + (m + f);
    assert s + (c + (m + f)) == s + c + (m + f);
  }

  /** The output file for `d` when the import set holds `pending` before it:
      the import lines, an empty line, then the declaration. */
  function FileText(pending: seq<string>, d: JavaClass): Result<string>
  {
    if AllValid(TypeRefs(d))
    then Ok(Lines(Registered(pending, TypeRefs(d))) + "\n" + Declaration(d))
    else Err(InvalidType)
  }

  /** The import block of a file from an empty set lists each import the
      declaration's types need exactly once, and nothing else. */
  lemma {:induction false} FileImports(d: JavaClass)
    ensures NoDuplicates(Registered([], TypeRefs(d)))
    ensures forall x :: x in Registered([], TypeRefs(d)) <==>
      exists k :: 0 <= k < |TypeRefs(d)| && ImportFor(TypeRefs(d)[k]) == Some(x)
  {
    RegisteredContents([], TypeRefs(d));
  }

  /** Read back line by line, a file is its import lines, one empty line and
      the declaration's lines, each ended by a newline (provided no line holds
      a newline of its own). */
  lemma {:induction false} FileTextLines(pending: seq<string>, d: JavaClass)
    requires AllValid(TypeRefs(d))
    requires forall k :: 0 <= k < |Registered(pending, TypeRefs(d))| ==> '\n' !in Registered(pending, TypeRefs(d))[k]
    requires forall k :: 0 <= k < |DeclLines(d)| ==> '\n' !in DeclLines(d)[k]
    ensures Split(FileText(pending, d).value, '\n') == Registered(pending, TypeRefs(d)) + [""] + DeclLines(d) + [""]
  {
    var imports, decl := Registered(pending, TypeRefs(d)), DeclLines(d);
    var ls := imports + [""] + decl;
    LinesSnoc(imports, "");
    LinesAppend(imports + [""], decl);
    assert Lines(ls) == FileText(pending, d).value;
    forall k | 0 <= k < |ls|
      ensures '\n' !in ls[k]
    {
      if k < |imports| {
        assert ls[k] == imports[k];
      } else if k > |imports| {
        assert ls[k] == decl[k - |imports| - 1];
      }
    }
    SplitLines(ls);
  }
}
