# java-json-to-typescript-types, modelled in Dafny

The generator reads Java class descriptors (JSON records with a class name,
an optional super class, optional constructors, methods and optional
fields) and writes one TypeScript declaration file per descriptor. This
project models its core, `src/main.ts`:

- the type mapper `javaTypeToTs` with its primitive table `JSPrimitives`;
- the process-wide insertion-ordered import set `context.imports`;
- the emitters `generateParameters`, `generateConstructors`,
  `generateFields`, `generateClass` (with its `methods.forEach` loop) and
  `generateImports`;
- the per-file step of the main loop, which generates the class, then the
  import lines, composes `imports + '\n' + classText` and clears the set.

Layout:

- `results.dfy` (`Results`) holds `Option` and `Result`. A thrown `Error` is
  an `Err` carrying its message.
- `strings.dfy` (`Strings`) holds the JavaScript string operations on
  `seq<char>`:
  - `split` with a one-character separator (`Split`) and `join` (`Join`);
  - the piece after the last separator (`LastSegment`, what `pop()`
    returns) and the text before it (`Qualifier`);
  - the newline-terminated text that a `result += ...\n` loop builds
    (`Lines`).
- `descriptors.dfy` (`Descriptors`) holds the descriptor records. A
  parameter record is an ordered sequence of (name, Java type) pairs.
- `typemapping.dfy` (`TypeMapping`) holds the reference semantics of the
  mapper:
  - `MappedName` is the result or the error;
  - `ImportFor` is the import statement a type needs;
  - `Register` and `Registered` describe the import set after one `add` or
    after a sequence of mapped types;
  - `ValidPrefix` is the types mapped before the first thrown error.
- `declarations.dfy` (`Declarations`) holds the reference output:
  - the member lines and the declaration text;
  - the ordered list of type references of a descriptor (`TypeRefs`: super
    class, constructor parameters, each method's return type then its
    parameters, field types);
  - the full file text `FileText`.
- `generator.dfy` (`Generator`) holds the imperative model:
  - the class `ImportSet`, whose element list the mapper updates in place;
  - the recursive method `JavaTypeToTs`;
  - one loop method per `forEach` or `map` of the source, each proved
    against the reference functions;
  - `ProcessFile` (one iteration of the main loop) and `Run` (the whole
    loop over the parsed descriptors).

Every emitter method states its text, and the new state of the import set,
in terms of the reference functions:

- If every type reference is valid, the result is the reference text and
  the set has registered every reference.
- Otherwise the result is the `Invalid type` error, and the set holds what
  it held before, plus the imports of the references mapped before the
  failing one.

Three points of the behaviour of `src/main.ts` that a reader might not
expect:

- A super class is used only when it is present and non-empty. The code
  tests JavaScript truthiness, so `""` gives no `extends` clause and no
  mapping.
- A qualified type whose short name maps to `boolean`, `string` or `void`
  registers no import. `java.lang.String` is one example, and so is
  `a.string`, because the test is on the mapped name.
- An `Invalid type` error is never caught. The process ends at the first
  failing descriptor and does not go on to the next file. The import set is
  not cleared, and the files written before it remain.

## Model

| member | source | states |
|---|---|---|
| TypeMapping.MapPrimitive | src/main.ts:29-59 | The `switch` of `javaTypeToTs`: `String` becomes `string`, every other name is kept. The result is one of `Primitives` (the three names of `JSPrimitives`, line 29) exactly when the name is `boolean`, `String`, `string` or `void`. |
| TypeMapping.ImportStatement | src/main.ts:44 | Defines the statement `import { <name> } from '<package>'` that the mapper adds. |
| TypeMapping.Register | src/main.ts:44 | Defines `Set.add` on an insertion-ordered set: a new statement goes at the end, and one already present changes nothing. |
| Strings.Split | src/main.ts:33 | Defines `split` with a one-character separator: the maximal separator-free pieces in order, always at least one. |
| Strings.Join | src/main.ts:35 | Defines `join`: the pieces with the separator between neighbours, and `""` for no pieces. |
| Strings.LastSegment | src/main.ts:34 | Defines the piece `pop()` returns: the text after the last separator, or the whole string when there is none. |
| Declarations.ParamList | src/main.ts:66-72 | Defines the parameter text: `name: <mapped type>` for each pair, in order, joined by `, `. |
| Declarations.ConstructorLine | src/main.ts:79 | Defines a constructor line `  constructor(<params>);`. |
| Declarations.MethodLine | src/main.ts:110-115 | Defines a method line `  [static ]name(<params>): <mapped return type>;`. |
| Declarations.FieldLine | src/main.ts:89-93 | Defines a field line `  [static ]name: <mapped type>;`. |
| Declarations.Header | src/main.ts:100-103 | Defines the header line `export class <last piece of name>[ extends <mapped super class>] {`, with the clause only for a present, non-empty super class. |
| Declarations.TypeRefs | src/main.ts:101-120 | Defines the order in which `generateClass` maps types: the super class, the constructors' parameter types, each method's return type then its parameter types, then the field types. |
| Declarations.FileText | src/main.ts:168-171 | Defines the file text: the import lines registered after the declaration's types, an empty line, then the declaration; the error when a type ends with a dot. |
| Generator.ImportSet.constructor | src/main.ts:62-64 | The import set starts empty (and so duplicate-free). |
| Generator.ImportSet.Add | src/main.ts:44 | `add` appends a statement that is not yet present and leaves the set as it was otherwise; the set stays duplicate-free. |
| Generator.ImportSet.Clear | src/main.ts:172 | `clear` leaves an empty set. |
| TypeMapping.RegisterFacts | src/main.ts:44 | After `add` the set holds exactly the old statements and the new one, keeps the old ones in place as a prefix, has no duplicates, and is unchanged when the statement was already present. |
| Generator.JavaTypeToTs | src/main.ts:31-60 | The result is the table mapping of the text after the last dot, or the error for a name that contains a dot and ends with one (an empty last segment after a dot); a dot-free name, even `""`, is mapped through the table. On success the set gains exactly the import the name needs (none for a dot-free name or a primitive); on error it is unchanged. |
| TypeMapping.MapBareName | src/main.ts:50-59 | A dot-free name maps to `boolean`, `string` or `void` for `boolean`, `String` or `void`, to itself otherwise, and needs no import. |
| TypeMapping.MapQualifiedName | src/main.ts:32-47 | `q.s` with a dot-free non-empty `s` maps exactly as `s` does, whatever `q` is; it needs exactly `import { s } from 'q'`, and nothing when `s` maps to a primitive. |
| TypeMapping.MapLastSegment | src/main.ts:33-47 | A qualified name without a trailing dot maps as its last segment. That segment is dot-free and shorter than the name, so the recursive calls do not recurse again and register nothing. The import needed is the last segment from the qualifier, unless it maps to a primitive. |
| TypeMapping.QualifiedPrimitive | src/main.ts:29-47 | Any qualified `boolean`, `String` or `void` (e.g. `java.lang.String`) maps to the primitive and imports nothing. |
| TypeMapping.TrailingDotFails | src/main.ts:32-39 | Mapping fails exactly when the name contains a dot and its last segment is empty. |
| TypeMapping.StringExample | src/main.ts:29-59 | `java.lang.String` maps to `string` with no import. |
| TypeMapping.ListExample | src/main.ts:32-47 | `java.util.List` maps to `List` and needs the import of `List` from `java.util`. |
| TypeMapping.ValidPrefixFacts | src/main.ts:37-39 | The types mapped before a throw are a valid prefix of the type list: all of it exactly when every type is valid, otherwise cut just before the first type with a trailing dot. |
| TypeMapping.ValidPrefixAppend | src/main.ts:37-39 | For two blocks of types mapped in a row, the mapping reaches the second block only if the first is valid, and the whole is valid exactly when both are. |
| TypeMapping.RegisteredAppend | src/main.ts:43-45 | Mapping `xs` and then `ys` registers what mapping `xs + ys` registers. |
| TypeMapping.RegisteredContents | src/main.ts:43-45 | After mapping a list of types a duplicate-free set stays duplicate-free and keeps its earlier statements as a prefix, and it holds exactly the earlier statements plus the imports those types need. |
| TypeMapping.RegisteredPresent | src/main.ts:43-45 | Types whose imports are already present leave the set unchanged. |
| TypeMapping.RegisteredTwice | src/main.ts:43-45 | Mapping the same types again leaves the set as the first pass left it. |
| TypeMapping.NoImportsNeeded | src/main.ts:43-45 | Types needing no import leave the set unchanged. |
| Strings.JoinSplit | src/main.ts:33-35 | Splitting at a separator and joining with it gives back the string. |
| Strings.SplitConcat | src/main.ts:33 | The pieces of `x + sep + y` are the pieces of `x` followed by those of `y`. |
| Strings.SplitAtLast | src/main.ts:33-35 | The piece `pop()` returns is the text after the last dot (all of it when there is none), and the remaining pieces joined with `.` are the text before the last dot. |
| Strings.LastSegmentFacts | src/main.ts:34 | The last segment is a separator-free suffix: the whole string when there is no separator, otherwise shorter, and empty exactly for a trailing separator. |
| Strings.QualifierFacts | src/main.ts:35 | A string with a separator is its qualifier, the separator and its last segment. |
| Strings.QualifiedSegments | src/main.ts:33-35 | In `q + sep + s` with a separator-free `s`, the last segment is `s` and the qualifier is `q`. |
| Strings.LinesAppend | src/main.ts:103-123 | Appending two blocks of newline-terminated lines gives the block of all the lines. |
| Strings.SplitLines | src/main.ts:126-134 | Splitting a block of newline-free lines at newlines recovers the lines and then an empty piece. |
| Declarations.ParamListEmpty | src/main.ts:66-72 | The parameter list is empty exactly when there are no parameters. |
| Generator.GenerateParameters | src/main.ts:66-72 | The result is `name: type` for each pair, in order, joined by `, `, or the error if a type fails. The set registers the parameter types up to the first failing one. |
| Generator.GenerateConstructors | src/main.ts:74-83 | The result is one `  constructor(<params>);` line per constructor, in order, or the error. The set registers the constructors' parameter types in order, up to the first failing one. |
| Generator.MethodEntry | src/main.ts:109-116 | One method's line `  [static ]name(<params>): <ret>;`, or the error. The return type is mapped before the parameters, and the set registers those types up to the first failing one. |
| Generator.MethodTypesStep | src/main.ts:112-113 | A return type with a trailing dot throws before any parameter is mapped. Otherwise the method's types are valid exactly when its parameter types are, and the registrations are the return type's followed by the parameters'. |
| Generator.GenerateMethods | src/main.ts:109-116 | One method line per method, in order, or the error. The set registers each method's return type and then its parameter types, in order, up to the first failing one. |
| Generator.FieldEntry | src/main.ts:88-94 | One field's line `  [static ]name: <type>;`, or the error for a field type with a trailing dot; on success the set gains the field type's import. |
| Generator.GenerateFields | src/main.ts:85-97 | One field line per field, in order, or the error. The set registers the field types in order, up to the first failing one. |
| Generator.SuperStage | src/main.ts:101 | A super class is mapped only when present and non-empty; mapping it either registers its import or throws before anything is registered. |
| Generator.ClassHeader | src/main.ts:100-103 | `export class <short>[ extends <mapped super>] {`, where `<short>` is the name's last dot-separated piece, or the error when the super class ends with a dot. |
| Generator.OptionalConstructors | src/main.ts:105-107 | The constructor block, or nothing when the descriptor has no constructor list. |
| Generator.OptionalFields | src/main.ts:118-120 | The field block, or nothing when the descriptor has no field list. |
| Declarations.DeclarationText | src/main.ts:103-123 | The declaration text is the header line, then the constructor, method and field blocks, then `}`, each line ending in a newline. |
| Generator.GenerateClass | src/main.ts:99-124 | The declaration text when every type reference is valid, the error otherwise. The set registers the references in the order super class, constructors, methods (return type before parameters), fields, up to the first failing one. |
| Generator.GenerateImports | src/main.ts:126-134 | Each statement of the set on its own line, in insertion order. |
| Generator.ProcessFile | src/main.ts:168-172 | The file text is the import lines of the set as it stood plus the descriptor's imports, then an empty line, then the declaration. Afterwards the set is empty. On an error the set keeps what was registered before the throw. |
| Generator.Run | src/main.ts:162-173 | Every file written holds the text of its own descriptor generated from an empty set, so no import of one descriptor reaches another file. The loop writes every file, or stops at the first descriptor that throws. |
| Declarations.FileImports | src/main.ts:168-172 | The import block of a file generated from an empty set lists every import the descriptor's types need, once each, and nothing else. |
| Declarations.FileTextLines | src/main.ts:169-171 | Read back line by line, a file is its import lines, one empty line and the declaration's lines (given that no line has a newline of its own). |

Proof helpers have no row of their own. `Terminated`, `HeaderTemplate`,
`MethodTemplate` and `FieldTemplate` rewrite a template string as its line
plus a newline. `Regroup` and `TypeRefsStages` regroup concatenations. The loop
lemmas `ConstructorStep`, `MethodStep`, `FieldStep`, `ConstructorsDone`,
`MethodsDone` and `FieldsDone` carry the invariants across one iteration or
out of the loop.

## Left out

- `getAllFiles` (src/main.ts:139-158) is a recursive directory walk whose listing order is unspecified. `Run` takes the parsed descriptors in the order the walk would yield them.
- File system access is not modelled:
  - `fs.readFileSync` and `fs.writeFileSync`;
  - the `__dirname`-based source path;
  - the `.json` suffix filter;
  - the output path `file.replace('.json', '.d.ts')`, which replaces the first occurrence of `.json` and not necessarily the suffix.
  `Run` returns the texts it would write, in order.
- `JSON.parse` is a foreign call. Descriptors are assumed well-shaped:
  - `superClass`, `constructors` and `fields` are options;
  - `methods` is present;
  - names and types are strings.
  A missing `methods` array, which makes `forEach` throw a `TypeError`, is not modelled.
- `Object.entries` (src/main.ts:67) puts integer-like keys first, and a parsed object cannot hold two equal keys. Parameters are modelled as an explicit ordered sequence of pairs, whatever their keys.
- Thrown errors become `Err` results. The error is never caught in the source, so the process ends:
  - `ProcessFile` returns before `clear`;
  - `Run` stops at that descriptor.
  The files written before it are kept.
- The `forEach` callbacks of `generateFields` and of the methods loop append to the enclosing `result` through a closure. In the model, `FieldEntry` and `MethodEntry` return their line and the loop appends it. `ClassHeader`, `OptionalConstructors` and `OptionalFields` return the pieces that `generateClass` appends (src/main.ts:100-103, 105-107, 118-120). The `constructors.forEach` callback is the body of the `GenerateConstructors` loop, and the `map` callback of `generateParameters` is the body of the `GenerateParameters` loop, which joins the items as `join` does.
- Strings are sequences of characters. JavaScript's UTF-16 code units and surrogate pairs are not distinguished.
- Empty-list truthiness: an empty `constructors` or `fields` array is truthy in JavaScript. It is modelled as `Some([])`, which emits nothing, as the source does.
