/** The shape of a parsed class descriptor: the `JavaClass`,
    `JavaClassConstructor`, `JavaClassMethod` and `JavaClassField` records.
    A `Record<string, string>` of parameters is an ordered sequence of
    (name, Java type) pairs. */
module Descriptors {
  import opened Results

  datatype Param = Param(name: string, javaType: string)

  datatype Constructor = Constructor(params: seq<Param>)

  datatype Method = Method(name: string, params: seq<Param>, returnType: string, isStatic: bool)

  datatype Field = Field(name: string, javaType: string, isStatic: bool)

  /** `superClass`, `constructors` and `fields` are optional keys of the
      descriptor; `methods` is required. */
  datatype JavaClass = JavaClass(
    name: string,
    superClass: Option<string>,
    constructors: Option<seq<Constructor>>,
    methods: seq<Method>,
    fields: Option<seq<Field>>)
}
