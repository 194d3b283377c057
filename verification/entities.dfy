/** The records the documentor collects and renders: a module holds its
    functions and classes, a class its constants, static methods and methods,
    a function its parameters. Values and defaults are kept as the text
    `str.format` would print, with a flag saying whether the Python value is a
    `str`. */
module Entities {
  import opened Text

  /** `inspect.Parameter.kind`. */
  datatype ParamKind = PositionalOnly | PositionalOrKeyword | VarPositional | KeywordOnly | VarKeyword

  /** A Python value as the documentor prints it. */
  datatype Value = Value(text: string, isString: bool)

  /** A collected parameter: `{'name', 'kind'}` plus `'default'` when the
      parameter has one and `'doc'` when the docstring documents it. */
  datatype Param = Param(name: string, kind: ParamKind, default: Option<Value>, doc: Option<string>)

  /** A collected function: `{'name', 'doc', 'parameters', 'return'}`. */
  datatype FunctionRecord = FunctionRecord(name: string, doc: string, params: seq<Param>, ret: string)

  /** A collected class constant: `{'name', 'value'}`. */
  datatype Constant = Constant(name: string, value: Value)

  /** A collected class. */
  datatype ClassRecord = ClassRecord(
    name: string, doc: string,
    constants: seq<Constant>, staticMethods: seq<FunctionRecord>, methods: seq<FunctionRecord>)

  /** A collected module. */
  datatype ModuleRecord = ModuleRecord(
    name: string, doc: string, functions: seq<FunctionRecord>, classes: seq<ClassRecord>)
}
