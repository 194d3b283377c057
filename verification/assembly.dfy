/** Document assembly: `export` walks a collected module in a fixed order and
    asks the formatter for one fragment per step; `_format_functions` does the
    same for a block of functions. The walk is specified as the sequence of
    hook calls it makes (`ModuleHooks`); the output list holds the rendered
    fragments, and the file text joins the non-empty ones with line breaks. */
module Assembly {
  import opened Text
  import opened Entities
  import opened Render

  // ---------------------------------------------------------------------------
  // The walk, as a sequence of hook calls
  // ---------------------------------------------------------------------------

  function FunctionHead(fn: FunctionRecord, prefix: string, indent: int): seq<Hook> {
    [FunctionStart, FunctionSignature(fn.name, fn.params, prefix, indent), FunctionBodyStart,
     FunctionDoc(fn.doc, indent + 1), FunctionParameters(fn.params, indent + 1)]
  }

  function ReturnLine(fn: FunctionRecord, indent: int): seq<Hook> {
    if fn.ret != "" then [FunctionReturn(fn.ret, indent + 1)] else []
  }

  /** One function of a block: the return line only when the return text is non-empty. */
  function FunctionHooks(fn: FunctionRecord, prefix: string, indent: int): seq<Hook> {
    FunctionHead(fn, prefix, indent) + ReturnLine(fn, indent) + [FunctionBodyEnd, FunctionEnd]
  }

  function FunctionListHooks(fs: seq<FunctionRecord>, prefix: string, indent: int): seq<Hook> {
    if fs == [] then []
    else FunctionListHooks(fs[..|fs| - 1], prefix, indent) + FunctionHooks(fs[|fs| - 1], prefix, indent)
  }

  /** What `_format_functions` appends: the block start, each function, the block end. */
  function FunctionsHooks(fs: seq<FunctionRecord>, prefix: string, indent: int): seq<Hook> {
    [FunctionBlockStart] + FunctionListHooks(fs, prefix, indent) + [FunctionBlockEnd]
  }

  function TocFunctionHooks(fs: seq<FunctionRecord>, isStatic: bool, prefix: string, indent: int): seq<Hook> {
    if fs == [] then []
    else TocFunctionHooks(fs[..|fs| - 1], isStatic, prefix, indent) + [TocFunction(fs[|fs| - 1].name, isStatic, prefix, indent)]
  }

  function TocConstantHooks(cs: seq<Constant>, prefix: string, indent: int): seq<Hook> {
    if cs == [] then []
    else TocConstantHooks(cs[..|cs| - 1], prefix, indent) + [TocConstant(cs[|cs| - 1].name, prefix, indent)]
  }

  function TocClassHead(c: ClassRecord, moduleName: string): seq<Hook> {
    [TocClass(c.name, moduleName, 1), TocClassStart]
  }

  /** A class in the table of contents: the class, then its constants, static
      methods and methods, prefixed with the class name. */
  function TocClassHooks(c: ClassRecord, moduleName: string): seq<Hook> {
    TocClassHead(c, moduleName)
    + TocConstantHooks(c.constants, c.name, 2)
    + TocFunctionHooks(c.staticMethods, true, c.name, 2)
    + TocFunctionHooks(c.methods, false, c.name, 2)
    + [TocClassEnd]
  }

  function TocClassesHooks(cs: seq<ClassRecord>, moduleName: string): seq<Hook> {
    if cs == [] then []
    else TocClassesHooks(cs[..|cs| - 1], moduleName) + TocClassHooks(cs[|cs| - 1], moduleName)
  }

  function TocHead(): seq<Hook> {
    [TocStart, TocTitle, TocBodyStart]
  }

  /** The table of contents: the module's functions, then its classes. */
  function TocHooks(m: ModuleRecord): seq<Hook> {
    TocHead()
    + TocFunctionHooks(m.functions, false, m.name, 1)
    + TocClassesHooks(m.classes, m.name)
    + [TocBodyEnd, TocEnd]
  }

  function ConstantHooks(cs: seq<Constant>, prefix: string, indent: int): seq<Hook> {
    if cs == [] then []
    else ConstantHooks(cs[..|cs| - 1], prefix, indent) + [ClassConstant(cs[|cs| - 1].name, cs[|cs| - 1].value, prefix, indent)]
  }

  function ClassHead(c: ClassRecord, moduleName: string): seq<Hook> {
    [ClassStart, ClassTitle(c.name, moduleName, 1), ClassBodyStart, ClassDoc(c.doc, 2)]
  }

  function ConstantsSection(c: ClassRecord): seq<Hook> {
    if c.constants != [] then [ConstantsTitle(2), ConstantsStart] + ConstantHooks(c.constants, c.name, 3) + [ConstantsEnd]
    else []
  }

  function StaticSection(c: ClassRecord): seq<Hook> {
    if c.staticMethods != [] then [StaticTitle(2)] + FunctionsHooks(c.staticMethods, c.name, 3) else []
  }

  function MethodsSection(c: ClassRecord): seq<Hook> {
    if c.methods != [] then [MethodsTitle(2)] + FunctionsHooks(c.methods, c.name, 3) else []
  }

  /** A class in the body: each of the constants, static-methods and methods
      sections only when its list is non-empty. */
  function ClassHooks(c: ClassRecord, moduleName: string): seq<Hook> {
    ClassHead(c, moduleName) + ConstantsSection(c) + StaticSection(c) + MethodsSection(c) + [ClassBodyEnd, ClassEnd]
  }

  function ClassesHooks(cs: seq<ClassRecord>, moduleName: string): seq<Hook> {
    if cs == [] then []
    else ClassesHooks(cs[..|cs| - 1], moduleName) + ClassHooks(cs[|cs| - 1], moduleName)
  }

  function ModuleHead(m: ModuleRecord): seq<Hook> {
    [TopOfFile, ModuleTitle(m.name), ModuleStart, ModuleDoc(m.doc, 1)]
  }

  /** The hook calls `export` makes for one module. The module's functions
      are formatted with the module name as prefix. */
  function ModuleHooks(m: ModuleRecord, tableOfContents: bool): seq<Hook> {
    ModuleHead(m)
    + (if tableOfContents then TocHooks(m) else [])
    + (if m.functions != [] then FunctionsHooks(m.functions, m.name, 1) else [])
    + ClassesHooks(m.classes, m.name)
    + [ModuleEnd]
  }

  /** The fragments a formatter gives for a sequence of hook calls, in order. */
  function RenderAll(ft: Hook -> string, hs: seq<Hook>): (out: seq<string>)
    ensures |out| == |hs|
  {
    if hs == [] then [] else RenderAll(ft, hs[..|hs| - 1]) + [ft(hs[|hs| - 1])]
  }

  /** A format's formatter, as a function from hook calls to fragments. */
  function Formatter(f: Format): Hook -> string {
    h => Render.Render(f, h)
  }

  /** A list holding, position by position, a formatter's fragments for a
      sequence of hook calls is that sequence's rendering. */
  lemma {:induction false} RenderAllOf(ft: Hook -> string, hs: seq<Hook>, out: seq<string>)
    requires |out| == |hs|
    requires forall k :: 0 <= k < |hs| ==> out[k] == ft(hs[k])
    ensures out == RenderAll(ft, hs)
    decreases |hs|
  {
    if hs != [] {
      RenderAllOf(ft, hs[..|hs| - 1], out[..|out| - 1]);
      assert out == out[..|out| - 1] + [out[|out| - 1]];
    }
  }

  /** The fragments with the empty ones dropped, in order. */
  function NonEmpty(out: seq<string>): seq<string> {
    if out == [] then []
    else NonEmpty(out[..|out| - 1]) + (if out[|out| - 1] != "" then [out[|out| - 1]] else [])
  }

  /** The text of a module's file. */
  function ModuleText(f: Format, tableOfContents: bool, m: ModuleRecord): string {
    Join("\n", NonEmpty(RenderAll(Formatter(f), ModuleHooks(m, tableOfContents))))
  }

  lemma FunctionListHooksSnoc(funcs: seq<FunctionRecord>, i: int, prefix: string, indent: int)
    requires 0 <= i < |funcs|
    ensures FunctionListHooks(funcs[..i + 1], prefix, indent)
            == FunctionListHooks(funcs[..i], prefix, indent) + FunctionHooks(funcs[i], prefix, indent)
  {
    assert funcs[..i + 1][..i] == funcs[..i];
  }

  lemma TocClassesHooksSnoc(classes: seq<ClassRecord>, i: int, moduleName: string)
    requires 0 <= i < |classes|
    ensures TocClassesHooks(classes[..i + 1], moduleName) == TocClassesHooks(classes[..i], moduleName) + TocClassHooks(classes[i], moduleName)
  {
    assert classes[..i + 1][..i] == classes[..i];
  }

  lemma ClassesHooksSnoc(classes: seq<ClassRecord>, i: int, moduleName: string)
    requires 0 <= i < |classes|
    ensures ClassesHooks(classes[..i + 1], moduleName) == ClassesHooks(classes[..i], moduleName) + ClassHooks(classes[i], moduleName)
  {
    assert classes[..i + 1][..i] == classes[..i];
  }

  // ---------------------------------------------------------------------------
  // The walk, step by step
  // ---------------------------------------------------------------------------

  /** The `out` list of `export`, which `_format_functions` appends to in
      place, with the formatter `ft` whose hooks produce the fragments;
      `hooks` records the calls that produced them. */
  class Output {
    const ft: Hook -> string
    var out: seq<string>
    ghost var hooks: seq<Hook>

    /** One fragment per recorded hook call, in call order. */
    ghost predicate Valid()
      reads this
    {
      |out| == |hooks| && forall k :: 0 <= k < |hooks| ==> out[k] == ft(hooks[k])
    }

    constructor (formatter: Hook -> string)
      ensures ft == formatter && hooks == [] && Valid()
    {
      ft := formatter;
      out := [];
      hooks := [];
    }

    /** `out.append(ft.<hook>(...))`. */
    method Append(h: Hook)
      requires Valid()
      modifies this
      ensures Valid() && hooks == old(hooks) + [h]
    {
      out := out + [ft(h)];
      hooks := hooks + [h];
    }

    /** `_format_functions(out, ft, funcs, cls, indent)`; the class argument is
        replaced by the prefix string it supplies. */
    method FormatFunctions(funcs: seq<FunctionRecord>, prefix: string, indent: int)
      requires Valid()
      modifies this
      ensures Valid() && hooks == old(hooks) + FunctionsHooks(funcs, prefix, indent)
    {
      ghost var o0 := hooks;
      Append(FunctionBlockStart);
      ghost var start := hooks;
      for i := 0 to |funcs|
        invariant Valid() && hooks == start + FunctionListHooks(funcs[..i], prefix, indent)
      {
        Function(funcs[i], prefix, indent);
        FunctionListHooksSnoc(funcs, i, prefix, indent);
        AppendAssoc(start, FunctionListHooks(funcs[..i], prefix, indent), FunctionHooks(funcs[i], prefix, indent));
      }
      assert funcs[..|funcs|] == funcs;
      Append(FunctionBlockEnd);
      AppendAssoc(o0, [FunctionBlockStart], FunctionListHooks(funcs, prefix, indent));
      AppendAssoc(o0, [FunctionBlockStart] + FunctionListHooks(funcs, prefix, indent), [FunctionBlockEnd]);
    }

    /** The body of the function loop of `_format_functions`, for one function. */
    method Function(func: FunctionRecord, prefix: string, indent: int)
      requires Valid()
      modifies this
      ensures Valid() && hooks == old(hooks) + FunctionHooks(func, prefix, indent)
    {
      ghost var before := hooks;
      Append(FunctionStart);
      Append(FunctionSignature(func.name, func.params, prefix, indent));
      Append(FunctionBodyStart);
      Append(FunctionDoc(func.doc, indent + 1));
      Append(FunctionParameters(func.params, indent + 1));
      assert hooks == before + FunctionHead(func, prefix, indent);
      if func.ret != "" {
        Append(FunctionReturn(func.ret, indent + 1));
      } else {
        assert hooks + [] == hooks;
      }
      AppendAssoc(before, FunctionHead(func, prefix, indent), ReturnLine(func, indent));
      ghost var middle := hooks;
      Append(FunctionBodyEnd);
      Append(FunctionEnd);
      assert hooks == middle + [FunctionBodyEnd, FunctionEnd];
      AppendAssoc(before, FunctionHead(func, prefix, indent) + ReturnLine(func, indent), [FunctionBodyEnd, FunctionEnd]);
    }

    /** The table-of-contents part of `export`. */
    method TableOfContents(mod: ModuleRecord)
      requires Valid()
      modifies this
      ensures Valid() && hooks == old(hooks) + TocHooks(mod)
    {
      ghost var o0 := hooks;
      Append(TocStart);
      Append(TocTitle);
      Append(TocBodyStart);
      ghost var acc := TocHead();
      assert hooks == o0 + acc;
      TocFunctions(mod.functions, false, mod.name, 1);
      AppendAssoc(o0, acc, TocFunctionHooks(mod.functions, false, mod.name, 1));
      acc := acc + TocFunctionHooks(mod.functions, false, mod.name, 1);
      ghost var start := hooks;
      for i := 0 to |mod.classes|
        invariant Valid() && hooks == start + TocClassesHooks(mod.classes[..i], mod.name)
      {
        TocClassesHooksSnoc(mod.classes, i, mod.name);
        TocClassEntries(mod.classes[i], mod.name);
        AppendAssoc(start, TocClassesHooks(mod.classes[..i], mod.name), TocClassHooks(mod.classes[i], mod.name));
      }
      assert mod.classes[..|mod.classes|] == mod.classes;
      AppendAssoc(o0, acc, TocClassesHooks(mod.classes, mod.name));
      acc := acc + TocClassesHooks(mod.classes, mod.name);
      Append(TocBodyEnd);
      Append(TocEnd);
      AppendAssoc(o0, acc, [TocBodyEnd, TocEnd]);
    }

    /** The table-of-contents entries of one class. */
    method TocClassEntries(cls: ClassRecord, moduleName: string)
      requires Valid()
      modifies this
      ensures Valid() && hooks == old(hooks) + TocClassHooks(cls, moduleName)
    {
      ghost var o0 := hooks;
      Append(TocClass(cls.name, moduleName, 1));
      Append(TocClassStart);
      ghost var acc := TocClassHead(cls, moduleName);
      assert hooks == o0 + acc;
      TocConstants(cls.constants, cls.name, 2);
      AppendAssoc(o0, acc, TocConstantHooks(cls.constants, cls.name, 2));
      acc := acc + TocConstantHooks(cls.constants, cls.name, 2);
      TocFunctions(cls.staticMethods, true, cls.name, 2);
      AppendAssoc(o0, acc, TocFunctionHooks(cls.staticMethods, true, cls.name, 2));
      acc := acc + TocFunctionHooks(cls.staticMethods, true, cls.name, 2);
      TocFunctions(cls.methods, false, cls.name, 2);
      AppendAssoc(o0, acc, TocFunctionHooks(cls.methods, false, cls.name, 2));
      acc := acc + TocFunctionHooks(cls.methods, false, cls.name, 2);
      Append(TocClassEnd);
      AppendAssoc(o0, acc, [TocClassEnd]);
    }

    /** One `for func in ...: out.append(ft.table_of_contents_function(...))` loop. */
    method TocFunctions(fs: seq<FunctionRecord>, isStatic: bool, prefix: string, indent: int)
      requires Valid()
      modifies this
      ensures Valid() && hooks == old(hooks) + TocFunctionHooks(fs, isStatic, prefix, indent)
    {
      ghost var start := hooks;
      for i := 0 to |fs|
        invariant Valid() && hooks == start + TocFunctionHooks(fs[..i], isStatic, prefix, indent)
      {
        assert fs[..i + 1][..i] == fs[..i];
        Append(TocFunction(fs[i].name, isStatic, prefix, indent));
      }
      assert fs[..|fs|] == fs;
    }

    /** The `for const in cls['constants']` loop of the table of contents. */
    method TocConstants(cs: seq<Constant>, prefix: string, indent: int)
      requires Valid()
      modifies this
      ensures Valid() && hooks == old(hooks) + TocConstantHooks(cs, prefix, indent)
    {
      ghost var start := hooks;
      for i := 0 to |cs|
        invariant Valid() && hooks == start + TocConstantHooks(cs[..i], prefix, indent)
      {
        assert cs[..i + 1][..i] == cs[..i];
        Append(TocConstant(cs[i].name, prefix, indent));
      }
      assert cs[..|cs|] == cs;
    }

    /** The `for cls in mod['classes']` loop of the body of `export`. */
    method Classes(classes: seq<ClassRecord>, moduleName: string)
      requires Valid()
      modifies this
      ensures Valid() && hooks == old(hooks) + ClassesHooks(classes, moduleName)
    {
      ghost var start := hooks;
      for i := 0 to |classes|
        invariant Valid() && hooks == start + ClassesHooks(classes[..i], moduleName)
      {
        ClassesHooksSnoc(classes, i, moduleName);
        Class(classes[i], moduleName);
        AppendAssoc(start, ClassesHooks(classes[..i], moduleName), ClassHooks(classes[i], moduleName));
      }
      assert classes[..|classes|] == classes;
    }

    /** A class's constants section, when it has constants. */
    method ConstantsPart(cls: ClassRecord)
      requires Valid()
      modifies this
      ensures Valid() && hooks == old(hooks) + ConstantsSection(cls)
    {
      if cls.constants != [] {
        ghost var o0 := hooks;
        Append(ConstantsTitle(2));
        Append(ConstantsStart);
        ghost var start := hooks;
        for i := 0 to |cls.constants|
          invariant Valid() && hooks == start + ConstantHooks(cls.constants[..i], cls.name, 3)
        {
          var const_ := cls.constants[i];
          assert cls.constants[..i + 1][..i] == cls.constants[..i];
          Append(ClassConstant(const_.name, const_.value, cls.name, 3));
        }
        assert cls.constants[..|cls.constants|] == cls.constants;
        assert start == o0 + [ConstantsTitle(2), ConstantsStart];
        AppendAssoc(o0, [ConstantsTitle(2), ConstantsStart], ConstantHooks(cls.constants, cls.name, 3));
        Append(ConstantsEnd);
        AppendAssoc(o0, [ConstantsTitle(2), ConstantsStart] + ConstantHooks(cls.constants, cls.name, 3), [ConstantsEnd]);
      } else {
        assert hooks + [] == hooks;
      }
    }

    /** A class's static-methods section, when it has static methods. */
    method StaticPart(cls: ClassRecord)
      requires Valid()
      modifies this
      ensures Valid() && hooks == old(hooks) + StaticSection(cls)
    {
      if cls.staticMethods != [] {
        ghost var o0 := hooks;
        Append(StaticTitle(2));
        FormatFunctions(cls.staticMethods, cls.name, 3);
        AppendAssoc(o0, [StaticTitle(2)], FunctionsHooks(cls.staticMethods, cls.name, 3));
      } else {
        assert hooks + [] == hooks;
      }
    }

    /** A class's methods section, when it has methods. */
    method MethodsPart(cls: ClassRecord)
      requires Valid()
      modifies this
      ensures Valid() && hooks == old(hooks) + MethodsSection(cls)
    {
      if cls.methods != [] {
        ghost var o0 := hooks;
        Append(MethodsTitle(2));
        FormatFunctions(cls.methods, cls.name, 3);
        AppendAssoc(o0, [MethodsTitle(2)], FunctionsHooks(cls.methods, cls.name, 3));
      } else {
        assert hooks + [] == hooks;
      }
    }

    /** The body of the class loop of `export`, for one class. */
    method Class(cls: ClassRecord, moduleName: string)
      requires Valid()
      modifies this
      ensures Valid() && hooks == old(hooks) + ClassHooks(cls, moduleName)
    {
      ghost var o0 := hooks;
      Append(ClassStart);
      Append(ClassTitle(cls.name, moduleName, 1));
      Append(ClassBodyStart);
      Append(ClassDoc(cls.doc, 2));
      ghost var acc := ClassHead(cls, moduleName);
      assert hooks == o0 + acc;
      ConstantsPart(cls);
      AppendAssoc(o0, acc, ConstantsSection(cls));
      acc := acc + ConstantsSection(cls);
      StaticPart(cls);
      AppendAssoc(o0, acc, StaticSection(cls));
      acc := acc + StaticSection(cls);
      MethodsPart(cls);
      AppendAssoc(o0, acc, MethodsSection(cls));
      acc := acc + MethodsSection(cls);
      ghost var o1 := hooks;
      Append(ClassBodyEnd);
      Append(ClassEnd);
      assert hooks == o1 + [ClassBodyEnd, ClassEnd];
      AppendAssoc(o0, acc, [ClassBodyEnd, ClassEnd]);
    }
  }

  /** The `# clean empty str` loop of `export`. */
  method DropEmpty(out: seq<string>) returns (cleaned: seq<string>)
    ensures cleaned == NonEmpty(out)
  {
    cleaned := [];
    for i := 0 to |out|
      invariant cleaned == NonEmpty(out[..i])
    {
      assert out[..i + 1][..i] == out[..i];
      if out[i] != "" {
        cleaned := cleaned + [out[i]];
      }
    }
    assert out[..|out|] == out;
  }

  /** The body of `export`'s loop for one module: the fragments in walk
      order, the empty ones dropped, the rest joined with line breaks. */
  method ExportModule(f: Format, tableOfContents: bool, mod: ModuleRecord) returns (text: string)
    ensures text == ModuleText(f, tableOfContents, mod)
  {
    var o := new Output(Formatter(f));
    o.Append(TopOfFile);
    o.Append(ModuleTitle(mod.name));
    o.Append(ModuleStart);
    o.Append(ModuleDoc(mod.doc, 1));
    ghost var acc := ModuleHead(mod);
    assert o.hooks == acc;
    if tableOfContents {
      o.TableOfContents(mod);
    } else {
      assert acc + [] == acc;
    }
    acc := acc + (if tableOfContents then TocHooks(mod) else []);
    assert o.hooks == acc;
    if mod.functions != [] {
      o.FormatFunctions(mod.functions, mod.name, 1);
    } else {
      assert acc + [] == acc;
    }
    acc := acc + (if mod.functions != [] then FunctionsHooks(mod.functions, mod.name, 1) else []);
    assert o.hooks == acc;
    o.Classes(mod.classes, mod.name);
    acc := acc + ClassesHooks(mod.classes, mod.name);
    o.Append(ModuleEnd);
    assert o.hooks == acc + [ModuleEnd];
    assert o.hooks == ModuleHooks(mod, tableOfContents);
    RenderAllOf(o.ft, o.hooks, o.out);
    var cleaned := DropEmpty(o.out);
    text := Join("\n", cleaned);
  }

  /** `export`'s loop over the collected modules: one text per file path. */
  method Export(f: Format, tableOfContents: bool, collected: map<string, ModuleRecord>)
    returns (formatted: map<string, string>)
    ensures formatted.Keys == collected.Keys
    ensures forall p :: p in collected ==> formatted[p] == ModuleText(f, tableOfContents, collected[p])
  {
    formatted := map[];
    var remaining := collected.Keys;
    while remaining != {}
      invariant remaining <= collected.Keys
      invariant formatted.Keys == collected.Keys - remaining
      invariant forall p :: p in formatted ==> formatted[p] == ModuleText(f, tableOfContents, collected[p])
      decreases remaining
    {
      var filePath :| filePath in remaining;
      var text := ExportModule(f, tableOfContents, collected[filePath]);
      formatted := formatted[filePath := text];
      remaining := remaining - {filePath};
    }
  }
}
