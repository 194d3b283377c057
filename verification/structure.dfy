/** What the assembled document looks like: the table of contents lists
    exactly the entities the body defines an anchor for, in the same order;
    a class shows a section title only for a non-empty section; a function
    shows a return line only for a non-empty return text; and the file
    keeps every non-empty fragment, in order. */
module DocumentStructure {
  import opened Text
  import opened Entities
  import opened Render
  import opened Assembly

  // ---------------------------------------------------------------------------
  // Views of a hook sequence
  // ---------------------------------------------------------------------------

  /** Something the document can link to: `prefix.name`. */
  datatype Entity = FunctionEntity(prefix: string, name: string)
                  | ClassEntity(prefix: string, name: string)
                  | ConstantEntity(prefix: string, name: string)

  /** The entity a table-of-contents entry links to. */
  function TocEntry(h: Hook): seq<Entity> {
    match h
    case TocFunction(name, _, prefix, _) => [FunctionEntity(prefix, name)]
    case TocClass(name, prefix, _) => [ClassEntity(prefix, name)]
    case TocConstant(name, prefix, _) => [ConstantEntity(prefix, name)]
    case _ => []
  }

  /** The entity a body fragment defines an anchor for. */
  function Anchor(h: Hook): seq<Entity> {
    match h
    case FunctionSignature(name, _, prefix, _) => [FunctionEntity(prefix, name)]
    case ClassTitle(title, prefix, _) => [ClassEntity(prefix, title)]
    case ClassConstant(name, _, prefix, _) => [ConstantEntity(prefix, name)]
    case _ => []
  }

  /** The section titles of a class body. */
  function Title(h: Hook): seq<Hook> {
    if h.ConstantsTitle? || h.StaticTitle? || h.MethodsTitle? then [h] else []
  }

  /** The texts of return lines. */
  function ReturnText(h: Hook): seq<string> {
    if h.FunctionReturn? then [h.doc] else []
  }

  /** What a view picks out of a hook sequence, in order. */
  function Gather<T>(g: Hook -> seq<T>, hs: seq<Hook>): seq<T> {
    if hs == [] then [] else Gather(g, hs[..|hs| - 1]) + g(hs[|hs| - 1])
  }

  lemma {:induction false} GatherConcat<T>(g: Hook -> seq<T>, a: seq<Hook>, b: seq<Hook>)
    ensures Gather(g, a + b) == Gather(g, a) + Gather(g, b)
    decreases |b|
  {
    if b == [] {
      assert a + b == a;
    } else {
      assert (a + b)[..|a + b| - 1] == a + b[..|b| - 1];
      GatherConcat(g, a, b[..|b| - 1]);
    }
  }

  lemma GatherConcat3<T>(g: Hook -> seq<T>, a: seq<Hook>, b: seq<Hook>, c: seq<Hook>)
    ensures Gather(g, a + b + c) == Gather(g, a) + Gather(g, b) + Gather(g, c)
  {
    GatherConcat(g, a, b);
    GatherConcat(g, a + b, c);
  }

  lemma GatherConcat4<T>(g: Hook -> seq<T>, a: seq<Hook>, b: seq<Hook>, c: seq<Hook>, d: seq<Hook>)
    ensures Gather(g, a + b + c + d) == Gather(g, a) + Gather(g, b) + Gather(g, c) + Gather(g, d)
  {
    GatherConcat3(g, a, b, c);
    GatherConcat(g, a + b + c, d);
  }

  lemma GatherConcat5<T>(g: Hook -> seq<T>, a: seq<Hook>, b: seq<Hook>, c: seq<Hook>, d: seq<Hook>, e: seq<Hook>)
    ensures Gather(g, a + b + c + d + e) == Gather(g, a) + Gather(g, b) + Gather(g, c) + Gather(g, d) + Gather(g, e)
  {
    GatherConcat4(g, a, b, c, d);
    GatherConcat(g, a + b + c + d, e);
  }

  /** Sequence identities used by the view lemmas, proved apart from
      their large contexts. */
  lemma EmptyEnds<T>(x: seq<T>, y: seq<T>)
    ensures [] + x + y + [] == x + y
  {
  }

  lemma EmptyTail<T>(x: seq<T>)
    ensures [] + x + [] + [] + [] == x
  {
  }

  lemma EmptyEnds3<T>(x: seq<T>, y: seq<T>, z: seq<T>)
    ensures [] + x + y + z + [] == x + y + z
  {
  }

  lemma EmptyAfter<T>(x: seq<T>)
    ensures x + [] + [] == x
  {
  }

  lemma EmptyAround<T>(x: seq<T>)
    ensures [] + x + [] == x
  {
  }

  lemma GatherSingle<T>(g: Hook -> seq<T>, h: Hook)
    ensures Gather(g, [h]) == g(h)
  {
    assert [h][..0] == [];
  }

  lemma GatherDisplay2<T>(g: Hook -> seq<T>, h0: Hook, h1: Hook)
    ensures Gather(g, [h0, h1]) == g(h0) + g(h1)
  {
    assert [h0, h1][..1] == [h0];
    GatherSingle(g, h0);
  }

  lemma GatherDisplay3<T>(g: Hook -> seq<T>, h0: Hook, h1: Hook, h2: Hook)
    ensures Gather(g, [h0, h1, h2]) == g(h0) + g(h1) + g(h2)
  {
    assert [h0, h1, h2][..2] == [h0, h1];
    GatherDisplay2(g, h0, h1);
  }

  lemma GatherDisplay4<T>(g: Hook -> seq<T>, h0: Hook, h1: Hook, h2: Hook, h3: Hook)
    ensures Gather(g, [h0, h1, h2, h3]) == g(h0) + g(h1) + g(h2) + g(h3)
  {
    assert [h0, h1, h2, h3][..3] == [h0, h1, h2];
    GatherDisplay3(g, h0, h1, h2);
  }

  lemma GatherDisplay5<T>(g: Hook -> seq<T>, h0: Hook, h1: Hook, h2: Hook, h3: Hook, h4: Hook)
    ensures Gather(g, [h0, h1, h2, h3, h4]) == g(h0) + g(h1) + g(h2) + g(h3) + g(h4)
  {
    assert [h0, h1, h2, h3, h4][..4] == [h0, h1, h2, h3];
    GatherDisplay4(g, h0, h1, h2, h3);
  }

  // ---------------------------------------------------------------------------
  // The entities of a module, in document order
  // ---------------------------------------------------------------------------

  function FunctionEntities(fs: seq<FunctionRecord>, prefix: string): seq<Entity> {
    if fs == [] then [] else FunctionEntities(fs[..|fs| - 1], prefix) + [FunctionEntity(prefix, fs[|fs| - 1].name)]
  }

  function ConstantEntities(cs: seq<Constant>, prefix: string): seq<Entity> {
    if cs == [] then [] else ConstantEntities(cs[..|cs| - 1], prefix) + [ConstantEntity(prefix, cs[|cs| - 1].name)]
  }

  /** A class, then its constants, static methods and methods, each under the class name. */
  function ClassEntities(c: ClassRecord, moduleName: string): seq<Entity> {
    [ClassEntity(moduleName, c.name)]
    + ConstantEntities(c.constants, c.name)
    + FunctionEntities(c.staticMethods, c.name)
    + FunctionEntities(c.methods, c.name)
  }

  function ClassesEntities(cs: seq<ClassRecord>, moduleName: string): seq<Entity> {
    if cs == [] then [] else ClassesEntities(cs[..|cs| - 1], moduleName) + ClassEntities(cs[|cs| - 1], moduleName)
  }

  /** The module's functions under the module name, then its classes. */
  function ModuleEntities(m: ModuleRecord): seq<Entity> {
    FunctionEntities(m.functions, m.name) + ClassesEntities(m.classes, m.name)
  }

  /** The section titles a class body shows, in order. */
  function SectionTitles(c: ClassRecord): seq<Hook> {
    (if c.constants != [] then [ConstantsTitle(2)] else [])
    + (if c.staticMethods != [] then [StaticTitle(2)] else [])
    + (if c.methods != [] then [MethodsTitle(2)] else [])
  }

  // ---------------------------------------------------------------------------
  // Function blocks
  // ---------------------------------------------------------------------------

  /** A function's heading defines its anchor and links nowhere. */
  lemma FunctionHeadViews(fn: FunctionRecord, prefix: string, indent: int)
    ensures Gather(TocEntry, FunctionHead(fn, prefix, indent)) == []
    ensures Gather(Anchor, FunctionHead(fn, prefix, indent)) == [FunctionEntity(prefix, fn.name)]
  {
    var h1 := FunctionSignature(fn.name, fn.params, prefix, indent);
    var h3 := FunctionDoc(fn.doc, indent + 1);
    var h4 := FunctionParameters(fn.params, indent + 1);
    GatherDisplay5(TocEntry, FunctionStart, h1, FunctionBodyStart, h3, h4);
    GatherDisplay5(Anchor, FunctionStart, h1, FunctionBodyStart, h3, h4);
  }

  lemma FunctionHeadOthers(fn: FunctionRecord, prefix: string, indent: int)
    ensures Gather(Title, FunctionHead(fn, prefix, indent)) == []
    ensures Gather(ReturnText, FunctionHead(fn, prefix, indent)) == []
  {
    var h1 := FunctionSignature(fn.name, fn.params, prefix, indent);
    var h3 := FunctionDoc(fn.doc, indent + 1);
    var h4 := FunctionParameters(fn.params, indent + 1);
    GatherDisplay5(Title, FunctionStart, h1, FunctionBodyStart, h3, h4);
    GatherDisplay5(ReturnText, FunctionStart, h1, FunctionBodyStart, h3, h4);
  }

  lemma ReturnLineViews(fn: FunctionRecord, indent: int)
    ensures Gather(TocEntry, ReturnLine(fn, indent)) == []
    ensures Gather(Anchor, ReturnLine(fn, indent)) == []
    ensures Gather(Title, ReturnLine(fn, indent)) == []
    ensures Gather(ReturnText, ReturnLine(fn, indent)) == (if fn.ret != "" then [fn.ret] else [])
  {
    if fn.ret != "" {
      var h := FunctionReturn(fn.ret, indent + 1);
      GatherSingle(TocEntry, h);
      GatherSingle(Anchor, h);
      GatherSingle(Title, h);
      GatherSingle(ReturnText, h);
    }
  }

  lemma FunctionTailViews()
    ensures Gather(TocEntry, [FunctionBodyEnd, FunctionEnd]) == []
    ensures Gather(Anchor, [FunctionBodyEnd, FunctionEnd]) == []
    ensures Gather(Title, [FunctionBodyEnd, FunctionEnd]) == []
    ensures Gather(ReturnText, [FunctionBodyEnd, FunctionEnd]) == []
  {
    GatherDisplay2(TocEntry, FunctionBodyEnd, FunctionEnd);
    GatherDisplay2(Anchor, FunctionBodyEnd, FunctionEnd);
    GatherDisplay2(Title, FunctionBodyEnd, FunctionEnd);
    GatherDisplay2(ReturnText, FunctionBodyEnd, FunctionEnd);
  }

  /** A function of a block defines exactly its own anchor, `prefix.name`. */
  lemma FunctionHooksViews(fn: FunctionRecord, prefix: string, indent: int)
    ensures Gather(TocEntry, FunctionHooks(fn, prefix, indent)) == []
    ensures Gather(Anchor, FunctionHooks(fn, prefix, indent)) == [FunctionEntity(prefix, fn.name)]
    ensures Gather(Title, FunctionHooks(fn, prefix, indent)) == []
  {
    var a, r, t := FunctionHead(fn, prefix, indent), ReturnLine(fn, indent), [FunctionBodyEnd, FunctionEnd];
    FunctionHeadViews(fn, prefix, indent);
    FunctionHeadOthers(fn, prefix, indent);
    ReturnLineViews(fn, indent);
    FunctionTailViews();
    GatherConcat3(TocEntry, a, r, t);
    GatherConcat3(Anchor, a, r, t);
    GatherConcat3(Title, a, r, t);
    EmptyAfter<Entity>([]);
    EmptyAfter([FunctionEntity(prefix, fn.name)]);
    EmptyAfter<Hook>([]);
  }

  /** A function shows a return line exactly when its return text is non-empty. */
  lemma FunctionReturnLine(fn: FunctionRecord, prefix: string, indent: int)
    ensures Gather(ReturnText, FunctionHooks(fn, prefix, indent)) == (if fn.ret != "" then [fn.ret] else [])
    ensures FunctionReturn(fn.ret, indent + 1) in FunctionHooks(fn, prefix, indent) <==> fn.ret != ""
  {
    FunctionReturnGathered(fn, prefix, indent);
    FunctionReturnShown(fn, prefix, indent);
  }

  lemma FunctionReturnGathered(fn: FunctionRecord, prefix: string, indent: int)
    ensures Gather(ReturnText, FunctionHooks(fn, prefix, indent)) == (if fn.ret != "" then [fn.ret] else [])
  {
    var a, r, t := FunctionHead(fn, prefix, indent), ReturnLine(fn, indent), [FunctionBodyEnd, FunctionEnd];
    FunctionHeadOthers(fn, prefix, indent);
    ReturnLineViews(fn, indent);
    FunctionTailViews();
    GatherConcat3(ReturnText, a, r, t);
  }

  lemma FunctionReturnShown(fn: FunctionRecord, prefix: string, indent: int)
    ensures FunctionReturn(fn.ret, indent + 1) in FunctionHooks(fn, prefix, indent) <==> fn.ret != ""
  {
    var h := FunctionReturn(fn.ret, indent + 1);
    var a, r, t := FunctionHead(fn, prefix, indent), ReturnLine(fn, indent), [FunctionBodyEnd, FunctionEnd];
    assert h !in a;
    assert h !in t;
    assert h in r <==> fn.ret != "";
    assert h in a + r + t <==> h in r;
  }

  lemma {:induction false} FunctionListViews(fs: seq<FunctionRecord>, prefix: string, indent: int)
    ensures Gather(TocEntry, FunctionListHooks(fs, prefix, indent)) == []
    ensures Gather(Anchor, FunctionListHooks(fs, prefix, indent)) == FunctionEntities(fs, prefix)
    ensures Gather(Title, FunctionListHooks(fs, prefix, indent)) == []
    decreases |fs|
  {
    if fs != [] {
      var init := FunctionListHooks(fs[..|fs| - 1], prefix, indent);
      var last := FunctionHooks(fs[|fs| - 1], prefix, indent);
      FunctionListViews(fs[..|fs| - 1], prefix, indent);
      FunctionHooksViews(fs[|fs| - 1], prefix, indent);
      GatherConcat(TocEntry, init, last);
      GatherConcat(Anchor, init, last);
      GatherConcat(Title, init, last);
    }
  }

  lemma BlockEndsViews()
    ensures Gather(TocEntry, [FunctionBlockStart]) == [] && Gather(TocEntry, [FunctionBlockEnd]) == []
    ensures Gather(Anchor, [FunctionBlockStart]) == [] && Gather(Anchor, [FunctionBlockEnd]) == []
    ensures Gather(Title, [FunctionBlockStart]) == [] && Gather(Title, [FunctionBlockEnd]) == []
  {
    GatherSingle(TocEntry, FunctionBlockStart);
    GatherSingle(TocEntry, FunctionBlockEnd);
    GatherSingle(Anchor, FunctionBlockStart);
    GatherSingle(Anchor, FunctionBlockEnd);
    GatherSingle(Title, FunctionBlockStart);
    GatherSingle(Title, FunctionBlockEnd);
  }

  /** A block of functions defines the anchors of its functions, in order. */
  lemma FunctionsViews(fs: seq<FunctionRecord>, prefix: string, indent: int)
    ensures Gather(TocEntry, FunctionsHooks(fs, prefix, indent)) == []
    ensures Gather(Anchor, FunctionsHooks(fs, prefix, indent)) == FunctionEntities(fs, prefix)
    ensures Gather(Title, FunctionsHooks(fs, prefix, indent)) == []
  {
    var body := FunctionListHooks(fs, prefix, indent);
    FunctionListViews(fs, prefix, indent);
    BlockEndsViews();
    GatherConcat3(TocEntry, [FunctionBlockStart], body, [FunctionBlockEnd]);
    GatherConcat3(Anchor, [FunctionBlockStart], body, [FunctionBlockEnd]);
    GatherConcat3(Title, [FunctionBlockStart], body, [FunctionBlockEnd]);
  }

  // ---------------------------------------------------------------------------
  // Class bodies
  // ---------------------------------------------------------------------------

  lemma ConstantViews(cs: seq<Constant>, prefix: string, indent: int)
    ensures Gather(TocEntry, ConstantHooks(cs, prefix, indent)) == []
    ensures Gather(Anchor, ConstantHooks(cs, prefix, indent)) == ConstantEntities(cs, prefix)
    ensures Gather(Title, ConstantHooks(cs, prefix, indent)) == []
  {
    ConstantAnchors(cs, prefix, indent);
    ConstantNoEntries(cs, prefix, indent);
  }

  lemma {:induction false} ConstantAnchors(cs: seq<Constant>, prefix: string, indent: int)
    ensures Gather(Anchor, ConstantHooks(cs, prefix, indent)) == ConstantEntities(cs, prefix)
    decreases |cs|
  {
    if cs != [] {
      var init := ConstantHooks(cs[..|cs| - 1], prefix, indent);
      var h := ClassConstant(cs[|cs| - 1].name, cs[|cs| - 1].value, prefix, indent);
      ConstantAnchors(cs[..|cs| - 1], prefix, indent);
      GatherSingle(Anchor, h);
      GatherConcat(Anchor, init, [h]);
    }
  }

  lemma {:induction false} ConstantNoEntries(cs: seq<Constant>, prefix: string, indent: int)
    ensures Gather(TocEntry, ConstantHooks(cs, prefix, indent)) == []
    ensures Gather(Title, ConstantHooks(cs, prefix, indent)) == []
    decreases |cs|
  {
    if cs != [] {
      var init := ConstantHooks(cs[..|cs| - 1], prefix, indent);
      var h := ClassConstant(cs[|cs| - 1].name, cs[|cs| - 1].value, prefix, indent);
      ConstantNoEntries(cs[..|cs| - 1], prefix, indent);
      GatherSingle(TocEntry, h);
      GatherSingle(Title, h);
      GatherConcat(TocEntry, init, [h]);
      GatherConcat(Title, init, [h]);
    }
  }

  /** The constants section: its title, then one anchored entry per constant. */
  lemma ConstantsFrameViews()
    ensures Gather(TocEntry, [ConstantsTitle(2), ConstantsStart]) == [] && Gather(TocEntry, [ConstantsEnd]) == []
    ensures Gather(Anchor, [ConstantsTitle(2), ConstantsStart]) == [] && Gather(Anchor, [ConstantsEnd]) == []
    ensures Gather(Title, [ConstantsTitle(2), ConstantsStart]) == [ConstantsTitle(2)] && Gather(Title, [ConstantsEnd]) == []
  {
    GatherDisplay2(TocEntry, ConstantsTitle(2), ConstantsStart);
    GatherDisplay2(Anchor, ConstantsTitle(2), ConstantsStart);
    GatherDisplay2(Title, ConstantsTitle(2), ConstantsStart);
    GatherSingle(TocEntry, ConstantsEnd);
    GatherSingle(Anchor, ConstantsEnd);
    GatherSingle(Title, ConstantsEnd);
  }

  /** The constants section: its title, then one anchored entry per constant. */
  lemma ConstantsSectionViews(c: ClassRecord)
    ensures Gather(TocEntry, ConstantsSection(c)) == []
    ensures Gather(Anchor, ConstantsSection(c)) == ConstantEntities(c.constants, c.name)
    ensures Gather(Title, ConstantsSection(c)) == (if c.constants != [] then [ConstantsTitle(2)] else [])
  {
    if c.constants != [] {
      var a, b, d := [ConstantsTitle(2), ConstantsStart], ConstantHooks(c.constants, c.name, 3), [ConstantsEnd];
      ConstantViews(c.constants, c.name, 3);
      ConstantsFrameViews();
      GatherConcat3(TocEntry, a, b, d);
      GatherConcat3(Anchor, a, b, d);
      EmptyAround(ConstantEntities(c.constants, c.name));
      GatherConcat3(Title, a, b, d);
    }
  }

  /** A methods section (static or not): its title, then the block of methods. */
  lemma MethodSectionViews(title: Hook, fs: seq<FunctionRecord>, prefix: string)
    requires title == StaticTitle(2) || title == MethodsTitle(2)
    ensures Gather(TocEntry, [title] + FunctionsHooks(fs, prefix, 3)) == []
    ensures Gather(Anchor, [title] + FunctionsHooks(fs, prefix, 3)) == FunctionEntities(fs, prefix)
    ensures Gather(Title, [title] + FunctionsHooks(fs, prefix, 3)) == [title]
  {
    var b := FunctionsHooks(fs, prefix, 3);
    FunctionsViews(fs, prefix, 3);
    GatherSingle(TocEntry, title);
    GatherSingle(Anchor, title);
    GatherSingle(Title, title);
    GatherConcat(TocEntry, [title], b);
    GatherConcat(Anchor, [title], b);
    GatherConcat(Title, [title], b);
  }

  lemma StaticSectionViews(c: ClassRecord)
    ensures Gather(TocEntry, StaticSection(c)) == []
    ensures Gather(Anchor, StaticSection(c)) == FunctionEntities(c.staticMethods, c.name)
    ensures Gather(Title, StaticSection(c)) == (if c.staticMethods != [] then [StaticTitle(2)] else [])
  {
    if c.staticMethods != [] {
      MethodSectionViews(StaticTitle(2), c.staticMethods, c.name);
    }
  }

  lemma MethodsSectionViews(c: ClassRecord)
    ensures Gather(TocEntry, MethodsSection(c)) == []
    ensures Gather(Anchor, MethodsSection(c)) == FunctionEntities(c.methods, c.name)
    ensures Gather(Title, MethodsSection(c)) == (if c.methods != [] then [MethodsTitle(2)] else [])
  {
    if c.methods != [] {
      MethodSectionViews(MethodsTitle(2), c.methods, c.name);
    }
  }

  lemma ClassFrameViews(c: ClassRecord, moduleName: string)
    ensures Gather(TocEntry, ClassHead(c, moduleName)) == []
    ensures Gather(Anchor, ClassHead(c, moduleName)) == [ClassEntity(moduleName, c.name)]
    ensures Gather(Title, ClassHead(c, moduleName)) == []
    ensures Gather(TocEntry, [ClassBodyEnd, ClassEnd]) == []
    ensures Gather(Anchor, [ClassBodyEnd, ClassEnd]) == []
    ensures Gather(Title, [ClassBodyEnd, ClassEnd]) == []
  {
    ClassHeadAnchor(c, moduleName);
    ClassHeadOthers(c, moduleName);
    GatherDisplay2(TocEntry, ClassBodyEnd, ClassEnd);
    GatherDisplay2(Anchor, ClassBodyEnd, ClassEnd);
    GatherDisplay2(Title, ClassBodyEnd, ClassEnd);
  }

  lemma ClassHeadAnchor(c: ClassRecord, moduleName: string)
    ensures Gather(Anchor, ClassHead(c, moduleName)) == [ClassEntity(moduleName, c.name)]
  {
    GatherDisplay4(Anchor, ClassStart, ClassTitle(c.name, moduleName, 1), ClassBodyStart, ClassDoc(c.doc, 2));
  }

  lemma ClassHeadOthers(c: ClassRecord, moduleName: string)
    ensures Gather(TocEntry, ClassHead(c, moduleName)) == []
    ensures Gather(Title, ClassHead(c, moduleName)) == []
  {
    GatherDisplay4(TocEntry, ClassStart, ClassTitle(c.name, moduleName, 1), ClassBodyStart, ClassDoc(c.doc, 2));
    GatherDisplay4(Title, ClassStart, ClassTitle(c.name, moduleName, 1), ClassBodyStart, ClassDoc(c.doc, 2));
  }

  /** A class body defines the anchors of the class, its constants, its static
      methods and its methods, in that order. */
  lemma ClassHooksAnchors(c: ClassRecord, moduleName: string)
    ensures Gather(TocEntry, ClassHooks(c, moduleName)) == []
    ensures Gather(Anchor, ClassHooks(c, moduleName)) == ClassEntities(c, moduleName)
  {
    var a, b, d, e, t := ClassHead(c, moduleName), ConstantsSection(c), StaticSection(c), MethodsSection(c), [ClassBodyEnd, ClassEnd];
    ClassFrameViews(c, moduleName);
    ConstantsSectionViews(c);
    StaticSectionViews(c);
    MethodsSectionViews(c);
    GatherConcat5(TocEntry, a, b, d, e, t);
    GatherConcat5(Anchor, a, b, d, e, t);
  }

  /** A class body shows the title of a section exactly for its non-empty lists. */
  lemma ClassHooksTitles(c: ClassRecord, moduleName: string)
    ensures Gather(Title, ClassHooks(c, moduleName)) == SectionTitles(c)
  {
    var a, b, d, e, t := ClassHead(c, moduleName), ConstantsSection(c), StaticSection(c), MethodsSection(c), [ClassBodyEnd, ClassEnd];
    ClassFrameViews(c, moduleName);
    ConstantsSectionViews(c);
    StaticSectionViews(c);
    MethodsSectionViews(c);
    GatherConcat5(Title, a, b, d, e, t);
    var x, y, z := Gather(Title, b), Gather(Title, d), Gather(Title, e);
    assert Gather(Title, ClassHooks(c, moduleName)) == [] + x + y + z + [];
    EmptyEnds3(x, y, z);
  }

  lemma {:induction false} ClassesViews(cs: seq<ClassRecord>, moduleName: string)
    ensures Gather(TocEntry, ClassesHooks(cs, moduleName)) == []
    ensures Gather(Anchor, ClassesHooks(cs, moduleName)) == ClassesEntities(cs, moduleName)
    decreases |cs|
  {
    if cs != [] {
      var init := ClassesHooks(cs[..|cs| - 1], moduleName);
      var last := ClassHooks(cs[|cs| - 1], moduleName);
      ClassesViews(cs[..|cs| - 1], moduleName);
      ClassHooksAnchors(cs[|cs| - 1], moduleName);
      GatherConcat(TocEntry, init, last);
      GatherConcat(Anchor, init, last);
    }
  }

  // ---------------------------------------------------------------------------
  // The table of contents
  // ---------------------------------------------------------------------------

  lemma {:induction false} TocFunctionViews(fs: seq<FunctionRecord>, isStatic: bool, prefix: string, indent: int)
    ensures Gather(TocEntry, TocFunctionHooks(fs, isStatic, prefix, indent)) == FunctionEntities(fs, prefix)
    ensures Gather(Anchor, TocFunctionHooks(fs, isStatic, prefix, indent)) == []
    decreases |fs|
  {
    if fs != [] {
      var init := TocFunctionHooks(fs[..|fs| - 1], isStatic, prefix, indent);
      var h := TocFunction(fs[|fs| - 1].name, isStatic, prefix, indent);
      TocFunctionViews(fs[..|fs| - 1], isStatic, prefix, indent);
      GatherSingle(TocEntry, h);
      GatherSingle(Anchor, h);
      GatherConcat(TocEntry, init, [h]);
      GatherConcat(Anchor, init, [h]);
    }
  }

  lemma {:induction false} TocConstantViews(cs: seq<Constant>, prefix: string, indent: int)
    ensures Gather(TocEntry, TocConstantHooks(cs, prefix, indent)) == ConstantEntities(cs, prefix)
    ensures Gather(Anchor, TocConstantHooks(cs, prefix, indent)) == []
    decreases |cs|
  {
    if cs != [] {
      var init := TocConstantHooks(cs[..|cs| - 1], prefix, indent);
      var h := TocConstant(cs[|cs| - 1].name, prefix, indent);
      TocConstantViews(cs[..|cs| - 1], prefix, indent);
      GatherSingle(TocEntry, h);
      GatherSingle(Anchor, h);
      GatherConcat(TocEntry, init, [h]);
      GatherConcat(Anchor, init, [h]);
    }
  }

  lemma TocFrameViews(c: ClassRecord, moduleName: string)
    ensures Gather(TocEntry, TocClassHead(c, moduleName)) == [ClassEntity(moduleName, c.name)]
    ensures Gather(Anchor, TocClassHead(c, moduleName)) == []
    ensures Gather(TocEntry, [TocClassEnd]) == [] && Gather(Anchor, [TocClassEnd]) == []
  {
    GatherDisplay2(TocEntry, TocClass(c.name, moduleName, 1), TocClassStart);
    GatherDisplay2(Anchor, TocClass(c.name, moduleName, 1), TocClassStart);
    GatherSingle(TocEntry, TocClassEnd);
    GatherSingle(Anchor, TocClassEnd);
  }

  /** A class's TOC entry links to the class, its constants, its static methods
      and its methods, in that order. */
  lemma TocClassViews(c: ClassRecord, moduleName: string)
    ensures Gather(TocEntry, TocClassHooks(c, moduleName)) == ClassEntities(c, moduleName)
    ensures Gather(Anchor, TocClassHooks(c, moduleName)) == []
  {
    var a := TocClassHead(c, moduleName);
    var b := TocConstantHooks(c.constants, c.name, 2);
    var d := TocFunctionHooks(c.staticMethods, true, c.name, 2);
    var e := TocFunctionHooks(c.methods, false, c.name, 2);
    TocFrameViews(c, moduleName);
    TocConstantViews(c.constants, c.name, 2);
    TocFunctionViews(c.staticMethods, true, c.name, 2);
    TocFunctionViews(c.methods, false, c.name, 2);
    GatherConcat5(TocEntry, a, b, d, e, [TocClassEnd]);
    GatherConcat5(Anchor, a, b, d, e, [TocClassEnd]);
  }

  lemma {:induction false} TocClassesViews(cs: seq<ClassRecord>, moduleName: string)
    ensures Gather(TocEntry, TocClassesHooks(cs, moduleName)) == ClassesEntities(cs, moduleName)
    ensures Gather(Anchor, TocClassesHooks(cs, moduleName)) == []
    decreases |cs|
  {
    if cs != [] {
      var init := TocClassesHooks(cs[..|cs| - 1], moduleName);
      var last := TocClassHooks(cs[|cs| - 1], moduleName);
      TocClassesViews(cs[..|cs| - 1], moduleName);
      TocClassViews(cs[|cs| - 1], moduleName);
      GatherConcat(TocEntry, init, last);
      GatherConcat(Anchor, init, last);
    }
  }

  lemma TocEndsViews()
    ensures Gather(TocEntry, TocHead()) == [] && Gather(Anchor, TocHead()) == []
    ensures Gather(TocEntry, [TocBodyEnd, TocEnd]) == [] && Gather(Anchor, [TocBodyEnd, TocEnd]) == []
  {
    GatherDisplay3(TocEntry, TocStart, TocTitle, TocBodyStart);
    GatherDisplay3(Anchor, TocStart, TocTitle, TocBodyStart);
    GatherDisplay2(TocEntry, TocBodyEnd, TocEnd);
    GatherDisplay2(Anchor, TocBodyEnd, TocEnd);
  }

  /** The table of contents links to every entity of the module, in document
      order, and defines no anchor of its own. */
  lemma TocViews(m: ModuleRecord)
    ensures Gather(TocEntry, TocHooks(m)) == ModuleEntities(m)
    ensures Gather(Anchor, TocHooks(m)) == []
  {
    var a, b, c, d := TocHead(), TocFunctionHooks(m.functions, false, m.name, 1), TocClassesHooks(m.classes, m.name), [TocBodyEnd, TocEnd];
    TocEndsViews();
    TocFunctionViews(m.functions, false, m.name, 1);
    TocClassesViews(m.classes, m.name);
    GatherConcat4(TocEntry, a, b, c, d);
    var fe, ce := FunctionEntities(m.functions, m.name), ClassesEntities(m.classes, m.name);
    assert Gather(TocEntry, TocHooks(m)) == [] + fe + ce + [];
    EmptyEnds(fe, ce);
    GatherConcat4(Anchor, a, b, c, d);
  }

  // ---------------------------------------------------------------------------
  // The module file
  // ---------------------------------------------------------------------------

  lemma ModuleFrameViews(m: ModuleRecord)
    ensures Gather(TocEntry, ModuleHead(m)) == [] && Gather(Anchor, ModuleHead(m)) == []
    ensures Gather(TocEntry, [ModuleEnd]) == [] && Gather(Anchor, [ModuleEnd]) == []
  {
    GatherDisplay4(TocEntry, TopOfFile, ModuleTitle(m.name), ModuleStart, ModuleDoc(m.doc, 1));
    GatherDisplay4(Anchor, TopOfFile, ModuleTitle(m.name), ModuleStart, ModuleDoc(m.doc, 1));
    GatherSingle(TocEntry, ModuleEnd);
    GatherSingle(Anchor, ModuleEnd);
  }

  /** The optional parts of a module file: the table of contents when asked
      for, the block of module functions when there is one. */
  lemma ModuleOptionalViews(m: ModuleRecord, tableOfContents: bool)
    ensures Gather(TocEntry, if tableOfContents then TocHooks(m) else []) == (if tableOfContents then ModuleEntities(m) else [])
    ensures Gather(Anchor, if tableOfContents then TocHooks(m) else []) == []
    ensures Gather(TocEntry, if m.functions != [] then FunctionsHooks(m.functions, m.name, 1) else []) == []
    ensures Gather(Anchor, if m.functions != [] then FunctionsHooks(m.functions, m.name, 1) else []) == FunctionEntities(m.functions, m.name)
  {
    if tableOfContents {
      TocViews(m);
    }
    if m.functions != [] {
      FunctionsViews(m.functions, m.name, 1);
    }
  }

  /** The body of a module file defines an anchor for every entity of the
      module, in document order: its functions, then each class with its
      constants, static methods and methods. */
  lemma ModuleAnchors(m: ModuleRecord, tableOfContents: bool)
    ensures Gather(Anchor, ModuleHooks(m, tableOfContents)) == ModuleEntities(m)
  {
    var a, t := ModuleHead(m), if tableOfContents then TocHooks(m) else [];
    var fb, cb, e := if m.functions != [] then FunctionsHooks(m.functions, m.name, 1) else [], ClassesHooks(m.classes, m.name), [ModuleEnd];
    ModuleFrameViews(m);
    ModuleOptionalViews(m, tableOfContents);
    ClassesViews(m.classes, m.name);
    GatherConcat5(Anchor, a, t, fb, cb, e);
    var fe, ce := FunctionEntities(m.functions, m.name), ClassesEntities(m.classes, m.name);
    assert Gather(Anchor, ModuleHooks(m, tableOfContents)) == [] + [] + fe + ce + [];
    EmptyEnds(fe, ce);
  }

  /** A module file's table-of-contents entries: every entity of the module,
      in document order, when the table is asked for, and none otherwise. */
  lemma ModuleTocEntries(m: ModuleRecord, tableOfContents: bool)
    ensures Gather(TocEntry, ModuleHooks(m, tableOfContents)) == (if tableOfContents then ModuleEntities(m) else [])
  {
    var a, t := ModuleHead(m), if tableOfContents then TocHooks(m) else [];
    var fb, cb, e := if m.functions != [] then FunctionsHooks(m.functions, m.name, 1) else [], ClassesHooks(m.classes, m.name), [ModuleEnd];
    ModuleFrameViews(m);
    ModuleOptionalViews(m, tableOfContents);
    ClassesViews(m.classes, m.name);
    GatherConcat5(TocEntry, a, t, fb, cb, e);
    var te := if tableOfContents then ModuleEntities(m) else [];
    assert Gather(TocEntry, ModuleHooks(m, tableOfContents)) == [] + te + [] + [] + [];
    EmptyTail(te);
  }

  /** With a table of contents, its entries and the body's anchors are the same
      entities in the same order: every link has a target, every target a link. */
  lemma TocMatchesBody(m: ModuleRecord)
    ensures Gather(TocEntry, ModuleHooks(m, true)) == Gather(Anchor, ModuleHooks(m, true))
    ensures Gather(Anchor, ModuleHooks(m, true)) == Gather(Anchor, ModuleHooks(m, false))
  {
    ModuleTocEntries(m, true);
    ModuleAnchors(m, true);
    ModuleAnchors(m, false);
  }

  // ---------------------------------------------------------------------------
  // Section titles and return lines
  // ---------------------------------------------------------------------------

  /** A section title is among the titles gathered from a walk exactly when the walk holds it. */
  lemma {:induction false} TitleMembers(hs: seq<Hook>, x: Hook)
    requires Title(x) == [x]
    ensures x in Gather(Title, hs) <==> x in hs
    decreases |hs|
  {
    if hs != [] {
      var init, last := hs[..|hs| - 1], hs[|hs| - 1];
      TitleMembers(init, x);
      assert hs == init + [last];
    }
  }

  /** A section title `x` is in a class body exactly when the section's list
      is non-empty (`shown`). */
  lemma SectionShown(c: ClassRecord, moduleName: string, x: Hook, shown: bool)
    requires || (x == ConstantsTitle(2) && shown == (c.constants != []))
             || (x == StaticTitle(2) && shown == (c.staticMethods != []))
             || (x == MethodsTitle(2) && shown == (c.methods != []))
    ensures x in ClassHooks(c, moduleName) <==> shown
  {
    TitleMembers(ClassHooks(c, moduleName), x);
    ClassHooksTitles(c, moduleName);
    SectionTitlesMembers(c);
  }

  lemma SectionTitlesMembers(c: ClassRecord)
    ensures ConstantsTitle(2) in SectionTitles(c) <==> c.constants != []
    ensures StaticTitle(2) in SectionTitles(c) <==> c.staticMethods != []
    ensures MethodsTitle(2) in SectionTitles(c) <==> c.methods != []
  {
    var p := if c.constants != [] then [ConstantsTitle(2)] else [];
    var q := if c.staticMethods != [] then [StaticTitle(2)] else [];
    var r := if c.methods != [] then [MethodsTitle(2)] else [];
    assert SectionTitles(c) == p + q + r;
    assert forall x :: x in p + q + r <==> x in p || x in q || x in r;
  }

  /** A class body has a "Constants", a "Static Methods" or a "Methods" title
      exactly when the class has constants, static methods or methods. */
  lemma ClassSectionsShown(c: ClassRecord, moduleName: string)
    ensures ConstantsTitle(2) in ClassHooks(c, moduleName) <==> c.constants != []
    ensures StaticTitle(2) in ClassHooks(c, moduleName) <==> c.staticMethods != []
    ensures MethodsTitle(2) in ClassHooks(c, moduleName) <==> c.methods != []
  {
    SectionShown(c, moduleName, ConstantsTitle(2), c.constants != []);
    SectionShown(c, moduleName, StaticTitle(2), c.staticMethods != []);
    SectionShown(c, moduleName, MethodsTitle(2), c.methods != []);
  }

  // ---------------------------------------------------------------------------
  // The file text
  // ---------------------------------------------------------------------------

  /** Dropping empty fragments works piecewise. */
  lemma {:induction false} NonEmptyConcat(a: seq<string>, b: seq<string>)
    ensures NonEmpty(a + b) == NonEmpty(a) + NonEmpty(b)
    decreases |b|
  {
    if b == [] {
      assert a + b == a;
    } else {
      assert (a + b)[..|a + b| - 1] == a + b[..|b| - 1];
      NonEmptyConcat(a, b[..|b| - 1]);
    }
  }

  /** The kept fragments are exactly the non-empty ones. */
  lemma {:induction false} NonEmptyMembers(out: seq<string>, x: string)
    ensures x in NonEmpty(out) <==> x in out && x != ""
    decreases |out|
  {
    if out != [] {
      NonEmptyMembers(out[..|out| - 1], x);
      assert out == out[..|out| - 1] + [out[|out| - 1]];
    }
  }

  /** Nothing is dropped from a list without empty fragments. */
  lemma {:induction false} NonEmptyKeepsAll(out: seq<string>)
    requires forall k :: 0 <= k < |out| ==> out[k] != ""
    ensures NonEmpty(out) == out
    decreases |out|
  {
    if out != [] {
      NonEmptyKeepsAll(out[..|out| - 1]);
      assert out == out[..|out| - 1] + [out[|out| - 1]];
    }
  }
}
