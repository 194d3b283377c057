/** What the collector keeps. Python's reflection (`getmembers`, `signature`,
    `isfunction`, `callable`, the class `__dict__`, `__module__`) is replaced
    by input records that carry its answers; the decisions taken on them are
    those of `_collect_function_info`, `_collect_class_info`,
    `_collect_module_info` and `_is_method_excluded`. A missing docstring is
    the empty string. */
module Collect {
  import opened Text
  import opened Entities
  import opened Directives
  import opened FunctionDocs

  const EXCLUDE := "exclude"
  const EXCLUDE_CHILDREN := "exclude_children"

  /** A parameter as `inspect.signature` reports it. */
  datatype SigParam = SigParam(name: string, kind: ParamKind, default: Option<Value>)

  /** A function object: `__name__`, `__doc__` and its signature. */
  datatype FunctionInfo = FunctionInfo(name: string, doc: string, params: seq<SigParam>)

  /** What a class attribute is: a function or method (`isfunction` or
      `ismethod`), some other callable, or a plain value. */
  datatype MemberKind = Routine(info: FunctionInfo) | OtherCallable | Data(value: Value)

  /** One `(name, member)` pair of `getmembers(cls)`, with whether the name is
      in the class's own `__dict__` and whether that entry is a `staticmethod`. */
  datatype Member = Member(name: string, kind: MemberKind, inOwnDict: bool, isStatic: bool)

  datatype ClassInfo = ClassInfo(name: string, doc: string, members: seq<Member>)

  datatype ModuleMemberKind = ClassMember(cls: ClassInfo) | FunctionMember(func: FunctionInfo) | OtherMember

  /** One `(name, member)` pair of `getmembers(mod)`; `local` says that the
      member's `__module__` is the module's own name. */
  datatype ModuleMember = ModuleMember(name: string, kind: ModuleMemberKind, local: bool)

  datatype ModuleInfo = ModuleInfo(name: string, doc: string, members: seq<ModuleMember>)

  // ---------------------------------------------------------------------------
  // _is_method_excluded
  // ---------------------------------------------------------------------------

  /** `_is_method_excluded`: the first rule that applies decides. */
  function IsMethodExcluded(name: string, included: set<string>, excludeChildren: bool,
                            excludeMethods: ExcludeMethods): bool
  {
    if name in included then false
    else if excludeChildren then true
    else if excludeMethods.All? then true
    else if excludeMethods.Names? && name in excludeMethods.names then true
    else false
  }

  /** A method is excluded exactly when it is not named in `include_methods`
      and either all children are excluded, all methods are, or it is named
      in `exclude_methods`. */
  lemma IsMethodExcludedMeaning(name: string, included: set<string>, excludeChildren: bool,
                                excludeMethods: ExcludeMethods)
    ensures IsMethodExcluded(name, included, excludeChildren, excludeMethods) <==>
              name !in included
              && (excludeChildren || excludeMethods.All? || (excludeMethods.Names? && name in excludeMethods.names))
  {
  }

  // ---------------------------------------------------------------------------
  // _collect_function_info
  // ---------------------------------------------------------------------------

  /** A parameter's record: its doc is the text the docstring stores under its name. */
  function ParamRecord(p: SigParam, docs: map<string, string>): Param {
    Param(p.name, p.kind, p.default, if p.name in docs then Some(docs[p.name]) else None)
  }

  function ParamRecords(ps: seq<SigParam>, docs: map<string, string>): (rs: seq<Param>)
    ensures |rs| == |ps|
    ensures forall k :: 0 <= k < |ps| ==> rs[k] == ParamRecord(ps[k], docs)
  {
    if ps == [] then [] else ParamRecords(ps[..|ps| - 1], docs) + [ParamRecord(ps[|ps| - 1], docs)]
  }

  /** The record built from the analysed docstring `docs`. */
  function BuildRecord(f: FunctionInfo, docs: map<string, string>): FunctionRecord {
    FunctionRecord(
      f.name,
      if FUNCTION in docs then docs[FUNCTION] else "",
      ParamRecords(f.params, docs),
      if RETURN in docs then Strip(docs[RETURN]) else "")
  }

  /** The record `_collect_function_info` returns, or none when the function's
      own docstring carries `:exclude:`. */
  function FunctionRecordOf(f: FunctionInfo): Option<FunctionRecord> {
    if CheckExclusion(f.doc, EXCLUDE) then None else Some(BuildRecord(f, AnalyzeDocs(f.doc)))
  }

  /** `_collect_function_info`. */
  method CollectFunctionInfo(f: FunctionInfo) returns (r: Option<FunctionRecord>)
    ensures r == FunctionRecordOf(f)
  {
    if !CheckExclusion(f.doc, EXCLUDE) {
      var docs := AnalyzeFunctionDocs(f.doc);
      var parameters: seq<Param> := [];
      for i := 0 to |f.params|
        invariant parameters == ParamRecords(f.params[..i], docs)
      {
        var param := f.params[i];
        var paramData := Param(param.name, param.kind, param.default, None);
        if param.name in docs {
          paramData := paramData.(doc := Some(docs[param.name]));
        }
        assert f.params[..i + 1] == f.params[..i] + [param];
        parameters := parameters + [paramData];
      }
      assert f.params[..|f.params|] == f.params;
      r := Some(FunctionRecord(
        f.name,
        if FUNCTION in docs then docs[FUNCTION] else "",
        parameters,
        if RETURN in docs then Strip(docs[RETURN]) else ""));
    } else {
      r := None;
    }
  }

  /** A collected function keeps its parameters in declaration order, each with
      the text the analysed docstring stores under its name. */
  lemma BuildRecordParams(f: FunctionInfo, docs: map<string, string>)
    ensures var r := BuildRecord(f, docs);
            && r.name == f.name
            && |r.params| == |f.params|
            && forall k :: 0 <= k < |f.params| ==>
                 && r.params[k].name == f.params[k].name
                 && r.params[k].kind == f.params[k].kind
                 && r.params[k].default == f.params[k].default
                 && (r.params[k].doc.Some? <==> f.params[k].name in docs)
                 && (r.params[k].doc.Some? ==> r.params[k].doc.value == docs[f.params[k].name])
  {
  }

  /** A function is collected exactly when its own docstring has no
      `:exclude:` line; its description is then the docstring's text before
      the first marker (unless a block is labelled `FUNCTION`). */
  lemma FunctionRecordDescription(f: FunctionInfo)
    ensures FunctionRecordOf(f).None? <==> CheckExclusion(f.doc, EXCLUDE)
    ensures FunctionRecordOf(f).Some? && (forall b :: b in SplitDoc(f.doc).blocks ==> BlockEntry(b).key != FUNCTION)
            ==> FunctionRecordOf(f).value.doc == Strip(SplitDoc(f.doc).head)
  {
    if !CheckExclusion(f.doc, EXCLUDE) && forall b :: b in SplitDoc(f.doc).blocks ==> BlockEntry(b).key != FUNCTION {
      DescriptionIsHead(f.doc);
    }
  }

  // ---------------------------------------------------------------------------
  // _collect_class_info
  // ---------------------------------------------------------------------------

  /** A class attribute is kept as a constant when it is not callable, its
      name is public and the class does not exclude its children; neither the
      private-method option nor `include_methods` plays a part. */
  predicate KeptConstant(m: Member, excludeChildren: bool) {
    m.kind.Data? && !IsPrivate(m.name) && !excludeChildren
  }

  function Constants(ms: seq<Member>, excludeChildren: bool): (cs: seq<Constant>)
    ensures |cs| <= |ms|
  {
    if ms == [] then []
    else
      var m := ms[|ms| - 1];
      Constants(ms[..|ms| - 1], excludeChildren)
      + (if KeptConstant(m, excludeChildren) then [Constant(m.name, m.kind.value)] else [])
  }

  /** The functions and methods that survive `_is_method_excluded`, in order. */
  function Candidates(ms: seq<Member>, included: set<string>, excludeChildren: bool,
                      excludeMethods: ExcludeMethods): seq<Member>
  {
    if ms == [] then []
    else
      var m := ms[|ms| - 1];
      Candidates(ms[..|ms| - 1], included, excludeChildren, excludeMethods)
      + (if m.kind.Routine? && !IsMethodExcluded(m.name, included, excludeChildren, excludeMethods)
         then [m] else [])
  }

  /** The private-method option, a public name or `include_methods` lets a method through. */
  predicate Allowed(m: Member, collectPrivate: bool, included: set<string>) {
    collectPrivate || !IsPrivate(m.name) || m.name in included
  }

  /** The second pass over the candidates: a candidate in the class's own
      `__dict__` that is allowed and whose own docstring does not exclude it
      is collected, into the static list when its entry is a `staticmethod`. */
  predicate KeptRoutine(m: Member, wantStatic: bool, collectPrivate: bool, included: set<string>) {
    m.kind.Routine? && m.inOwnDict && m.isStatic == wantStatic && Allowed(m, collectPrivate, included)
    && FunctionRecordOf(m.kind.info).Some?
  }

  function Routines(cs: seq<Member>, wantStatic: bool, collectPrivate: bool, included: set<string>)
    : (rs: seq<FunctionRecord>)
    ensures |rs| <= |cs|
  {
    if cs == [] then []
    else
      var m := cs[|cs| - 1];
      Routines(cs[..|cs| - 1], wantStatic, collectPrivate, included)
      + (if KeptRoutine(m, wantStatic, collectPrivate, included) then [FunctionRecordOf(m.kind.info).value] else [])
  }

  /** The record `_collect_class_info` returns: none when the raw docstring
      excludes the class; otherwise the directives are read from the stripped
      docstring. */
  function ClassRecordOf(c: ClassInfo, collectPrivate: bool): Option<ClassRecord> {
    if CheckExclusion(c.doc, EXCLUDE) then None
    else
      var doc := Strip(c.doc);
      var excludeChildren := CheckExclusion(doc, EXCLUDE_CHILDREN);
      var included := GetInclusion(doc);
      var cs := Candidates(c.members, included, excludeChildren, GetExclusion(doc));
      Some(ClassRecord(c.name, doc, Constants(c.members, excludeChildren),
                       Routines(cs, true, collectPrivate, included),
                       Routines(cs, false, collectPrivate, included)))
  }

  lemma ConstantsSnoc(ms: seq<Member>, i: nat, excludeChildren: bool)
    requires i < |ms|
    ensures Constants(ms[..i + 1], excludeChildren)
            == Constants(ms[..i], excludeChildren)
               + (if KeptConstant(ms[i], excludeChildren) then [Constant(ms[i].name, ms[i].kind.value)] else [])
  {
    assert ms[..i + 1][..i] == ms[..i];
  }

  lemma CandidatesSnoc(ms: seq<Member>, i: nat, included: set<string>, excludeChildren: bool,
                       excludeMethods: ExcludeMethods)
    requires i < |ms|
    ensures Candidates(ms[..i + 1], included, excludeChildren, excludeMethods)
            == Candidates(ms[..i], included, excludeChildren, excludeMethods)
               + (if ms[i].kind.Routine? && !IsMethodExcluded(ms[i].name, included, excludeChildren, excludeMethods)
                  then [ms[i]] else [])
  {
    assert ms[..i + 1][..i] == ms[..i];
  }

  lemma RoutinesSnoc(cs: seq<Member>, i: nat, wantStatic: bool, collectPrivate: bool, included: set<string>)
    requires i < |cs|
    ensures Routines(cs[..i + 1], wantStatic, collectPrivate, included)
            == Routines(cs[..i], wantStatic, collectPrivate, included)
               + (if KeptRoutine(cs[i], wantStatic, collectPrivate, included)
                  then [FunctionRecordOf(cs[i].kind.info).value] else [])
  {
    assert cs[..i + 1][..i] == cs[..i];
  }

  /** The first loop of `_collect_class_info`: sorts the members into
      constants and the methods that survive `_is_method_excluded`. */
  method SortMembers(members: seq<Member>, includeMethods: set<string>, excludeChildren: bool,
                     excludeMethods: ExcludeMethods)
    returns (constants: seq<Constant>, methodsFunctions: seq<Member>)
    ensures constants == Constants(members, excludeChildren)
    ensures methodsFunctions == Candidates(members, includeMethods, excludeChildren, excludeMethods)
  {
    constants := [];
    methodsFunctions := [];
    for i := 0 to |members|
      invariant constants == Constants(members[..i], excludeChildren)
      invariant methodsFunctions == Candidates(members[..i], includeMethods, excludeChildren, excludeMethods)
    {
      var m := members[i];
      ConstantsSnoc(members, i, excludeChildren);
      CandidatesSnoc(members, i, includeMethods, excludeChildren, excludeMethods);
      if m.kind.Routine? {
        if !IsMethodExcluded(m.name, includeMethods, excludeChildren, excludeMethods) {
          methodsFunctions := methodsFunctions + [m];
        }
      } else if !m.kind.OtherCallable? && !IsPrivate(m.name) && !excludeChildren {
        constants := constants + [Constant(m.name, m.kind.value)];
      }
    }
    assert members[..|members|] == members;
  }

  /** The second loop of `_collect_class_info`: collects each candidate in
      the class's own `__dict__` that the private-method rule lets through. */
  method CollectRoutines(methodsFunctions: seq<Member>, collectPrivate: bool, includeMethods: set<string>)
    returns (staticMethods: seq<FunctionRecord>, methods: seq<FunctionRecord>)
    ensures staticMethods == Routines(methodsFunctions, true, collectPrivate, includeMethods)
    ensures methods == Routines(methodsFunctions, false, collectPrivate, includeMethods)
  {
    staticMethods := [];
    methods := [];
    for i := 0 to |methodsFunctions|
      invariant staticMethods == Routines(methodsFunctions[..i], true, collectPrivate, includeMethods)
      invariant methods == Routines(methodsFunctions[..i], false, collectPrivate, includeMethods)
    {
      var m := methodsFunctions[i];
      RoutinesSnoc(methodsFunctions, i, true, collectPrivate, includeMethods);
      RoutinesSnoc(methodsFunctions, i, false, collectPrivate, includeMethods);
      if m.inOwnDict && m.kind.Routine? {
        if m.isStatic && (collectPrivate || !IsPrivate(m.name) || m.name in includeMethods) {
          var func := CollectFunctionInfo(m.kind.info);
          if func.Some? {
            staticMethods := staticMethods + [func.value];
          }
        } else if collectPrivate || !IsPrivate(m.name) || m.name in includeMethods {
          var func := CollectFunctionInfo(m.kind.info);
          if func.Some? {
            methods := methods + [func.value];
          }
        }
      }
    }
    assert methodsFunctions[..|methodsFunctions|] == methodsFunctions;
  }

  /** `_collect_class_info`. */
  method CollectClassInfo(c: ClassInfo, collectPrivate: bool) returns (r: Option<ClassRecord>)
    ensures r == ClassRecordOf(c, collectPrivate)
  {
    if CheckExclusion(c.doc, EXCLUDE) {
      return None;
    }
    var doc := Strip(c.doc);
    var excludeChildren := CheckExclusion(doc, EXCLUDE_CHILDREN);
    var excludeMethods := GetExclusion(doc);
    var includeMethods := GetInclusion(doc);
    var constants, methodsFunctions := SortMembers(c.members, includeMethods, excludeChildren, excludeMethods);
    var staticMethods, methods := CollectRoutines(methodsFunctions, collectPrivate, includeMethods);
    r := Some(ClassRecord(c.name, doc, constants, staticMethods, methods));
  }

  /** A constant is collected exactly when some member passes the constant rule. */
  lemma {:induction false} ConstantsMembers(ms: seq<Member>, excludeChildren: bool, x: Constant)
    ensures x in Constants(ms, excludeChildren) <==>
              exists m :: m in ms && KeptConstant(m, excludeChildren) && x == Constant(m.name, m.kind.value)
  {
    if ms != [] {
      var init := ms[..|ms| - 1];
      ConstantsMembers(init, excludeChildren, x);
      assert ms == init + [ms[|ms| - 1]];
    }
  }

  /** The constant rule is applied member by member: the constants of a
      concatenation are the constants of its parts, in the same order. */
  lemma {:induction false} ConstantsConcat(xs: seq<Member>, ys: seq<Member>, excludeChildren: bool)
    ensures Constants(xs + ys, excludeChildren) == Constants(xs, excludeChildren) + Constants(ys, excludeChildren)
  {
    if ys == [] {
      assert xs + ys == xs;
    } else {
      ConstantsConcat(xs, ys[..|ys| - 1], excludeChildren);
      assert (xs + ys)[..|xs + ys| - 1] == xs + ys[..|ys| - 1];
    }
  }

  lemma {:induction false} CandidatesConcat(xs: seq<Member>, ys: seq<Member>, included: set<string>,
                                            excludeChildren: bool, excludeMethods: ExcludeMethods)
    ensures Candidates(xs + ys, included, excludeChildren, excludeMethods)
            == Candidates(xs, included, excludeChildren, excludeMethods)
               + Candidates(ys, included, excludeChildren, excludeMethods)
  {
    if ys == [] {
      assert xs + ys == xs;
    } else {
      CandidatesConcat(xs, ys[..|ys| - 1], included, excludeChildren, excludeMethods);
      assert (xs + ys)[..|xs + ys| - 1] == xs + ys[..|ys| - 1];
    }
  }

  lemma {:induction false} RoutinesConcat(xs: seq<Member>, ys: seq<Member>, wantStatic: bool,
                                          collectPrivate: bool, included: set<string>)
    ensures Routines(xs + ys, wantStatic, collectPrivate, included)
            == Routines(xs, wantStatic, collectPrivate, included) + Routines(ys, wantStatic, collectPrivate, included)
  {
    if ys == [] {
      assert xs + ys == xs;
    } else {
      var ys', y := ys[..|ys| - 1], ys[|ys| - 1];
      RoutinesConcat(xs, ys', wantStatic, collectPrivate, included);
      assert (xs + ys)[..|xs + ys| - 1] == xs + ys';
      assert (xs + ys)[|xs + ys| - 1] == y;
      var p := if KeptRoutine(y, wantStatic, collectPrivate, included) then [FunctionRecordOf(y.kind.info).value] else [];
      assert Routines(ys, wantStatic, collectPrivate, included) == Routines(ys', wantStatic, collectPrivate, included) + p;
      assert Routines(xs + ys, wantStatic, collectPrivate, included) == Routines(xs + ys', wantStatic, collectPrivate, included) + p;
      AppendAssoc(Routines(xs, wantStatic, collectPrivate, included), Routines(ys', wantStatic, collectPrivate, included), p);
    }
  }

  /** Both method passes work member by member, so the methods collected from
      a concatenation of members are those of its parts, in the same order. */
  lemma MethodsConcat(xs: seq<Member>, ys: seq<Member>, wantStatic: bool, collectPrivate: bool,
                      included: set<string>, excludeChildren: bool, excludeMethods: ExcludeMethods)
    ensures Routines(Candidates(xs + ys, included, excludeChildren, excludeMethods), wantStatic, collectPrivate, included)
            == Routines(Candidates(xs, included, excludeChildren, excludeMethods), wantStatic, collectPrivate, included)
               + Routines(Candidates(ys, included, excludeChildren, excludeMethods), wantStatic, collectPrivate, included)
  {
    CandidatesConcat(xs, ys, included, excludeChildren, excludeMethods);
    RoutinesConcat(Candidates(xs, included, excludeChildren, excludeMethods),
                   Candidates(ys, included, excludeChildren, excludeMethods), wantStatic, collectPrivate, included);
  }

  lemma {:induction false} CandidatesMembers(ms: seq<Member>, included: set<string>, excludeChildren: bool,
                                             excludeMethods: ExcludeMethods, m: Member)
    ensures m in Candidates(ms, included, excludeChildren, excludeMethods) <==>
              m in ms && m.kind.Routine? && !IsMethodExcluded(m.name, included, excludeChildren, excludeMethods)
  {
    if ms != [] {
      var init := ms[..|ms| - 1];
      CandidatesMembers(init, included, excludeChildren, excludeMethods, m);
      assert ms == init + [ms[|ms| - 1]];
    }
  }

  lemma {:induction false} RoutinesMembers(cs: seq<Member>, wantStatic: bool, collectPrivate: bool,
                                           included: set<string>, r: FunctionRecord)
    ensures r in Routines(cs, wantStatic, collectPrivate, included) <==>
              exists m :: m in cs && KeptRoutine(m, wantStatic, collectPrivate, included)
                          && FunctionRecordOf(m.kind.info) == Some(r)
  {
    if cs != [] {
      var init := cs[..|cs| - 1];
      RoutinesMembers(init, wantStatic, collectPrivate, included, r);
      assert cs == init + [cs[|cs| - 1]];
    }
  }

  /** The full rule for a method: it survives `_is_method_excluded`, it is in
      the class's own `__dict__`, its `staticmethod` status matches the list,
      the private-method rule lets it through, and its own docstring has no
      `:exclude:` line (which wins even over `include_methods`). */
  predicate KeptMethod(m: Member, wantStatic: bool, collectPrivate: bool, included: set<string>,
                       excludeChildren: bool, excludeMethods: ExcludeMethods) {
    m.kind.Routine? && !IsMethodExcluded(m.name, included, excludeChildren, excludeMethods)
    && KeptRoutine(m, wantStatic, collectPrivate, included)
  }

  /** A method record is collected exactly when some member passes the full rule. */
  lemma MethodsMembers(ms: seq<Member>, wantStatic: bool, collectPrivate: bool, included: set<string>,
                       excludeChildren: bool, excludeMethods: ExcludeMethods, r: FunctionRecord)
    ensures r in Routines(Candidates(ms, included, excludeChildren, excludeMethods), wantStatic, collectPrivate, included)
            <==> exists m :: m in ms && KeptMethod(m, wantStatic, collectPrivate, included, excludeChildren, excludeMethods)
                             && FunctionRecordOf(m.kind.info) == Some(r)
  {
    var cs := Candidates(ms, included, excludeChildren, excludeMethods);
    RoutinesMembers(cs, wantStatic, collectPrivate, included, r);
    forall m ensures m in cs <==>
                       m in ms && m.kind.Routine? && !IsMethodExcluded(m.name, included, excludeChildren, excludeMethods) {
      CandidatesMembers(ms, included, excludeChildren, excludeMethods, m);
    }
  }

  /** The class's own `:exclude:` drops it; otherwise its constants and its two
      method lists are exactly what the member rules keep, with the
      directives read from the stripped docstring. */
  lemma ClassRecordContents(c: ClassInfo, collectPrivate: bool)
    ensures ClassRecordOf(c, collectPrivate).None? <==> CheckExclusion(c.doc, EXCLUDE)
    ensures ClassRecordOf(c, collectPrivate).Some? ==>
              var r := ClassRecordOf(c, collectPrivate).value;
              var doc := Strip(c.doc);
              var ec := CheckExclusion(doc, EXCLUDE_CHILDREN);
              var em := GetExclusion(doc);
              var inc := GetInclusion(doc);
              && r.name == c.name && r.doc == doc
              && (forall x :: x in r.constants <==>
                    exists m :: m in c.members && KeptConstant(m, ec) && x == Constant(m.name, m.kind.value))
              && (forall f :: f in r.staticMethods <==>
                    exists m :: m in c.members && KeptMethod(m, true, collectPrivate, inc, ec, em)
                                && FunctionRecordOf(m.kind.info) == Some(f))
              && (forall f :: f in r.methods <==>
                    exists m :: m in c.members && KeptMethod(m, false, collectPrivate, inc, ec, em)
                                && FunctionRecordOf(m.kind.info) == Some(f))
  {
    if !CheckExclusion(c.doc, EXCLUDE) {
      var doc := Strip(c.doc);
      var ec := CheckExclusion(doc, EXCLUDE_CHILDREN);
      var em := GetExclusion(doc);
      var inc := GetInclusion(doc);
      forall x ensures x in Constants(c.members, ec) <==>
                         exists m :: m in c.members && KeptConstant(m, ec) && x == Constant(m.name, m.kind.value) {
        ConstantsMembers(c.members, ec, x);
      }
      forall f ensures f in Routines(Candidates(c.members, inc, ec, em), true, collectPrivate, inc) <==>
                         exists m :: m in c.members && KeptMethod(m, true, collectPrivate, inc, ec, em)
                                     && FunctionRecordOf(m.kind.info) == Some(f) {
        MethodsMembers(c.members, true, collectPrivate, inc, ec, em, f);
      }
      forall f ensures f in Routines(Candidates(c.members, inc, ec, em), false, collectPrivate, inc) <==>
                         exists m :: m in c.members && KeptMethod(m, false, collectPrivate, inc, ec, em)
                                     && FunctionRecordOf(m.kind.info) == Some(f) {
        MethodsMembers(c.members, false, collectPrivate, inc, ec, em, f);
      }
    }
  }

  /** The directive checks after `:exclude:` read the stripped docstring, so
      an `:exclude_children:` line that ends the docstring (only whitespace
      after it) has lost its line break and is missed: unless an earlier line
      already carries the directive, the class keeps its constants although
      its docstring holds a directive line. */
  lemma ExcludeChildrenOnLastLineIsMissed(c: ClassInfo, collectPrivate: bool, body: string, ws: string)
    requires c.doc == body + ([':'] + EXCLUDE_CHILDREN + [':']) + ['\n'] + ws && AllSpace(ws)
    requires !CheckExclusion(c.doc, EXCLUDE)
    requires !CheckExclusion(body + ([':'] + EXCLUDE_CHILDREN + [':']), EXCLUDE_CHILDREN)
    ensures CheckExclusion(c.doc, EXCLUDE_CHILDREN)
    ensures ClassRecordOf(c, collectPrivate).Some?
    ensures ClassRecordOf(c, collectPrivate).value.constants == Constants(c.members, false)
  {
    LastLineHasDirective(body, ws);
    LastLineMissedAfterStrip(body, ws);
    KeepsConstants(c, collectPrivate);
  }

  /** The raw docstring holds the directive line. */
  lemma LastLineHasDirective(body: string, ws: string)
    ensures CheckExclusion(body + ([':'] + EXCLUDE_CHILDREN + [':']) + ['\n'] + ws, EXCLUDE_CHILDREN)
  {
    var d := [':'] + EXCLUDE_CHILDREN + [':'];
    ExcludeChildrenIsWord();
    assert ExclusionLine([], EXCLUDE_CHILDREN, [], []) == d + ['\n'];
    assert body + d + ['\n'] + ws == body + ExclusionLine([], EXCLUDE_CHILDREN, [], []) + ws;
    CheckExclusionFindsLine(body, EXCLUDE_CHILDREN, ws);
  }

  /** The stripped docstring holds no directive line when nothing before the last one does. */
  lemma LastLineMissedAfterStrip(body: string, ws: string)
    requires AllSpace(ws)
    requires !CheckExclusion(body + ([':'] + EXCLUDE_CHILDREN + [':']), EXCLUDE_CHILDREN)
    ensures !CheckExclusion(Strip(body + ([':'] + EXCLUDE_CHILDREN + [':']) + ['\n'] + ws), EXCLUDE_CHILDREN)
  {
    var d := [':'] + EXCLUDE_CHILDREN + [':'];
    var tail := ['\n'] + ws;
    forall k | 0 <= k < |tail| ensures IsSpace(tail[k]) {
      if k > 0 {
        assert tail[k] == ws[k - 1];
      }
    }
    StrippedLastLineNotFound(body + d, tail);
    assert body + d + ['\n'] + ws == body + d + tail;
  }

  /** A class whose stripped docstring carries no `:exclude_children:` line keeps every public constant. */
  lemma KeepsConstants(c: ClassInfo, collectPrivate: bool)
    requires !CheckExclusion(c.doc, EXCLUDE) && !CheckExclusion(Strip(c.doc), EXCLUDE_CHILDREN)
    ensures ClassRecordOf(c, collectPrivate).Some?
    ensures ClassRecordOf(c, collectPrivate).value.constants == Constants(c.members, false)
  {
  }

  /** A directive that stripping cut off from its line break is not found. */
  lemma StrippedLastLineNotFound(t: string, tail: string)
    requires |t| > 0 && !IsSpace(t[|t| - 1]) && AllSpace(tail)
    requires !CheckExclusion(t, EXCLUDE_CHILDREN)
    ensures !CheckExclusion(Strip(t + tail), EXCLUDE_CHILDREN)
  {
    ExcludeChildrenIsWord();
    var i := StripBeforeTrailingSpace(t, tail);
    var r := Strip(t + tail);
    CheckExclusionMeaning(t, EXCLUDE_CHILDREN);
    CheckExclusionMeaning(r, EXCLUDE_CHILDREN);
    forall k | 0 <= k < |r| ensures !ExclusionShape(r[k..], EXCLUDE_CHILDREN) {
      assert r[k..] == t[i + k..];
    }
  }

  /** Stripping a text that ends in a non-whitespace character and is followed
      only by whitespace keeps a suffix of the text and drops what follows. */
  lemma StripBeforeTrailingSpace(t: string, tail: string) returns (i: nat)
    requires |t| > 0 && !IsSpace(t[|t| - 1]) && AllSpace(tail)
    ensures i < |t| && Strip(t + tail) == t[i..]
  {
    var s := t + tail;
    i := LeadingSpaces(s);
    var x := s[i..];
    var n := TrailingStart(x);
    assert s[|t| - 1] == t[|t| - 1];
    SpaceRunBefore(s, i, |t| - 1);
    assert x[|t| - 1 - i] == t[|t| - 1] && x[|t| - i..] == tail;
    SpaceRunAfter(x, n, |t| - 1 - i);
    SpaceRunAfter(x, |t| - i, n - 1);
    assert Strip(s) == x[..n];
  }

  /** A non-whitespace character lies after a leading run of whitespace. */
  lemma SpaceRunBefore(s: string, i: nat, p: nat)
    requires p < |s| && !IsSpace(s[p]) && i <= |s| && AllSpace(s[..i])
    ensures i <= p
  {
    forall k | 0 <= k < i ensures IsSpace(s[k]) {
      assert s[..i][k] == s[k];
    }
  }

  /** A non-whitespace character lies before a trailing run of whitespace. */
  lemma SpaceRunAfter(s: string, j: nat, p: nat)
    requires p < |s| && !IsSpace(s[p]) && j <= |s| && AllSpace(s[j..])
    ensures p < j
  {
    forall k | j <= k < |s| ensures IsSpace(s[k]) {
      assert s[j..][k - j] == s[k];
    }
  }

  lemma ExcludeChildrenIsWord()
    ensures IsWord(EXCLUDE_CHILDREN)
  {
    forall k | 0 <= k < |EXCLUDE_CHILDREN| ensures IsWordChar(EXCLUDE_CHILDREN[k]) {}
  }

  /** Wherever it is written, an `:exclude_children:` directive does not start
      an `:exclude:` line: after `exclude` the pattern wants spaces, tabs or
      a `:`, and finds `_`. */
  lemma ChildrenDirectiveIsNotExclude(s: string, k: nat)
    requires k + 18 <= |s| && s[k..k + 18] == [':'] + EXCLUDE_CHILDREN + [':']
    ensures !ExclusionLineAt(s, k, EXCLUDE)
  {
    var d := [':'] + EXCLUDE_CHILDREN + [':'];
    assert s[k] == d[0];
    forall x | 0 <= x < 7 ensures s[k + 1 + x] == EXCLUDE[x] {
      assert s[k + 1 + x] == d[1 + x];
    }
    assert s[k + 1..k + 8] == EXCLUDE;
    assert s[k + 8] == d[8] == '_';
    SkipBlanksTo(s, k + 1, k + 1);
    SkipBlanksTo(s, k + 8, k + 8);
  }

  // ---------------------------------------------------------------------------
  // _collect_module_info
  // ---------------------------------------------------------------------------

  /** A module member becomes a class record when it is a class defined in the
      module and the class is not excluded. */
  predicate KeptClass(m: ModuleMember, collectPrivate: bool) {
    m.kind.ClassMember? && m.local && ClassRecordOf(m.kind.cls, collectPrivate).Some?
  }

  /** A module member becomes a function record when it is a function defined
      in the module, the private-method option is on or its name is public,
      and its own docstring does not exclude it. There is no
      `include_methods` override at module level. */
  predicate KeptFunction(m: ModuleMember, collectPrivate: bool) {
    m.kind.FunctionMember? && m.local && (collectPrivate || !IsPrivate(m.name))
    && FunctionRecordOf(m.kind.func).Some?
  }

  function ModuleClasses(ms: seq<ModuleMember>, collectPrivate: bool): (cs: seq<ClassRecord>)
    ensures |cs| <= |ms|
  {
    if ms == [] then []
    else
      var m := ms[|ms| - 1];
      ModuleClasses(ms[..|ms| - 1], collectPrivate)
      + (if KeptClass(m, collectPrivate) then [ClassRecordOf(m.kind.cls, collectPrivate).value] else [])
  }

  function ModuleFunctions(ms: seq<ModuleMember>, collectPrivate: bool): (fs: seq<FunctionRecord>)
    ensures |fs| <= |ms|
  {
    if ms == [] then []
    else
      var m := ms[|ms| - 1];
      ModuleFunctions(ms[..|ms| - 1], collectPrivate)
      + (if KeptFunction(m, collectPrivate) then [FunctionRecordOf(m.kind.func).value] else [])
  }

  /** The record `_collect_module_info` returns, or none when the module's
      docstring excludes it. */
  function ModuleRecordOf(m: ModuleInfo, collectPrivate: bool): Option<ModuleRecord> {
    if CheckExclusion(m.doc, EXCLUDE) then None
    else Some(ModuleRecord(m.name, Strip(m.doc), ModuleFunctions(m.members, collectPrivate),
                           ModuleClasses(m.members, collectPrivate)))
  }

  lemma ModuleMembersSnoc(ms: seq<ModuleMember>, i: nat, collectPrivate: bool)
    requires i < |ms|
    ensures ModuleClasses(ms[..i + 1], collectPrivate)
            == ModuleClasses(ms[..i], collectPrivate)
               + (if KeptClass(ms[i], collectPrivate) then [ClassRecordOf(ms[i].kind.cls, collectPrivate).value] else [])
    ensures ModuleFunctions(ms[..i + 1], collectPrivate)
            == ModuleFunctions(ms[..i], collectPrivate)
               + (if KeptFunction(ms[i], collectPrivate) then [FunctionRecordOf(ms[i].kind.func).value] else [])
  {
    assert ms[..i + 1][..i] == ms[..i];
  }

  /** `_collect_module_info`. */
  method CollectModuleInfo(mod: ModuleInfo, collectPrivate: bool) returns (r: Option<ModuleRecord>)
    ensures r == ModuleRecordOf(mod, collectPrivate)
  {
    if CheckExclusion(mod.doc, EXCLUDE) {
      return None;
    }
    var classes: seq<ClassRecord> := [];
    var functions: seq<FunctionRecord> := [];
    for i := 0 to |mod.members|
      invariant classes == ModuleClasses(mod.members[..i], collectPrivate)
      invariant functions == ModuleFunctions(mod.members[..i], collectPrivate)
    {
      var m := mod.members[i];
      ModuleMembersSnoc(mod.members, i, collectPrivate);
      if m.kind.ClassMember? && m.local {
        var cls := CollectClassInfo(m.kind.cls, collectPrivate);
        if cls.Some? {
          classes := classes + [cls.value];
        }
      } else if m.kind.FunctionMember? && m.local {
        if collectPrivate || !IsPrivate(m.name) {
          var func := CollectFunctionInfo(m.kind.func);
          if func.Some? {
            functions := functions + [func.value];
          }
        }
      }
    }
    assert mod.members[..|mod.members|] == mod.members;
    r := Some(ModuleRecord(mod.name, Strip(mod.doc), functions, classes));
  }

  lemma {:induction false} ModuleClassesMembers(ms: seq<ModuleMember>, collectPrivate: bool, c: ClassRecord)
    ensures c in ModuleClasses(ms, collectPrivate) <==>
              exists m :: m in ms && KeptClass(m, collectPrivate) && ClassRecordOf(m.kind.cls, collectPrivate) == Some(c)
  {
    if ms != [] {
      var init, last := ms[..|ms| - 1], ms[|ms| - 1];
      ModuleClassesMembers(init, collectPrivate, c);
      assert ms == init + [last];
      var tail := if KeptClass(last, collectPrivate) then [ClassRecordOf(last.kind.cls, collectPrivate).value] else [];
      ClassTailMember(last, collectPrivate, c, tail);
      assert ModuleClasses(ms, collectPrivate) == ModuleClasses(init, collectPrivate) + tail;
      if c in ModuleClasses(ms, collectPrivate) && c !in ModuleClasses(init, collectPrivate) {
        assert c in tail;
        assert last in ms;
      }
      if m :| m in ms && KeptClass(m, collectPrivate) && ClassRecordOf(m.kind.cls, collectPrivate) == Some(c) {
        if m != last {
          assert m in init;
        } else {
          assert c in tail;
        }
      }
    }
  }

  /** The last member contributes `c` exactly when it is a kept class whose record is `c`. */
  lemma ClassTailMember(last: ModuleMember, collectPrivate: bool, c: ClassRecord, tail: seq<ClassRecord>)
    requires tail == if KeptClass(last, collectPrivate) then [ClassRecordOf(last.kind.cls, collectPrivate).value] else []
    ensures c in tail <==> KeptClass(last, collectPrivate) && ClassRecordOf(last.kind.cls, collectPrivate) == Some(c)
  {
  }

  lemma {:induction false} ModuleFunctionsMembers(ms: seq<ModuleMember>, collectPrivate: bool, f: FunctionRecord)
    ensures f in ModuleFunctions(ms, collectPrivate) <==>
              exists m :: m in ms && KeptFunction(m, collectPrivate) && FunctionRecordOf(m.kind.func) == Some(f)
  {
    if ms != [] {
      var init, last := ms[..|ms| - 1], ms[|ms| - 1];
      ModuleFunctionsMembers(init, collectPrivate, f);
      assert ms == init + [last];
      var tail := if KeptFunction(last, collectPrivate) then [FunctionRecordOf(last.kind.func).value] else [];
      assert ModuleFunctions(ms, collectPrivate) == ModuleFunctions(init, collectPrivate) + tail;
      if f in ModuleFunctions(ms, collectPrivate) && f !in ModuleFunctions(init, collectPrivate) {
        assert f in tail;
        assert last in ms && KeptFunction(last, collectPrivate) && FunctionRecordOf(last.kind.func) == Some(f);
      }
      if m :| m in ms && KeptFunction(m, collectPrivate) && FunctionRecordOf(m.kind.func) == Some(f) {
        if m != last {
          assert m in init;
        } else {
          assert f in tail;
        }
      }
    }
  }

  /** Member by member: the classes collected from a concatenation of
      members are those of its parts, in the same order. */
  lemma {:induction false} ModuleClassesConcat(xs: seq<ModuleMember>, ys: seq<ModuleMember>, collectPrivate: bool)
    ensures ModuleClasses(xs + ys, collectPrivate) == ModuleClasses(xs, collectPrivate) + ModuleClasses(ys, collectPrivate)
  {
    if ys == [] {
      assert xs + ys == xs;
    } else {
      var ys', y := ys[..|ys| - 1], ys[|ys| - 1];
      ModuleClassesConcat(xs, ys', collectPrivate);
      assert (xs + ys)[..|xs + ys| - 1] == xs + ys';
      assert (xs + ys)[|xs + ys| - 1] == y;
      var p := if KeptClass(y, collectPrivate) then [ClassRecordOf(y.kind.cls, collectPrivate).value] else [];
      assert ModuleClasses(ys, collectPrivate) == ModuleClasses(ys', collectPrivate) + p;
      assert ModuleClasses(xs + ys, collectPrivate) == ModuleClasses(xs + ys', collectPrivate) + p;
      AppendAssoc(ModuleClasses(xs, collectPrivate), ModuleClasses(ys', collectPrivate), p);
    }
  }

  /** The same for the module's functions. */
  lemma {:induction false} ModuleFunctionsConcat(xs: seq<ModuleMember>, ys: seq<ModuleMember>, collectPrivate: bool)
    ensures ModuleFunctions(xs + ys, collectPrivate)
            == ModuleFunctions(xs, collectPrivate) + ModuleFunctions(ys, collectPrivate)
  {
    if ys == [] {
      assert xs + ys == xs;
    } else {
      var ys', y := ys[..|ys| - 1], ys[|ys| - 1];
      ModuleFunctionsConcat(xs, ys', collectPrivate);
      assert (xs + ys)[..|xs + ys| - 1] == xs + ys';
      assert (xs + ys)[|xs + ys| - 1] == y;
      var p := if KeptFunction(y, collectPrivate) then [FunctionRecordOf(y.kind.func).value] else [];
      assert ModuleFunctions(ys, collectPrivate) == ModuleFunctions(ys', collectPrivate) + p;
      assert ModuleFunctions(xs + ys, collectPrivate) == ModuleFunctions(xs + ys', collectPrivate) + p;
      AppendAssoc(ModuleFunctions(xs, collectPrivate), ModuleFunctions(ys', collectPrivate), p);
    }
  }

  /** Without the private-method option a module function whose name starts
      with `_` is never collected, whatever its docstring says. */
  lemma PrivateModuleFunctionsDropped(ms: seq<ModuleMember>, f: FunctionRecord)
    requires forall m :: m in ms && m.kind.FunctionMember? && FunctionRecordOf(m.kind.func) == Some(f) ==> IsPrivate(m.name)
    ensures f !in ModuleFunctions(ms, false)
  {
    ModuleFunctionsMembers(ms, false, f);
  }
}
