/** The formatter family. `Formatter` answers every hook with the empty
    string; `HtmlFormatter` overrides every hook, `MarkdownFormatter` some of
    them. A formatter is a tagged variant and `Render` dispatches a hook to
    the variant's override or to the empty default. */
module Render {
  import opened Text
  import opened Entities

  /** The css text is what `HtmlFormatter.free_run` read from `style.css`. */
  datatype Format = Base | Html(css: string, addCssToEachFile: bool) | Markdown

  /** One call of a formatter hook, with the arguments some formatter reads. */
  datatype Hook =
    | TopOfFile
    | ModuleTitle(title: string)
    | ModuleStart
    | ModuleDoc(doc: string, indent: int)
    | ModuleEnd
    | TocStart
    | TocTitle
    | TocBodyStart
    | TocFunction(name: string, isStatic: bool, prefix: string, indent: int)
    | TocClass(name: string, prefix: string, indent: int)
    | TocClassStart
    | TocConstant(name: string, prefix: string, indent: int)
    | TocClassEnd
    | TocBodyEnd
    | TocEnd
    | FunctionBlockStart
    | FunctionStart
    | FunctionSignature(name: string, params: seq<Param>, prefix: string, indent: int)
    | FunctionBodyStart
    | FunctionDoc(doc: string, indent: int)
    | FunctionParameters(params: seq<Param>, indent: int)
    | FunctionReturn(doc: string, indent: int)
    | FunctionBodyEnd
    | FunctionEnd
    | FunctionBlockEnd
    | ClassStart
    | ClassTitle(title: string, prefix: string, indent: int)
    | ClassBodyStart
    | ClassDoc(doc: string, indent: int)
    | ConstantsTitle(indent: int)
    | ConstantsStart
    | ClassConstant(name: string, value: Value, prefix: string, indent: int)
    | ConstantsEnd
    | StaticTitle(indent: int)
    | MethodsTitle(indent: int)
    | ClassBodyEnd
    | ClassEnd

  // ---------------------------------------------------------------------------
  // Signature
  // ---------------------------------------------------------------------------

  /** How a default value is printed after `=`: the empty string shows as `""`,
      every other value as its text, string or not. */
  function DefaultText(v: Value): (r: string)
    ensures r == "\"\"" <==> (v.isString && v.text == "") || v.text == "\"\""
  {
    if v.isString && v.text == "" then "\"\"" else v.text
  }

  /** One entry of the signature, decided by the parameter's kind first: the
      variadic kinds ignore any default. */
  function ParamItem(p: Param): string {
    match p.kind
    case VarPositional => "*" + p.name
    case VarKeyword => "**" + p.name
    case _ => if p.default.Some? then p.name + "=" + DefaultText(p.default.value) else p.name
  }

  function Items(ps: seq<Param>): (items: seq<string>)
    ensures |items| == |ps|
    ensures forall k :: 0 <= k < |ps| ==> items[k] == ParamItem(ps[k])
  {
    if ps == [] then [] else Items(ps[..|ps| - 1]) + [ParamItem(ps[|ps| - 1])]
  }

  lemma ItemsStep(ps: seq<Param>, i: nat)
    requires i < |ps|
    ensures Items(ps[..i + 1]) == Items(ps[..i]) + [ParamItem(ps[i])]
  {
    assert ps[..i + 1][..i] == ps[..i];
  }

  /** `func_name(a, b, ..., x=3, *args, **kwargs)`: the entries in declaration order. */
  function Signature(name: string, ps: seq<Param>): string {
    name + "(" + Join(", ", Items(ps)) + ")"
  }

  /** `Formatter.general_function_signature`: builds each entry by first
      appending the default and then overwriting the entry of a variadic
      parameter. */
  method GeneralFunctionSignature(funcName: string, parameters: seq<Param>) returns (r: string)
    ensures r == Signature(funcName, parameters)
  {
    var title := funcName + "(";
    var params: seq<string> := [];
    for i := 0 to |parameters|
      invariant params == Items(parameters[..i])
    {
      var p := parameters[i];
      var temp := p.name;
      if p.default.Some? {
        var d := p.default.value;
        temp := temp + "=" + (if !(d.isString && d.text == "") then d.text else "\"\"");
      }
      if p.kind == VarPositional {
        temp := "*" + p.name;
      } else if p.kind == VarKeyword {
        temp := "**" + p.name;
      }
      assert temp == ParamItem(p);
      ItemsStep(parameters, i);
      params := params + [temp];
    }
    assert parameters[..|parameters|] == parameters;
    r := title + Join(", ", params) + ")";
  }

  /** A variadic parameter shows as `*name` or `**name` whether or not it has
      a default; any other parameter shows its name, then `=` and the default
      exactly when it has one. */
  lemma SignatureItems(name: string, ps: seq<Param>, k: nat)
    requires k < |ps|
    ensures ps[k].kind == VarPositional ==> Items(ps)[k] == "*" + ps[k].name
    ensures ps[k].kind == VarKeyword ==> Items(ps)[k] == "**" + ps[k].name
    ensures ps[k].kind != VarPositional && ps[k].kind != VarKeyword ==>
              (ps[k].default.None? <==> Items(ps)[k] == ps[k].name)
    ensures ps[k].kind != VarPositional && ps[k].kind != VarKeyword && ps[k].default.Some? ==>
              Items(ps)[k] == ps[k].name + "=" + DefaultText(ps[k].default.value)
  {
    var p := ps[k];
    if p.kind != VarPositional && p.kind != VarKeyword && p.default.Some? {
      assert |Items(ps)[k]| > |p.name|;
    }
  }

  // ---------------------------------------------------------------------------
  // Markdown indentation and quoting
  // ---------------------------------------------------------------------------

  /** `MarkdownFormatter._indentify`: two spaces per level, nothing for a level of zero or less. */
  function Indentify(indent: int): (r: string)
    ensures |r| == if indent <= 0 then 0 else 2 * indent
    ensures forall k :: 0 <= k < |r| ==> r[k] == ' '
  {
    if indent <= 0 then "" else Indentify(indent - 1) + "  "
  }

  /** The docstring with `prefix` inserted right after every line break. */
  function Quote(prefix: string, doc: string): string {
    if doc == [] then []
    else [doc[0]] + (if doc[0] == '\n' then prefix else []) + Quote(prefix, doc[1..])
  }

  /** The inverse of `Quote`: deletes `prefix` after every line break that is followed by it. */
  function Unquote(prefix: string, s: string): string
    decreases |s|
  {
    if s == [] then []
    else if s[0] == '\n' && |prefix| < |s| && s[1..1 + |prefix|] == prefix then
      "\n" + Unquote(prefix, s[1 + |prefix|..])
    else [s[0]] + Unquote(prefix, s[1..])
  }

  /** The Markdown module docstring: a quote block whose every line starts
      with the indentation and `> `. */
  function MarkdownModuleDoc(doc: string, indent: int): string {
    var prefix := Indentify(indent) + "> ";
    prefix + Quote(prefix, doc)
  }

  lemma {:induction false} QuoteConcat(prefix: string, a: string, b: string)
    ensures Quote(prefix, a + b) == Quote(prefix, a) + Quote(prefix, b)
  {
    if a == [] {
      assert a + b == b;
    } else {
      assert (a + b)[0] == a[0];
      assert (a + b)[1..] == a[1..] + b;
      QuoteConcat(prefix, a[1..], b);
    }
  }

  /** `MarkdownFormatter.module_doc`: walks the docstring character by
      character and appends the prefix after each line break. */
  method MarkdownModuleDocText(doc: string, indent: int) returns (r: string)
    ensures r == MarkdownModuleDoc(doc, indent)
  {
    var docList: string := [];
    var indentStr := Indentify(indent);
    for i := 0 to |doc|
      invariant docList == Quote(indentStr + "> ", doc[..i])
    {
      var c := doc[i];
      QuoteConcat(indentStr + "> ", doc[..i], [c]);
      assert doc[..i + 1] == doc[..i] + [c];
      docList := docList + [c];
      if c == '\n' {
        docList := docList + indentStr + "> ";
      }
    }
    assert doc[..|doc|] == doc;
    r := indentStr + "> " + docList;
  }

  /** Deleting the inserted prefixes gives back the docstring. */
  lemma {:induction false} UnquoteQuote(prefix: string, doc: string)
    ensures Unquote(prefix, Quote(prefix, doc)) == doc
  {
    if doc != [] {
      var s := Quote(prefix, doc);
      var rest := Quote(prefix, doc[1..]);
      UnquoteQuote(prefix, doc[1..]);
      if doc[0] == '\n' {
        assert s == "\n" + prefix + rest;
        assert s[1..1 + |prefix|] == prefix;
        assert s[1 + |prefix|..] == rest;
      } else {
        assert s == [doc[0]] + rest;
        assert s[1..] == rest;
      }
      assert doc == [doc[0]] + doc[1..];
    }
  }

  /** Every line break of the quoted text is followed by the prefix. */
  lemma {:induction false} QuoteMarksLines(prefix: string, doc: string, k: nat)
    requires forall j :: 0 <= j < |prefix| ==> prefix[j] != '\n'
    requires k < |Quote(prefix, doc)| && Quote(prefix, doc)[k] == '\n'
    ensures k + 1 + |prefix| <= |Quote(prefix, doc)|
    ensures Quote(prefix, doc)[k + 1..k + 1 + |prefix|] == prefix
  {
    var c := doc[0];
    var head := [c] + (if c == '\n' then prefix else []);
    var rest := Quote(prefix, doc[1..]);
    assert Quote(prefix, doc) == head + rest;
    if k >= |head| {
      QuoteMarksLines(prefix, doc[1..], k - |head|);
      assert (head + rest)[k + 1..k + 1 + |prefix|] == rest[k - |head| + 1..k - |head| + 1 + |prefix|];
    } else if k == 0 {
      assert (head + rest)[1..1 + |prefix|] == prefix;
    } else {
      assert false;
    }
  }

  /** The Markdown module docstring starts with the prefix, repeats it after
      every line break, and gives back the docstring once the inserted
      prefixes are deleted. */
  lemma MarkdownModuleDocLines(doc: string, indent: int)
    ensures var prefix := Indentify(indent) + "> ";
            var r := MarkdownModuleDoc(doc, indent);
            && r[..|prefix|] == prefix
            && Unquote(prefix, r[|prefix|..]) == doc
            && forall k :: 0 <= k < |r| && r[k] == '\n' ==>
                 k + 1 + |prefix| <= |r| && r[k + 1..k + 1 + |prefix|] == prefix
  {
    var prefix := Indentify(indent) + "> ";
    var q := Quote(prefix, doc);
    assert (prefix + q)[..|prefix|] == prefix && (prefix + q)[|prefix|..] == q;
    UnquoteQuote(prefix, doc);
    PrefixedQuoteMarksLines(prefix, doc);
  }

  lemma PrefixedQuoteMarksLines(prefix: string, doc: string)
    requires forall j :: 0 <= j < |prefix| ==> prefix[j] != '\n'
    ensures forall k :: 0 <= k < |prefix + Quote(prefix, doc)| && (prefix + Quote(prefix, doc))[k] == '\n' ==>
              k + 1 + |prefix| <= |prefix + Quote(prefix, doc)|
              && (prefix + Quote(prefix, doc))[k + 1..k + 1 + |prefix|] == prefix
  {
    var q := Quote(prefix, doc);
    var r := prefix + q;
    forall k | 0 <= k < |r| && r[k] == '\n'
      ensures k + 1 + |prefix| <= |r| && r[k + 1..k + 1 + |prefix|] == prefix
    {
      assert k >= |prefix|;
      assert q[k - |prefix|] == '\n';
      QuoteMarksLines(prefix, doc, k - |prefix|);
      assert r[k + 1..k + 1 + |prefix|] == q[k - |prefix| + 1..k - |prefix| + 1 + |prefix|];
    }
  }

  // ---------------------------------------------------------------------------
  // Parameter lists
  // ---------------------------------------------------------------------------

  /** A parameter gets an entry when it is not `self` or `cls` and has a non-empty doc. */
  predicate Documented(p: Param) {
    p.name != "self" && p.name != "cls" && p.doc.Some? && p.doc.value != ""
  }

  /** The documented parameters, in declaration order. */
  function DocumentedParams(ps: seq<Param>): (ds: seq<Param>)
    ensures forall p :: p in ds <==> p in ps && Documented(p)
  {
    if ps == [] then []
    else DocumentedParams(ps[..|ps| - 1]) + (if Documented(ps[|ps| - 1]) then [ps[|ps| - 1]] else [])
  }

  /** Documenting is decided parameter by parameter, so the list of a
      concatenation is the concatenation of the lists. */
  lemma {:induction false} DocumentedParamsConcat(xs: seq<Param>, ys: seq<Param>)
    ensures DocumentedParams(xs + ys) == DocumentedParams(xs) + DocumentedParams(ys)
  {
    if ys == [] {
      assert xs + ys == xs;
    } else {
      var init, last := ys[..|ys| - 1], ys[|ys| - 1];
      var t := if Documented(last) then [last] else [];
      assert (xs + ys)[..|xs + ys| - 1] == xs + init;
      assert (xs + ys)[|xs + ys| - 1] == last;
      DocumentedParamsConcat(xs, init);
      calc {
        DocumentedParams(xs + ys);
        DocumentedParams(xs + init) + t;
        DocumentedParams(xs) + DocumentedParams(init) + t;
        DocumentedParams(xs) + (DocumentedParams(init) + t);
        DocumentedParams(xs) + DocumentedParams(ys);
      }
    }
  }

  /** The parameter's doc; entries are only made for documented parameters. */
  function DocText(p: Param): string {
    if p.doc.Some? then p.doc.value else ""
  }

  function HtmlParamEntry(p: Param): string {
    if p.default.Some? then "<p class='parameter'><a>" + p.name + " (optional):</a> " + DocText(p) + "</p>"
    else "<p class='parameter'><a>" + p.name + ":</a> " + DocText(p) + "</p>"
  }

  function MarkdownParamEntry(p: Param): string {
    if p.default.Some? then "* `" + p.name + "` (optional): " + DocText(p)
    else "* `" + p.name + "`: " + DocText(p)
  }

  function HtmlEntries(ds: seq<Param>): (es: seq<string>)
    ensures |es| == |ds|
    ensures forall k :: 0 <= k < |ds| ==> es[k] == HtmlParamEntry(ds[k])
  {
    if ds == [] then [] else HtmlEntries(ds[..|ds| - 1]) + [HtmlParamEntry(ds[|ds| - 1])]
  }

  function MarkdownEntries(ds: seq<Param>): (es: seq<string>)
    ensures |es| == |ds|
    ensures forall k :: 0 <= k < |ds| ==> es[k] == MarkdownParamEntry(ds[k])
  {
    if ds == [] then [] else MarkdownEntries(ds[..|ds| - 1]) + [MarkdownParamEntry(ds[|ds| - 1])]
  }

  /** Every line with the indentation in front. */
  function Indented(indent: string, lines: seq<string>): (r: seq<string>)
    ensures |r| == |lines|
    ensures forall k :: 0 <= k < |lines| ==> r[k] == indent + lines[k]
  {
    if lines == [] then [] else Indented(indent, lines[..|lines| - 1]) + [indent + lines[|lines| - 1]]
  }

  /** The HTML parameter list: one paragraph per documented parameter, one per line. */
  function HtmlParameters(ps: seq<Param>): string {
    Join("\n", HtmlEntries(DocumentedParams(ps)))
  }

  /** The Markdown parameter list: one bullet per documented parameter, one
      per line, every line indented. */
  function MarkdownParameters(ps: seq<Param>, indent: int): string {
    Join("\n", Indented(Indentify(indent), MarkdownEntries(DocumentedParams(ps))))
  }

  /** One step of the documented-parameter filter. */
  lemma DocumentedParamsSnoc(ps: seq<Param>, i: nat)
    requires i < |ps|
    ensures DocumentedParams(ps[..i + 1])
            == DocumentedParams(ps[..i]) + (if Documented(ps[i]) then [ps[i]] else [])
  {
    assert ps[..i + 1][..i] == ps[..i];
  }

  lemma HtmlEntriesSnoc(ds: seq<Param>, p: Param)
    ensures HtmlEntries(ds + [p]) == HtmlEntries(ds) + [HtmlParamEntry(p)]
  {
    assert (ds + [p])[..|ds|] == ds;
  }

  lemma MarkdownEntriesSnoc(ds: seq<Param>, p: Param)
    ensures MarkdownEntries(ds + [p]) == MarkdownEntries(ds) + [MarkdownParamEntry(p)]
  {
    assert (ds + [p])[..|ds|] == ds;
  }

  /** `HtmlFormatter.function_parameters`. */
  method HtmlFunctionParameters(parameters: seq<Param>) returns (r: string)
    ensures r == HtmlParameters(parameters)
  {
    var out: seq<string> := [];
    for i := 0 to |parameters|
      invariant out == HtmlEntries(DocumentedParams(parameters[..i]))
    {
      var p := parameters[i];
      DocumentedParamsSnoc(parameters, i);
      if p.name != "self" && p.name != "cls" && p.doc.Some? && p.doc.value != "" {
        HtmlEntriesSnoc(DocumentedParams(parameters[..i]), p);
        if p.default.Some? {
          out := out + ["<p class='parameter'><a>" + p.name + " (optional):</a> " + p.doc.value + "</p>"];
        } else {
          out := out + ["<p class='parameter'><a>" + p.name + ":</a> " + p.doc.value + "</p>"];
        }
      }
    }
    assert parameters[..|parameters|] == parameters;
    r := Join("\n", out);
  }

  /** `MarkdownFormatter.function_parameters`: indents the first entry and
      joins with a line break followed by the indentation. */
  method MarkdownFunctionParameters(parameters: seq<Param>, indent: int) returns (r: string)
    ensures r == MarkdownParameters(parameters, indent)
  {
    var out: seq<string> := [];
    for i := 0 to |parameters|
      invariant out == MarkdownEntries(DocumentedParams(parameters[..i]))
    {
      var p := parameters[i];
      DocumentedParamsSnoc(parameters, i);
      if p.name != "self" && p.name != "cls" && p.doc.Some? && p.doc.value != "" {
        MarkdownEntriesSnoc(DocumentedParams(parameters[..i]), p);
        if p.default.Some? {
          out := out + ["* `" + p.name + "` (optional): " + p.doc.value];
        } else {
          out := out + ["* `" + p.name + "`: " + p.doc.value];
        }
      }
    }
    assert parameters[..|parameters|] == parameters;
    var ind := Indentify(indent);
    if out != [] {
      JoinIndented(ind, out);
      out := [ind + out[0]] + out[1..];
    }
    r := Join("\n" + ind, out);
  }

  /** Joining with "line break plus indentation" after indenting the first
      line is joining the indented lines with line breaks. */
  lemma {:induction false} JoinIndented(ind: string, lines: seq<string>)
    requires lines != []
    ensures Join("\n" + ind, [ind + lines[0]] + lines[1..]) == Join("\n", Indented(ind, lines))
  {
    var n := |lines|;
    if n == 1 {
      assert [ind + lines[0]] + lines[1..] == [ind + lines[0]];
      assert Indented(ind, lines) == [ind + lines[0]];
    } else {
      var init := lines[..n - 1];
      JoinIndented(ind, init);
      var xs := [ind + init[0]] + init[1..];
      assert [ind + lines[0]] + lines[1..] == xs + [lines[n - 1]];
      JoinSnoc("\n" + ind, xs, lines[n - 1]);
      assert Indented(ind, lines) == Indented(ind, init) + [ind + lines[n - 1]];
      JoinSnoc("\n", Indented(ind, init), ind + lines[n - 1]);
    }
  }

  /** Both parameter lists are empty exactly when no parameter is documented. */
  lemma ParametersEmpty(ps: seq<Param>, indent: int)
    ensures HtmlParameters(ps) == "" <==> forall p :: p in ps ==> !Documented(p)
    ensures MarkdownParameters(ps, indent) == "" <==> forall p :: p in ps ==> !Documented(p)
  {
    var ds := DocumentedParams(ps);
    if ds != [] {
      assert ds[0] in ps;
      JoinNonEmpty("\n", HtmlEntries(ds));
      JoinNonEmpty("\n", Indented(Indentify(indent), MarkdownEntries(ds)));
    } else {
      assert forall p :: p in ps ==> !Documented(p);
    }
  }

  /** The `(optional)` tag: the entry of a documented parameter carries it
      exactly when the parameter has a default. */
  lemma OptionalTag(p: Param)
    requires Documented(p)
    ensures var tag := "* `" + p.name + "` (optional): ";
            p.default.Some? <==> |tag| <= |MarkdownParamEntry(p)| && MarkdownParamEntry(p)[..|tag|] == tag
    ensures var tag := "<p class='parameter'><a>" + p.name + " (optional):";
            p.default.Some? <==> |tag| <= |HtmlParamEntry(p)| && HtmlParamEntry(p)[..|tag|] == tag
  {
    var n := |p.name|;
    if p.default.None? {
      var m := MarkdownParamEntry(p);
      if |m| >= n + 4 { assert m[n + 4] == ':'; assert ("* `" + p.name + "` (optional): ")[n + 4] == ' '; }
      var h := HtmlParamEntry(p);
      if |h| >= n + 25 { assert h[n + 24] == ':'; assert ("<p class='parameter'><a>" + p.name + " (optional):")[n + 24] == ' '; }
    }
  }

  // ---------------------------------------------------------------------------
  // Constants
  // ---------------------------------------------------------------------------

  /** A constant's value as shown: a string in double quotes, anything else as is. */
  function ValueText(v: Value): (r: string)
    ensures !v.isString ==> r == v.text
    ensures v.isString <==> |r| == |v.text| + 2 && r[0] == '"' && r[|r| - 1] == '"' && r[1..|r| - 1] == v.text
  {
    if v.isString then "\"" + v.text + "\"" else v.text
  }

  // ---------------------------------------------------------------------------
  // Hook dispatch
  // ---------------------------------------------------------------------------

  /** `HtmlFormatter`'s answer to every hook. */
  function HtmlHook(css: string, addCssToEachFile: bool, h: Hook): (r: string)
    ensures !h.FunctionParameters? ==> |r| > 0
  {
    match h
    case TopOfFile =>
      if addCssToEachFile then "<head><style>" + css + "</style></head>"
      else "<head><link rel='stylesheet' type='text/css' href='style.css'></head>"
    case ModuleTitle(title) => "<div class='module_header'><h2>" + title + ".py</h2></div>"
    case ModuleStart => "<div class='module'>"
    case ModuleDoc(doc, _) => "<p>" + doc + "</p>"
    case ModuleEnd => "</div>"
    case TocStart => "<div class='table_of_contents'>"
    case TocTitle => "<h3>Table of Contents</h4>"
    case TocBodyStart => "<div class='left_padded'>"
    case TocFunction(name, isStatic, prefix, _) =>
      "<a href='#" + prefix + "." + name + "'>" + prefix + "." + name
      + (if isStatic then "() (static)</a><br>" else "()</a><br>")
    case TocClass(name, prefix, _) => "<a href='#" + prefix + "." + name + "'>" + prefix + "." + name + "</a><br>"
    case TocClassStart => "<div class='table_of_contents_class'>"
    case TocConstant(name, prefix, _) => "<a href='#" + prefix + "." + name + "'>" + prefix + "." + name + "</a><br>"
    case TocClassEnd => "</div>"
    case TocBodyEnd => "</div>"
    case TocEnd => "</div>"
    case FunctionBlockStart => "<div class='left_padded'>"
    case FunctionStart => "<div class='function'>"
    case FunctionSignature(name, params, prefix, _) =>
      "<a id='" + prefix + "." + name + "' class='function_title'>" + Signature(name, params) + "</a>"
    case FunctionBodyStart => "<div class='function_body'>"
    case FunctionDoc(doc, _) => "<p class='function_doc'>" + doc + "</p>"
    case FunctionParameters(params, _) => HtmlParameters(params)
    case FunctionReturn(doc, _) => "<p class='parameter'><a>return:</a> " + doc + "</p>"
    case FunctionBodyEnd => "</div>"
    case FunctionEnd => "</div>"
    case FunctionBlockEnd => "</div>"
    case ClassStart => "<div class='class'>"
    case ClassTitle(title, prefix, _) => "<h3 id='" + prefix + "." + title + "' >class " + title + "</h3>"
    case ClassBodyStart => "<div class='class_body'>"
    case ClassDoc(doc, _) => "<p>" + doc + "</p>"
    case ConstantsTitle(_) => "<h4>Constants</h4>"
    case ConstantsStart => "<div class='left_padded'>"
    case ClassConstant(name, value, prefix, _) =>
      "<a id='" + prefix + "." + name + "' class='constant'>" + name + " = " + ValueText(value) + "</a><br>"
    case ConstantsEnd => "</div>"
    case StaticTitle(_) => "<h4>Static Methods</h4>"
    case MethodsTitle(_) => "<h4>Methods</h4>"
    case ClassBodyEnd => "</div>"
    case ClassEnd => "</div>"
  }

  /** The hooks `MarkdownFormatter` overrides; the rest keep the empty default. */
  predicate MarkdownOverrides(h: Hook) {
    h.ModuleTitle? || h.ModuleDoc? || h.TocTitle? || h.TocFunction? || h.TocClass? || h.TocConstant?
    || h.FunctionSignature? || h.FunctionDoc? || h.FunctionParameters? || h.FunctionReturn?
    || h.ClassTitle? || h.ClassDoc? || h.ConstantsTitle? || h.ClassConstant?
    || h.StaticTitle? || h.MethodsTitle?
  }

  /** `MarkdownFormatter`'s overrides. */
  function MarkdownHook(h: Hook): (r: string)
    requires MarkdownOverrides(h)
    ensures !h.FunctionParameters? ==> |r| > 0
  {
    match h
    case ModuleTitle(title) => "# " + title
    case ModuleDoc(doc, indent) => MarkdownModuleDoc(doc, indent)
    case TocTitle => "### Table of Contents"
    case TocFunction(name, isStatic, prefix, indent) =>
      Indentify(indent) + "* [`" + prefix + "." + name + "()`](#" + prefix + "." + name + ")"
      + (if isStatic then " (static)" else "")
    case TocClass(name, prefix, indent) =>
      Indentify(indent) + "* [`" + prefix + "." + name + "`](#" + prefix + "." + name + ")"
    case TocConstant(name, prefix, indent) =>
      Indentify(indent) + "* [`" + prefix + "." + name + "`](#" + prefix + "." + name + ")"
    case FunctionSignature(name, params, prefix, indent) =>
      Indentify(indent) + "* #### <a name='" + prefix + "." + name + "'>" + Signature(name, params) + "</a>"
    case FunctionDoc(doc, indent) => Indentify(indent) + "> " + doc
    case FunctionParameters(params, indent) => MarkdownParameters(params, indent)
    case FunctionReturn(doc, indent) => Indentify(indent) + "* `return:` " + doc
    case ClassTitle(title, prefix, indent) =>
      Indentify(indent) + "* ## <a name='" + prefix + "." + title + "'>class " + title + "</a>"
    case ClassDoc(doc, indent) => Indentify(indent) + "> " + doc
    case ConstantsTitle(indent) => Indentify(indent) + "* ### Constants"
    case ClassConstant(name, value, prefix, indent) =>
      Indentify(indent) + "* <a name='" + prefix + "." + name + "'>`" + name + "`</a> = " + ValueText(value)
    case StaticTitle(indent) => Indentify(indent) + "* ### Static Methods"
    case MethodsTitle(indent) => Indentify(indent) + "* ### Methods"
  }

  /** Dispatch: the variant's override, or the base class's empty string. */
  function Render(f: Format, h: Hook): string {
    match f
    case Base => ""
    case Html(css, addCssToEachFile) => HtmlHook(css, addCssToEachFile, h)
    case Markdown => if MarkdownOverrides(h) then MarkdownHook(h) else ""
  }

  /** The function-title hook, which builds the signature first. */
  method RenderSignature(f: Format, name: string, params: seq<Param>, prefix: string, indent: int) returns (r: string)
    ensures r == Render(f, FunctionSignature(name, params, prefix, indent))
  {
    var signature := GeneralFunctionSignature(name, params);
    match f
    case Base => r := "";
    case Html(_, _) =>
      r := "<a id='" + prefix + "." + name + "' class='function_title'>" + signature + "</a>";
    case Markdown =>
      r := Indentify(indent) + "* #### <a name='" + prefix + "." + name + "'>" + signature + "</a>";
  }

  /** Calling a hook on the formatter: the hooks whose Python bodies loop
      (the signature, the Markdown module doc, the parameter lists) run those
      loops; the rest are their templates. */
  method RenderHook(f: Format, h: Hook) returns (r: string)
    ensures r == Render(f, h)
  {
    match h
    case FunctionSignature(name, params, prefix, indent) =>
      r := RenderSignature(f, name, params, prefix, indent);
    case FunctionParameters(params, indent) =>
      match f {
        case Base => r := "";
        case Html(_, _) => r := HtmlFunctionParameters(params);
        case Markdown => r := MarkdownFunctionParameters(params, indent);
      }
    case ModuleDoc(doc, indent) =>
      if f.Markdown? {
        r := MarkdownModuleDocText(doc, indent);
      } else {
        r := Render(f, h);
      }
    case _ => r := Render(f, h);
  }

  /** Which fragments come out empty: everything the base formatter renders,
      the Markdown hooks left at the default, and a parameter list with no
      documented parameter. Every other fragment has text. */
  lemma RenderEmpty(f: Format, h: Hook)
    ensures Render(f, h) == "" <==>
              f.Base? || (f.Markdown? && !MarkdownOverrides(h))
              || (h.FunctionParameters? && forall p :: p in h.params ==> !Documented(p))
  {
    match f
    case Base =>
    case Html(css, addCssToEachFile) => HtmlEmpty(css, addCssToEachFile, h);
    case Markdown => MarkdownEmpty(h);
  }

  lemma HtmlEmpty(css: string, addCssToEachFile: bool, h: Hook)
    ensures Render(Html(css, addCssToEachFile), h) == "" <==>
              h.FunctionParameters? && forall p :: p in h.params ==> !Documented(p)
  {
    assert Render(Html(css, addCssToEachFile), h) == HtmlHook(css, addCssToEachFile, h);
    if h.FunctionParameters? {
      assert HtmlHook(css, addCssToEachFile, h) == HtmlParameters(h.params);
      ParametersEmpty(h.params, h.indent);
    } else {
      assert |HtmlHook(css, addCssToEachFile, h)| > 0;
    }
  }

  lemma MarkdownEmpty(h: Hook)
    ensures Render(Markdown, h) == "" <==>
              !MarkdownOverrides(h) || (h.FunctionParameters? && forall p :: p in h.params ==> !Documented(p))
  {
    if !MarkdownOverrides(h) {
    } else if h.FunctionParameters? {
      assert MarkdownHook(h) == MarkdownParameters(h.params, h.indent);
      ParametersEmpty(h.params, h.indent);
    } else {
      assert |MarkdownHook(h)| > 0;
    }
  }
}
