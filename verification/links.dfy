/** Links and their targets in the rendered text. A table-of-contents entry
    renders a link to `prefix.name`; the fragment that defines an entity
    renders an anchor with the same key. Together with
    `DocumentStructure.TocMatchesBody` this says every link of the table of
    contents points at an anchor of the same file. */
module Links {
  import opened Render
  import opened DocumentStructure

  /** The key both the link and the anchor use. */
  function Key(e: Entity): string {
    e.prefix + "." + e.name
  }

  /** `t` occurs in `s` at position `i`. */
  predicate OccursAt(s: string, t: string, i: int) {
    0 <= i && i + |t| <= |s| && s[i..i + |t|] == t
  }

  ghost predicate Contains(s: string, t: string) {
    exists i :: OccursAt(s, t, i)
  }

  /** How a format writes a link to an entity. */
  function LinkText(f: Format, e: Entity): string {
    match f
    case Base => ""
    case Html(_, _) => "href='#" + Key(e) + "'"
    case Markdown => "(#" + Key(e) + ")"
  }

  /** How a format writes an entity's anchor. */
  function TargetText(f: Format, e: Entity): string {
    match f
    case Base => ""
    case Html(_, _) => "id='" + Key(e) + "'"
    case Markdown => "<a name='" + Key(e) + "'>"
  }

  lemma ContainsMiddle(a: string, t: string, b: string)
    ensures Contains(a + t + b, t)
  {
    assert OccursAt(a + t + b, t, |a|);
  }

  /** A text that ends in an anchor or a link to `p + d + n` between `b` and `q`. */
  lemma ContainsKeyed(a: string, b: string, p: string, d: string, n: string, q: string, g: string)
    ensures Contains((a + b) + p + d + n + (q + g), b + (p + d + n) + q)
  {
    var t := b + (p + d + n) + q;
    assert (a + b) + p + d + n + (q + g) == a + t + g;
    ContainsMiddle(a, t, g);
  }

  /** The same, after a text `i` whose last literal has been split into `a + b`. */
  lemma ContainsKeyedAfter(i: string, a: string, b: string, p: string, d: string, n: string, q: string, g: string)
    ensures Contains(i + (a + b) + p + d + n + (q + g), b + (p + d + n) + q)
  {
    assert i + (a + b) == (i + a) + b;
    ContainsKeyed(i + a, b, p, d, n, q, g);
  }

  lemma ContainsExtend(s: string, t: string, m: string)
    requires Contains(s, t)
    ensures Contains(s + m, t)
  {
    var i :| OccursAt(s, t, i);
    assert (s + m)[i..i + |t|] == s[i..i + |t|];
    assert OccursAt(s + m, t, i);
  }

  lemma ContainsExtend2(s: string, t: string, m1: string, m2: string)
    requires Contains(s, t)
    ensures Contains(s + m1 + m2, t)
  {
    ContainsExtend(s, t, m1);
    ContainsExtend(s + m1, t, m2);
  }

  lemma ContainsExtend4(s: string, t: string, m1: string, m2: string, m3: string, m4: string)
    requires Contains(s, t)
    ensures Contains(s + m1 + m2 + m3 + m4, t)
  {
    ContainsExtend2(s, t, m1, m2);
    ContainsExtend2(s + m1 + m2, t, m3, m4);
  }

  // HTML: a link is `href='KEY'` inside `<a href='#KEY'>`, a target `id='KEY'`.

  lemma HtmlLink(css: string, add: bool, h: Hook)
    requires TocEntry(h) != []
    ensures Contains(Render.Render(Html(css, add), h), LinkText(Html(css, add), TocEntry(h)[0]))
  {
    var t := LinkText(Html(css, add), TocEntry(h)[0]);
    assert "<a href='#" == "<a " + "href='#" && "'>" == "'" + ">";
    match h
    case TocFunction(name, isStatic, prefix, _) =>
      ContainsKeyed("<a ", "href='#", prefix, ".", name, "'", ">");
      ContainsExtend4("<a href='#" + prefix + "." + name + "'>", t, prefix, ".", name,
        if isStatic then "() (static)</a><br>" else "()</a><br>");
    case TocClass(name, prefix, _) =>
      ContainsKeyed("<a ", "href='#", prefix, ".", name, "'", ">");
      ContainsExtend4("<a href='#" + prefix + "." + name + "'>", t, prefix, ".", name, "</a><br>");
    case TocConstant(name, prefix, _) =>
      ContainsKeyed("<a ", "href='#", prefix, ".", name, "'", ">");
      ContainsExtend4("<a href='#" + prefix + "." + name + "'>", t, prefix, ".", name, "</a><br>");
  }

  lemma HtmlTargetLiterals()
    ensures "<a id='" == "<a " + "id='" && "<h3 id='" == "<h3 " + "id='"
    ensures "' class='function_title'>" == "'" + " class='function_title'>"
    ensures "' >class " == "'" + " >class " && "' class='constant'>" == "'" + " class='constant'>"
  {
  }

  lemma HtmlTarget(css: string, add: bool, h: Hook)
    requires Anchor(h) != []
    ensures Contains(Render.Render(Html(css, add), h), TargetText(Html(css, add), Anchor(h)[0]))
  {
    var t := TargetText(Html(css, add), Anchor(h)[0]);
    HtmlTargetLiterals();
    match h
    case FunctionSignature(name, params, prefix, _) =>
      ContainsKeyed("<a ", "id='", prefix, ".", name, "'", " class='function_title'>");
      ContainsExtend2("<a id='" + prefix + "." + name + "' class='function_title'>", t, Signature(name, params), "</a>");
    case ClassTitle(title, prefix, _) =>
      ContainsKeyed("<h3 ", "id='", prefix, ".", title, "'", " >class ");
      ContainsExtend2("<h3 id='" + prefix + "." + title + "' >class ", t, title, "</h3>");
    case ClassConstant(name, value, prefix, _) =>
      ContainsKeyed("<a ", "id='", prefix, ".", name, "'", " class='constant'>");
      ContainsExtend4("<a id='" + prefix + "." + name + "' class='constant'>", t, name, " = ", ValueText(value), "</a><br>");
  }

  // Markdown: a link is `(#KEY)` after the entry's label, a target `<a name='KEY'>`.

  lemma MarkdownLink(h: Hook)
    requires TocEntry(h) != []
    ensures Contains(Render.Render(Markdown, h), LinkText(Markdown, TocEntry(h)[0]))
  {
    var t := LinkText(Markdown, TocEntry(h)[0]);
    assert ")" == ")" + "";
    match h
    case TocFunction(name, isStatic, prefix, indent) =>
      assert "()`](#" == "()`]" + "(#";
      var entry := Indentify(indent) + "* [`" + prefix + "." + name;
      ContainsKeyedAfter(entry, "()`]", "(#", prefix, ".", name, ")", "");
      ContainsExtend(entry + "()`](#" + prefix + "." + name + ")", t, if isStatic then " (static)" else "");
    case TocClass(name, prefix, indent) =>
      assert "`](#" == "`]" + "(#";
      ContainsKeyedAfter(Indentify(indent) + "* [`" + prefix + "." + name, "`]", "(#", prefix, ".", name, ")", "");
    case TocConstant(name, prefix, indent) =>
      assert "`](#" == "`]" + "(#";
      ContainsKeyedAfter(Indentify(indent) + "* [`" + prefix + "." + name, "`]", "(#", prefix, ".", name, ")", "");
  }

  lemma MarkdownTarget(h: Hook)
    requires Anchor(h) != []
    ensures Contains(Render.Render(Markdown, h), TargetText(Markdown, Anchor(h)[0]))
  {
    var t := TargetText(Markdown, Anchor(h)[0]);
    match h
    case FunctionSignature(name, params, prefix, indent) =>
      assert "* #### <a name='" == "* #### " + "<a name='" && "'>" == "'>" + "";
      ContainsKeyedAfter(Indentify(indent), "* #### ", "<a name='", prefix, ".", name, "'>", "");
      ContainsExtend2(Indentify(indent) + "* #### <a name='" + prefix + "." + name + "'>", t, Signature(name, params), "</a>");
    case ClassTitle(title, prefix, indent) =>
      assert "* ## <a name='" == "* ## " + "<a name='" && "'>class " == "'>" + "class ";
      ContainsKeyedAfter(Indentify(indent), "* ## ", "<a name='", prefix, ".", title, "'>", "class ");
      ContainsExtend2(Indentify(indent) + "* ## <a name='" + prefix + "." + title + "'>class ", t, title, "</a>");
    case ClassConstant(name, value, prefix, indent) =>
      assert "* <a name='" == "* " + "<a name='" && "'>`" == "'>" + "`";
      ContainsKeyedAfter(Indentify(indent), "* ", "<a name='", prefix, ".", name, "'>", "`");
      ContainsExtend2(Indentify(indent) + "* <a name='" + prefix + "." + name + "'>`", t, name, "`</a> = ");
      ContainsExtend(Indentify(indent) + "* <a name='" + prefix + "." + name + "'>`" + name + "`</a> = ", t, ValueText(value));
  }

  /** In the HTML and Markdown formats, a table-of-contents entry's fragment
      holds the link to its entity and an anchoring fragment holds the target
      with the same key. */
  lemma LinksHaveTargets(f: Format, h: Hook)
    requires !f.Base?
    ensures TocEntry(h) != [] ==> Contains(Render.Render(f, h), LinkText(f, TocEntry(h)[0]))
    ensures Anchor(h) != [] ==> Contains(Render.Render(f, h), TargetText(f, Anchor(h)[0]))
  {
    if TocEntry(h) != [] {
      if f.Html? { HtmlLink(f.css, f.addCssToEachFile, h); } else { MarkdownLink(h); }
    }
    if Anchor(h) != [] {
      if f.Html? { HtmlTarget(f.css, f.addCssToEachFile, h); } else { MarkdownTarget(h); }
    }
  }
}
