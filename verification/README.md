# PyDocumentor core, modelled in Dafny

PyDocumentor reads Python modules by reflection and writes one HTML or
Markdown page per module. It works in three steps:

- It collects a record per module, class, function and parameter.
- Docstring directives drive what is kept: `:exclude:`, `:exclude_children:`,
  `:exclude_methods [names]:` and `:include_methods names:`.
- It walks each collected module in a fixed order, calls a formatter hook at
  every step, drops the empty fragments and joins the rest with line breaks.

This project models that core in `py_documentor.py`:

- the directive scanners (`_check_exclusion`, `_get_exclusion`,
  `_get_inclusion`, `_get_exclusion_level`);
- the docstring splitter (`_analyze_function_docs`);
- the visibility rule (`_is_method_excluded`) and the filtering done by the
  three collectors;
- the formatter family (`Formatter`, `HtmlFormatter`, `MarkdownFormatter`),
  modelled as a tagged variant with one dispatch function, plus the shared
  `general_function_signature`;
- document assembly (`_format_functions` and the per-module loop of `export`).

Files and modules:

| file | module | what it holds |
|---|---|---|
| `text.dfy` | `Text` | character classes (`\s`, `[ \t]`, `\w`), `str.strip`, `sep.join` |
| `entities.dfy` | `Entities` | the collected records: module, class, function, parameter, constant |
| `directives.dfy` | `Directives` | the directive scanners, as greedy scanners: the `:exclude:`-line scanner is proved equal to its pattern; the list-directive scanner is proved to match the pattern's list-free form exactly and to read back every `, `-joined list |
| `function_docs.dfy` | `FunctionDocs` | `re.split` on the `:param `/`:return:` markers, and the dictionary the splitter builds |
| `render.dfy` | `Render` | the `Hook` calls, the three formatters, the signature, the Markdown quoting |
| `collect.dfy` | `Collect` | the collectors, over input records that carry what reflection reports |
| `assembly.dfy` | `Assembly` | the walk as a sequence of hook calls; the `out` list as a class; `export` |
| `structure.dfy` | `DocumentStructure` | TOC against body, sections and return lines shown only when non-empty, the fragment filter |
| `links.dfy` | `Links` | each TOC fragment holds a link, and each anchoring fragment holds the matching target |

How the pieces connect:

- Every `for` loop written in the modelled code is a method proved equal to a
  function over the same inputs, for example `GeneralFunctionSignature`
  against `Signature`, `GetExclusionLevel` against `ExclusionLevel` and
  `Output.FormatFunctions` against `FunctionsHooks`. The searches inside
  `re.search` and `re.split` are recursive functions.
- The lemmas state the promised properties about those functions.
- The `out` list of `export` is the class `Assembly.Output`. Its ghost field
  `hooks` records the hook calls made so far. Its invariant `Valid` says
  `out[k]` is the formatter's answer to `hooks[k]`.

Where the code differs from the project's stated design, the model follows
the code:

- A method's own `:exclude:` wins over `include_methods`. The collectors check
  it in `_collect_function_info` before anything else.
- A string default in a signature is printed unquoted. Only the empty string
  is shown as `""`. A string class constant, however, is quoted.
- `:exclude:` and `:exclude_children:` need a line break after the closing
  colon, so a directive on the last line of a docstring is not seen.
- A class's directives other than `:exclude:` are read from the stripped
  docstring. So an `:exclude_children:` on its last line loses its line break
  and is missed, even when the raw docstring ends with one.
- A function's description is the text before the first marker, stripped.
  Directive lines inside it are kept.
- Module-level functions have no `include_methods` override. A private module
  function is dropped unless the private-member option is on.
- A parameter named `FUNCTION` or `RETURN` receives the description or the
  return text, because the splitter stores everything in one dictionary.
- The HTML table-of-contents title is written `<h3>Table of Contents</h4>`, as
  in the source.

## Model

| member | source | states |
|---|---|---|
| Text.Strip | py_documentor.py:844 | `str.strip()`: the result is a slice of the input; only whitespace lies before and after it; it neither starts nor ends with whitespace |
| Directives.ScanExclusion | py_documentor.py:869 | the search succeeds exactly when some position at or after the start holds a directive line for the level |
| Directives.CheckExclusion | py_documentor.py:861-872 | an empty or missing docstring never carries a directive |
| Directives.ExclusionLineAtIff | py_documentor.py:869 | the greedy per-position scanner accepts exactly when the text there starts with `:`, spaces/tabs, the level, spaces/tabs, `:`, spaces/tabs and a line break, for some choice of the three space/tab runs |
| Directives.CheckExclusionMeaning | py_documentor.py:861-872 | `_check_exclusion(doc, level)` holds exactly when some suffix of the docstring starts with a directive line of that shape |
| Directives.CheckExclusionNeedsLineBreak | py_documentor.py:869 | a docstring without a line break never carries `:exclude:` or `:exclude_children:` |
| Directives.CheckExclusionFindsLine | py_documentor.py:869 | a `:level:` line ending in a line break is found wherever it sits in the docstring |
| Directives.ParseNameList | py_documentor.py:925 | a parsed name list ends at a `:` strictly after its start |
| Directives.ParseNameListWords | py_documentor.py:925-931 | a parsed list holds at least one name, and every name is a run of word characters |
| Directives.NameListTextIsJoin | py_documentor.py:931 | the list the parser reads back is `", ".join(names)` |
| Directives.ParseNameListRoundTrip | py_documentor.py:925-931 | parsing `", ".join(names)` followed by `:` gives back exactly `names` and the index of that colon |
| Directives.ListedNamesAreWords | py_documentor.py:925-931 | the names of a directive found in a docstring are words |
| Directives.ScanExcludeMeaning | py_documentor.py:917-933 | the scan finds nothing exactly when no position holds an `exclude_methods` directive; it answers "all methods" only at a bare directive |
| Directives.GetExclusion | py_documentor.py:917-933 | `False` exactly when the docstring has no `exclude_methods` directive; `True` only when the docstring holds one without a list |
| Directives.GetExclusionLeftmost | py_documentor.py:925-931 | for every docstring, the leftmost `exclude_methods` directive decides: `True` when it has no list, otherwise exactly the set of its names, whatever follows it |
| Directives.ScanIncludeWords | py_documentor.py:950-963 | every included name is a word |
| Directives.ScanIncludeNone | py_documentor.py:950-963 | with no `include_methods` directive carrying a list at or after the start, the set is empty |
| Directives.GetInclusion | py_documentor.py:950-963 | every included name is a word; a docstring with no `include_methods` directive carrying a list, bare ones aside, includes nothing |
| Directives.GetInclusionLeftmost | py_documentor.py:956-961 | for every docstring, the leftmost `include_methods` directive with a list decides: the result is exactly the set of its names; a bare one before it is passed over |
| Directives.ListDirectiveRoundTrip | py_documentor.py:925-931 | a directive written as `:KEYWORD:` reads back as bare; written as `:KEYWORD n1, n2:` it reads back with exactly those names |
| Directives.ExcludeMethodsDirective | py_documentor.py:917-933 | with no `exclude_methods` directive before it, a written `:exclude_methods:` gives "all methods" and `:exclude_methods n1, …:` gives exactly the set of listed names |
| Directives.IncludeMethodsDirective | py_documentor.py:950-963 | with no `include_methods` list before it, a written `:include_methods n1, …:` gives exactly the set of listed names |
| Directives.ExcludeAllIncludeSome | py_documentor.py:673-678 | a docstring that carries `:exclude_methods:` and then, after whitespace, `:include_methods n1, …:` (as `MarkdownFormatter`'s does) excludes every method and includes exactly the listed names |
| Directives.IncludeNeedsNames | py_documentor.py:958 | in every docstring, a written `:include_methods:` with no list is no inclusion, because the list is mandatory; with no other inclusion the docstring includes nothing |
| Directives.BareDirectiveAtIff | py_documentor.py:925-928 | the scanner reports a directive without names at a position exactly when `:\s*KEYWORD\s*:` starts there, for some whitespace runs, i.e. when the pattern matches there with its list group left out |
| Directives.ExclusionLevel | py_documentor.py:936-948 | no level exactly when none is set; the level returned is set, and no broader level is |
| Directives.GetExclusionLevel | py_documentor.py:942-946 | the loop over the levels, broadest first, returns `ExclusionLevel` |
| Directives.CollectedRecordsHaveNoLevel | py_documentor.py:936-948 | the module and class records the collectors build have none of the level keys, so no level is ever reported for them |
| FunctionDocs.MarkerAt | py_documentor.py:840 | a marker starts at a `:` and ends after it |
| FunctionDocs.FindMarker | py_documentor.py:841 | the leftmost marker at or after a position: no marker before it, and a marker at it unless it is the end |
| FunctionDocs.SplitFromBlocks | py_documentor.py:841 | from a marker on, every block is the marker matched where the previous blocks end, with its kind, followed by the text up to the next marker or the end of the docstring, which holds no marker |
| FunctionDocs.SplitDoc | py_documentor.py:841 | the head is the docstring up to its first marker: a prefix that holds no marker, followed by a marker unless it is the whole docstring; there are no blocks exactly when it is |
| FunctionDocs.SplitDocBlocks | py_documentor.py:841 | every block of a docstring is the marker matched where the head and the previous blocks end, followed by the marker-free text up to the next marker |
| FunctionDocs.SplitFromLossless | py_documentor.py:841 | the blocks from a marker on concatenate back to the rest of the docstring |
| FunctionDocs.SplitLossless | py_documentor.py:841 | the head followed by the blocks is the docstring: the split loses nothing |
| FunctionDocs.FirstColon | py_documentor.py:848-851 | the index of the first `:` of a block's text, or its length when it has none |
| FunctionDocs.AnalyzeFunctionDocs | py_documentor.py:831-858 | the loop builds the dictionary `AnalyzeDocs` describes, block by block |
| FunctionDocs.ReturnKeepsTextAfterColon | py_documentor.py:847-856 | a docstring whose only marker is `:return:` followed by `a:b`, `a` without a colon, maps `FUNCTION` to the stripped text before the marker and `RETURN` to the stripped `b` only: the text before the first colon is dropped |
| FunctionDocs.StoreLookup | py_documentor.py:847-856 | a key is present exactly when it was there initially or some block writes it; the last write wins; an unwritten key keeps its initial value |
| FunctionDocs.NoMarkersGivesDescriptionOnly | py_documentor.py:843-844 | with no marker, the result is the stripped docstring under `FUNCTION` and nothing else |
| FunctionDocs.DescriptionIsHead | py_documentor.py:843-844 | unless a block is itself labelled `FUNCTION`, the description is the stripped text before the first marker |
| FunctionDocs.LastBlockWins | py_documentor.py:847-856 | the value under a block's key is that block's text when no later block has the same key |
| FunctionDocs.AnalyzeDocsKeys | py_documentor.py:831-858 | the keys are `FUNCTION` plus exactly the keys the blocks write |
| FunctionDocs.StoreKeys | py_documentor.py:847-856 | the dictionary's keys are its initial keys plus the keys written |
| Render.DefaultText | py_documentor.py:88-89 | a default prints as `""` exactly when it is the empty string (or its text is already `""`) |
| Render.GeneralFunctionSignature | py_documentor.py:73-98 | the loop builds `name(` + the entries joined by `, ` + `)`, one entry per parameter in declaration order |
| Render.SignatureItems | py_documentor.py:86-96 | a variadic parameter shows as `*name` / `**name` whatever its default; any other shows `name` alone exactly when it has no default, and `name=default` otherwise |
| Render.Indentify | py_documentor.py:685-691 | two spaces per indentation level and nothing else; none for a level of zero or below |
| Render.MarkdownModuleDocText | py_documentor.py:701-711 | the loop builds the quote block `MarkdownModuleDoc` describes |
| Render.UnquoteQuote | py_documentor.py:701-711 | deleting the inserted prefixes gives the docstring back |
| Render.QuoteMarksLines | py_documentor.py:706-709 | every line break of the quoted text is followed by the prefix |
| Render.MarkdownModuleDocLines | py_documentor.py:701-711 | the Markdown module doc starts with the indentation and `> `, repeats them after every line break, and gives back the docstring once they are deleted |
| Render.DocumentedParams | py_documentor.py:591-592 | the parameters that get an entry are exactly those not named `self`/`cls` with a non-empty doc |
| Render.DocumentedParamsConcat | py_documentor.py:590-592 | the filter works parameter by parameter and keeps declaration order |
| Render.HtmlFunctionParameters | py_documentor.py:589-598 | the loop builds one paragraph per documented parameter, joined by line breaks |
| Render.MarkdownFunctionParameters | py_documentor.py:749-762 | the loop builds one bullet per documented parameter, indenting the first and joining with a line break plus indentation |
| Render.JoinIndented | py_documentor.py:758-762 | indenting the first entry and joining with a line break plus indentation gives every line indented, joined by line breaks |
| Render.ParametersEmpty | py_documentor.py:589-598 | in both formats the parameter list is empty exactly when no parameter is documented |
| Render.OptionalTag | py_documentor.py:593-596 | a parameter entry carries `(optional)` exactly when the parameter has a default, in both formats |
| Render.ValueText | py_documentor.py:645-649 | a string constant is shown in double quotes around its text; any other value is shown as its text |
| Render.HtmlHook | py_documentor.py:492-668 | every HTML hook except the parameter list gives a non-empty fragment |
| Render.MarkdownHook | py_documentor.py:685-799 | every Markdown override except the parameter list gives a non-empty fragment |
| Render.RenderSignature | py_documentor.py:575-579 | the function-title hook embeds the general signature in the format's anchor markup |
| Render.RenderHook | py_documentor.py:466-799 | calling a hook on a formatter gives the dispatch's answer: the override, or the empty base default |
| Render.RenderEmpty | py_documentor.py:41-461 | a fragment is empty exactly when the formatter is the base one, or Markdown leaves the hook at its default, or it is a parameter list with no documented parameter |
| Render.HtmlEmpty | py_documentor.py:502-668 | an HTML fragment is empty exactly when it is a parameter list with no documented parameter |
| Render.MarkdownEmpty | py_documentor.py:672-799 | a Markdown fragment is empty exactly when the hook is not overridden, or it is a parameter list with no documented parameter |
| Collect.IsMethodExcludedMeaning | py_documentor.py:966-985 | a method is excluded exactly when it is not in `include_methods` and either all children are excluded, all methods are, or it is named in `exclude_methods` |
| Collect.ParamRecords | py_documentor.py:1126-1133 | one record per signature parameter, in order; each carries the docstring's text under its name |
| Collect.CollectFunctionInfo | py_documentor.py:1110-1137 | the collector returns `FunctionRecordOf`: none when excluded, else the record built from the analysed docstring |
| Collect.FunctionRecordDescription | py_documentor.py:1116-1122 | a function is dropped exactly when its own docstring carries `:exclude:`; otherwise its description is the stripped text before the first marker (unless a block is labelled `FUNCTION`) |
| Collect.SortMembers | py_documentor.py:1063-1068 | the first pass yields the kept constants and the methods that survive `_is_method_excluded`, in member order |
| Collect.CollectRoutines | py_documentor.py:1074-1084 | the second pass yields the static and the other methods the private rule lets through, in order |
| Collect.CollectClassInfo | py_documentor.py:1040-1088 | the class collector returns `ClassRecordOf` |
| Collect.ConstantsMembers | py_documentor.py:1067-1068 | a constant is collected exactly when some member is non-callable, has a public name, and children are not excluded |
| Collect.ConstantsConcat | py_documentor.py:1063-1068 | constants are kept member by member, in member order |
| Collect.CandidatesMembers | py_documentor.py:1064-1066 | a member is a method candidate exactly when it is a function or method that `_is_method_excluded` keeps |
| Collect.CandidatesConcat | py_documentor.py:1063-1066 | candidates are kept member by member, in member order |
| Collect.RoutinesMembers | py_documentor.py:1074-1084 | a record is in a method list exactly when some candidate is in the class's own dictionary, has the matching static status, passes the private rule and is not excluded by its own docstring |
| Collect.RoutinesConcat | py_documentor.py:1074-1084 | the second pass works candidate by candidate, in order |
| Collect.MethodsMembers | py_documentor.py:1063-1084 | a record is in a method list exactly when some class member passes the whole method rule |
| Collect.MethodsConcat | py_documentor.py:1063-1084 | both passes together keep member order |
| Collect.ClassRecordContents | py_documentor.py:1040-1088 | a class is dropped exactly when its raw docstring carries `:exclude:`; otherwise its name, stripped docstring, constants, static methods and methods are exactly what the member rules keep under the directives of the stripped docstring |
| Collect.ExcludeChildrenOnLastLineIsMissed | py_documentor.py:1052-1058 | for every class docstring that ends with an `:exclude_children:` line followed only by whitespace, with no such line before it and no `:exclude:` line: the raw docstring carries the directive, yet the class keeps every public constant, because the directive is read from the stripped docstring |
| Collect.ChildrenDirectiveIsNotExclude | py_documentor.py:1047 | wherever it is written, `:exclude_children:` does not start an `:exclude:` line |
| Collect.CollectModuleInfo | py_documentor.py:1139-1168 | the module collector returns `ModuleRecordOf` |
| Collect.ModuleClassesMembers | py_documentor.py:1156-1159 | a class record is collected exactly when some member is a class defined in the module that is not excluded |
| Collect.ModuleFunctionsMembers | py_documentor.py:1161-1165 | a function record is collected exactly when some member is a function defined in the module, passes the private rule, and is not excluded |
| Collect.ModuleClassesConcat | py_documentor.py:1155-1159 | classes are kept member by member, in member order |
| Collect.ModuleFunctionsConcat | py_documentor.py:1155-1165 | functions are kept member by member, in member order |
| Collect.PrivateModuleFunctionsDropped | py_documentor.py:1162 | without the private option, a function whose every source has a private name is never collected |
| Assembly.Output.constructor | py_documentor.py:1276 | the output list starts empty |
| Assembly.Output.Append | py_documentor.py:1280-1283 | appending a hook's fragment records the call and keeps one fragment per call |
| Assembly.Output.FormatFunctions | py_documentor.py:892-914 | `_format_functions` appends the block start, each function's hooks in order, and the block end |
| Assembly.Output.Function | py_documentor.py:903-913 | one function appends its head, its return line only when the return text is non-empty, and its closing hooks |
| Assembly.Output.TableOfContents | py_documentor.py:1285-1312 | the table of contents appends the module's functions, then each class's entries, between its frame hooks |
| Assembly.Output.TocClassEntries | py_documentor.py:1293-1310 | a class's entries: the class, then its constants, static methods and methods |
| Assembly.Output.TocFunctions | py_documentor.py:1302-1308 | one TOC entry per function, in order |
| Assembly.Output.TocConstants | py_documentor.py:1298-1300 | one TOC entry per constant, in order |
| Assembly.Output.Classes | py_documentor.py:1317-1340 | each class's hooks, in order |
| Assembly.Output.Class | py_documentor.py:1317-1340 | a class appends its head, then each section only when its list is non-empty, then its closing hooks |
| Assembly.Output.ConstantsPart | py_documentor.py:1323-1329 | the constants section, only when there are constants |
| Assembly.Output.StaticPart | py_documentor.py:1331-1333 | the static-methods section, only when there are static methods |
| Assembly.Output.MethodsPart | py_documentor.py:1335-1337 | the methods section, only when there are methods |
| Assembly.DropEmpty | py_documentor.py:1345-1348 | the cleaning loop keeps exactly the non-empty fragments, in order |
| Assembly.ExportModule | py_documentor.py:1273-1350 | a module's text is the "\n"-join of the non-empty fragments of its walk, in walk order |
| Assembly.Export | py_documentor.py:1272-1350 | one text per collected file path and no other, each the text of its module |
| DocumentStructure.FunctionReturnLine | py_documentor.py:909-910 | a function's hooks hold its return line exactly when the return text is non-empty, and then only that text |
| DocumentStructure.ClassSectionsShown | py_documentor.py:1323-1337 | a class shows a "Constants", "Static Methods" or "Methods" title exactly when the list is non-empty |
| DocumentStructure.SectionShown | py_documentor.py:1323-1337 | the same, one section at a time |
| DocumentStructure.TitleMembers | py_documentor.py:1323-1337 | a section title is among the titles gathered from a walk exactly when the walk holds it |
| DocumentStructure.ModuleAnchors | py_documentor.py:1314-1340 | the body anchors every entity of the module, in document order: its functions, then each class with its constants, static methods and methods |
| DocumentStructure.ModuleTocEntries | py_documentor.py:1285-1312 | the TOC entries are every entity of the module in the same order when the table is enabled, and none otherwise |
| DocumentStructure.TocMatchesBody | py_documentor.py:1285-1340 | with the table enabled, its entries and the body's anchors are the same entities in the same order, and the table does not change the body's anchors |
| DocumentStructure.NonEmptyConcat | py_documentor.py:1345-1348 | dropping empty fragments works piece by piece and keeps order |
| DocumentStructure.NonEmptyMembers | py_documentor.py:1345-1348 | a fragment is kept exactly when it occurs and is non-empty |
| DocumentStructure.NonEmptyKeepsAll | py_documentor.py:1345-1348 | nothing is dropped from a list without empty fragments |
| Links.HtmlLink | py_documentor.py:533-550 | an HTML TOC fragment holds `href='#prefix.name'` for its entity |
| Links.HtmlTarget | py_documentor.py:575-649 | an HTML anchoring fragment holds `id='prefix.name'` for its entity |
| Links.MarkdownLink | py_documentor.py:721-734 | a Markdown TOC fragment holds `(#prefix.name)` for its entity |
| Links.MarkdownTarget | py_documentor.py:740-791 | a Markdown anchoring fragment holds `<a name='prefix.name'>` for its entity |
| Links.LinksHaveTargets | py_documentor.py:521-791 | in both formats, a TOC fragment holds the link to its entity and an anchoring fragment holds the target with the same key |

## Left out

- Reflection (`getmembers`, `signature`, `isfunction`, `callable`, `__dict__`, `__module__`) is replaced by input records that carry its answers. The member order is an input; `getmembers` sorts by name.
- `\w` is modelled as ASCII word characters only. Python's `str` patterns also accept other Unicode letters and digits.
- File and console I/O is not modelled. That covers `_file_writer`, `_collect_file_names`, `_import_modules`, `_get_user_options`, `_user_input`, `_input_to_bool`, `display_overview`, the export directory and its `PermissionError`, and the final message.
- The options (`table_of_contents`, `collect_private_methods`, the output format) are parameters. `UserOptions` itself is not modelled.
- `HtmlFormatter.free_run` reads `style.css` and may write a copy. The model takes the stylesheet text as the `css` field of the HTML format. The copy is not modelled.
- `FILE_EXT` only names the files written, so it is not modelled.
- An output format other than HTML or Markdown leaves the formatter `None` in `export`, and the first hook call then fails. The model has no such format; the base `Formatter` is kept as a variant of the dispatch.
- Assembly.Output.FormatFunctions: takes the prefix as a string. For module functions `export` passes the module's name, a `str`, where `_format_functions` reads `cls['name']`; in Python that raises `TypeError` whenever a module has functions. The model uses the module's name as the prefix, which is evidently what was meant.
- Directives.ListDirectiveRoundTrip: covers directives written with `, ` between names. Other whitespace around names is read by the same scanner but has no round-trip lemma.
- Links.LinksHaveTargets: stated per fragment. Together with DocumentStructure.TocMatchesBody it gives "every link has a target in the same file", but no lemma states that over the joined text.
- Python's `name[0]` on an empty name would raise `IndexError`. The model treats an empty name as public; Python names are never empty.
