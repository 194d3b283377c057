/** `_analyze_function_docs`: a function's docstring is split at every
    `:param ` / `:return:` marker (the pattern `(:\s*param |:\s*return:)`, as
    `re.split` uses it) into a description and a dictionary of parameter texts. */
module FunctionDocs {
  import opened Text

  datatype MarkerKind = ParamMarker | ReturnMarker

  /** A marker found in the docstring: its kind and the index just past it. */
  datatype Marker = Marker(kind: MarkerKind, end: nat)

  const PARAM := "param "
  const RETURN_COLON := "return:"

  /** The pattern at one position: `:`, a greedy run of whitespace, then
      `param ` or `return:`. Neither keyword starts with whitespace, so the
      greedy run is the only one the pattern can use. */
  function MarkerAt(s: string, i: nat): (r: Option<Marker>)
    requires i <= |s|
    ensures r.Some? ==> i < r.value.end <= |s| && s[i] == ':'
  {
    if i < |s| && s[i] == ':' then
      var a := SkipSpaces(s, i + 1);
      if a + |PARAM| <= |s| && s[a..a + |PARAM|] == PARAM then Some(Marker(ParamMarker, a + |PARAM|))
      else if a + |RETURN_COLON| <= |s| && s[a..a + |RETURN_COLON|] == RETURN_COLON then
        Some(Marker(ReturnMarker, a + |RETURN_COLON|))
      else None
    else None
  }

  /** The leftmost marker at or after `i`, or `|s|` when there is none. */
  function FindMarker(s: string, i: nat): (r: nat)
    requires i <= |s|
    ensures i <= r <= |s|
    ensures forall k :: i <= k < r ==> MarkerAt(s, k).None?
    ensures r < |s| ==> MarkerAt(s, r).Some?
    decreases |s| - i
  {
    if i == |s| || MarkerAt(s, i).Some? then i else FindMarker(s, i + 1)
  }

  /** One piece of the split: the marker text and the text up to the next marker. */
  datatype Block = Block(kind: MarkerKind, marker: string, text: string)

  /** `b` is the block `re.split` cuts at position `o` of `s`: the marker
      matched there, then the text up to the next marker or the end. */
  predicate BlockAt(s: string, o: nat, b: Block) {
    o < |s| && MarkerAt(s, o).Some? &&
    var e := MarkerAt(s, o).value.end;
    b.kind == MarkerAt(s, o).value.kind && b.marker == s[o..e] &&
    e + |b.text| <= |s| && b.text == s[e..e + |b.text|] &&
    (forall k :: e <= k < e + |b.text| ==> MarkerAt(s, k).None?) &&
    (e + |b.text| < |s| ==> MarkerAt(s, e + |b.text|).Some?)
  }

  /** The blocks from the marker at `p` on; the search for the next marker
      resumes just past the previous one, as `re.split` does. */
  function SplitFrom(s: string, p: nat): (bs: seq<Block>)
    requires p < |s| && MarkerAt(s, p).Some?
    ensures |bs| > 0
    decreases |s| - p
  {
    var m := MarkerAt(s, p).value;
    var q := FindMarker(s, m.end);
    var b := Block(m.kind, s[p..m.end], s[m.end..q]);
    if q == |s| then [b] else [b] + SplitFrom(s, q)
  }

  lemma FirstBlockAt(s: string, p: nat, e: nat, q: nat)
    requires p < |s| && MarkerAt(s, p).Some?
    requires e == MarkerAt(s, p).value.end && q == FindMarker(s, e)
    ensures BlockAt(s, p, Block(MarkerAt(s, p).value.kind, s[p..e], s[e..q]))
  {
  }

  datatype Split = Split(head: string, blocks: seq<Block>)

  /** `re.split(pattern, doc)`: the text before the first marker, then the blocks. */
  function SplitDoc(doc: string): (r: Split)
    ensures |r.head| <= |doc| && r.head == doc[..|r.head|]
    ensures forall k :: 0 <= k < |r.head| ==> MarkerAt(doc, k).None?
    ensures |r.head| < |doc| ==> MarkerAt(doc, |r.head|).Some?
    ensures r.blocks == [] <==> |r.head| == |doc|
  {
    var q := FindMarker(doc, 0);
    Split(doc[..q], if q == |doc| then [] else SplitFrom(doc, q))
  }

  /** The text the blocks were cut from. */
  function Concat(bs: seq<Block>): string {
    if bs == [] then [] else bs[0].marker + bs[0].text + Concat(bs[1..])
  }

  lemma {:induction false} SplitFromLossless(s: string, p: nat)
    requires p < |s| && MarkerAt(s, p).Some?
    ensures Concat(SplitFrom(s, p)) == s[p..]
    decreases |s| - p
  {
    var e := MarkerAt(s, p).value.end;
    var q := FindMarker(s, e);
    var bs := SplitFrom(s, p);
    SplitFromStep(s, p, e, q);
    if q == |s| {
      PiecesJoin(s, p, e, q, []);
    } else {
      SplitFromLossless(s, q);
      PiecesJoin(s, p, e, q, s[q..]);
    }
  }

  /** Every block, not only the first, is the marker found where the text
      before it ends, followed by the marker-free text up to the next one. */
  lemma {:induction false} SplitFromBlocks(s: string, p: nat, j: nat, o: nat)
    requires p < |s| && MarkerAt(s, p).Some? && j < |SplitFrom(s, p)|
    requires o == p + |Concat(SplitFrom(s, p)[..j])|
    ensures BlockAt(s, o, SplitFrom(s, p)[j])
    decreases |s| - p
  {
    var bs := SplitFrom(s, p);
    var e := MarkerAt(s, p).value.end;
    var q := FindMarker(s, e);
    SplitFromStep(s, p, e, q);
    if j == 0 {
      assert bs[..0] == [];
      FirstBlockAt(s, p, e, q);
      assert bs[0] == Block(MarkerAt(s, p).value.kind, s[p..e], s[e..q]);
    } else {
      var rest := SplitFrom(s, q);
      ConcatLength(bs[..j]);
      assert bs[..j][0] == bs[0] && bs[..j][1..] == rest[..j - 1];
      assert bs[j] == rest[j - 1];
      SplitFromBlocks(s, q, j - 1, o);
    }
  }

  lemma ConcatLength(bs: seq<Block>)
    requires bs != []
    ensures |Concat(bs)| == |bs[0].marker| + |bs[0].text| + |Concat(bs[1..])|
  {
  }

  /** The blocks of a docstring, each at the position where the text before it ends. */
  lemma SplitDocBlocks(doc: string, j: nat, o: nat)
    requires j < |SplitDoc(doc).blocks|
    requires o == |SplitDoc(doc).head| + |Concat(SplitDoc(doc).blocks[..j])|
    ensures BlockAt(doc, o, SplitDoc(doc).blocks[j])
  {
    var q := FindMarker(doc, 0);
    assert SplitDoc(doc) == Split(doc[..q], SplitFrom(doc, q));
    SplitFromBlocks(doc, q, j, o);
  }

  /** One unfolding of `SplitFrom`. */
  lemma SplitFromStep(s: string, p: nat, e: nat, q: nat)
    requires p < |s| && MarkerAt(s, p).Some?
    requires e == MarkerAt(s, p).value.end && q == FindMarker(s, e)
    ensures SplitFrom(s, p)[0].kind == MarkerAt(s, p).value.kind
    ensures SplitFrom(s, p)[0].marker == s[p..e] && SplitFrom(s, p)[0].text == s[e..q]
    ensures q == |s| ==> SplitFrom(s, p)[1..] == []
    ensures q < |s| ==> SplitFrom(s, p)[1..] == SplitFrom(s, q)
  {
  }

  lemma PiecesJoin(s: string, p: nat, e: nat, q: nat, tail: string)
    requires p <= e <= q <= |s| && tail == s[q..]
    ensures s[p..e] + s[e..q] + tail == s[p..]
  {
  }

  /** Splitting loses nothing: the description and the blocks put back
      together give the docstring. */
  lemma SplitLossless(doc: string)
    ensures SplitDoc(doc).head + Concat(SplitDoc(doc).blocks) == doc
  {
    var q := FindMarker(doc, 0);
    if q < |doc| {
      SplitFromLossless(doc, q);
      assert doc == doc[..q] + doc[q..];
    }
  }

  /** Index of the first `:` of `t`, or `|t|` when there is none. */
  function FirstColon(t: string): (c: nat)
    ensures c <= |t|
    ensures forall k :: 0 <= k < c ==> t[k] != ':'
    ensures c < |t| ==> t[c] == ':'
  {
    if t == [] || t[0] == ':' then 0 else 1 + FirstColon(t[1..])
  }

  /** One dictionary assignment. */
  datatype Entry = Entry(key: string, value: string)

  /** The assignment one block makes. The text is cut at its first colon
      (`name, info = text.split(":", 1)`; with no colon `name` is `""` and
      `info` the whole text). A parameter block stores the stripped `info`
      under the stripped `name`, the return block under `RETURN`. */
  function BlockEntry(b: Block): Entry {
    var c := FirstColon(b.text);
    var name := if c < |b.text| then b.text[..c] else "";
    var info := if c < |b.text| then b.text[c + 1..] else b.text;
    match b.kind
    case ParamMarker => Entry(Strip(name), Strip(info))
    case ReturnMarker => Entry(RETURN, Strip(info))
  }

  function Entries(bs: seq<Block>): (es: seq<Entry>)
    ensures |es| == |bs|
  {
    if bs == [] then [] else Entries(bs[..|bs| - 1]) + [BlockEntry(bs[|bs| - 1])]
  }

  /** The dictionary after making the assignments in order. */
  function Store(d: map<string, string>, es: seq<Entry>): map<string, string> {
    if es == [] then d
    else Store(d, es[..|es| - 1])[es[|es| - 1].key := es[|es| - 1].value]
  }

  const FUNCTION := "FUNCTION"
  const RETURN := "RETURN"

  /** What `_analyze_function_docs(doc)` returns. The source guards the
      description with `if not re.match(pattern, splt[0])`; `splt[0]` is the
      text before the leftmost match, so the guard always holds and the
      description is always stored. */
  function AnalyzeDocs(doc: string): map<string, string> {
    var sp := SplitDoc(doc);
    Store(map[FUNCTION := Strip(sp.head)], Entries(sp.blocks))
  }

  /** `_analyze_function_docs`: fills the dictionary block by block. */
  method AnalyzeFunctionDocs(doc: string) returns (data: map<string, string>)
    ensures data == AnalyzeDocs(doc)
  {
    var sp := SplitDoc(doc);
    ghost var init := map[FUNCTION := Strip(sp.head)];
    data := map[];
    data := data[FUNCTION := Strip(sp.head)];
    var i := 0;
    while i < |sp.blocks|
      invariant 0 <= i <= |sp.blocks|
      invariant data == Store(init, Entries(sp.blocks[..i]))
    {
      var e := BlockEntry(sp.blocks[i]);
      StoreStep(init, sp.blocks, i);
      data := data[e.key := e.value];
      i := i + 1;
    }
    assert sp.blocks[..|sp.blocks|] == sp.blocks;
  }

  lemma StoreStep(d: map<string, string>, bs: seq<Block>, i: nat)
    requires i < |bs|
    ensures Store(d, Entries(bs[..i + 1]))
            == Store(d, Entries(bs[..i]))[BlockEntry(bs[i]).key := BlockEntry(bs[i]).value]
  {
    assert bs[..i + 1][..i] == bs[..i];
    var es := Entries(bs[..i + 1]);
    assert es == Entries(bs[..i]) + [BlockEntry(bs[i])];
    assert es[..|es| - 1] == Entries(bs[..i]);
  }

  /** `Entries` lines up with the blocks, one assignment per block. */
  lemma {:induction false} EntriesAt(bs: seq<Block>, j: nat)
    requires j < |bs|
    ensures Entries(bs)[j] == BlockEntry(bs[j])
  {
    if j < |bs| - 1 {
      EntriesAt(bs[..|bs| - 1], j);
    }
  }

  /** A later assignment overwrites an earlier one with the same key; a key no
      assignment writes keeps its initial value. */
  lemma {:induction false} StoreLookup(d: map<string, string>, es: seq<Entry>, key: string)
    ensures key in Store(d, es) <==> key in d || exists j :: 0 <= j < |es| && es[j].key == key
    ensures (forall j :: 0 <= j < |es| ==> es[j].key != key) && key in d
            ==> Store(d, es)[key] == d[key]
    ensures forall j :: 0 <= j < |es| && es[j].key == key
                        && (forall j' :: j < j' < |es| ==> es[j'].key != key)
                        ==> Store(d, es)[key] == es[j].value
  {
    if es != [] {
      var init := es[..|es| - 1];
      StoreLookup(d, init, key);
      assert forall j :: 0 <= j < |init| ==> init[j] == es[j];
    }
  }

  /** With no marker in the docstring the result is the stripped docstring
      under `FUNCTION` and nothing else. */
  lemma NoMarkersGivesDescriptionOnly(doc: string)
    requires forall k :: 0 <= k < |doc| ==> MarkerAt(doc, k).None?
    ensures AnalyzeDocs(doc) == map[FUNCTION := Strip(doc)]
  {
    assert FindMarker(doc, 0) == |doc|;
    assert doc[..|doc|] == doc;
  }

  /** The description is the stripped text before the first marker, unless a
      parameter block is itself labelled `FUNCTION`. */
  lemma DescriptionIsHead(doc: string)
    requires forall b :: b in SplitDoc(doc).blocks ==> BlockEntry(b).key != FUNCTION
    ensures FUNCTION in AnalyzeDocs(doc)
    ensures AnalyzeDocs(doc)[FUNCTION] == Strip(SplitDoc(doc).head)
  {
    var sp := SplitDoc(doc);
    var es := Entries(sp.blocks);
    forall j | 0 <= j < |es| ensures es[j].key != FUNCTION {
      EntriesAt(sp.blocks, j);
    }
    StoreLookup(map[FUNCTION := Strip(sp.head)], es, FUNCTION);
  }

  /** The value stored under a key is the one written by the last block with
      that key: a repeated parameter keeps its last description. */
  lemma LastBlockWins(doc: string, j: nat)
    requires j < |SplitDoc(doc).blocks|
    requires forall j' :: j < j' < |SplitDoc(doc).blocks|
               ==> BlockEntry(SplitDoc(doc).blocks[j']).key != BlockEntry(SplitDoc(doc).blocks[j]).key
    ensures BlockEntry(SplitDoc(doc).blocks[j]).key in AnalyzeDocs(doc)
    ensures AnalyzeDocs(doc)[BlockEntry(SplitDoc(doc).blocks[j]).key] == BlockEntry(SplitDoc(doc).blocks[j]).value
  {
    var sp := SplitDoc(doc);
    var es := Entries(sp.blocks);
    var key := BlockEntry(sp.blocks[j]).key;
    EntriesAt(sp.blocks, j);
    forall j' | j < j' < |es| ensures es[j'].key != key {
      EntriesAt(sp.blocks, j');
    }
    StoreLookup(map[FUNCTION := Strip(sp.head)], es, key);
  }

  /** A return block keeps only the text after its first `:`: the part before
      it is cut off as a name the return block has no use for. A docstring
      whose only marker is `:return:`, followed by `a:b` with no colon in
      `a`, describes the function by the text before the marker and returns
      `b`, both stripped. */
  lemma ReturnKeepsTextAfterColon(doc: string, pre: string, a: string, b: string)
    requires doc == pre + [':'] + RETURN_COLON + a + [':'] + b
    requires forall k :: 0 <= k < |pre| ==> MarkerAt(doc, k).None?
    requires ':' !in a
    requires forall k :: |pre| + 8 + |a| <= k < |doc| ==> MarkerAt(doc, k).None?
    ensures AnalyzeDocs(doc) == map[FUNCTION := Strip(pre), RETURN := Strip(b)]
  {
    var text := a + [':'] + b;
    assert doc == pre + [':'] + RETURN_COLON + text;
    ReturnMarkerAfter(doc, pre, text);
    NoMarkerInColonFree(doc, |pre| + 8, a);
    var blk := ReturnOnlySplit(doc, pre, text);
    AfterFirstColon(a, b);
    ReturnBlockStore(pre, blk, b);
  }

  /** The dictionary a description and one return block give. */
  lemma ReturnBlockStore(pre: string, blk: Block, b: string)
    requires blk.kind == ReturnMarker && BlockEntry(blk).value == Strip(b)
    ensures Store(map[FUNCTION := Strip(pre)], Entries([blk])) == map[FUNCTION := Strip(pre), RETURN := Strip(b)]
  {
    assert [blk][..0] == [];
    var es := Entries([blk]);
    assert es == [Entry(RETURN, Strip(b))];
    assert es[..0] == [];
  }

  /** A docstring with a single marker, a return marker right after `pre`,
      splits into `pre` and one return block holding the rest. */
  lemma ReturnOnlySplit(doc: string, pre: string, text: string) returns (blk: Block)
    requires |pre| + 8 <= |doc| && MarkerAt(doc, |pre|) == Some(Marker(ReturnMarker, |pre| + 8))
    requires doc[..|pre|] == pre && doc[|pre| + 8..] == text
    requires forall k :: 0 <= k < |pre| ==> MarkerAt(doc, k).None?
    requires forall k :: |pre| + 8 <= k < |doc| ==> MarkerAt(doc, k).None?
    ensures blk.kind == ReturnMarker && blk.text == text
    ensures SplitDoc(doc) == Split(pre, [blk])
  {
    var p := |pre|;
    assert FindMarker(doc, 0) == p;
    assert FindMarker(doc, p + 8) == |doc|;
    blk := Block(ReturnMarker, doc[p..p + 8], text);
    assert doc[p + 8..|doc|] == text;
    assert SplitFrom(doc, p) == [blk];
  }

  /** Cutting `a:b` at its first colon, when `a` has none, leaves `b`. */
  lemma AfterFirstColon(a: string, b: string)
    requires ':' !in a
    ensures FirstColon(a + [':'] + b) == |a|
    ensures (a + [':'] + b)[|a| + 1..] == b
  {
    var t := a + [':'] + b;
    assert t[|a|] == ':';
    forall k | 0 <= k < |a| ensures t[k] != ':' {
      assert t[k] == a[k];
    }
  }

  /** `:return:` written after `pre` is a return marker ending eight characters on. */
  lemma ReturnMarkerAfter(doc: string, pre: string, rest: string)
    requires doc == pre + [':'] + RETURN_COLON + rest
    ensures MarkerAt(doc, |pre|) == Some(Marker(ReturnMarker, |pre| + 8))
    ensures doc[..|pre|] == pre && doc[|pre| + 8..] == rest
  {
    var p := |pre|;
    assert doc[p] == ':' && doc[p + 1] == 'r';
    assert SkipSpaces(doc, p + 1) == p + 1;
    assert doc[p + 1..p + 8] == RETURN_COLON;
    assert doc[p + 1..p + 7][0] != PARAM[0];
  }

  /** No marker starts inside a stretch without a `:`. */
  lemma NoMarkerInColonFree(doc: string, e: nat, a: string)
    requires e + |a| <= |doc| && doc[e..e + |a|] == a && ':' !in a
    ensures forall k :: e <= k < e + |a| ==> MarkerAt(doc, k).None?
  {
    forall k | e <= k < e + |a| ensures MarkerAt(doc, k).None? {
      assert doc[k] == a[k - e];
    }
  }

  /** The keys of the result are `FUNCTION` and the keys the blocks write. */
  lemma AnalyzeDocsKeys(doc: string)
    ensures AnalyzeDocs(doc).Keys == {FUNCTION} + set e | e in Entries(SplitDoc(doc).blocks) :: e.key
  {
    var sp := SplitDoc(doc);
    var d := map[FUNCTION := Strip(sp.head)];
    StoreKeys(d, Entries(sp.blocks));
    assert d.Keys == {FUNCTION};
  }

  /** The assignments add exactly their keys to the dictionary. */
  lemma {:induction false} StoreKeys(d: map<string, string>, es: seq<Entry>)
    ensures Store(d, es).Keys == d.Keys + set e | e in es :: e.key
  {
    if es != [] {
      var init := es[..|es| - 1];
      var last := es[|es| - 1];
      StoreKeys(d, init);
      LastSplit(es);
      var before := set e | e in init :: e.key;
      forall k | k in set e | e in es :: e.key
        ensures k in before + {last.key}
      {
        var e :| e in es && e.key == k;
        if e != last {
          assert e in init;
        }
      }
      forall k | k in before ensures k in set e | e in es :: e.key {
        var e :| e in init && e.key == k;
        assert e in es;
      }
      assert last in es;
    }
  }

  lemma LastSplit<T>(xs: seq<T>)
    requires xs != []
    ensures xs == xs[..|xs| - 1] + [xs[|xs| - 1]]
  {
  }
}
