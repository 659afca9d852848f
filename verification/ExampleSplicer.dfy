/** Replacing the request-body examples in the serialised OpenAPI document. */
module ExampleSplicer {
  import opened Prelude
  import opened JsonText
  import opened BraceScanner

  /* ---------- Locating an example ---------- */

  predicate OccursAt(hay: Bytes, needle: Bytes, i: nat) {
    i + |needle| <= |hay| && hay[i..i + |needle|] == needle
  }

  /** The first occurrence of `needle` in `hay` at or after i. */
  function FindFrom(hay: Bytes, needle: Bytes, i: nat): Option<nat>
    decreases |hay| - i
  {
    if i + |needle| > |hay| then None
    else if OccursAt(hay, needle, i) then Some(i)
    else FindFrom(hay, needle, i + 1)
  }

  /** "application/json" and "example", with their quotes. */
  const APPLICATION_JSON: Bytes := [0x22, 0x61, 0x70, 0x70, 0x6C, 0x69, 0x63, 0x61, 0x74, 0x69, 0x6F, 0x6E, 0x2F,
                                    0x6A, 0x73, 0x6F, 0x6E, 0x22]
  const EXAMPLE: Bytes := [0x22, 0x65, 0x78, 0x61, 0x6D, 0x70, 0x6C, 0x65, 0x22]

  /** The example key of a path: the first one after the first media type after the quoted path. */
  function FindExampleKey(spec: Bytes, pathKey: Bytes): Option<nat> {
    var quoted := [QUOTE] + pathKey + [QUOTE];
    match FindFrom(spec, quoted, 0)
    case None => None
    case Some(path) =>
      match FindFrom(spec, APPLICATION_JSON, path + |quoted|)
      case None => None
      case Some(media) => FindFrom(spec, EXAMPLE, media)
  }

  /** Where the example object of a path is taken to open. */
  function FindOpen(spec: Bytes, pathKey: Bytes): Option<nat> {
    match FindExampleKey(spec, pathKey)
    case None => None
    case Some(example) => FindValue(spec, example)
  }

  /** The first brace after the first colon. */
  function FindValue(spec: Bytes, from: nat): Option<nat> {
    match FindFrom(spec, [COLON], from)
    case None => None
    case Some(colon) => FindFrom(spec, [LBRACE], colon + 1)
  }

  /** The first occurrence of `needle` from `from` on is at `at`. */
  ghost predicate FirstAt(hay: Bytes, needle: Bytes, from: nat, at: nat) {
    from <= at && OccursAt(hay, needle, at) && forall j: nat | from <= j < at :: !OccursAt(hay, needle, j)
  }

  /** A search gives the first occurrence, and nothing exactly if there is none. */
  lemma {:induction false} FindFromExact(hay: Bytes, needle: Bytes, from: nat)
    ensures match FindFrom(hay, needle, from)
      case Some(at) => FirstAt(hay, needle, from, at)
      case None => forall j: nat | from <= j :: !OccursAt(hay, needle, j)
    decreases |hay| - from
  {
    if from + |needle| <= |hay| && !OccursAt(hay, needle, from) {
      FindFromExact(hay, needle, from + 1);
    }
  }

  lemma FirstIsFound(hay: Bytes, needle: Bytes, from: nat, at: nat)
    requires FirstAt(hay, needle, from, at)
    ensures FindFrom(hay, needle, from) == Some(at)
  {
    FindFromExact(hay, needle, from);
  }

  /** Where the search passes: the path key, the media type, the example key and the colon. */
  datatype Trail = Trail(path: nat, media: nat, example: nat, colon: nat)

  /** The landmarks that lead from a path to an object at `open`. */
  ghost predicate Landmarks(spec: Bytes, pathKey: Bytes, t: Trail, open: nat) {
    && FirstAt(spec, [QUOTE] + pathKey + [QUOTE], 0, t.path)
    && FirstAt(spec, APPLICATION_JSON, t.path + |[QUOTE] + pathKey + [QUOTE]|, t.media)
    && FirstAt(spec, EXAMPLE, t.media, t.example)
    && FirstAt(spec, [COLON], t.example, t.colon)
    && FirstAt(spec, [LBRACE], t.colon + 1, open)
  }

  lemma KeyLandmarksFound(spec: Bytes, pathKey: Bytes, t: Trail)
    requires FirstAt(spec, [QUOTE] + pathKey + [QUOTE], 0, t.path)
    requires FirstAt(spec, APPLICATION_JSON, t.path + |[QUOTE] + pathKey + [QUOTE]|, t.media)
    requires FirstAt(spec, EXAMPLE, t.media, t.example)
    ensures FindExampleKey(spec, pathKey) == Some(t.example)
  {
    var quoted := [QUOTE] + pathKey + [QUOTE];
    FirstIsFound(spec, quoted, 0, t.path);
    FirstIsFound(spec, APPLICATION_JSON, t.path + |quoted|, t.media);
    FirstIsFound(spec, EXAMPLE, t.media, t.example);
  }

  lemma LandmarksFound(spec: Bytes, pathKey: Bytes, t: Trail, open: nat)
    requires Landmarks(spec, pathKey, t, open)
    ensures FindOpen(spec, pathKey) == Some(open)
  {
    KeyLandmarksFound(spec, pathKey, t);
    FirstIsFound(spec, [COLON], t.example, t.colon);
    FirstIsFound(spec, [LBRACE], t.colon + 1, open);
  }

  lemma FoundKeyLandmarks(spec: Bytes, quoted: Bytes, path: nat, media: nat, example: nat)
    requires FindFrom(spec, quoted, 0) == Some(path)
    requires FindFrom(spec, APPLICATION_JSON, path + |quoted|) == Some(media)
    requires FindFrom(spec, EXAMPLE, media) == Some(example)
    ensures FirstAt(spec, quoted, 0, path)
    ensures FirstAt(spec, APPLICATION_JSON, path + |quoted|, media)
    ensures FirstAt(spec, EXAMPLE, media, example)
  {
    FindFromExact(spec, quoted, 0);
    FindFromExact(spec, APPLICATION_JSON, path + |quoted|);
    FindFromExact(spec, EXAMPLE, media);
  }

  lemma FoundLandmarks(spec: Bytes, pathKey: Bytes, open: nat) returns (t: Trail)
    requires FindOpen(spec, pathKey) == Some(open)
    ensures Landmarks(spec, pathKey, t, open)
  {
    var quoted := [QUOTE] + pathKey + [QUOTE];
    var path := FindFrom(spec, quoted, 0).value;
    var media := FindFrom(spec, APPLICATION_JSON, path + |quoted|).value;
    var example := FindFrom(spec, EXAMPLE, media).value;
    var colon := FindFrom(spec, [COLON], example).value;
    FoundKeyLandmarks(spec, quoted, path, media, example);
    FindFromExact(spec, [COLON], example);
    FindFromExact(spec, [LBRACE], colon + 1);
    t := Trail(path, media, example, colon);
  }

  /** The search ends at a brace exactly if the five landmarks do: the first quoted path key, the first media type after
      it, the first example key from there, the first colon from there and the first brace after that. */
  lemma OpenFoundExactly(spec: Bytes, pathKey: Bytes, open: nat)
    ensures FindOpen(spec, pathKey) == Some(open) <==> exists t :: Landmarks(spec, pathKey, t, open)
  {
    if FindOpen(spec, pathKey) == Some(open) {
      var t := FoundLandmarks(spec, pathKey, open);
    }
    if t :| Landmarks(spec, pathKey, t, open) {
      LandmarksFound(spec, pathKey, t, open);
    }
  }

  predicate Blank(bytes: Bytes) {
    forall k | 0 <= k < |bytes| :: bytes[k] == 0x20 || bytes[k] == 0x09 || bytes[k] == 0x0A || bytes[k] == 0x0D
  }

  /** The search ends at the right object if the example key is the right one and the object is its value, with any
      white space around the colon. */
  lemma ExampleFound(spec: Bytes, pathKey: Bytes, before: Bytes, gap: Bytes, gap': Bytes, lead: Bytes,
                     fields: Fields, rest: Bytes)
    requires FindExampleKey(spec, pathKey) == Some(|before|) && Blank(gap) && Blank(gap')
    requires spec == lead + Serialise(Obj(fields)) + rest && lead == before + (EXAMPLE + gap) + [COLON] + gap'
    ensures FindOpen(spec, pathKey) == Some(|lead|)
  {
    ExampleHasNoColon();
    ValueFound(spec, before, EXAMPLE + gap, gap', lead, Serialise(Obj(fields)), rest);
  }

  lemma ExampleHasNoColon()
    ensures forall k | 0 <= k < |EXAMPLE| :: EXAMPLE[k] != COLON
  {
  }

  lemma ValueFound(spec: Bytes, before: Bytes, key: Bytes, gap: Bytes, lead: Bytes, value: Bytes, rest: Bytes)
    requires lead == before + key + [COLON] + gap && (forall k | 0 <= k < |key| :: key[k] != COLON) && Blank(gap)
    requires spec == lead + value + rest && value != [] && value[0] == LBRACE
    ensures FindValue(spec, |before|) == Some(|lead|)
  {
    var colon := |before| + |key|;
    forall j | |before| <= j < colon ensures spec[j] != COLON {
      assert spec[j] == lead[j] == key[j - |before|];
    }
    forall j | colon < j < |lead| ensures spec[j] != LBRACE {
      assert spec[j] == lead[j] == gap[j - colon - 1];
    }
    assert spec[colon] == lead[colon] == COLON && spec[|lead|] == LBRACE;
    FindByte(spec, COLON, |before|, colon);
    FindByte(spec, LBRACE, colon + 1, |lead|);
  }

  lemma FindByte(spec: Bytes, b: Byte, from: nat, at: nat)
    requires from <= at < |spec| && spec[at] == b
    requires forall j | from <= j < at :: spec[j] != b
    ensures FindFrom(spec, [b], from) == Some(at)
  {
    forall j: nat | from <= j < at ensures !OccursAt(spec, [b], j) {
      assert spec[j..j + 1][0] == spec[j];
    }
    FirstIsFound(spec, [b], from, at);
  }

  datatype Replacement = Replacement(pathKey: Bytes, text: Bytes)

  /** An example to replace, known by its opening brace only. */
  datatype Start = Start(open: nat, text: Bytes)

  /** An example to replace: the range is inclusive at both ends. */
  datatype Span = Span(open: nat, close: nat, text: Bytes)

  function Openings(spec: Bytes, replacements: List<Replacement>): List<Start> {
    match replacements
    case Nil => Nil
    case Cons(r, rest) =>
      var found := FindOpen(spec, r.pathKey);
      if found.Some? then Cons(Start(found.value, r.text), Openings(spec, rest)) else Openings(spec, rest)
  }

  function CloseAll(spec: Bytes, starts: List<Start>): List<Span> {
    match starts
    case Nil => Nil
    case Cons(s, rest) =>
      var close := MatchingBrace(spec, s.open);
      if close.Some? then Cons(Span(s.open, close.value, s.text), CloseAll(spec, rest)) else CloseAll(spec, rest)
  }

  /** The spans found for the replacements, in the order of the replacements. */
  function Spans(spec: Bytes, replacements: List<Replacement>): List<Span> {
    CloseAll(spec, Openings(spec, replacements))
  }

  /* ---------- Replacing ---------- */

  /** Spans that open later come first. */
  const LATER_FIRST: (Span, Span) -> bool := (a: Span, b: Span) => a.open >= b.open

  /** In-place replacement of a range; a range that does not fit the text is a panic. */
  function ReplaceRange(text: Bytes, s: Span): Option<Bytes> {
    if s.open <= s.close + 1 <= |text| then Some(text[..s.open] + s.text + text[s.close + 1..]) else None
  }

  function ReplaceEach(text: Bytes, spans: List<Span>): Option<Bytes>
    decreases spans
  {
    match spans
    case Nil => Some(text)
    case Cons(s, rest) =>
      match ReplaceRange(text, s)
      case None => None
      case Some(text') => ReplaceEach(text', rest)
  }

  /** None stands for a panic. */
  method ReplaceRequestBodyExamples(spec: Bytes, replacements: List<Replacement>) returns (r: Option<Bytes>)
    ensures r == ReplaceEach(spec, Sort(LATER_FIRST, Spans(spec, replacements)))
  {
    var spans := Sort(LATER_FIRST, Spans(spec, replacements));
    var out := spec;
    while spans.Cons?
      invariant ReplaceEach(spec, Sort(LATER_FIRST, Spans(spec, replacements))) == ReplaceEach(out, spans)
      decreases spans
    {
      var replaced := ReplaceRange(out, spans.head);
      if replaced.None? {
        return None;
      }
      out := replaced.value;
      spans := spans.tail;
    }
    return Some(out);
  }

  /* ---------- Last to first is all at once ---------- */

  /** The spans lie in the text one after another, from position `from` on. */
  predicate Consecutive(text: Bytes, from: nat, spans: List<Span>)
    decreases spans
  {
    match spans
    case Nil => from <= |text|
    case Cons(s, rest) => from <= s.open <= s.close < |text| && Consecutive(text, s.close + 1, rest)
  }

  /** The text from `from` on with every span replaced at once: untouched segments and replacements in turn. */
  function AllAtOnce(text: Bytes, from: nat, spans: List<Span>): Bytes
    requires Consecutive(text, from, spans)
    decreases spans
  {
    match spans
    case Nil => text[from..]
    case Cons(s, rest) => text[from..s.open] + (s.text + AllAtOnce(text, s.close + 1, rest))
  }

  lemma {:induction false} ReplaceEachAppend(text: Bytes, a: List<Span>, s: Span)
    ensures ReplaceEach(text, a.Append(Cons(s, Nil))) ==
      match ReplaceEach(text, a) case None => None case Some(t) => ReplaceRange(t, s)
    decreases a
  {
    match a
    case Nil =>
    case Cons(x, rest) =>
      if ReplaceRange(text, x).Some? {
        ReplaceEachAppend(ReplaceRange(text, x).value, rest, s);
      }
  }

  lemma ReplaceOne(text: Bytes, from: nat, s: Span, tail: Bytes)
    requires from <= s.open <= s.close < |text|
    ensures ReplaceRange(text[..s.close + 1] + tail, s) == Some(text[..from] + (text[from..s.open] + (s.text + tail)))
  {
    var out := text[..s.close + 1] + tail;
    assert out[..s.open] == text[..from] + text[from..s.open];
    assert out[s.close + 1..] == tail;
    assert out[..s.open] + s.text + tail == text[..from] + (text[from..s.open] + (s.text + tail));
  }

  /** Disjoint spans: replacing from the last to the first never panics and equals replacing all at once. */
  lemma {:induction false} LastToFirstIsAllAtOnce(text: Bytes, from: nat, spans: List<Span>)
    requires Consecutive(text, from, spans)
    ensures from <= |text|
    ensures ReplaceEach(text, Reverse(spans)) == Some(text[..from] + AllAtOnce(text, from, spans))
    decreases spans
  {
    match spans
    case Nil => assert text[..from] + text[from..] == text;
    case Cons(s, rest) =>
      LastToFirstIsAllAtOnce(text, s.close + 1, rest);
      ReplaceEachAppend(text, Reverse(rest), s);
      ReplaceOne(text, from, s, AllAtOnce(text, s.close + 1, rest));
  }

  /* ---------- Sorting ---------- */

  /** The sort yields a permutation in descending order of the opening brace. */
  lemma SpansSorted(spans: List<Span>)
    ensures Sorted(LATER_FIRST, Sort(LATER_FIRST, spans)) && Elements(Sort(LATER_FIRST, spans)) == Elements(spans)
  {
    assert TotalPreorder(LATER_FIRST);
    SortSorts(LATER_FIRST, spans);
  }

  lemma {:induction false} LaterFirstAppend(a: List<Span>, s: Span)
    requires Sorted(LATER_FIRST, a) && forall x <- Elements(a) :: x.open >= s.open
    ensures Sorted(LATER_FIRST, a.Append(Cons(s, Nil)))
  {
    match a
    case Nil =>
    case Cons(x, rest) =>
      LaterFirstAppend(rest, s);
      ElementsAppend(rest, Cons(s, Nil));
  }

  /** Consecutive spans in reverse are sorted, and no two open at the same place. */
  lemma {:induction false} ReverseIsSorted(text: Bytes, from: nat, spans: List<Span>)
    requires Consecutive(text, from, spans)
    ensures Sorted(LATER_FIRST, Reverse(spans)) && Elements(Reverse(spans)) == Elements(spans)
    ensures forall x <- Elements(spans) :: x.open >= from
    ensures forall x <- Elements(spans), y <- Elements(spans) | x.open == y.open :: x == y
    decreases spans
  {
    match spans
    case Nil =>
    case Cons(s, rest) =>
      ReverseIsSorted(text, s.close + 1, rest);
      LaterFirstAppend(Reverse(rest), s);
      ElementsReverse(spans);
  }

  lemma SortIsReverse(text: Bytes, found: List<Span>, spans: List<Span>)
    requires Consecutive(text, 0, spans) && Elements(found) == Elements(spans)
    ensures Sort(LATER_FIRST, found) == Reverse(spans)
  {
    ReverseIsSorted(text, 0, spans);
    SpansSorted(found);
    SortedIsUnique(LATER_FIRST, Sort(LATER_FIRST, found), Reverse(spans));
  }

  /** Spans that do not overlap, found in any order: sorting and replacing them from the last to the first
      is replacing them all at once. */
  lemma SortedSplice(text: Bytes, found: List<Span>, spans: List<Span>)
    requires Consecutive(text, 0, spans) && Elements(found) == Elements(spans)
    ensures ReplaceEach(text, Sort(LATER_FIRST, found)) == Some(AllAtOnce(text, 0, spans))
  {
    LastToFirstIsAllAtOnce(text, 0, spans);
    SortIsReverse(text, found, spans);
    assert text[..0] + AllAtOnce(text, 0, spans) == AllAtOnce(text, 0, spans);
  }

  /* ---------- A tree with gaps, as text ---------- */

  /** The text of a tree cut at its gaps. */
  datatype Pieces = End | Text(bytes: Bytes, rest: Pieces) | Hole(index: nat, rest: Pieces) {
    function Append(that: Pieces): Pieces {
      match this
      case End => that
      case Text(bytes, rest) => Text(bytes, rest.Append(that))
      case Hole(i, rest) => Hole(i, rest.Append(that))
    }
  }

  function PiecesOf(v: Json): Pieces {
    match v
    case Arr(items) => Text([LBRACKET], PiecesOfItems(items).Append(Text([RBRACKET], End)))
    case Obj(fields) => Text([LBRACE], PiecesOfFields(fields).Append(Text([RBRACE], End)))
    case Gap(i) => Hole(i, End)
    case _ => Text(Serialise(v), End)
  }

  function PiecesOfItems(items: Items): Pieces {
    match items
    case NoItems => End
    case Item(v, NoItems) => PiecesOf(v)
    case Item(v, tail) => PiecesOf(v).Append(Text([COMMA], PiecesOfItems(tail)))
  }

  function PiecesOfFields(fields: Fields): Pieces {
    match fields
    case NoFields => End
    case Field(k, v, NoFields) => Text(Quoted(k) + [COLON], PiecesOf(v))
    case Field(k, v, rest) => Text(Quoted(k) + [COLON], PiecesOf(v).Append(Text([COMMA], PiecesOfFields(rest))))
  }

  function Texts(vs: seq<Json>): (r: seq<Bytes>)
    ensures |r| == |vs| && forall i | 0 <= i < |vs| :: r[i] == Serialise(vs[i])
  {
    if vs == [] then [] else [Serialise(vs[0])] + Texts(vs[1..])
  }

  function Plug(i: nat, texts: seq<Bytes>): Bytes {
    if i < |texts| then texts[i] else []
  }

  function Render(ps: Pieces, texts: seq<Bytes>): Bytes {
    match ps
    case End => []
    case Text(bytes, rest) => bytes + Render(rest, texts)
    case Hole(i, rest) => Plug(i, texts) + Render(rest, texts)
  }

  lemma {:induction false} RenderAppend(a: Pieces, b: Pieces, texts: seq<Bytes>)
    ensures Render(a.Append(b), texts) == Render(a, texts) + Render(b, texts)
  {
    match a
    case End =>
    case Text(bytes, rest) =>
      RenderAppend(rest, b, texts);
      assert bytes + (Render(rest, texts) + Render(b, texts)) == bytes + Render(rest, texts) + Render(b, texts);
    case Hole(i, rest) =>
      RenderAppend(rest, b, texts);
      var t := Plug(i, texts);
      assert t + (Render(rest, texts) + Render(b, texts)) == t + Render(rest, texts) + Render(b, texts);
  }

  /** Serialising a filled tree is rendering its pieces. */
  lemma {:induction false} FilledIsRendered(v: Json, plugs: seq<Json>)
    ensures Serialise(Fill(v, plugs)) == Render(PiecesOf(v), Texts(plugs))
    decreases v
  {
    match v
    case Arr(items) =>
      FilledItemsAreRendered(items, plugs);
      RenderAppend(PiecesOfItems(items), Text([RBRACKET], End), Texts(plugs));
    case Obj(fields) =>
      FilledFieldsAreRendered(fields, plugs);
      RenderAppend(PiecesOfFields(fields), Text([RBRACE], End), Texts(plugs));
    case _ =>
  }

  lemma {:induction false} FilledItemsAreRendered(items: Items, plugs: seq<Json>)
    ensures SerialiseItems(FillItems(items, plugs)) == Render(PiecesOfItems(items), Texts(plugs))
    decreases items
  {
    match items
    case NoItems =>
    case Item(v, tail) =>
      FilledIsRendered(v, plugs);
      FilledItemsAreRendered(tail, plugs);
      RenderAppend(PiecesOf(v), Text([COMMA], PiecesOfItems(tail)), Texts(plugs));
  }

  lemma {:induction false} FilledFieldsAreRendered(fields: Fields, plugs: seq<Json>)
    ensures SerialiseFields(FillFields(fields, plugs)) == Render(PiecesOfFields(fields), Texts(plugs))
    decreases fields
  {
    match fields
    case NoFields =>
    case Field(k, v, rest) =>
      FilledIsRendered(v, plugs);
      FilledFieldsAreRendered(rest, plugs);
      RenderAppend(PiecesOf(v), Text([COMMA], PiecesOfFields(rest)), Texts(plugs));
  }

  /* ---------- End to end ---------- */

  predicate AllObjects(vs: seq<Json>) {
    forall i | 0 <= i < |vs| :: vs[i].Obj?
  }

  /** Where the holes open in the rendered text, each with the text that is to replace its plug. */
  function HoleStarts(ps: Pieces, at: nat, texts: seq<Bytes>, news: seq<Bytes>): List<Start>
    requires |news| == |texts|
  {
    match ps
    case End => Nil
    case Text(bytes, rest) => HoleStarts(rest, at + |bytes|, texts, news)
    case Hole(i, rest) =>
      if i < |texts| then Cons(Start(at, news[i]), HoleStarts(rest, at + |texts[i]|, texts, news))
      else HoleStarts(rest, at, texts, news)
  }

  predicate NonEmpty(texts: seq<Bytes>) {
    forall i | 0 <= i < |texts| :: |texts[i]| > 0
  }

  /** The holes as spans of the rendered text. */
  function HoleSpans(ps: Pieces, at: nat, texts: seq<Bytes>, news: seq<Bytes>): List<Span>
    requires |news| == |texts| && NonEmpty(texts)
  {
    match ps
    case End => Nil
    case Text(bytes, rest) => HoleSpans(rest, at + |bytes|, texts, news)
    case Hole(i, rest) =>
      if i < |texts| then
        Cons(Span(at, at + |texts[i]| - 1, news[i]), HoleSpans(rest, at + |texts[i]|, texts, news))
      else HoleSpans(rest, at, texts, news)
  }

  /** A piece t that stands at position `at`. */
  lemma PieceAt(spec: Bytes, at: nat, t: Bytes, rest: Bytes)
    requires at <= |spec| && spec[at..] == t + rest
    ensures at + |t| <= |spec| && spec[at..at + |t|] == t && spec[at + |t|..] == rest
  {
    assert spec[at..][|t|..] == rest && spec[at..][..|t|] == t;
  }

  lemma ExampleCloses(spec: Bytes, at: nat, example: Json, t: Bytes, rest: Bytes)
    requires at <= |spec| && example.Obj? && t == Serialise(example) && spec[at..] == t + rest
    ensures MatchingBrace(spec, at) == Some(at + |t| - 1)
  {
    assert spec == spec[..at] + t + rest;
    ObjectSpan(spec[..at], example.fields, rest);
  }

  /** Once the opening braces are right the scanner makes the spans right. */
  lemma {:induction false} HolesClose(spec: Bytes, ps: Pieces, at: nat, examples: seq<Json>,
                                      texts: seq<Bytes>, news: seq<Bytes>)
    requires AllObjects(examples) && texts == Texts(examples) && |news| == |texts| && NonEmpty(texts)
    requires at <= |spec| && spec[at..] == Render(ps, texts)
    ensures CloseAll(spec, HoleStarts(ps, at, texts, news)) == HoleSpans(ps, at, texts, news)
    decreases ps, 1
  {
    match ps
    case End =>
    case Text(bytes, rest) =>
      PieceAt(spec, at, bytes, Render(rest, texts));
      HolesClose(spec, rest, at + |bytes|, examples, texts, news);
    case Hole(_, _) => HoleCloses(spec, ps, at, examples, texts, news);
  }

  lemma {:induction false} HoleCloses(spec: Bytes, ps: Pieces, at: nat, examples: seq<Json>,
                                      texts: seq<Bytes>, news: seq<Bytes>)
    requires AllObjects(examples) && texts == Texts(examples) && |news| == |texts| && NonEmpty(texts)
    requires ps.Hole? && at <= |spec| && spec[at..] == Plug(ps.index, texts) + Render(ps.rest, texts)
    ensures CloseAll(spec, HoleStarts(ps, at, texts, news)) == HoleSpans(ps, at, texts, news)
    decreases ps, 0
  {
    var t, rest := Plug(ps.index, texts), Render(ps.rest, texts);
    PieceAt(spec, at, t, rest);
    HolesClose(spec, ps.rest, at + |t|, examples, texts, news);
    if ps.index < |texts| {
      ExampleCloses(spec, at, examples[ps.index], t, rest);
    }
  }

  lemma Keep(spec: Bytes, from: nat, at: nat, t: Bytes, after: Bytes)
    requires from <= at && at + |t| <= |spec| && spec[at..at + |t|] == t
    ensures spec[from..at + |t|] + after == spec[from..at] + (t + after)
  {
    assert spec[from..at + |t|] == spec[from..at] + spec[at..at + |t|];
  }

  /** Replacing the holes' spans all at once plugs the holes anew. */
  lemma {:induction false} HolesReplaced(spec: Bytes, ps: Pieces, at: nat, from: nat,
                                         texts: seq<Bytes>, news: seq<Bytes>)
    requires |news| == |texts| && NonEmpty(texts)
    requires from <= at <= |spec| && spec[at..] == Render(ps, texts)
    ensures Consecutive(spec, from, HoleSpans(ps, at, texts, news))
    ensures AllAtOnce(spec, from, HoleSpans(ps, at, texts, news)) == spec[from..at] + Render(ps, news)
    decreases ps, 1
  {
    match ps
    case End => assert at == |spec| && spec[from..at] + [] == spec[from..];
    case Text(_, _) => TextKept(spec, ps, at, from, texts, news);
    case Hole(_, _) => HoleReplaced(spec, ps, at, from, texts, news);
  }

  lemma {:induction false} TextKept(spec: Bytes, ps: Pieces, at: nat, from: nat, texts: seq<Bytes>, news: seq<Bytes>)
    requires |news| == |texts| && NonEmpty(texts) && ps.Text?
    requires from <= at <= |spec| && spec[at..] == ps.bytes + Render(ps.rest, texts)
    ensures Consecutive(spec, from, HoleSpans(ps, at, texts, news))
    ensures AllAtOnce(spec, from, HoleSpans(ps, at, texts, news)) == spec[from..at] + (ps.bytes + Render(ps.rest, news))
    decreases ps, 0
  {
    PieceAt(spec, at, ps.bytes, Render(ps.rest, texts));
    HolesReplaced(spec, ps.rest, at + |ps.bytes|, from, texts, news);
    Keep(spec, from, at, ps.bytes, Render(ps.rest, news));
  }

  lemma {:induction false} HoleReplaced(spec: Bytes, ps: Pieces, at: nat, from: nat, texts: seq<Bytes>, news: seq<Bytes>)
    requires |news| == |texts| && NonEmpty(texts) && ps.Hole?
    requires from <= at <= |spec| && spec[at..] == Plug(ps.index, texts) + Render(ps.rest, texts)
    ensures Consecutive(spec, from, HoleSpans(ps, at, texts, news))
    ensures AllAtOnce(spec, from, HoleSpans(ps, at, texts, news)) ==
      spec[from..at] + (Plug(ps.index, news) + Render(ps.rest, news))
    decreases ps, 0
  {
    var i, rest := ps.index, ps.rest;
    var end := at + |Plug(i, texts)|;
    PieceAt(spec, at, Plug(i, texts), Render(rest, texts));
    if i < |texts| {
      HolesReplaced(spec, rest, end, end, texts, news);
      PluggedHole(spec, from, Span(at, end - 1, news[i]), HoleSpans(rest, end, texts, news), Render(rest, news));
    } else {
      HolesReplaced(spec, rest, at, from, texts, news);
      NothingBetween(spec[from..at], Render(rest, news));
    }
  }

  lemma NothingBetween(before: Bytes, after: Bytes)
    ensures before + after == before + ([] + after)
  {
    assert [] + after == after;
  }

  /** One more span before those that are replaced. */
  lemma PluggedHole(text: Bytes, from: nat, s: Span, spans: List<Span>, after: Bytes)
    requires from <= s.open <= s.close < |text| && Consecutive(text, s.close + 1, spans)
    requires AllAtOnce(text, s.close + 1, spans) == text[s.close + 1..s.close + 1] + after
    ensures Consecutive(text, from, Cons(s, spans))
    ensures AllAtOnce(text, from, Cons(s, spans)) == text[from..s.open] + (s.text + after)
  {
    assert text[s.close + 1..s.close + 1] + after == after;
  }

  lemma {:induction false} CloseAllAppend(spec: Bytes, a: List<Start>, b: List<Start>)
    ensures CloseAll(spec, a.Append(b)) == CloseAll(spec, a).Append(CloseAll(spec, b))
  {
    match a
    case Nil =>
    case Cons(_, rest) => CloseAllAppend(spec, rest, b);
  }

  /** The order of the openings does not change which spans there are. */
  lemma {:induction false} CloseAllPermutes(spec: Bytes, a: List<Start>, b: List<Start>)
    requires Elements(a) == Elements(b)
    ensures Elements(CloseAll(spec, a)) == Elements(CloseAll(spec, b))
    decreases a
  {
    HeadIsElement(a);
    HeadIsElement(b);
    if a.Cons? {
      var l, r := SplitAt(b, a.head);
      ElementsAppend(l, r);
      CloseAllPermutes(spec, a.tail, l.Append(r));
      CloseAllMiddle(spec, l, a.head, r);
    }
  }

  lemma CloseAllMiddle(spec: Bytes, l: List<Start>, x: Start, r: List<Start>)
    ensures Elements(CloseAll(spec, l.Append(Cons(x, r)))) == Elements(CloseAll(spec, Cons(x, l.Append(r))))
  {
    CloseAllAppend(spec, l, r);
    CloseAllAppend(spec, l, Cons(x, r));
    ElementsAppend(CloseAll(spec, l), CloseAll(spec, r));
    ElementsAppend(CloseAll(spec, l), CloseAll(spec, Cons(x, r)));
  }

  lemma RenderedHolesReplaced(spec: Bytes, ps: Pieces, examples: seq<Json>, texts: seq<Bytes>, news: seq<Bytes>,
                              starts: List<Start>)
    requires AllObjects(examples) && texts == Texts(examples) && |news| == |texts| && spec == Render(ps, texts)
    requires Elements(starts) == Elements(HoleStarts(ps, 0, texts, news))
    ensures ReplaceEach(spec, Sort(LATER_FIRST, CloseAll(spec, starts))) == Some(Render(ps, news))
  {
    assert spec[0..] == spec && spec[0..0] + Render(ps, news) == Render(ps, news);
    assert NonEmpty(texts);
    HolesClose(spec, ps, 0, examples, texts, news);
    HolesReplaced(spec, ps, 0, 0, texts, news);
    CloseAllPermutes(spec, starts, HoleStarts(ps, 0, texts, news));
    SortedSplice(spec, CloseAll(spec, starts), HoleSpans(ps, 0, texts, news));
  }

  /** Splicing the replacements into a serialised tree gives the serialisation of the same tree with only the
      examples replaced, in whatever order the replacements are listed, provided the opening braces found are
      those of the examples. */
  lemma ExamplesReplaced(v: Json, examples: seq<Json>, news: seq<Json>, replacements: List<Replacement>)
    requires |news| == |examples| && AllObjects(examples)
    requires var spec := Serialise(Fill(v, examples));
      Elements(Openings(spec, replacements)) == Elements(HoleStarts(PiecesOf(v), 0, Texts(examples), Texts(news)))
    ensures var spec := Serialise(Fill(v, examples));
      ReplaceEach(spec, Sort(LATER_FIRST, Spans(spec, replacements))) == Some(Serialise(Fill(v, news)))
  {
    var spec := Serialise(Fill(v, examples));
    FilledIsRendered(v, examples);
    FilledIsRendered(v, news);
    RenderedHolesReplaced(spec, PiecesOf(v), examples, Texts(examples), Texts(news), Openings(spec, replacements));
  }

  /** No landmarks lead from this path to any object. */
  ghost predicate Unmarked(spec: Bytes, pathKey: Bytes) {
    forall t, open :: !Landmarks(spec, pathKey, t, open)
  }

  /** Each replacement's landmarks lead to its opening; a replacement without landmarks has none. */
  ghost predicate AllMarked(spec: Bytes, replacements: List<Replacement>, starts: List<Start>) {
    match replacements
    case Nil => starts == Nil
    case Cons(r, rest) =>
      if Unmarked(spec, r.pathKey) then AllMarked(spec, rest, starts)
      else
        && starts.Cons? && starts.head.text == r.text && AllMarked(spec, rest, starts.tail)
        && exists t :: Landmarks(spec, r.pathKey, t, starts.head.open)
  }

  /** A path that does not occur in the document has no landmarks. */
  lemma AbsentPathIsUnmarked(spec: Bytes, pathKey: Bytes)
    requires forall i: nat :: !OccursAt(spec, [QUOTE] + pathKey + [QUOTE], i)
    ensures Unmarked(spec, pathKey)
  {
  }

  lemma {:induction false} MarkedAreFound(spec: Bytes, replacements: List<Replacement>, starts: List<Start>)
    requires AllMarked(spec, replacements, starts)
    ensures Openings(spec, replacements) == starts
  {
    match replacements
    case Nil =>
    case Cons(r, rest) =>
      if Unmarked(spec, r.pathKey) {
        if FindOpen(spec, r.pathKey).Some? {
          OpenFoundExactly(spec, r.pathKey, FindOpen(spec, r.pathKey).value);
        }
        MarkedAreFound(spec, rest, starts);
      } else {
        OpenFoundExactly(spec, r.pathKey, starts.head.open);
        MarkedAreFound(spec, rest, starts.tail);
      }
  }

  /** The landmarks are written as they are read. */
  lemma LandmarksSpelled()
    ensures |APPLICATION_JSON| == |"\"application/json\""| && |EXAMPLE| == |"\"example\""|
    ensures forall i | 0 <= i < |APPLICATION_JSON| :: APPLICATION_JSON[i] as int == "\"application/json\""[i] as int
    ensures forall i | 0 <= i < |EXAMPLE| :: EXAMPLE[i] as int == "\"example\""[i] as int
  {
  }

  /** End to end: if the landmarks of each path that has any lead to its own example in the serialised document, the
      document that comes out is the serialisation of the same tree with only those examples replaced; paths without
      landmarks do not matter. */
  lemma MarkedExamplesReplaced(v: Json, examples: seq<Json>, news: seq<Json>, replacements: List<Replacement>,
                               starts: List<Start>)
    requires |news| == |examples| && AllObjects(examples)
    requires Elements(starts) == Elements(HoleStarts(PiecesOf(v), 0, Texts(examples), Texts(news)))
    requires AllMarked(Serialise(Fill(v, examples)), replacements, starts)
    ensures var spec := Serialise(Fill(v, examples));
      ReplaceEach(spec, Sort(LATER_FIRST, Spans(spec, replacements))) == Some(Serialise(Fill(v, news)))
  {
    MarkedAreFound(Serialise(Fill(v, examples)), replacements, starts);
    ExamplesReplaced(v, examples, news, replacements);
  }
}
