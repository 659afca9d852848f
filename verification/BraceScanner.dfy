/** The scanner that finds the brace closing an object in serialised JSON. */
module BraceScanner {
  import opened Prelude
  import opened JsonText

  /* ---------- The lexer as an automaton ---------- */

  datatype Mode = Plain | InString | Escaped

  /** Where the lexer stands: inside a string or not, and how many braces are open. */
  datatype Lexer = Lexer(mode: Mode, depth: int)

  function Step(s: Lexer, b: Byte): Lexer {
    match s.mode
    case Plain =>
      if b == QUOTE then s.(mode := InString)
      else if b == LBRACE then s.(depth := s.depth + 1)
      else if b == RBRACE then s.(depth := s.depth - 1)
      else s
    case InString =>
      if b == BACKSLASH then s.(mode := Escaped) else if b == QUOTE then s.(mode := Plain) else s
    case Escaped => s.(mode := InString)
  }

  function Run(s: Lexer, bytes: Bytes): Lexer
    decreases |bytes|
  {
    if bytes == [] then s else Run(Step(s, bytes[0]), bytes[1..])
  }

  /** The lexer stays inside some object all through `bytes`. */
  predicate StaysOpen(s: Lexer, bytes: Bytes)
    decreases |bytes|
  {
    bytes == [] || (Step(s, bytes[0]).depth != 0 && StaysOpen(Step(s, bytes[0]), bytes[1..]))
  }

  /** The first index, from i on, at which the lexer's depth comes to zero. */
  function Scan(spec: Bytes, i: nat, s: Lexer): Option<nat>
    decreases |spec| - i
  {
    if i >= |spec| then None
    else
      var s' := Step(s, spec[i]);
      if s'.depth == 0 then Some(i) else Scan(spec, i + 1, s')
  }

  const OPENED := Lexer(Plain, 1)

  function MatchingBrace(spec: Bytes, open: nat): Option<nat> {
    Scan(spec, open + 1, OPENED)
  }

  /* ---------- The scanner ---------- */

  method FindMatchingBrace(spec: Bytes, open: nat) returns (r: Option<nat>)
    ensures r == MatchingBrace(spec, open)
  {
    var depth := 1;
    var i := open + 1;
    while i < |spec|
      invariant 1 <= depth <= i - open
      invariant MatchingBrace(spec, open) == Scan(spec, i, Lexer(Plain, depth))
    {
      var c := spec[i];
      if c == QUOTE {
        i := i + 1;
        while i < |spec|
          invariant open < i && depth <= i - open
          invariant MatchingBrace(spec, open) == Scan(spec, i, Lexer(InString, depth))
        {
          if spec[i] == BACKSLASH {
            SkipEscaped(spec, i, depth);
            i := i + 2;
            continue;
          }
          if spec[i] == QUOTE {
            i := i + 1;
            break;
          }
          i := i + 1;
        }
        continue;
      }
      if c == LBRACE {
        depth := depth + 1;
      } else if c == RBRACE {
        depth := depth - 1;
        if depth == 0 {
          return Some(i);
        }
      }
      i := i + 1;
    }
    return None;
  }

  lemma SkipEscaped(spec: Bytes, i: nat, depth: int)
    requires i < |spec| && spec[i] == BACKSLASH && depth != 0
    ensures Scan(spec, i, Lexer(InString, depth)) == Scan(spec, i + 2, Lexer(InString, depth))
  {
    assert Scan(spec, i, Lexer(InString, depth)) == Scan(spec, i + 1, Lexer(Escaped, depth));
  }

  /* ---------- What the scan means ---------- */

  /** The lexer after the bytes that follow `open`, up to and including index k. */
  function LexerAt(spec: Bytes, open: nat, k: nat): Lexer
    requires open <= k < |spec|
  {
    Run(OPENED, spec[open + 1..k + 1])
  }

  lemma {:induction false} RunConcat(s: Lexer, a: Bytes, b: Bytes)
    ensures Run(s, a + b) == Run(Run(s, a), b)
    decreases |a|
  {
    if a == [] {
      assert a + b == b;
    } else {
      assert (a + b)[1..] == a[1..] + b;
      RunConcat(Step(s, a[0]), a[1..], b);
    }
  }

  /** The scan finds the first index at which the string-aware depth is zero, and nothing if there is none. */
  lemma MatchingBraceIsFirstClose(spec: Bytes, open: nat)
    requires open < |spec|
    ensures match MatchingBrace(spec, open)
      case Some(k) =>
        && open < k < |spec| && LexerAt(spec, open, k).depth == 0
        && forall j | open <= j < k :: LexerAt(spec, open, j).depth > 0
      case None => forall j | open <= j < |spec| :: LexerAt(spec, open, j).depth > 0
  {
    assert spec[open + 1..open + 1] == [];
    ScanFrom(spec, open, open + 1);
  }

  lemma {:induction false} ScanFrom(spec: Bytes, open: nat, i: nat)
    requires open < i <= |spec| && LexerAt(spec, open, i - 1).depth > 0
    ensures match Scan(spec, i, LexerAt(spec, open, i - 1))
      case Some(k) =>
        && i <= k < |spec| && LexerAt(spec, open, k).depth == 0
        && forall j | i <= j < k :: LexerAt(spec, open, j).depth > 0
      case None => forall j | i <= j < |spec| :: LexerAt(spec, open, j).depth > 0
    decreases |spec| - i
  {
    if i < |spec| {
      assert spec[open + 1..i + 1] == spec[open + 1..i] + [spec[i]];
      RunConcat(OPENED, spec[open + 1..i], [spec[i]]);
      assert LexerAt(spec, open, i) == Step(LexerAt(spec, open, i - 1), spec[i]);
      if LexerAt(spec, open, i).depth != 0 {
        ScanFrom(spec, open, i + 1);
      }
    }
  }

  /* ---------- The scan on serialised trees ---------- */

  /** Reading `bytes` from s stays inside the enclosing object and comes back to s. */
  predicate Neutral(s: Lexer, bytes: Bytes) {
    Run(s, bytes) == s && StaysOpen(s, bytes)
  }

  lemma {:induction false} StaysOpenConcat(s: Lexer, a: Bytes, b: Bytes)
    requires StaysOpen(s, a) && StaysOpen(Run(s, a), b)
    ensures StaysOpen(s, a + b)
    decreases |a|
  {
    if a == [] {
      assert a + b == b;
    } else {
      assert (a + b)[1..] == a[1..] + b;
      StaysOpenConcat(Step(s, a[0]), a[1..], b);
    }
  }

  lemma NeutralConcat(s: Lexer, a: Bytes, b: Bytes)
    requires Neutral(s, a) && Neutral(s, b)
    ensures Neutral(s, a + b)
  {
    RunConcat(s, a, b);
    StaysOpenConcat(s, a, b);
  }

  /** Bytes without quotes and braces change nothing outside strings. */
  lemma {:induction false} OrdinaryIsNeutral(s: Lexer, bytes: Bytes)
    requires s.mode == Plain && s.depth != 0
    requires forall k | 0 <= k < |bytes| :: bytes[k] != QUOTE && bytes[k] != LBRACE && bytes[k] != RBRACE
    ensures Neutral(s, bytes)
    decreases |bytes|
  {
    if bytes != [] {
      assert Step(s, bytes[0]) == s;
      OrdinaryIsNeutral(s, bytes[1..]);
    }
  }

  /** Inside a string nothing but a quote and a backslash has a meaning. */
  lemma {:induction false} StringBytesAreNeutral(s: Lexer, bytes: Bytes)
    requires s.mode == InString && s.depth != 0
    requires forall k | 0 <= k < |bytes| :: bytes[k] != QUOTE && bytes[k] != BACKSLASH
    ensures Neutral(s, bytes)
    decreases |bytes|
  {
    if bytes != [] {
      assert Step(s, bytes[0]) == s;
      StringBytesAreNeutral(s, bytes[1..]);
    }
  }

  /** Whatever a string contains, its escaped form never leaves the string. */
  lemma {:induction false} ContentIsNeutral(s: Lexer, content: Bytes)
    requires s.mode == InString && s.depth != 0
    ensures Neutral(s, EscapeAll(content))
    decreases |content|
  {
    if content != [] {
      var e := Escape(content[0]);
      if e[0] == BACKSLASH {
        var tail := e[2..];
        assert e[1..][1..] == tail;
        assert Run(s, e) == Run(Step(Step(s, e[0]), e[1]), tail);
        StringBytesAreNeutral(s, tail);
      } else {
        StringBytesAreNeutral(s, e);
      }
      ContentIsNeutral(s, content[1..]);
      NeutralConcat(s, e, EscapeAll(content[1..]));
    }
  }

  lemma QuotedIsNeutral(s: Lexer, content: Bytes)
    requires s.mode == Plain && s.depth != 0
    ensures Neutral(s, Quoted(content))
  {
    var body := EscapeAll(content);
    ContentIsNeutral(s.(mode := InString), content);
    RunConcat(s.(mode := InString), body, [QUOTE]);
    StaysOpenConcat(s.(mode := InString), body, [QUOTE]);
    assert Quoted(content)[1..] == body + [QUOTE];
  }

  /** Between the braces of an object at depth d the lexer sees depth d + 1. */
  lemma BracedIsNeutral(s: Lexer, body: Bytes)
    requires s.mode == Plain && s.depth >= 1 && Neutral(s.(depth := s.depth + 1), body)
    ensures Neutral(s, [LBRACE] + body + [RBRACE])
  {
    var inner := s.(depth := s.depth + 1);
    RunConcat(inner, body, [RBRACE]);
    StaysOpenConcat(inner, body, [RBRACE]);
    assert ([LBRACE] + body + [RBRACE])[1..] == body + [RBRACE];
  }

  lemma {:induction false} ValueIsNeutral(s: Lexer, v: Json)
    requires s.mode == Plain && s.depth >= 1
    ensures Neutral(s, Serialise(v))
    decreases v
  {
    match v
    case Null => OrdinaryIsNeutral(s, Serialise(v));
    case Bool(_) => OrdinaryIsNeutral(s, Serialise(v));
    case Number(_) => OrdinaryIsNeutral(s, Serialise(v));
    case Str(content) => QuotedIsNeutral(s, content);
    case Arr(items) =>
      ItemsAreNeutral(s, items);
      OrdinaryIsNeutral(s, [LBRACKET]);
      OrdinaryIsNeutral(s, [RBRACKET]);
      NeutralConcat(s, [LBRACKET], SerialiseItems(items));
      NeutralConcat(s, [LBRACKET] + SerialiseItems(items), [RBRACKET]);
    case Obj(fields) =>
      FieldsAreNeutral(s.(depth := s.depth + 1), fields);
      BracedIsNeutral(s, SerialiseFields(fields));
    case Gap(_) =>
  }

  lemma {:induction false} ItemsAreNeutral(s: Lexer, items: Items)
    requires s.mode == Plain && s.depth >= 1
    ensures Neutral(s, SerialiseItems(items))
    decreases items
  {
    match items
    case NoItems =>
    case Item(v, tail) =>
      ValueIsNeutral(s, v);
      ItemsAreNeutral(s, tail);
      OrdinaryIsNeutral(s, [COMMA]);
      NeutralConcat(s, Serialise(v), [COMMA]);
      NeutralConcat(s, Serialise(v) + [COMMA], SerialiseItems(tail));
  }

  lemma {:induction false} FieldsAreNeutral(s: Lexer, fields: Fields)
    requires s.mode == Plain && s.depth >= 1
    ensures Neutral(s, SerialiseFields(fields))
    decreases fields
  {
    match fields
    case NoFields =>
    case Field(k, v, rest) =>
      QuotedIsNeutral(s, k);
      ValueIsNeutral(s, v);
      FieldsAreNeutral(s, rest);
      OrdinaryIsNeutral(s, [COLON]);
      OrdinaryIsNeutral(s, [COMMA]);
      NeutralConcat(s, Quoted(k), [COLON]);
      NeutralConcat(s, Quoted(k) + [COLON], Serialise(v));
      NeutralConcat(s, Quoted(k) + [COLON] + Serialise(v), [COMMA]);
      NeutralConcat(s, Quoted(k) + [COLON] + Serialise(v) + [COMMA], SerialiseFields(rest));
  }

  lemma {:induction false} ScanThrough(spec: Bytes, i: nat, s: Lexer, part: Bytes)
    requires i + |part| <= |spec| && spec[i..i + |part|] == part && StaysOpen(s, part)
    ensures Scan(spec, i, s) == Scan(spec, i + |part|, Run(s, part))
    decreases |part|
  {
    if part != [] {
      assert spec[i] == part[0];
      assert spec[i + 1..i + |part|] == part[1..];
      ScanThrough(spec, i + 1, Step(s, part[0]), part[1..]);
    }
  }

  /** The scan started at any object's opening brace ends at that object's closing brace, whatever its strings
      contain and whatever stands around it. */
  lemma ObjectSpan(before: Bytes, fields: Fields, after: Bytes)
    ensures var text := Serialise(Obj(fields));
      MatchingBrace(before + text + after, |before|) == Some(|before| + |text| - 1)
  {
    var body := SerialiseFields(fields);
    var spec := before + Serialise(Obj(fields)) + after;
    FieldsAreNeutral(OPENED, fields);
    assert spec[|before| + 1..|before| + 1 + |body|] == body;
    ScanThrough(spec, |before| + 1, OPENED, body);
    assert spec[|before| + 1 + |body|] == RBRACE;
  }
}
