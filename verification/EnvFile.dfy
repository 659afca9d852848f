/** The tolerant loader of the local environment file. */
module EnvFile {
  import opened Prelude
  import opened Text

  /** Which characters count as letters and as digits; the tables are Unicode's. */
  datatype CharClass = CharClass(alphabetic: char -> bool, numeric: char -> bool) {
    predicate Alphanumeric(c: char) { alphabetic(c) || numeric(c) }

    /** Letters and digits are neither white space nor punctuation. */
    ghost predicate Sane() {
      forall c: char | Alphanumeric(c) || c == '_' ::
        !IsWhitespace(c) && c != '=' && c != '#' && c != '\n' && c != '"' && c != '\0'
    }
  }

  function IndexOf(s: string, c: char): (r: Option<nat>)
    ensures r.Some? ==> r.value < |s| && s[r.value] == c && c !in s[..r.value]
    ensures r.None? ==> c !in s
  {
    if s == "" then None
    else if s[0] == c then Some(0)
    else match IndexOf(s[1..], c)
      case None => None
      case Some(i) => assert s[..i + 1] == [s[0]] + s[1..][..i]; Some(i + 1)
  }

  /** The lines of a text.  A carriage return at a line's end, and an empty line after the last newline, stay; neither
      matters to the loader, which trims lines and skips empty ones. */
  function Lines(text: string): List<string>
    decreases |text|
  {
    match IndexOf(text, '\n')
    case None => Cons(text, Nil)
    case Some(i) => Cons(text[..i], Lines(text[i + 1..]))
  }

  predicate ValidKey(cc: CharClass, key: string) {
    key != "" && (cc.alphabetic(key[0]) || key[0] == '_') &&
    forall i | 0 <= i < |key| :: cc.Alphanumeric(key[i]) || key[i] == '_'
  }

  predicate Enclosed(s: string, quote: char) {
    |s| >= 2 && s[0] == quote && s[|s| - 1] == quote
  }

  /** One pair of surrounding double quotes goes, or else one pair of single quotes. */
  function Unquote(s: string): string {
    if Enclosed(s, '"') || Enclosed(s, '\'') then s[1..|s| - 1] else s
  }

  const PSQL := "psql "

  function Clean(key: string, value: string): string {
    var cleaned := Unquote(value);
    if key == "DATABASE_URL" && PSQL <= cleaned then Unquote(cleaned[5..]) else cleaned
  }

  /** The binding on a line, if there is one. */
  function ParseLine(cc: CharClass, text: string): Option<(string, string)> {
    var line := Trim(text);
    if line == "" || line[0] == '#' then None
    else match IndexOf(line, '=')
      case None => None
      case Some(e) =>
        var key, value := Trim(line[..e]), Trim(line[e + 1..]);
        if ValidKey(cc, key) then Some((key, Clean(key, value))) else None
  }

  type Vars = map<string, string>

  /** Loading stops in a panic at a value with a NUL character, which no environment variable can hold. */
  datatype Outcome = IoError | Panicked | Loaded(count: nat)

  function ParseAll(cc: CharClass, lines: List<string>): List<Option<(string, string)>> {
    match lines
    case Nil => Nil
    case Cons(line, rest) => Cons(ParseLine(cc, line), ParseAll(cc, rest))
  }

  /** The effect of the remaining lines, given how many bindings are loaded already. */
  function LoadAll(parsed: List<Option<(string, string)>>, loaded: nat, vars: Vars): (Outcome, Vars)
    decreases parsed
  {
    match parsed
    case Nil => (Loaded(loaded), vars)
    case Cons(None, rest) => LoadAll(rest, loaded, vars)
    case Cons(Some((key, value)), rest) =>
      if '\0' in value then (Panicked, vars) else LoadAll(rest, loaded + 1, vars[key := value])
  }

  class Environment {
    var vars: Vars

    constructor (vars: Vars)
      ensures this.vars == vars
    {
      this.vars := vars;
    }

    /** `contents` is None if the file cannot be read. */
    method LoadEnvLocalTolerant(cc: CharClass, contents: Option<string>) returns (outcome: Outcome)
      modifies this
      ensures (outcome, vars) ==
        if contents.None? then (IoError, old(vars)) else LoadAll(ParseAll(cc, Lines(contents.value)), 0, old(vars))
    {
      if contents.None? {
        return IoError;
      }
      var lines := Lines(contents.value);
      var loaded := 0;
      while lines.Cons?
        invariant LoadAll(ParseAll(cc, Lines(contents.value)), 0, old(vars)) == LoadAll(ParseAll(cc, lines), loaded, vars)
        decreases lines
      {
        var line := Trim(lines.head);
        ghost var parsed := ParseLine(cc, lines.head);
        lines := lines.tail;
        if line == "" || line[0] == '#' {
          continue;
        }
        var equalsPos := IndexOf(line, '=');
        if equalsPos.Some? {
          var key := Trim(line[..equalsPos.value]);
          var value := Trim(line[equalsPos.value + 1..]);
          if ValidKey(cc, key) {
            var cleanedValue := Unquote(value);
            if key == "DATABASE_URL" && PSQL <= cleanedValue {
              cleanedValue := cleanedValue[5..];
              cleanedValue := Unquote(cleanedValue);
            }
            assert parsed == Some((key, cleanedValue));
            if '\0' in cleanedValue {
              return Panicked;
            }
            vars := vars[key := cleanedValue];
            loaded := loaded + 1;
          }
        }
      }
      return Loaded(loaded);
    }
  }

  /* ---------- What one line binds ---------- */

  lemma {:induction false} FirstIndex(before: string, c: char, after: string)
    requires c !in before
    ensures IndexOf(before + [c] + after, c) == Some(|before|)
    decreases |before|
  {
    var s := before + [c] + after;
    if before == "" {
      assert s[0] == c;
    } else {
      assert s[0] == before[0] && before[0] in before;
      assert s[1..] == before[1..] + [c] + after;
      FirstIndex(before[1..], c, after);
    }
  }

  lemma AssignmentIsTrimmed(b: string, a: string)
    requires (b != "" ==> !IsWhitespace(b[0])) && (a != "" ==> !IsWhitespace(a[|a| - 1]))
    ensures Trimmed(b + "=" + a)
  {
    var middle := b + "=" + a;
    assert middle[0] == if b != "" then b[0] else '=';
    assert middle[|middle| - 1] == if a != "" then a[|a| - 1] else '=';
  }

  /** Trimming a line with an equals sign trims its outer ends only. */
  lemma TrimAssignment(before: string, after: string)
    ensures Trim(before + "=" + after) == TrimStart(before) + "=" + TrimEnd(after)
  {
    var pre := TrimStartSplits(before);
    var post := TrimEndSplits(after);
    AssignmentIsTrimmed(TrimStart(before), TrimEnd(after));
    SameText(pre, TrimStart(before), TrimEnd(after), post);
    TrimIsTheMiddle(pre, TrimStart(before) + "=" + TrimEnd(after), post);
  }

  lemma SameText(pre: string, b: string, a: string, post: string)
    ensures (pre + b) + "=" + (a + post) == pre + (b + "=" + a) + post
  {
  }

  lemma TrimOfTrimStart(s: string)
    ensures Trim(TrimStart(s)) == Trim(s)
  {
    var pre := TrimStartSplits(s);
    TrimStartDrops("", TrimStart(s));
  }

  lemma TrimOfTrimEnd(s: string)
    ensures Trim(TrimEnd(s)) == Trim(s)
  {
    var post := TrimEndSplits(s);
    var pre', post' := TrimSplits(TrimEnd(s));
    assert s == pre' + Trim(TrimEnd(s)) + (post' + post);
    TrimIsTheMiddle(pre', Trim(TrimEnd(s)), post' + post);
  }

  lemma TrimStartSubset(s: string)
    ensures forall c | c in TrimStart(s) :: c in s
  {
    var pre := TrimStartSplits(s);
  }

  /** What a line with an equals sign binds: the trimmed text before the first one if that is a key, to the cleaned and
      trimmed text after it. */
  lemma ParsedAssignment(cc: CharClass, before: string, after: string)
    requires cc.Sane() && '=' !in before
    ensures var key := Trim(before);
      ParseLine(cc, before + "=" + after) == if ValidKey(cc, key) then Some((key, Clean(key, Trim(after)))) else None
  {
    var line := Trim(before + "=" + after);
    TrimAssignment(before, after);
    TrimOfTrimStart(before);
    TrimOfTrimEnd(after);
    TrimStartSubset(before);
    FirstIndex(TrimStart(before), '=', TrimEnd(after));
    assert line == TrimStart(before) + ['='] + TrimEnd(after);
    assert line[..|TrimStart(before)|] == TrimStart(before) && line[|TrimStart(before)| + 1..] == TrimEnd(after);
    if line[0] == '#' {
      assert TrimStart(before)[0] == '#';
      CommentIsNoKey(cc, before);
    }
  }

  lemma CommentIsNoKey(cc: CharClass, before: string)
    requires cc.Sane() && TrimStart(before) != "" && TrimStart(before)[0] == '#'
    ensures !ValidKey(cc, Trim(before))
  {
    var post := TrimEndSplits(TrimStart(before));
    assert Trim(before) != "" ==> Trim(before)[0] == '#';
  }

  /** The lines with an equals sign that bind nothing: those without a key before it, be it that there is none, that it
      begins with neither a letter nor an underscore, or that it has some character that is none of letter, digit and
      underscore. */
  lemma BindsNothingExactly(cc: CharClass, before: string, after: string)
    requires cc.Sane() && '=' !in before
    ensures var key := Trim(before);
      ParseLine(cc, before + "=" + after) == None <==>
        || key == ""
        || !(cc.alphabetic(key[0]) || key[0] == '_')
        || exists i | 0 <= i < |key| :: !(cc.alphabetic(key[i]) || cc.numeric(key[i]) || key[i] == '_')
  {
    ParsedAssignment(cc, before, after);
  }

  lemma {:induction false} TrimEndSubset(s: string)
    ensures forall c | c in TrimEnd(s) :: c in s
  {
    var post := TrimEndSplits(s);
  }

  lemma NoiseIsSkipped(cc: CharClass, text: string)
    requires Skippable(text)
    ensures ParseLine(cc, text) == None
  {
    TrimStartSubset(text);
    TrimEndSubset(TrimStart(text));
    if '=' !in text {
      assert '=' !in Trim(text);
    }
  }

  /* ---------- Round trip ---------- */

  datatype Quotes = Double | Single | Bare

  /** How a binding is written: the white space at its four places, the quotes around the value, and whether it is a URL
      that follows psql and a space, with quotes of its own. */
  datatype Form = Form(lead: string, beforeSign: string, afterSign: string, trail: string, quotes: Quotes,
                       psql: Option<Quotes>)

  function Quoted(quotes: Quotes, s: string): string {
    match quotes
    case Double => "\"" + s + "\""
    case Single => "'" + s + "'"
    case Bare => s
  }

  /** The text between the outer quotes. */
  function Inner(value: string, form: Form): string {
    match form.psql
    case None => value
    case Some(quotes) => "psql " + Quoted(quotes, value)
  }

  /** A line of a written file: a binding, or a line that is to be skipped. */
  datatype FileLine = Binding(key: string, value: string, form: Form) | Noise(text: string)

  function WriteLine(l: FileLine): string {
    match l
    case Binding(key, value, form) =>
      form.lead + key + form.beforeSign + "=" + form.afterSign + Quoted(form.quotes, Inner(value, form)) + form.trail
    case Noise(text) => text
  }

  function WriteFile(ls: List<FileLine>): string {
    match ls
    case Nil => ""
    case Cons(l, rest) => WriteLine(l) + "\n" + WriteFile(rest)
  }

  predicate Skippable(text: string) {
    Trim(text) == "" || Trim(text)[0] == '#' || '=' !in text
  }

  predicate Blanks(form: Form) {
    Blank(form.lead) && Blank(form.beforeSign) && Blank(form.afterSign) && Blank(form.trail)
  }

  /** The text has quotes of its own around it. */
  predicate SelfQuoted(s: string) {
    |s| >= 2 && s[0] == s[|s| - 1] && (s[0] == '"' || s[0] == '\'')
  }

  /** The form suits the value: bare text has no white space at its ends and no quotes around it, a bare URL has no
      quotes around it either, and a DATABASE_URL does not itself begin with psql and a space. */
  predicate Suits(key: string, value: string, form: Form) {
    && (form.quotes.Bare? ==> Trimmed(Inner(value, form)) && !SelfQuoted(Inner(value, form)))
    && match form.psql
       case Some(quotes) => quotes.Bare? ==> !SelfQuoted(value)
       case None => !(key == "DATABASE_URL" && "psql " <= value)
  }

  lemma UnquoteTakesOnePair(quotes: Quotes, s: string)
    ensures !quotes.Bare? ==> Unquote(Quoted(quotes, s)) == s
    ensures Unquote(s) == if SelfQuoted(s) then s[1..|s| - 1] else s
  {
    assert Quoted(Double, s)[1..|s| + 1] == s && Quoted(Single, s)[1..|s| + 1] == s;
    assert |Quoted(Single, s)| > 0 && Quoted(Single, s)[0] == '\'';
  }

  lemma PsqlPrefix(s: string)
    ensures "psql " <= "psql " + s && ("psql " + s)[5..] == s
  {
  }

  /** What the loader makes of a written value. */
  lemma CleanedExactly(key: string, value: string, form: Form)
    requires form.psql.Some? ==> key == "DATABASE_URL"
    ensures Clean(key, Trim(Quoted(form.quotes, Inner(value, form)))) == value <==> Suits(key, value, form)
  {
    var inner := Inner(value, form);
    var text := Quoted(form.quotes, inner);
    UnquoteTakesOnePair(form.quotes, inner);
    UnquoteTakesOnePair(Bare, value);
    if form.psql.Some? {
      UnquoteTakesOnePair(form.psql.value, value);
      PsqlPrefix(Quoted(form.psql.value, value));
    }
    if !form.quotes.Bare? {
      assert text[0] == text[|text| - 1] && Trimmed(text);
      TrimmedStays(text);
    } else {
      BareCleaned(key, value, form);
    }
  }

  lemma BareCleaned(key: string, value: string, form: Form)
    requires form.quotes.Bare? && (form.psql.Some? ==> key == "DATABASE_URL")
    ensures Clean(key, Trim(Inner(value, form))) == value <==> Suits(key, value, form)
  {
    var inner := Inner(value, form);
    TrimShortens(inner);
    TrimmedExactly(inner);
    UnquoteTakesOnePair(Bare, Trim(inner));
    UnquoteTakesOnePair(Bare, value);
    if form.psql.Some? {
      UnquoteTakesOnePair(form.psql.value, value);
      PsqlPrefix(Quoted(form.psql.value, value));
      if form.psql.value.Bare? {
        BareUrlCleaned(value);
      } else {
        assert inner[|inner| - 1] == Quoted(form.psql.value, value)[|Quoted(form.psql.value, value)| - 1];
      }
    }
  }

  /** A bare URL after psql loses the white space at its end. */
  lemma BareUrlCleaned(value: string)
    ensures !Trimmed("psql " + value) ==> Clean("DATABASE_URL", Trim("psql " + value)) != value
  {
    var post := TrimEndSplits(value);
    var url := TrimEnd(value);
    if url == "" {
      assert "psql " + value == "" + "psql" + (" " + post);
      TrimIsTheMiddle("", "psql", " " + post);
    } else {
      assert "psql " + value == "" + ("psql " + url) + post;
      assert ("psql " + url)[|"psql " + url| - 1] == url[|url| - 1];
      TrimIsTheMiddle("", "psql " + url, post);
      PsqlPrefix(url);
      UnquoteTakesOnePair(Bare, url);
      assert ("psql " + value)[|"psql " + value| - 1] == value[|value| - 1];
    }
  }

  /** A written binding is read back exactly if and only if its form suits it; it is read as a binding of its key in any
      case. */
  lemma BindingRoundTrip(cc: CharClass, key: string, value: string, form: Form)
    requires cc.Sane() && ValidKey(cc, key) && Blanks(form) && (form.psql.Some? ==> key == "DATABASE_URL")
    ensures ParseLine(cc, WriteLine(Binding(key, value, form))) == Some((key, value)) <==> Suits(key, value, form)
    ensures ParseLine(cc, WriteLine(Binding(key, value, form))).Some?
  {
    var text := Quoted(form.quotes, Inner(value, form));
    var before, after := form.lead + key + form.beforeSign, form.afterSign + text + form.trail;
    assert WriteLine(Binding(key, value, form)) == before + "=" + after;
    TrimIsTheMiddle(form.lead, key, form.beforeSign);
    TrimOfPadded(form.afterSign, text, form.trail);
    NoSignBefore(cc, key, form);
    ParsedAssignment(cc, before, after);
    CleanedExactly(key, value, form);
  }

  lemma NoSignBefore(cc: CharClass, key: string, form: Form)
    requires cc.Sane() && ValidKey(cc, key) && Blanks(form)
    ensures '=' !in form.lead + key + form.beforeSign
  {
  }

  predicate Writable(cc: CharClass, l: FileLine) {
    && '\n' !in WriteLine(l)
    && match l
       case Binding(key, value, form) =>
         && ValidKey(cc, key) && Blanks(form) && (form.psql.Some? ==> key == "DATABASE_URL")
         && Suits(key, value, form) && '\0' !in value
       case Noise(text) => Skippable(text)
  }

  predicate AllWritable(cc: CharClass, ls: List<FileLine>) {
    match ls
    case Nil => true
    case Cons(l, rest) => Writable(cc, l) && AllWritable(cc, rest)
  }

  /** The bindings in order, the last one of a key winning. */
  function Bound(ls: List<FileLine>, vars: Vars): Vars {
    match ls
    case Nil => vars
    case Cons(Binding(key, value, _), rest) => Bound(rest, vars[key := value])
    case Cons(Noise(_), rest) => Bound(rest, vars)
  }

  function BindingCount(ls: List<FileLine>): nat {
    match ls
    case Nil => 0
    case Cons(l, rest) => (if l.Binding? then 1 else 0) + BindingCount(rest)
  }

  function Meant(l: FileLine): Option<(string, string)> {
    if l.Binding? then Some((l.key, l.value)) else None
  }

  lemma WritableLineParses(cc: CharClass, l: FileLine)
    requires cc.Sane() && Writable(cc, l)
    ensures ParseLine(cc, WriteLine(l)) == Meant(l)
  {
    match l
    case Binding(key, value, form) => BindingRoundTrip(cc, key, value, form);
    case Noise(text) => NoiseIsSkipped(cc, text);
  }

  lemma FirstLine(line: string, rest: string)
    requires '\n' !in line
    ensures Lines(line + "\n" + rest) == Cons(line, Lines(rest))
  {
    var text := line + ['\n'] + rest;
    FirstIndex(line, '\n', rest);
    assert text[..|line|] == line && text[|line| + 1..] == rest;
  }

  /** What the lines of a written file mean; the last one is the empty line after the last newline. */
  function MeantAll(ls: List<FileLine>): List<Option<(string, string)>> {
    match ls
    case Nil => Cons(None, Nil)
    case Cons(l, rest) => Cons(Meant(l), MeantAll(rest))
  }

  lemma {:induction false} WrittenLinesParse(cc: CharClass, ls: List<FileLine>)
    requires cc.Sane() && AllWritable(cc, ls)
    ensures ParseAll(cc, Lines(WriteFile(ls))) == MeantAll(ls)
  {
    match ls
    case Nil =>
      assert Lines("") == Cons("", Nil) && ParseLine(cc, "") == None;
    case Cons(l, rest) =>
      WritableLineParses(cc, l);
      FirstLine(WriteLine(l), WriteFile(rest));
      WrittenLinesParse(cc, rest);
  }

  lemma {:induction false} MeaningLoads(cc: CharClass, ls: List<FileLine>, loaded: nat, vars: Vars)
    requires AllWritable(cc, ls)
    ensures LoadAll(MeantAll(ls), loaded, vars) == (Loaded(loaded + BindingCount(ls)), Bound(ls, vars))
    decreases ls
  {
    match ls
    case Nil =>
    case Cons(Binding(key, value, _), rest) => MeaningLoads(cc, rest, loaded + 1, vars[key := value]);
    case Cons(Noise(_), rest) => MeaningLoads(cc, rest, loaded, vars);
  }

  /** Writing bindings in whatever forms suit them, interleaved with lines to be skipped, and loading the file gives
      exactly those bindings, the last one of a key winning, and counts them all. */
  lemma FileRoundTrip(cc: CharClass, ls: List<FileLine>, vars: Vars)
    requires cc.Sane() && AllWritable(cc, ls)
    ensures LoadAll(ParseAll(cc, Lines(WriteFile(ls))), 0, vars) == (Loaded(BindingCount(ls)), Bound(ls, vars))
  {
    WrittenLinesParse(cc, ls);
    MeaningLoads(cc, ls, 0, vars);
  }

  /* ---------- Values that no variable can hold ---------- */

  /** The bindings before the first one whose value has a NUL character. */
  function Loadable(parsed: List<Option<(string, string)>>): List<(string, string)> {
    match parsed
    case Nil => Nil
    case Cons(None, rest) => Loadable(rest)
    case Cons(Some(b), rest) => if '\0' in b.1 then Nil else Cons(b, Loadable(rest))
  }

  ghost predicate SomeNul(parsed: List<Option<(string, string)>>) {
    exists b :: b in Elements(parsed) && b.Some? && '\0' in b.value.1
  }

  function Length<T>(l: List<T>): nat {
    match l
    case Nil => 0
    case Cons(_, rest) => 1 + Length(rest)
  }

  /** The value that the last binding of a key gives it. */
  function LastValue(bs: List<(string, string)>, key: string, default: Option<string>): Option<string> {
    match bs
    case Nil => default
    case Cons(b, rest) => LastValue(rest, key, if b.0 == key then Some(b.1) else default)
  }

  function ValueOf(vars: Vars, key: string): Option<string> {
    if key in vars then Some(vars[key]) else None
  }

  /** Loading panics exactly if some binding's value has a NUL character; the bindings before the first such one take
      effect, the last one of a key winning, and otherwise all are counted. */
  lemma {:induction false} LoadOutcomeExactly(parsed: List<Option<(string, string)>>, loaded: nat, vars: Vars, key: string)
    ensures var (outcome, vars') := LoadAll(parsed, loaded, vars);
      && (outcome == Panicked <==> SomeNul(parsed))
      && (outcome != Panicked ==> outcome == Loaded(loaded + Length(Loadable(parsed))))
      && ValueOf(vars', key) == LastValue(Loadable(parsed), key, ValueOf(vars, key))
    decreases parsed
  {
    match parsed
    case Nil =>
    case Cons(b, rest) =>
      SomeNulCons(b, rest);
      if b.None? {
        LoadOutcomeExactly(rest, loaded, vars, key);
      } else if '\0' !in b.value.1 {
        LoadOutcomeExactly(rest, loaded + 1, vars[b.value.0 := b.value.1], key);
      }
  }

  lemma SomeNulCons(b: Option<(string, string)>, rest: List<Option<(string, string)>>)
    ensures SomeNul(Cons(b, rest)) <==> (b.Some? && '\0' in b.value.1) || SomeNul(rest)
  {
    if b.Some? && '\0' in b.value.1 {
      assert b in Elements(Cons(b, rest));
    } else if x :| x in Elements(rest) && x.Some? && '\0' in x.value.1 {
      assert x in Elements(Cons(b, rest));
    }
  }
}
