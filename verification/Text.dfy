/** Characters and strings as the standard library of the program treats them. */
module Text {
  import opened Prelude

  /** Unicode white space. */
  predicate IsWhitespace(c: char) {
    var n := c as int;
    || 0x09 <= n <= 0x0D || n == 0x20 || n == 0x85 || n == 0xA0 || n == 0x1680 || 0x2000 <= n <= 0x200A
    || n == 0x2028 || n == 0x2029 || n == 0x202F || n == 0x205F || n == 0x3000
  }

  function TrimStart(s: string): string {
    if s != "" && IsWhitespace(s[0]) then TrimStart(s[1..]) else s
  }

  function TrimEnd(s: string): string {
    if s != "" && IsWhitespace(s[|s| - 1]) then TrimEnd(s[..|s| - 1]) else s
  }

  function Trim(s: string): string { TrimEnd(TrimStart(s)) }

  predicate Trimmed(s: string) {
    s != "" ==> !IsWhitespace(s[0]) && !IsWhitespace(s[|s| - 1])
  }

  predicate Blank(s: string) {
    forall i | 0 <= i < |s| :: IsWhitespace(s[i])
  }

  /** Among the ASCII characters, white space is the space and the characters from tab to carriage return. */
  lemma AsciiWhitespace(c: char)
    requires c as int < 0x80
    ensures IsWhitespace(c) <==> c == ' ' || '\t' <= c <= '\r'
  {
  }

  lemma {:induction false} TrimStartSplits(s: string) returns (pre: string)
    ensures s == pre + TrimStart(s) && Blank(pre)
    ensures TrimStart(s) != "" ==> !IsWhitespace(TrimStart(s)[0])
  {
    if s != "" && IsWhitespace(s[0]) {
      var rest := TrimStartSplits(s[1..]);
      pre := [s[0]] + rest;
    } else {
      pre := "";
    }
  }

  lemma {:induction false} TrimEndSplits(s: string) returns (post: string)
    ensures s == TrimEnd(s) + post && Blank(post)
    ensures TrimEnd(s) != "" ==> !IsWhitespace(TrimEnd(s)[|TrimEnd(s)| - 1])
  {
    if s != "" && IsWhitespace(s[|s| - 1]) {
      var rest := TrimEndSplits(s[..|s| - 1]);
      post := rest + [s[|s| - 1]];
    } else {
      post := "";
    }
  }

  /** Trimming takes white space from both ends, and all of it. */
  lemma TrimSplits(s: string) returns (pre: string, post: string)
    ensures s == pre + Trim(s) + post && Blank(pre) && Blank(post) && Trimmed(Trim(s))
  {
    pre := TrimStartSplits(s);
    post := TrimEndSplits(TrimStart(s));
    assert Trim(s) != "" ==> Trim(s)[0] == TrimStart(s)[0];
  }

  lemma {:induction false} TrimStartDrops(pre: string, s: string)
    requires Blank(pre)
    ensures TrimStart(pre + s) == TrimStart(s)
    decreases |pre|
  {
    if pre == "" {
      assert pre + s == s;
    } else {
      assert (pre + s)[1..] == pre[1..] + s;
      TrimStartDrops(pre[1..], s);
    }
  }

  lemma {:induction false} TrimEndDrops(s: string, post: string)
    requires Blank(post)
    ensures TrimEnd(s + post) == TrimEnd(s)
    decreases |post|
  {
    if post == "" {
      assert s + post == s;
    } else {
      assert (s + post)[..|s + post| - 1] == s + post[..|post| - 1];
      TrimEndDrops(s, post[..|post| - 1]);
    }
  }

  /** There is only one way to split a text into white space, a trimmed middle and white space, if the middle is not
      empty; the middle is what trimming gives. */
  lemma TrimIsTheMiddle(pre: string, middle: string, post: string)
    requires Blank(pre) && Blank(post) && Trimmed(middle)
    ensures Trim(pre + middle + post) == middle
  {
    assert pre + middle + post == pre + (middle + post);
    TrimStartDrops(pre, middle + post);
    if middle == "" {
      TrimStartDrops(post, "");
      assert middle + post == post + "";
    } else {
      assert (middle + post)[0] == middle[0];
      TrimEndDrops(middle, post);
    }
  }

  /** White space around a text does not matter to trimming. */
  lemma TrimOfPadded(lead: string, s: string, trail: string)
    requires Blank(lead) && Blank(trail)
    ensures Trim(lead + s + trail) == Trim(s)
  {
    var pre, post := TrimSplits(s);
    assert lead + s + trail == (lead + pre) + Trim(s) + (post + trail);
    TrimIsTheMiddle(lead + pre, Trim(s), post + trail);
  }

  lemma TrimmedStays(s: string)
    requires Trimmed(s)
    ensures Trim(s) == s
  {
  }

  /** Exactly the trimmed texts stay as they are. */
  lemma TrimmedExactly(s: string)
    ensures Trim(s) == s <==> Trimmed(s)
  {
    var pre, post := TrimSplits(s);
  }

  lemma {:induction false} TrimStartShortens(s: string)
    ensures |TrimStart(s)| <= |s| && (|TrimStart(s)| == |s| ==> TrimStart(s) == s)
  {
    if s != "" && IsWhitespace(s[0]) { TrimStartShortens(s[1..]); }
  }

  lemma {:induction false} TrimEndShortens(s: string)
    ensures |TrimEnd(s)| <= |s| && (|TrimEnd(s)| == |s| ==> TrimEnd(s) == s)
  {
    if s != "" && IsWhitespace(s[|s| - 1]) { TrimEndShortens(s[..|s| - 1]); }
  }

  /** Trimming never lengthens, and keeps the length only by changing nothing. */
  lemma TrimShortens(s: string)
    ensures |Trim(s)| <= |s| && (|Trim(s)| == |s| ==> Trim(s) == s)
  {
    TrimStartShortens(s);
    TrimEndShortens(TrimStart(s));
  }

  /** The lexicographic order. */
  predicate Leq(a: string, b: string) {
    a == "" || (b != "" && (a[0] < b[0] || (a[0] == b[0] && Leq(a[1..], b[1..]))))
  }

  /** One text comes before another exactly if it is a prefix of it or has the smaller character where they first
      differ. */
  lemma {:induction false} LeqExactly(a: string, b: string)
    ensures Leq(a, b) <==> a <= b || exists i :: 0 <= i < |a| && i < |b| && a[..i] == b[..i] && a[i] < b[i]
  {
    if a != "" && b != "" {
      LeqExactly(a[1..], b[1..]);
      assert forall i | 0 < i <= |a| && i <= |b| && a[..i] == b[..i] :: a[..i][0] == a[0] && b[..i][0] == b[0];
      if a[0] < b[0] {
        assert a[..0] == b[..0];
      } else if a[0] == b[0] {
        if i :| 0 <= i < |a[1..]| && i < |b[1..]| && a[1..][..i] == b[1..][..i] && a[1..][i] < b[1..][i] {
          assert a[..i + 1] == [a[0]] + a[1..][..i] && b[..i + 1] == [b[0]] + b[1..][..i];
          assert a[i + 1] < b[i + 1];
        }
        if i :| 0 <= i < |a| && i < |b| && a[..i] == b[..i] && a[i] < b[i] {
          assert i > 0;
          assert a[1..][..i - 1] == a[..i][1..] && b[1..][..i - 1] == b[..i][1..];
          assert a[1..][i - 1] < b[1..][i - 1];
        }
        assert a <= b <==> a[1..] <= b[1..];
      }
    }
  }

  lemma {:induction false} LeqTotal(a: string, b: string)
    ensures Leq(a, b) || Leq(b, a)
    ensures Leq(a, b) && Leq(b, a) ==> a == b
  {
    if a != "" && b != "" {
      LeqTotal(a[1..], b[1..]);
      assert a == [a[0]] + a[1..] && b == [b[0]] + b[1..];
    }
  }

  lemma {:induction false} LeqTransitive(a: string, b: string, c: string)
    requires Leq(a, b) && Leq(b, c)
    ensures Leq(a, c)
  {
    if a != "" && a[0] == b[0] == c[0] {
      LeqTransitive(a[1..], b[1..], c[1..]);
    }
  }

  lemma LeqHasLeast(s: set<string>)
    requires s != {}
    ensures exists m :: m in s && forall x <- s :: Leq(m, x)
  {
    var leq := (a: string, b: string) => Leq(a, b);
    forall a, b ensures leq(a, b) || leq(b, a) { LeqTotal(a, b); }
    forall a, b, c | leq(a, b) && leq(b, c) ensures leq(a, c) { LeqTransitive(a, b, c); }
    LeastExists(leq, s);
    var m :| m in s && forall x <- s :: leq(m, x);
    assert forall x <- s :: leq(m, x) && Leq(m, x);
  }
}
