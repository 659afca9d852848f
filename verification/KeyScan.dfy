/** Redis key patterns, as SCAN matches them. */
module KeyScan {
  /** Glob matching: a star stands for any text, a question mark for any character, and a backslash makes the next
      character literal. */
  predicate GlobMatch(pattern: string, key: string)
    decreases |pattern|, |key|
  {
    if pattern == "" then key == ""
    else if pattern[0] == '*' then GlobMatch(pattern[1..], key) || (key != "" && GlobMatch(pattern, key[1..]))
    else if key == "" then false
    else if pattern[0] == '?' then GlobMatch(pattern[1..], key[1..])
    else if pattern[0] == '\\' && |pattern| > 1 then key[0] == pattern[1] && GlobMatch(pattern[2..], key[1..])
    else key[0] == pattern[0] && GlobMatch(pattern[1..], key[1..])
  }

  /** Wildcards, and the backslash that escapes the character after it. */
  predicate Special(c: char) { c == '*' || c == '?' || c == '\\' }

  predicate NoClasses(s: string) {
    '[' !in s
  }

  predicate GlobFree(s: string) {
    NoClasses(s) && forall i | 0 <= i < |s| :: !Special(s[i])
  }

  lemma {:induction false} StarMatchesAll(key: string)
    ensures GlobMatch("*", key)
    decreases |key|
  {
    assert "*"[1..] == "";
    if key != "" {
      StarMatchesAll(key[1..]);
    }
  }

  lemma {:induction false} LiteralPrefix(prefix: string, key: string)
    requires GlobFree(prefix)
    ensures GlobMatch(prefix + "*", key) <==> prefix <= key
    decreases |prefix|
  {
    var pattern := prefix + "*";
    if prefix == "" {
      assert pattern == "*";
      StarMatchesAll(key);
    } else {
      assert pattern[0] == prefix[0] && pattern[1..] == prefix[1..] + "*";
      if key != "" {
        LiteralPrefix(prefix[1..], key[1..]);
        assert prefix == [prefix[0]] + prefix[1..] && key == [key[0]] + key[1..];
      }
    }
  }

  /** A key that the pattern of a prefix matches: wildcards become an ordinary character, an escaped character stands
      for itself, and a backslash at the end escapes the star. */
  function Tame(s: string): string {
    if s == "" then ""
    else if s[0] == '\\' then (if |s| == 1 then "*" else [s[1]] + Tame(s[2..]))
    else [if Special(s[0]) then 'x' else s[0]] + Tame(s[1..])
  }

  lemma {:induction false} TameMatches(prefix: string)
    ensures GlobMatch(prefix + "*", Tame(prefix))
    decreases |prefix|
  {
    var pattern, key := prefix + "*", Tame(prefix);
    if prefix == "" {
      StarMatchesAll("");
      assert pattern == "*";
    } else if prefix == "\\" {
      assert pattern[1] == '*' && pattern[2..] == "" && key[1..] == "";
    } else if prefix[0] == '\\' {
      assert pattern[2..] == prefix[2..] + "*" && key[1..] == Tame(prefix[2..]);
      TameMatches(prefix[2..]);
    } else {
      assert pattern[1..] == prefix[1..] + "*" && key[1..] == Tame(prefix[1..]);
      TameMatches(prefix[1..]);
      if prefix[0] == '*' {
        assert GlobMatch(pattern[1..], key[1..]);
        StarTakesOne(pattern, key);
      }
    }
  }

  lemma StarTakesOne(pattern: string, key: string)
    requires pattern != "" && pattern[0] == '*' && key != "" && GlobMatch(pattern[1..], key[1..])
    ensures GlobMatch(pattern, key)
  {
    assert GlobMatch(pattern, key[1..]);
  }

  lemma {:induction false} TameDiffers(prefix: string)
    ensures |Tame(prefix)| <= |prefix|
    ensures (exists i | 0 <= i < |prefix| :: Special(prefix[i])) ==> Tame(prefix) != prefix
    decreases |prefix|
  {
    if prefix != "" && prefix[0] == '\\' {
      if |prefix| > 1 { TameDiffers(prefix[2..]); }
    } else if prefix != "" {
      TameDiffers(prefix[1..]);
      if exists i | 0 <= i < |prefix| :: Special(prefix[i]) {
        if !Special(prefix[0]) {
          var i :| 0 <= i < |prefix| && Special(prefix[i]);
          assert Special(prefix[1..][i - 1]);
          assert Tame(prefix)[1..] != prefix[1..];
        } else {
          assert Tame(prefix)[0] == 'x';
        }
      }
    }
  }

  /** Among prefixes without character classes, the pattern finds exactly the keys with the prefix if and only if the
      prefix has no wildcard and no backslash. */
  lemma PrefixPatternExact(prefix: string)
    requires NoClasses(prefix)
    ensures (forall key :: GlobMatch(prefix + "*", key) <==> prefix <= key) <==> GlobFree(prefix)
  {
    if GlobFree(prefix) {
      forall key ensures GlobMatch(prefix + "*", key) <==> prefix <= key {
        LiteralPrefix(prefix, key);
      }
    } else {
      TameMatches(prefix);
      TameDiffers(prefix);
      assert !(GlobMatch(prefix + "*", Tame(prefix)) <==> prefix <= Tame(prefix));
    }
  }
}
