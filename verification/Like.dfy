/**
 The SQL LIKE operator of PostgreSQL (section 9.7.1 of its manual), with the
 backslash as escape character, and the escaping that the services rely on.
 */
module Like {

  predicate IsSpecial(c: char) {
    c == '\\' || c == '%' || c == '_'
  }

  predicate Matches(s: string, pattern: string)
    decreases |pattern|, |s|
  {
    if pattern == "" then s == ""
    else if pattern[0] == '%' then
      Matches(s, pattern[1..]) || (s != "" && Matches(s[1..], pattern))
    else if pattern[0] == '_' then s != "" && Matches(s[1..], pattern[1..])
    else if pattern[0] == '\\' then
      |pattern| > 1 && s != "" && s[0] == pattern[1] && Matches(s[1..], pattern[2..])
    else s != "" && s[0] == pattern[0] && Matches(s[1..], pattern[1..])
  }

  function Escape(value: string): string {
    if value == "" then ""
    else EscapeChar(value[0]) + Escape(value[1..])
  }

  predicate EndsWith(s: string, suffix: string) {
    |suffix| <= |s| && s[|s| - |suffix|..] == suffix
  }

  function EscapeChar(c: char): string {
    if IsSpecial(c) then ['\\', c] else [c]
  }

  /**
   What the wildcards stand for: `_` for one character, `%` for any number of them. A name
   that is not escaped would therefore let other names through.
   */
  lemma Wildcards(s: string, rest: string)
    ensures Matches(s, "_" + rest) <==> s != "" && Matches(s[1..], rest)
    ensures Matches(s, "%" + rest) <==> exists k :: 0 <= k <= |s| && Matches(s[k..], rest)
  {
    assert ("_" + rest)[1..] == rest;
    PercentSkips(s, rest);
  }

  lemma {:induction false} PercentSkips(s: string, rest: string)
    ensures Matches(s, "%" + rest) <==> exists k :: 0 <= k <= |s| && Matches(s[k..], rest)
    decreases |s|
  {
    var pattern := "%" + rest;
    assert pattern[1..] == rest && s[0..] == s;
    if s != "" {
      PercentSkips(s[1..], rest);
      if k :| 0 <= k <= |s| && Matches(s[k..], rest) {
        assert k > 0 ==> s[1..][k - 1..] == s[k..];
      }
      if k :| 0 <= k <= |s[1..]| && Matches(s[1..][k..], rest) {
        assert s[1..][k..] == s[k + 1..];
      }
    }
  }

  /** An escaped character in front of a pattern consumes that character. */
  lemma EscapedChar(s: string, c: char, rest: string)
    ensures Matches(s, EscapeChar(c) + rest) <==> s != "" && s[0] == c && Matches(s[1..], rest)
  {
  }

  /** An escaped literal in front of a pattern is consumed literally. */
  lemma {:induction false} EscapedPrefix(s: string, value: string, rest: string)
    ensures Matches(s, Escape(value) + rest) <==> value <= s && Matches(s[|value|..], rest)
    decreases |value|
  {
    if value == "" {
      assert Escape(value) + rest == rest;
      assert s[0..] == s;
    } else {
      var c, tail := value[0], value[1..];
      assert Escape(value) + rest == EscapeChar(c) + (Escape(tail) + rest);
      EscapedChar(s, c, Escape(tail) + rest);
      if s != "" && s[0] == c {
        EscapedPrefix(s[1..], tail, rest);
        PrefixStep(s, value);
      }
    }
  }

  lemma PrefixStep(s: string, value: string)
    requires s != "" && value != "" && s[0] == value[0]
    ensures value <= s <==> value[1..] <= s[1..]
    ensures |value| <= |s| ==> s[|value|..] == s[1..][|value[1..]|..]
  {
  }

  /** A percent sign in front of an escaped literal accepts exactly the strings that end in it. */
  lemma {:induction false} AnySuffix(s: string, suffix: string)
    ensures Matches(s, "%" + Escape(suffix)) <==> EndsWith(s, suffix)
    decreases |s|
  {
    var pattern := "%" + Escape(suffix);
    assert pattern[1..] == Escape(suffix);
    EscapedPrefix(s, suffix, "");
    assert Escape(suffix) + "" == Escape(suffix);
    if s != "" {
      AnySuffix(s[1..], suffix);
      if |suffix| < |s| {
        assert s[1..][|s| - 1 - |suffix|..] == s[|s| - |suffix|..];
      } else if |suffix| == |s| {
        assert s[0..] == s;
      }
    }
  }

  lemma SuffixOfTail(s: string, k: nat, suffix: string)
    requires k <= |s|
    ensures EndsWith(s[k..], suffix) <==> EndsWith(s, suffix) && k + |suffix| <= |s|
  {
  }

  /**
   The pre-filter of the name search: an escaped base, a percent sign and an escaped
   extension accept exactly the strings that start with the base, end with the
   extension and are long enough to hold both.
   */
  lemma PrefixAndSuffix(s: string, base: string, extension: string)
    ensures Matches(s, Escape(base) + "%" + Escape(extension))
            <==> base <= s && EndsWith(s, extension) && |base| + |extension| <= |s|
  {
    var head, rest := Escape(base), "%" + Escape(extension);
    assert head + "%" + Escape(extension) == head + rest by {
      ConcatAssociates(head, "%", Escape(extension));
    }
    EscapedPrefix(s, base, rest);
    if base <= s {
      AnySuffix(s[|base|..], extension);
      SuffixOfTail(s, |base|, extension);
    }
  }

  lemma ConcatAssociates<T>(a: seq<T>, b: seq<T>, c: seq<T>)
    ensures a + b + c == a + (b + c)
  {
  }

  lemma {:induction false} EscapePlain(value: string)
    requires forall k :: 0 <= k < |value| ==> !IsSpecial(value[k])
    ensures Escape(value) == value
  {
    if value == "" {
    } else {
      EscapePlain(value[1..]);
    }
  }

  /** Without special characters `prefix%` is the prefix test. */
  lemma PlainPrefix(s: string, prefix: string)
    requires forall k :: 0 <= k < |prefix| ==> !IsSpecial(prefix[k])
    ensures Matches(s, prefix + "%") <==> prefix <= s
  {
    EscapePlain(prefix);
    PrefixAndSuffix(s, prefix, "");
    assert Escape(prefix) + "%" + Escape("") == prefix + "%";
  }
}
