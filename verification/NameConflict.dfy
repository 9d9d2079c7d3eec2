/** Choosing a free sibling name: `name`, then `name (1)`, `name (2)` and so on. */
module NameConflict {
  import opened Base
  import Like

  datatype Parts = Parts(base: string, extension: string)

  /** lastIndexOf('.') */
  function LastDot(name: string): (dot: int)
    ensures -1 <= dot < |name|
    ensures dot >= 0 ==> name[dot] == '.'
    ensures forall k :: dot < k < |name| ==> name[k] != '.'
  {
    if name == "" then -1
    else if name[|name| - 1] == '.' then |name| - 1
    else LastDot(name[..|name| - 1])
  }

  function SplitName(name: string, splitExtension: bool): (parts: Parts)
    ensures name == parts.base + parts.extension
  {
    if !splitExtension then Parts(name, "")
    else
      var dot := LastDot(name);
      if dot <= 0 || dot == |name| - 1 then Parts(name, "")
      else Parts(name[..dot], name[dot..])
  }

  /** The extension is what follows and includes the last dot, if something stands on both sides. */
  lemma SplitNameMeaning(name: string, splitExtension: bool)
    ensures var parts := SplitName(name, splitExtension);
            && (parts.extension != "" <==>
                  splitExtension && exists k :: 0 < k < |name| - 1 && name[k] == '.' && '.' !in name[k + 1..])
            && (parts.extension != "" ==>
                  parts.base != "" && |parts.extension| >= 2 && parts.extension[0] == '.'
                  && '.' !in parts.extension[1..])
  {
  }

  function BuildLikePattern(desiredName: string, splitExtension: bool): string {
    var parts := SplitName(desiredName, splitExtension);
    Like.Escape(parts.base) + "%" + Like.Escape(parts.extension)
  }

  // ---- the suffix pattern ^(.*) \((\d+)\)$ ----

  predicate IsDigit(c: char) {
    '0' <= c <= '9'
  }

  /** The characters that `.` does not match in a regular expression without the s flag. */
  predicate IsLineTerminator(c: char) {
    c == '\n' || c == '\r' || c == '\U{2028}' || c == '\U{2029}'
  }

  predicate OneLine(s: string) {
    forall k :: 0 <= k < |s| ==> !IsLineTerminator(s[k])
  }

  predicate AllDigits(s: string) {
    forall k :: 0 <= k < |s| ==> IsDigit(s[k])
  }

  function Number(digits: string): nat
    requires AllDigits(digits)
  {
    if digits == "" then 0
    else
      var last := |digits| - 1;
      10 * Number(digits[..last]) + (digits[last] as int - '0' as int)
  }

  function Digits(n: nat): (digits: string)
    ensures digits != "" && AllDigits(digits) && Number(digits) == n
  {
    var last := ('0' as int + n % 10) as char;
    if n < 10 then [last]
    else
      var front := Digits(n / 10);
      assert (front + [last])[..|front|] == front;
      front + [last]
  }

  /** `Digits` writes the decimal numeral without leading zeros: one digit, or a numeral and one more. */
  lemma DecimalNumeral(q: nat, r: nat)
    requires r < 10
    ensures Digits(r) == ["0123456789"[r]]
    ensures q > 0 ==> Digits(10 * q + r) == Digits(q) + ["0123456789"[r]]
  {
    assert q > 0 ==> (10 * q + r) / 10 == q && (10 * q + r) % 10 == r;
  }

  /** `Number` reads a decimal numeral, leading zeros allowed: one more digit is ten times as much and the digit. */
  lemma DecimalValue(digits: string, r: nat)
    requires AllDigits(digits) && r < 10
    ensures AllDigits(digits + ["0123456789"[r]])
    ensures Number("") == 0 && Number(digits + ["0123456789"[r]]) == 10 * Number(digits) + r
  {
    var more := digits + ["0123456789"[r]];
    assert more[..|more| - 1] == digits;
  }

  /** `\d` stands for the ten ASCII digits, and `.` for anything but the four line terminators. */
  lemma CharacterClasses(s: string)
    ensures AllDigits(s) <==> forall c :: c in s ==> c in "0123456789"
    ensures OneLine(s) <==> '\n' !in s && '\r' !in s && '\U{2028}' !in s && '\U{2029}' !in s
  {
    forall c | c in s ensures IsDigit(c) <==> c in "0123456789" {
      DigitCharacter(c);
    }
  }

  lemma DigitCharacter(c: char)
    ensures IsDigit(c) <==> c in "0123456789"
  {
    assert IsDigit(c) ==> "0123456789"[c as int - '0' as int] == c;
  }

  /** The grammar of the pattern: both groups of a match. */
  predicate RegexMatch(s: string, base: string, digits: string) {
    s == base + " (" + digits + ")" && OneLine(base) && digits != "" && AllDigits(digits)
  }

  function TrailingDigits(s: string): (n: nat)
    ensures n <= |s| && AllDigits(s[|s| - n..])
    ensures n < |s| ==> !IsDigit(s[|s| - n - 1])
  {
    if s == "" || !IsDigit(s[|s| - 1]) then 0
    else
      var front := s[..|s| - 1];
      var n := TrailingDigits(front);
      assert s[|s| - n - 1..] == front[|front| - n..] + [s[|s| - 1]];
      n + 1
  }

  /** exec of the pattern: the two groups, when it matches. */
  function Exec(s: string): (groups: Option<(string, string)>)
    ensures groups.Some? ==> RegexMatch(s, groups.value.0, groups.value.1)
  {
    if s == "" || s[|s| - 1] != ')' then None
    else
      var body := s[..|s| - 1];
      var n := TrailingDigits(body);
      var k := |body| - n;
      if n == 0 || k < 2 || body[k - 2..k] != " (" || !OneLine(body[..k - 2]) then None
      else
        assert s == body[..k - 2] + " (" + body[k..] + ")";
        Some((body[..k - 2], body[k..]))
  }

  lemma {:induction false} TrailingDigitsIs(front: string, digits: string)
    requires front != "" && !IsDigit(front[|front| - 1]) && AllDigits(digits)
    ensures TrailingDigits(front + digits) == |digits|
    decreases |digits|
  {
    if digits == "" {
      assert front + digits == front;
    } else {
      var last := |digits| - 1;
      TrailingDigitsIs(front, digits[..last]);
      assert (front + digits)[..|front + digits| - 1] == front + digits[..last];
    }
  }

  /** The pattern has at most one match, and exec finds it. */
  lemma ExecFindsMatch(s: string, base: string, digits: string)
    requires RegexMatch(s, base, digits)
    ensures Exec(s) == Some((base, digits))
  {
    var front := base + " (";
    var body := s[..|s| - 1];
    assert body == front + digits;
    TrailingDigitsIs(front, digits);
    assert body[|front| - 2..|front|] == " (";
    assert body[..|front| - 2] == base;
    assert body[|front|..] == digits;
  }

  /** The number the search reads off one taken name, for the wanted base and extension. */
  function SuffixOf(name: string, parts: Parts, splitExtension: bool): Option<nat> {
    var split := SplitName(name, splitExtension);
    if split.extension != parts.extension then None
    else
      var match_ := Exec(split.base);
      if match_.Some? && match_.value.0 == parts.base then Some(Number(match_.value.1)) else None
  }

  /** It is k exactly if the name consists of the base, a suffix with number k and the extension. */
  lemma SuffixOfMeaning(name: string, parts: Parts, splitExtension: bool, k: nat)
    ensures SuffixOf(name, parts, splitExtension) == Some(k)
            <==> exists digits ::
                   && digits != "" && AllDigits(digits) && Number(digits) == k && OneLine(parts.base)
                   && SplitName(name, splitExtension) == Parts(parts.base + " (" + digits + ")", parts.extension)
  {
    var split := SplitName(name, splitExtension);
    if digits :| digits != "" && AllDigits(digits) && Number(digits) == k && OneLine(parts.base)
                 && split == Parts(parts.base + " (" + digits + ")", parts.extension) {
      ExecFindsMatch(split.base, parts.base, digits);
    }
    if SuffixOf(name, parts, splitExtension) == Some(k) {
      var digits := Exec(split.base).value.1;
      assert split == Parts(parts.base + " (" + digits + ")", parts.extension);
    }
  }

  function Suffixed(parts: Parts, n: nat): string {
    parts.base + " (" + Digits(n) + ")" + parts.extension
  }

  // ---- the result, as a function of the set of taken names ----

  function UsedSuffixes(taken: set<string>, parts: Parts, splitExtension: bool): set<nat> {
    set name | name in taken && SuffixOf(name, parts, splitExtension).Some?
      :: SuffixOf(name, parts, splitExtension).value
  }

  /** The least number from n on that is not used. */
  function LeastFree(used: set<nat>, n: nat): (free: nat)
    ensures n <= free && free !in used
    ensures forall k :: n <= k < free ==> k in used
    decreases |used|
  {
    if n in used then
      var free := LeastFree(used - {n}, n + 1);
      assert forall k :: n + 1 <= k < free ==> k in used by {
        forall k | n + 1 <= k < free ensures k in used {
          assert k in used - {n};
        }
      }
      free
    else n
  }

  function ResolvedName(desiredName: string, taken: set<string>, splitExtension: bool): string {
    if desiredName !in taken then desiredName
    else
      var parts := SplitName(desiredName, splitExtension);
      Suffixed(parts, LeastFree(UsedSuffixes(taken, parts, splitExtension), 1))
  }

  /** The first loop: the numbers read off the taken names, in whatever order they come. */
  method CollectSuffixes(taken: set<string>, parts: Parts, splitExtension: bool) returns (used: set<nat>)
    ensures used == UsedSuffixes(taken, parts, splitExtension)
  {
    used := {};
    var rest := taken;
    while rest != {}
      invariant rest <= taken
      invariant used == UsedSuffixes(taken - rest, parts, splitExtension)
      decreases rest
    {
      var n :| n in rest;
      var suffix := SuffixOf(n, parts, splitExtension);
      if suffix.Some? {
        used := used + {suffix.value};
      }
      UsedSuffixesScan(taken, rest, n, parts, splitExtension);
      rest := rest - {n};
    }
    assert taken - rest == taken;
  }

  method Resolve(desiredName: string, takenNames: seq<string>, splitExtension: bool)
    returns (name: string)
    ensures name == ResolvedName(desiredName, (set n | n in takenNames), splitExtension)
  {
    var taken := set n | n in takenNames;
    if desiredName !in taken {
      return desiredName;
    }
    var parts := SplitName(desiredName, splitExtension);
    var usedSuffixes := CollectSuffixes(taken, parts, splitExtension);
    ghost var free := LeastFree(usedSuffixes, 1);
    var suffix: nat := 1;
    while suffix in usedSuffixes
      invariant 1 <= suffix <= free
      decreases free - suffix
    {
      suffix := suffix + 1;
    }
    name := Suffixed(parts, suffix);
  }

  lemma UsedSuffixesAdd(taken: set<string>, n: string, parts: Parts, splitExtension: bool)
    ensures var suffix := SuffixOf(n, parts, splitExtension);
            UsedSuffixes(taken + {n}, parts, splitExtension)
            == UsedSuffixes(taken, parts, splitExtension) + if suffix.Some? then {suffix.value} else {}
  {
  }

  lemma UsedSuffixesScan(taken: set<string>, rest: set<string>, n: string, parts: Parts, splitExtension: bool)
    requires n in rest && rest <= taken
    ensures var suffix := SuffixOf(n, parts, splitExtension);
            UsedSuffixes(taken - (rest - {n}), parts, splitExtension)
            == UsedSuffixes(taken - rest, parts, splitExtension) + if suffix.Some? then {suffix.value} else {}
  {
  }

  // ---- is the result free? ----

  /**
   Can the search recognise its own candidates? It cannot when the base holds a line
   terminator, nor when a dot at the end (of a name of two or more characters) turns
   into an extension as soon as a suffix follows it.
   */
  predicate Recognisable(desiredName: string, splitExtension: bool) {
    && OneLine(SplitName(desiredName, splitExtension).base)
    && !(splitExtension && TrailingDot(desiredName))
  }

  predicate TrailingDot(name: string) {
    |name| >= 2 && name[|name| - 1] == '.'
  }

  /** Taken, not recognisable, and the first candidate taken too. */
  predicate Unresolvable(desiredName: string, taken: set<string>, splitExtension: bool) {
    && desiredName in taken
    && !Recognisable(desiredName, splitExtension)
    && Suffixed(SplitName(desiredName, splitExtension), 1) in taken
  }

  lemma LastDotIs(name: string, dot: int)
    requires -1 <= dot < |name| && (dot >= 0 ==> name[dot] == '.')
    requires forall k :: dot < k < |name| ==> name[k] != '.'
    ensures LastDot(name) == dot
  {
  }

  /** A candidate splits back into its own base and the wanted extension. */
  lemma CandidateSplit(desiredName: string, digits: string, splitExtension: bool)
    requires AllDigits(digits)
    ensures var parts := SplitName(desiredName, splitExtension);
            var stem := parts.base + " (" + digits + ")";
            var split := SplitName(stem + parts.extension, splitExtension);
            if splitExtension && TrailingDot(desiredName) then split.extension != parts.extension
            else split == Parts(stem, parts.extension)
  {
    var parts := SplitName(desiredName, splitExtension);
    var tail := " (" + digits + ")";
    assert forall k :: 0 <= k < |tail| ==> tail[k] != '.' by {
      forall k | 0 <= k < |tail| ensures tail[k] != '.' {
        if 2 <= k < |tail| - 1 {
          assert tail[k] == digits[k - 2];
        }
      }
    }
    var stem := parts.base + tail;
    assert stem == parts.base + " (" + digits + ")";
    if splitExtension {
      var dot := LastDot(desiredName);
      if dot <= 0 || dot == |desiredName| - 1 {
        assert stem + "" == stem;
        LastDotIs(stem, dot);
      } else {
        var c := stem + parts.extension;
        forall k | |stem| < k < |c| ensures c[k] != '.' {
          assert c[k] == desiredName[dot + (k - |stem|)];
        }
        LastDotIs(c, |stem|);
        assert c[..|stem|] == stem && c[|stem|..] == parts.extension;
      }
    } else {
      assert stem + "" == stem;
    }
  }

  /** A recognisable candidate is read back with its own number. */
  lemma CandidateIsRead(desiredName: string, n: nat, splitExtension: bool)
    requires Recognisable(desiredName, splitExtension)
    ensures var parts := SplitName(desiredName, splitExtension);
            SuffixOf(Suffixed(parts, n), parts, splitExtension) == Some(n)
  {
    var parts := SplitName(desiredName, splitExtension);
    var stem := parts.base + " (" + Digits(n) + ")";
    CandidateSplit(desiredName, Digits(n), splitExtension);
    ExecFindsMatch(stem, parts.base, Digits(n));
  }

  /** Whatever is read back has the shape base, suffix, extension. */
  lemma ReadShape(name: string, parts: Parts, splitExtension: bool)
    requires SuffixOf(name, parts, splitExtension).Some?
    ensures OneLine(parts.base)
    ensures exists digits :: AllDigits(digits) && name == parts.base + " (" + digits + ")" + parts.extension
  {
  }

  lemma UnrecognisableIsNeverRead(desiredName: string, name: string, splitExtension: bool)
    requires !Recognisable(desiredName, splitExtension)
    ensures SuffixOf(name, SplitName(desiredName, splitExtension), splitExtension).None?
  {
  }

  /**
   The result is taken exactly when the wanted name is taken, its candidates cannot be
   recognised, and the first candidate, which the search then always returns, is taken too.
   */
  lemma ResolvedTaken(desiredName: string, taken: set<string>, splitExtension: bool)
    ensures ResolvedName(desiredName, taken, splitExtension) in taken
            <==> Unresolvable(desiredName, taken, splitExtension)
    ensures desiredName in taken && !Recognisable(desiredName, splitExtension) ==>
              ResolvedName(desiredName, taken, splitExtension)
              == Suffixed(SplitName(desiredName, splitExtension), 1)
  {
    var parts := SplitName(desiredName, splitExtension);
    var used := UsedSuffixes(taken, parts, splitExtension);
    if desiredName in taken {
      if Recognisable(desiredName, splitExtension) {
        var free := LeastFree(used, 1);
        CandidateIsRead(desiredName, free, splitExtension);
        assert Suffixed(parts, free) in taken ==> free in used;
      } else {
        forall name | name in taken ensures SuffixOf(name, parts, splitExtension).None? {
          UnrecognisableIsNeverRead(desiredName, name, splitExtension);
        }
        assert used == {};
      }
    }
  }

  lemma {:induction false} ImageCard(names: set<string>, parts: Parts, splitExtension: bool)
    ensures |UsedSuffixes(names, parts, splitExtension)| <= |names|
    decreases |names|
  {
    if names == {} {
    } else {
      var n :| n in names;
      var rest := names - {n};
      ImageCard(rest, parts, splitExtension);
      UsedSuffixesAdd(rest, n, parts, splitExtension);
      assert rest + {n} == names;
    }
  }

  lemma {:induction false} RangeCard(n: nat, used: set<nat>)
    requires forall k :: 1 <= k <= n ==> k in used
    ensures n <= |used|
  {
    if n == 0 {
    } else {
      RangeCard(n - 1, used - {n});
    }
  }

  lemma FewSuffixes(desiredName: string, taken: set<string>, splitExtension: bool)
    requires desiredName in taken
    ensures |UsedSuffixes(taken, SplitName(desiredName, splitExtension), splitExtension)| < |taken|
  {
    var parts := SplitName(desiredName, splitExtension);
    var others := taken - {desiredName};
    assert SuffixOf(desiredName, parts, splitExtension).None?;
    assert others + {desiredName} == taken;
    UsedSuffixesAdd(others, desiredName, parts, splitExtension);
    ImageCard(others, parts, splitExtension);
  }

  /**
   When the wanted name is taken, the suffix is the least positive number that no taken
   name parses to, and it does not exceed the number of taken names.
   */
  lemma LeastSuffix(desiredName: string, taken: set<string>, splitExtension: bool) returns (n: nat)
    requires desiredName in taken
    ensures var parts := SplitName(desiredName, splitExtension);
            && ResolvedName(desiredName, taken, splitExtension) == Suffixed(parts, n)
            && (forall name :: name in taken ==> SuffixOf(name, parts, splitExtension) != Some(n))
            && (forall k :: 1 <= k < n ==>
                  exists name :: name in taken && SuffixOf(name, parts, splitExtension) == Some(k))
    ensures 1 <= n <= |taken|
  {
    var used := UsedSuffixes(taken, SplitName(desiredName, splitExtension), splitExtension);
    n := LeastFree(used, 1);
    var parts := SplitName(desiredName, splitExtension);
    forall k: nat | 1 <= k < n
      ensures exists name :: name in taken && SuffixOf(name, parts, splitExtension) == Some(k)
    {
      assert k in used;
    }
    RangeCard(n - 1, used);
    FewSuffixes(desiredName, taken, splitExtension);
  }

  // ---- the LIKE pre-filter ----

  function PreFiltered(desiredName: string, taken: set<string>, splitExtension: bool): set<string> {
    set name | name in taken && Like.Matches(name, BuildLikePattern(desiredName, splitExtension))
  }

  lemma PatternAccepts(name: string, desiredName: string, splitExtension: bool)
    ensures var parts := SplitName(desiredName, splitExtension);
            Like.Matches(name, BuildLikePattern(desiredName, splitExtension))
            <==> parts.base <= name && Like.EndsWith(name, parts.extension)
                 && |desiredName| <= |name|
  {
    var parts := SplitName(desiredName, splitExtension);
    Like.PrefixAndSuffix(name, parts.base, parts.extension);
  }

  /** Every name that matters to the search passes the pattern. */
  lemma RelevantPasses(name: string, desiredName: string, splitExtension: bool)
    requires name == desiredName
             || SuffixOf(name, SplitName(desiredName, splitExtension), splitExtension).Some?
    ensures Like.Matches(name, BuildLikePattern(desiredName, splitExtension))
  {
    var parts := SplitName(desiredName, splitExtension);
    PatternAccepts(name, desiredName, splitExtension);
    if name != desiredName {
      ReadShape(name, parts, splitExtension);
      var digits :| AllDigits(digits) && name == parts.base + " (" + digits + ")" + parts.extension;
      ShapeEnds(parts.base, digits, parts.extension);
    }
  }

  lemma ShapeEnds(base: string, digits: string, extension: string)
    ensures var name := base + " (" + digits + ")" + extension;
            base <= name && Like.EndsWith(name, extension) && |base| + |extension| <= |name|
  {
  }

  /** Searching the filtered siblings gives the same name as searching all of them. */
  lemma PreFilterHarmless(desiredName: string, taken: set<string>, splitExtension: bool)
    ensures ResolvedName(desiredName, PreFiltered(desiredName, taken, splitExtension), splitExtension)
            == ResolvedName(desiredName, taken, splitExtension)
  {
    var parts := SplitName(desiredName, splitExtension);
    var filtered := PreFiltered(desiredName, taken, splitExtension);
    RelevantPasses(desiredName, desiredName, splitExtension);
    forall name | name in taken && SuffixOf(name, parts, splitExtension).Some?
      ensures name in filtered
    {
      RelevantPasses(name, desiredName, splitExtension);
    }
    var all, some := UsedSuffixes(taken, parts, splitExtension), UsedSuffixes(filtered, parts, splitExtension);
    assert all == some;
  }

  /**
   A promised name is kept: resolving a free result again among the same siblings
   returns it unchanged, as confirm does with the name that createUploadUrl returned.
   */
  lemma PromisedNameIsKept(desiredName: string, taken: set<string>, splitExtension: bool)
    ensures var promised := ResolvedName(desiredName, taken, splitExtension);
            ResolvedName(promised, taken, splitExtension) == promised
            <==> !Unresolvable(desiredName, taken, splitExtension)
  {
    ResolvedTaken(desiredName, taken, splitExtension);
    var promised := ResolvedName(desiredName, taken, splitExtension);
    if promised in taken {
      var n := LeastSuffix(promised, taken, splitExtension);
      var parts := SplitName(promised, splitExtension);
      assert |Suffixed(parts, n)| > |promised|;
    }
  }

  /** A name of two or more characters that ends in a dot: the second duplicate collides. */
  lemma TrailingDotCollides()
    ensures ResolvedName("a.", {"a.", "a. (1)"}, true) == "a. (1)"
  {
    var name := "a.";
    assert LastDot(name) == 1;
    assert SplitName(name, true) == Parts("a.", "") && TrailingDot(name);
    ResolvedTaken(name, {"a.", "a. (1)"}, true);
    FirstCandidate(name, true);
  }

  /** A name with a line separator inside collides even without extensions. */
  lemma LineSeparatorCollides()
    ensures var name := "a\U{2028}b";
            ResolvedName(name, {name, name + " (1)"}, false) == name + " (1)"
  {
    var name := "a\U{2028}b";
    assert IsLineTerminator(name[1]) && !OneLine(name);
    ResolvedTaken(name, {name, name + " (1)"}, false);
    FirstCandidate(name, false);
  }

  lemma FirstSuffix(parts: Parts)
    ensures Suffixed(parts, 1) == parts.base + " (1)" + parts.extension
  {
    DecimalNumeral(0, 1);
    assert parts.base + " (" + "1" + ")" == parts.base + " (1)";
  }

  lemma FirstCandidate(name: string, splitExtension: bool)
    requires SplitName(name, splitExtension) == Parts(name, "")
    ensures Suffixed(SplitName(name, splitExtension), 1) == name + " (1)"
  {
  }
}
