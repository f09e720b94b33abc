/**
 * The single-segment wildcard of src/utils/filesystem.ts:30-31: the final
 * segment becomes the regular expression `^` + segment + `$` with every
 * `*` replaced by `.*`, so a `*` stands for any run of characters other
 * than the line terminators that `.` does not match. Every other
 * character is compared literally.
 */
module Glob {

  import opened Paths

  /** The characters a JavaScript `.` does not match. */
  predicate IsLineTerminator(c: char)
  {
    c == '\n' || c == '\r' || c == '\U{2028}' || c == '\U{2029}'
  }

  predicate NoLineTerminator(s: string)
  {
    forall i :: 0 <= i < |s| ==> !IsLineTerminator(s[i])
  }

  /** Whole-name (anchored) match of `name` against the segment `pat`. */
  predicate Matches(pat: string, name: string)
    decreases |pat| + |name|
  {
    if pat == "" then name == ""
    else if pat[0] == '*' then
      Matches(pat[1..], name) || (name != "" && !IsLineTerminator(name[0]) && Matches(pat, name[1..]))
    else
      name != "" && name[0] == pat[0] && Matches(pat[1..], name[1..])
  }

  /** A star-free prefix must be matched character by character. */
  lemma {:induction false} MatchesLiteralPrefix(lit: string, rest: string, name: string)
    requires '*' !in lit
    ensures Matches(lit + rest, name) <==> StartsWith(name, lit) && Matches(rest, name[|lit|..])
    decreases |lit|
  {
    if lit != "" {
      var pat := lit + rest;
      assert pat[0] == lit[0] && lit[0] in lit;
      assert pat[1..] == lit[1..] + rest;
      assert forall c :: c in lit[1..] ==> c in lit;
      if name != "" {
        MatchesLiteralPrefix(lit[1..], rest, name[1..]);
        StartsWithFirst(name, lit);
        if |lit| <= |name| {
          assert name[1..][|lit| - 1..] == name[|lit|..];
        }
      }
    } else {
      assert lit + rest == rest;
    }
  }

  /** A star-free segment matches only itself. */
  lemma MatchesLiteral(lit: string, name: string)
    requires '*' !in lit
    ensures Matches(lit, name) <==> name == lit
  {
    MatchesLiteralPrefix(lit, "", name);
    assert lit + "" == lit;
    if StartsWith(name, lit) {
      assert Matches("", name[|lit|..]) <==> |name| == |lit|;
    }
  }

  /** `*suffix` matches exactly the names that end with `suffix` and have no
      line terminator before it. */
  lemma {:induction false} MatchesStarSuffix(suffix: string, m: string)
    requires '*' !in suffix
    ensures Matches("*" + suffix, m) <==>
      |m| >= |suffix| && EndsWith(m, suffix) && NoLineTerminator(m[..|m| - |suffix|])
    decreases |m|
  {
    var pat := "*" + suffix;
    assert pat[0] == '*' && pat[1..] == suffix;
    MatchesLiteral(suffix, m);
    if m != "" {
      MatchesStarSuffix(suffix, m[1..]);
      if |m| > |suffix| {
        assert m[1..][|m| - 1 - |suffix|..] == m[|m| - |suffix|..];
        assert m[1..][..|m| - 1 - |suffix|] == m[..|m| - |suffix|][1..];
      }
    }
  }

  /** `prefix*suffix` matches exactly the names that start with `prefix`,
      end with `suffix` (the two not overlapping) and have no line
      terminator in between. */
  lemma MatchesPrefixStarSuffix(prefix: string, suffix: string, name: string)
    requires '*' !in prefix && '*' !in suffix
    ensures Matches(prefix + "*" + suffix, name) <==>
      && |name| >= |prefix| + |suffix|
      && StartsWith(name, prefix)
      && EndsWith(name, suffix)
      && NoLineTerminator(name[|prefix|..|name| - |suffix|])
  {
    assert prefix + "*" + suffix == prefix + ("*" + suffix);
    MatchesLiteralPrefix(prefix, "*" + suffix, name);
    if StartsWith(name, prefix) {
      MatchesStarSuffix(suffix, name[|prefix|..]);
      AfterPrefix(name, prefix, suffix);
    }
  }

  /** What remains of `name` after `prefix` ends with `suffix` exactly when
      `name` does, with room for both. */
  lemma AfterPrefix(name: string, prefix: string, suffix: string)
    requires StartsWith(name, prefix)
    ensures var m := name[|prefix|..];
      && (|m| >= |suffix| <==> |name| >= |prefix| + |suffix|)
      && (|m| >= |suffix| ==> m[..|m| - |suffix|] == name[|prefix|..|name| - |suffix|])
      && (|m| >= |suffix| ==> (EndsWith(m, suffix) <==> EndsWith(name, suffix)))
  {
    var m := name[|prefix|..];
    if |m| >= |suffix| {
      assert m[..|m| - |suffix|] == name[|prefix|..|name| - |suffix|];
      assert m[|m| - |suffix|..] == name[|name| - |suffix|..];
    }
  }

  /** A segment made only of stars matches every name without a line
      terminator. */
  lemma {:induction false} MatchesAllStars(stars: string, name: string)
    requires stars != "" && AllStars(stars)
    ensures Matches(stars, name) <==> NoLineTerminator(name)
    decreases |stars| + |name|
  {
    assert stars[0] == '*';
    if |stars| == 1 {
      assert stars == "*" + "";
      MatchesStarSuffix("", name);
    } else {
      MatchesAllStars(stars[1..], name);
      if name != "" {
        MatchesAllStars(stars, name[1..]);
        assert NoLineTerminator(name) <==> !IsLineTerminator(name[0]) && NoLineTerminator(name[1..]);
      }
    }
  }
}
