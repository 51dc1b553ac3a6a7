/** CONTAINS filters: the searched text is escaped into a LIKE pattern. */
module Like {

  /** strings.ReplaceAll for a one-character search text. */
  function ReplaceAll(s: string, c: char, replacement: string): string {
    if s == "" then "" else (if s[0] == c then replacement else [s[0]]) + ReplaceAll(s[1..], c, replacement)
  }

  function EscapeChar(c: char): string { if c == '\\' || c == '%' || c == '_' then ['\\', c] else [c] }

  function Escaped(s: string): string { if s == "" then "" else EscapeChar(s[0]) + Escaped(s[1..]) }

  /** Three passes over the text, backslashes first, escape each character once. */
  method EscapeLike(s: string) returns (r: string)
    ensures r == Escaped(s)
  {
    r := ReplaceAll(s, '\\', "\\\\");
    r := ReplaceAll(r, '%', "\\%");
    r := ReplaceAll(r, '_', "\\_");
    PassesEscape(s);
  }

  lemma ReplaceHead(h: char, t: string, c: char, replacement: string)
    ensures ReplaceAll([h] + t, c, replacement) == (if h == c then replacement else [h]) + ReplaceAll(t, c, replacement)
  {
    assert ([h] + t)[1..] == t;
  }

  lemma {:induction false} ReplaceAppend(a: string, b: string, c: char, replacement: string)
    ensures ReplaceAll(a + b, c, replacement) == ReplaceAll(a, c, replacement) + ReplaceAll(b, c, replacement)
  {
    if a == "" {
      assert a + b == b;
    } else {
      hide ReplaceAll;
      var h, t := a[0], a[1..];
      assert a == [h] + t && a + b == [h] + (t + b);
      ReplaceHead(h, t, c, replacement);
      ReplaceHead(h, t + b, c, replacement);
      ReplaceAppend(t, b, c, replacement);
    }
  }

  function Passes(s: string): string {
    ReplaceAll(ReplaceAll(ReplaceAll(s, '\\', "\\\\"), '%', "\\%"), '_', "\\_")
  }

  lemma {:induction false} PassesEscape(s: string)
    ensures Passes(s) == Escaped(s)
  {
    if s != "" {
      PassesEscape(s[1..]);
      OneChar(s[0]);
      var one := [s[0]];
      assert s == one + s[1..];
      ReplaceAppend(one, s[1..], '\\', "\\\\");
      var a, b := ReplaceAll(one, '\\', "\\\\"), ReplaceAll(s[1..], '\\', "\\\\");
      ReplaceAppend(a, b, '%', "\\%");
      ReplaceAppend(ReplaceAll(a, '%', "\\%"), ReplaceAll(b, '%', "\\%"), '_', "\\_");
    }
  }

  lemma OneChar(c: char)
    ensures Passes([c]) == EscapeChar(c)
  {
    ReplaceOne(c, '\\', "\\\\");
    ReplaceTwo('\\', '\\', '%', "\\%");
    ReplaceTwo('\\', '\\', '_', "\\_");
    ReplaceOne(c, '%', "\\%");
    ReplaceTwo('\\', '%', '_', "\\_");
    ReplaceOne(c, '_', "\\_");
  }

  lemma ReplaceOne(x: char, c: char, replacement: string)
    ensures ReplaceAll([x], c, replacement) == if x == c then replacement else [x]
  {
    assert ReplaceAll([x][1..], c, replacement) == "";
  }

  lemma ReplaceTwo(x: char, y: char, c: char, replacement: string)
    requires x != c && y != c
    ensures ReplaceAll([x, y], c, replacement) == [x, y]
  {
    assert [x, y][1..] == [y];
    ReplaceOne(y, c, replacement);
  }

  // ----- patterns

  /** v LIKE pattern: `%` stands for any text, `_` for any one character, and a backslash takes the meaning off a
      following `%`, `_` or backslash. */
  ghost predicate Matches(v: string, pattern: string)
    decreases |pattern|
  {
    if pattern == "" then v == ""
    else if pattern[0] == '%' then exists k :: 0 <= k <= |v| && Matches(v[k..], pattern[1..])
    else if pattern[0] == '_' then v != "" && Matches(v[1..], pattern[1..])
    else if pattern[0] == '\\' && |pattern| > 1 && (pattern[1] == '%' || pattern[1] == '_' || pattern[1] == '\\') then
      v != "" && v[0] == pattern[1] && Matches(v[1..], pattern[2..])
    else v != "" && v[0] == pattern[0] && Matches(v[1..], pattern[1..])
  }

  /** v NOT LIKE pattern, by the same rules: nothing that the pattern stands for is v. */
  ghost predicate MatchesNot(v: string, pattern: string)
    decreases |pattern|
  {
    if pattern == "" then v != ""
    else if pattern[0] == '%' then forall k :: 0 <= k <= |v| ==> MatchesNot(v[k..], pattern[1..])
    else if pattern[0] == '_' then v == "" || MatchesNot(v[1..], pattern[1..])
    else if pattern[0] == '\\' && |pattern| > 1 && (pattern[1] == '%' || pattern[1] == '_' || pattern[1] == '\\') then
      v == "" || v[0] != pattern[1] || MatchesNot(v[1..], pattern[2..])
    else v == "" || v[0] != pattern[0] || MatchesNot(v[1..], pattern[1..])
  }

  lemma {:induction false} NotLikeIsComplement(v: string, pattern: string)
    ensures MatchesNot(v, pattern) <==> !Matches(v, pattern)
    decreases |pattern|
  {
    if pattern != "" {
      if pattern[0] == '%' {
        forall k | 0 <= k <= |v| { NotLikeIsComplement(v[k..], pattern[1..]); }
      } else if v != "" {
        NotLikeIsComplement(v[1..], pattern[1..]);
        if |pattern| > 1 { NotLikeIsComplement(v[1..], pattern[2..]); }
      }
    }
  }

  ghost predicate Contains(v: string, s: string) { exists k :: 0 <= k <= |v| && s <= v[k..] }

  lemma CharMatches(v: string, c: char, rest: string)
    ensures Matches(v, EscapeChar(c) + rest) <==> v != "" && v[0] == c && Matches(v[1..], rest)
  {
    var p := EscapeChar(c) + rest;
    assert p[|EscapeChar(c)|..] == rest;
    assert |EscapeChar(c)| == 2 ==> p[0] == '\\' && p[1] == c;
  }

  lemma {:induction false} EscapedMatches(v: string, s: string, rest: string)
    ensures Matches(v, Escaped(s) + rest) <==> s <= v && Matches(v[|s|..], rest)
    decreases |s|
  {
    hide Matches;
    if s == "" {
      assert Escaped(s) + rest == rest && v[0..] == v;
    } else {
      assert Escaped(s) + rest == EscapeChar(s[0]) + (Escaped(s[1..]) + rest);
      CharMatches(v, s[0], Escaped(s[1..]) + rest);
      if v != "" {
        EscapedMatches(v[1..], s[1..], rest);
        assert s <= v <==> v[0] == s[0] && s[1..] <= v[1..];
        assert s <= v ==> v[1..][|s| - 1..] == v[|s|..];
      }
    }
  }

  /** CONTAINS means contains: the pattern made of the escaped text between two `%` matches exactly the values that
      have the text in them, whatever characters it is made of; NOT LIKE matches exactly the others. */
  lemma ContainsExactly(v: string, s: string)
    ensures Matches(v, "%" + Escaped(s) + "%") <==> Contains(v, s)
    ensures MatchesNot(v, "%" + Escaped(s) + "%") <==> !Contains(v, s)
  {
    NotLikeIsComplement(v, "%" + Escaped(s) + "%");
    var tail := Escaped(s) + "%";
    assert ("%" + Escaped(s) + "%")[1..] == tail && ("%" + Escaped(s) + "%")[0] == '%';
    forall k | 0 <= k <= |v| ensures Matches(v[k..], tail) <==> s <= v[k..] {
      EscapedMatches(v[k..], s, "%");
      if s <= v[k..] { AnyMatches(v[k..][|s|..]); }
    }
    if Matches(v, "%" + Escaped(s) + "%") {
      var k :| 0 <= k <= |v| && Matches(v[k..], tail);
      assert s <= v[k..];
    }
    if Contains(v, s) {
      var k :| 0 <= k <= |v| && s <= v[k..];
      assert Matches(v[k..], tail);
    }
  }

  lemma AnyMatches(v: string)
    ensures Matches(v, "%")
  {
    assert v[|v|..] == "" && "%"[1..] == "";
    assert Matches(v[|v|..], "%"[1..]);
  }
}
