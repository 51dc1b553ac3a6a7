/** The text of nested conditions, and that it reads back as the combination it was made from. */
module ConditionText {
  import opened Basics
  import opened Conditions

  // ----- nested combinations and their text

  datatype Tree = Leaf(c: Fragment) | All(kids: seq<Tree>) | Any(kids: seq<Tree>)

  function Compile(t: Tree): Fragment
    decreases t, 1
  {
    match t
    case Leaf(c) => c
    case All(kids) => And(CompileAll(kids))
    case Any(kids) => Or(CompileAll(kids))
  }

  function CompileAll(kids: seq<Tree>): seq<Fragment>
    decreases kids, 0
  {
    if kids == [] then [] else CompileAll(kids[..|kids| - 1]) + [Compile(kids[|kids| - 1])]
  }

  /** What a reader of the text sees. */
  datatype Expr = Atom(text: string) | AllOf(parts: seq<Expr>) | AnyOf(parts: seq<Expr>)

  function Reduce(kids: seq<Expr>, all: bool): Option<Expr> {
    if |kids| == 0 then None
    else if |kids| == 1 then Some(kids[0])
    else if all then Some(AllOf(kids)) else Some(AnyOf(kids))
  }

  /** The expression a combination stands for; None when every condition in it is zero. */
  function Normal(t: Tree): Option<Expr>
    decreases t, 1
  {
    match t
    case Leaf(c) => if IsZero(c) then None else Some(Atom(c.sql))
    case All(kids) => Reduce(Normals(kids), true)
    case Any(kids) => Reduce(Normals(kids), false)
  }

  function Normals(kids: seq<Tree>): seq<Expr>
    decreases kids, 0
  {
    if kids == [] then []
    else Normals(kids[..|kids| - 1]) + match Normal(kids[|kids| - 1]) case None => [] case Some(e) => [e]
  }

  datatype Token = Lit(text: string) | Open | Close | AndWord(newline: bool) | OrWord

  function Spell(t: Token): string {
    match t
    case Lit(text) => text
    case Open => "("
    case Close => ")"
    case AndWord(newline) => if newline then "\nAND " else " AND "
    case OrWord => " OR "
  }

  function SpellAll(ts: seq<Token>): string { if ts == [] then "" else Spell(ts[0]) + SpellAll(ts[1..]) }

  function Tokens(e: Expr): seq<Token>
    decreases e, 1
  {
    match e
    case Atom(text) => [Lit(text)]
    case AllOf(parts) => [Open] + Separated(parts, AndWord(false)) + [Close]
    case AnyOf(parts) => [Open] + Separated(parts, OrWord) + [Close]
  }

  function Separated(parts: seq<Expr>, sep: Token): seq<Token>
    decreases parts, 0
  {
    if |parts| == 0 then []
    else if |parts| == 1 then Tokens(parts[0])
    else Tokens(parts[0]) + [sep] + Separated(parts[1..], sep)
  }

  lemma {:induction false} SpellAppend(a: seq<Token>, b: seq<Token>)
    ensures SpellAll(a + b) == SpellAll(a) + SpellAll(b)
  {
    hide Spell;
    if a == [] {
      assert a + b == b;
    } else {
      SpellAppend(a[1..], b);
      assert (a + b)[1..] == a[1..] + b;
    }
  }

  function Texts(parts: seq<Expr>): seq<string> {
    seq(|parts|, i requires 0 <= i < |parts| => SpellAll(Tokens(parts[i])))
  }

  lemma {:induction false} SpellSeparated(parts: seq<Expr>, sep: Token)
    ensures SpellAll(Separated(parts, sep)) == Join(Texts(parts), Spell(sep))
  {
    if |parts| > 1 {
      SpellSeparated(parts[1..], sep);
      assert Texts(parts)[1..] == Texts(parts[1..]);
      SpellAppend(Tokens(parts[0]) + [sep], Separated(parts[1..], sep));
      SpellAppend(Tokens(parts[0]), [sep]);
      assert SpellAll([sep]) == Spell(sep) + SpellAll([]);
    } else if |parts| == 1 {
      assert Texts(parts)[0] == SpellAll(Tokens(parts[0]));
    }
  }

  ghost predicate Spells(c: Fragment, e: Option<Expr>) {
    match e
    case None => IsZero(c)
    case Some(x) => !IsZero(c) && c.sql == SpellAll(Tokens(x))
  }

  lemma SpellGroup(parts: seq<Expr>, sep: Token)
    ensures SpellAll([Open] + Separated(parts, sep) + [Close]) == "(" + Join(Texts(parts), Spell(sep)) + ")"
  {
    SpellSeparated(parts, sep);
    SpellAppend([Open] + Separated(parts, sep), [Close]);
    SpellAppend([Open], Separated(parts, sep));
    assert SpellAll([Open]) == "(" + SpellAll([]) && SpellAll([Close]) == ")" + SpellAll([]);
  }

  lemma {:induction false} CombineSpells(t: Tree, kids: seq<Tree>, all: bool)
    requires t == if all then All(kids) else Any(kids)
    requires |Active(CompileAll(kids))| == |Normals(kids)|
    requires Sqls(Active(CompileAll(kids))) == Texts(Normals(kids))
    requires forall i :: 0 <= i < |Normals(kids)| ==> SpellAll(Tokens(Normals(kids)[i])) != ""
    ensures Spells(Compile(t), Normal(t))
  {
    hide CompileAll, Normals, Active, SpellAll, Separated, Join;
    var active, parts := Active(CompileAll(kids)), Normals(kids);
    if |parts| == 1 {
      assert Sqls(active)[0] == Texts(parts)[0];
    } else if |parts| > 1 {
      SpellGroup(parts, if all then AndWord(false) else OrWord);
    }
  }

  /** The code's text of a nested combination is the spelling of its expression. */
  lemma {:induction false} CompileSpells(t: Tree)
    ensures Spells(Compile(t), Normal(t))
    decreases t, 1
  {
    match t
    case Leaf(c) =>
      if !IsZero(c) { assert SpellAll([Lit(c.sql)]) == c.sql + SpellAll([]); }
    case All(kids) =>
      CompileAllSpells(kids);
      CombineSpells(t, kids, true);
    case Any(kids) =>
      CompileAllSpells(kids);
      CombineSpells(t, kids, false);
  }

  lemma {:induction false} CompileAllSpells(kids: seq<Tree>)
    ensures |Active(CompileAll(kids))| == |Normals(kids)|
    ensures Sqls(Active(CompileAll(kids))) == Texts(Normals(kids))
    ensures forall i :: 0 <= i < |Normals(kids)| ==> SpellAll(Tokens(Normals(kids)[i])) != ""
    decreases kids, 0
  {
    if kids != [] {
      var n := |kids| - 1;
      CompileAllSpells(kids[..n]);
      CompileSpells(kids[n]);
      var front, c := CompileAll(kids[..n]), Compile(kids[n]);
      assert CompileAll(kids) == front + [c];
      assert (front + [c])[..|front|] == front;
      var parts := Normals(kids[..n]);
      match Normal(kids[n])
      case None => assert Normals(kids) == parts;
      case Some(e) =>
        assert Normals(kids) == parts + [e] && Active(CompileAll(kids)) == Active(front) + [c];
        assert Texts(parts + [e]) == Texts(parts) + [SpellAll(Tokens(e))];
        assert Sqls(Active(front) + [c]) == Sqls(Active(front)) + [c.sql];
    }
  }

  // ----- reading the text back: AND binds tighter than OR

  type Parsed = Option<(seq<Expr>, seq<Token>)>

  function ParseFactor(ts: seq<Token>): (r: Option<(Expr, seq<Token>)>)
    ensures r.Some? ==> |r.value.1| < |ts|
    decreases |ts|, 0
  {
    if ts == [] then None
    else match ts[0]
      case Lit(text) => Some((Atom(text), ts[1..]))
      case Open =>
        (match ParseTerms(ts[1..])
         case None => None
         case Some((terms, rest)) =>
           if rest != [] && rest[0] == Close then Some((OneOrGroup(terms, false), rest[1..])) else None)
      case _ => None
  }

  function OneOrGroup(parts: seq<Expr>, all: bool): Expr {
    if |parts| == 1 then parts[0] else if all then AllOf(parts) else AnyOf(parts)
  }

  /** factor (AND factor)* */
  function ParseFactors(ts: seq<Token>): (r: Parsed)
    ensures r.Some? ==> |r.value.1| < |ts|
    decreases |ts|, 1
  {
    match ParseFactor(ts)
    case None => None
    case Some((e, rest)) =>
      if rest != [] && rest[0].AndWord? then
        match ParseFactors(rest[1..])
        case None => None
        case Some((more, rest')) => Some(([e] + more, rest'))
      else Some(([e], rest))
  }

  /** term (OR term)*, where a term is a run of factors. */
  function ParseTerms(ts: seq<Token>): (r: Parsed)
    ensures r.Some? ==> |r.value.1| < |ts|
    decreases |ts|, 2
  {
    match ParseFactors(ts)
    case None => None
    case Some((factors, rest)) =>
      var e := OneOrGroup(factors, true);
      if rest != [] && rest[0] == OrWord then
        match ParseTerms(rest[1..])
        case None => None
        case Some((more, rest')) => Some(([e] + more, rest'))
      else Some(([e], rest))
  }

  function Parse(ts: seq<Token>): Option<Expr> {
    match ParseTerms(ts)
    case None => None
    case Some((terms, rest)) => if rest == [] then Some(OneOrGroup(terms, false)) else None
  }

  /** Every group in e has two members or more. */
  predicate Grouped(e: Expr)
    decreases e, 1
  {
    match e
    case Atom(_) => true
    case AllOf(parts) => |parts| >= 2 && AllGrouped(parts)
    case AnyOf(parts) => |parts| >= 2 && AllGrouped(parts)
  }

  predicate AllGrouped(parts: seq<Expr>)
    decreases parts, 0
  {
    forall i :: 0 <= i < |parts| ==> Grouped(parts[i])
  }

  predicate Stops(rest: seq<Token>) { rest == [] || rest[0] == Close }

  lemma {:induction false} FactorBack(e: Expr, rest: seq<Token>)
    requires Grouped(e)
    ensures ParseFactor(Tokens(e) + rest) == Some((e, rest))
    decreases e, 3
  {
    match e
    case Atom(text) =>
      assert ([Lit(text)] + rest)[1..] == rest;
    case AllOf(parts) =>
      var inner := Separated(parts, AndWord(false));
      FactorsBack(parts, false, [Close] + rest);
      GroupBack(e, inner, rest);
    case AnyOf(parts) =>
      var inner := Separated(parts, OrWord);
      TermsBack(parts, [Close] + rest);
      GroupBack(e, inner, rest);
  }

  lemma GroupBack(e: Expr, inner: seq<Token>, rest: seq<Token>)
    requires Tokens(e) == [Open] + inner + [Close]
    requires ParseTerms(inner + ([Close] + rest)).Some?
    requires ParseTerms(inner + ([Close] + rest)).value.1 == [Close] + rest
    requires OneOrGroup(ParseTerms(inner + ([Close] + rest)).value.0, false) == e
    ensures ParseFactor(Tokens(e) + rest) == Some((e, rest))
  {
    var ts := Tokens(e) + rest;
    assert ts[0] == Open && ts[1..] == inner + ([Close] + rest);
    assert ([Close] + rest)[1..] == rest;
  }

  /** A run of factors reads back as itself, and as one term when it ends the text or its group. */
  lemma {:induction false} FactorsBack(parts: seq<Expr>, newline: bool, rest: seq<Token>)
    requires parts != [] && AllGrouped(parts) && (rest == [] || !rest[0].AndWord?)
    ensures ParseFactors(Separated(parts, AndWord(newline)) + rest) == Some((parts, rest))
    ensures Stops(rest) ==>
      ParseTerms(Separated(parts, AndWord(newline)) + rest) == Some(([OneOrGroup(parts, true)], rest))
    decreases parts, 2
  {
    hide Tokens, ParseFactor, ParseTerms, OneOrGroup;
    var sep := AndWord(newline);
    if |parts| == 1 {
      FactorBack(parts[0], rest);
      assert parts == [parts[0]];
    } else {
      var tail := Separated(parts[1..], sep) + rest;
      FactorsBack(parts[1..], newline, rest);
      FactorBack(parts[0], [sep] + tail);
      assert Separated(parts, sep) + rest == Tokens(parts[0]) + ([sep] + tail);
      assert ([sep] + tail)[1..] == tail;
      assert parts == [parts[0]] + parts[1..];
    }
    if Stops(rest) { OneTerm(Separated(parts, sep) + rest, parts, rest); }
  }

  lemma OneTerm(ts: seq<Token>, parts: seq<Expr>, rest: seq<Token>)
    requires ParseFactors(ts) == Some((parts, rest)) && Stops(rest)
    ensures ParseTerms(ts) == Some(([OneOrGroup(parts, true)], rest))
  {
  }

  lemma {:induction false} TermsBack(parts: seq<Expr>, rest: seq<Token>)
    requires parts != [] && AllGrouped(parts) && Stops(rest)
    ensures ParseTerms(Separated(parts, OrWord) + rest) == Some((parts, rest))
    decreases parts, 2
  {
    hide Tokens, ParseFactor;
    if |parts| == 1 {
      FactorBack(parts[0], rest);
      assert parts == [parts[0]];
    } else {
      var tail := Separated(parts[1..], OrWord) + rest;
      TermsBack(parts[1..], rest);
      FactorBack(parts[0], [OrWord] + tail);
      assert Separated(parts, OrWord) + rest == Tokens(parts[0]) + ([OrWord] + tail);
      assert ([OrWord] + tail)[1..] == tail;
      assert parts == [parts[0]] + parts[1..];
    }
  }

  lemma {:induction false} NormalIsGrouped(t: Tree)
    ensures Normal(t).Some? ==> Grouped(Normal(t).value)
    decreases t, 1
  {
    match t
    case Leaf(_) =>
    case All(kids) => NormalsAreGrouped(kids);
    case Any(kids) => NormalsAreGrouped(kids);
  }

  lemma {:induction false} NormalsAreGrouped(kids: seq<Tree>)
    ensures AllGrouped(Normals(kids))
    decreases kids, 0
  {
    if kids != [] {
      NormalIsGrouped(kids[|kids| - 1]);
      NormalsAreGrouped(kids[..|kids| - 1]);
    }
  }

  // ----- the WHERE clause

  /** The lines Build writes: WHERE before the first condition, AND before the others. */
  function WhereLines(conds: seq<Fragment>): string {
    if conds == [] then ""
    else
      var n := |conds| - 1;
      WhereLines(conds[..n]) + (if n == 0 then "WHERE " else "AND ") + conds[n].sql + "\n"
  }

  lemma {:induction false} WhereLinesJoin(conds: seq<Fragment>)
    requires conds != []
    ensures WhereLines(conds) == "WHERE " + Join(Sqls(conds), "\nAND ") + "\n"
  {
    hide Join;
    var n := |conds| - 1;
    if n > 0 {
      WhereLinesJoin(conds[..n]);
      JoinSnoc(Sqls(conds[..n]), conds[n].sql, "\nAND ");
      assert Sqls(conds) == Sqls(conds[..n]) + [conds[n].sql];
      assert "\n" + "AND " == "\nAND ";
      Regroup("WHERE ", Join(Sqls(conds[..n]), "\nAND "), "\n", "AND ", conds[n].sql);
    } else {
      OnlyJoin(Sqls(conds), "\nAND ");
    }
  }

  lemma OnlyJoin(s: seq<string>, sep: string)
    requires |s| == 1
    ensures Join(s, sep) == s[0]
  {
  }

  lemma Regroup(p: string, j: string, nl: string, word: string, c: string)
    ensures (p + j + nl) + word + c + nl == p + (j + (nl + word) + c) + nl
  {
  }

  lemma {:induction false} JoinSnoc(s: seq<string>, x: string, sep: string)
    requires s != []
    ensures Join(s + [x], sep) == Join(s, sep) + sep + x
  {
    if |s| == 1 {
      assert (s + [x])[1..] == [x];
    } else {
      JoinSnoc(s[1..], x, sep);
      assert (s + [x])[1..] == s[1..] + [x];
    }
  }

  /** The WHERE text of any list of conditions reads back as their conjunction, each condition whole. */
  lemma WhereReadsBack(kids: seq<Tree>)
    requires Normals(kids) != []
    ensures var parts := Normals(kids);
            var ts := Separated(parts, AndWord(true));
            WhereLines(Active(CompileAll(kids))) == "WHERE " + SpellAll(ts) + "\n" &&
            Parse(ts) == Some(OneOrGroup(parts, true))
  {
    hide WhereLines, Separated, ParseTerms, Tokens;
    var parts := Normals(kids);
    CompileAllSpells(kids);
    var active := Active(CompileAll(kids));
    WhereLinesJoin(active);
    SpellSeparated(parts, AndWord(true));
    NormalsAreGrouped(kids);
    FactorsBack(parts, true, []);
    assert Separated(parts, AndWord(true)) + [] == Separated(parts, AndWord(true));
  }

  /** Raw text with a bare OR in it is not a condition this holds for: the reader takes the OR as outermost. */
  lemma BareOrEscapes(a: string, b: string, c: string)
    ensures Parse([Lit(a), AndWord(true), Lit(b), OrWord, Lit(c)]) == Some(AnyOf([AllOf([Atom(a), Atom(b)]), Atom(c)]))
  {
    var ts := [Lit(a), AndWord(true), Lit(b), OrWord, Lit(c)];
    FactorsBack([Atom(a), Atom(b)], true, [OrWord, Lit(c)]);
    FactorsBack([Atom(c)], true, []);
    assert Separated([Atom(a), Atom(b)][1..], AndWord(true)) == [Lit(b)];
    assert Separated([Atom(a), Atom(b)], AndWord(true)) + [OrWord, Lit(c)] == ts;
    assert [OrWord, Lit(c)][1..] == Separated([Atom(c)], AndWord(true)) + [];
    var and := OneOrGroup([Atom(a), Atom(b)], true);
    assert ParseTerms(ts) == Some(([and] + [Atom(c)], []));
    assert [and] + [Atom(c)] == [AllOf([Atom(a), Atom(b)]), Atom(c)];
  }

  // ----- conditions given as raw text

  /** A raw condition: whole expressions with bare ORs between them. */
  function RawTokens(raws: seq<seq<Expr>>): seq<Token>
    requires raws != []
  {
    if |raws| == 1 then Separated(raws[0], OrWord)
    else Separated(raws[0], OrWord) + [AndWord(true)] + RawTokens(raws[1..])
  }

  function Meant(raws: seq<seq<Expr>>): seq<Expr> {
    seq(|raws|, i requires 0 <= i < |raws| => OneOrGroup(raws[i], false))
  }

  predicate Whole(raws: seq<seq<Expr>>) {
    raws != [] && forall i :: 0 <= i < |raws| ==> raws[i] != [] && AllGrouped(raws[i])
  }

  predicate NoBareOr(raws: seq<seq<Expr>>) { forall i :: 0 <= i < |raws| ==> |raws[i]| == 1 }

  /** The first part of each raw condition up to the first one that holds a bare OR. */
  function Leading(raws: seq<seq<Expr>>): (parts: seq<Expr>)
    requires Whole(raws)
    ensures parts != [] && AllGrouped(parts)
  {
    if |raws[0]| > 1 || |raws| == 1 then [raws[0][0]] else [raws[0][0]] + Leading(raws[1..])
  }

  /** The text is the leading parts joined by AND, and then an OR if there is any. */
  lemma {:induction false} LeadingTokens(raws: seq<seq<Expr>>) returns (rest: seq<Token>)
    requires Whole(raws)
    ensures RawTokens(raws) == Separated(Leading(raws), AndWord(true)) + rest
    ensures if NoBareOr(raws) then rest == [] else rest != [] && rest[0] == OrWord
    ensures NoBareOr(raws) ==> Leading(raws) == Meant(raws)
  {
    hide Tokens;
    var x := raws[0];
    if |x| > 1 {
      rest := [OrWord] + Separated(x[1..], OrWord) +
        (if |raws| == 1 then [] else [AndWord(true)] + RawTokens(raws[1..]));
      assert Separated(x, OrWord) == Tokens(x[0]) + [OrWord] + Separated(x[1..], OrWord);
      assert RawTokens(raws) == Tokens(x[0]) + rest;
    } else if |raws| == 1 {
      rest := [];
      assert RawTokens(raws) == Tokens(x[0]) + rest;
      assert Meant(raws) == [x[0]];
    } else {
      var tail := raws[1..];
      rest := LeadingTokens(tail);
      assert Leading(raws)[1..] == Leading(tail);
      assert RawTokens(raws) == Tokens(x[0]) + [AndWord(true)] + (Separated(Leading(tail), AndWord(true)) + rest);
      assert NoBareOr(raws) <==> NoBareOr(tail) by { OneMore(raws); }
      assert NoBareOr(raws) ==> Meant(raws) == [x[0]] + Meant(tail);
    }
  }

  lemma OneMore(raws: seq<seq<Expr>>)
    requires raws != [] && |raws[0]| == 1
    ensures NoBareOr(raws) <==> NoBareOr(raws[1..])
  {
    if NoBareOr(raws[1..]) {
      forall i | 0 <= i < |raws| ensures |raws[i]| == 1 {
        if i > 0 { assert raws[i] == raws[1..][i - 1]; }
      }
    }
  }

  /** Raw conditions read back as their conjunction if and only if there is one only or none holds a bare OR. */
  lemma RawReadsBackExactly(raws: seq<seq<Expr>>)
    requires Whole(raws)
    ensures Parse(RawTokens(raws)) == Some(OneOrGroup(Meant(raws), true)) <==> |raws| == 1 || NoBareOr(raws)
  {
    hide Tokens, Separated, ParseFactors, RawTokens;
    var rest := LeadingTokens(raws);
    var lead := Leading(raws);
    FactorsBack(lead, true, rest);
    if NoBareOr(raws) {
      assert Parse(RawTokens(raws)) == Some(OneOrGroup(lead, true));
    } else if |raws| == 1 {
      OnlyRaw(raws);
    } else {
      OrIsOutermost(RawTokens(raws), lead, rest);
    }
  }

  lemma OnlyRaw(raws: seq<seq<Expr>>)
    requires Whole(raws) && |raws| == 1
    ensures Parse(RawTokens(raws)) == Some(OneOrGroup(Meant(raws), true))
  {
    hide Separated, ParseTerms;
    TermsBack(raws[0], []);
    assert RawTokens(raws) + [] == RawTokens(raws);
  }

  /** After a run of factors an OR makes the whole an alternative, if it is read at all. */
  lemma OrIsOutermost(ts: seq<Token>, factors: seq<Expr>, rest: seq<Token>)
    requires ParseFactors(ts) == Some((factors, rest)) && rest != [] && rest[0] == OrWord
    ensures Parse(ts).Some? ==> Parse(ts).value.AnyOf?
  {
    hide ParseFactors;
    if ParseTerms(rest[1..]).Some? { SomeTerm(rest[1..]); }
  }

  lemma SomeTerm(ts: seq<Token>)
    requires ParseTerms(ts).Some?
    ensures ParseTerms(ts).value.0 != []
  {
  }

  // ----- what it selects

  ghost predicate Sat(e: Expr, row: string -> bool)
    decreases e, 1
  {
    match e
    case Atom(text) => row(text)
    case AllOf(parts) => forall i :: 0 <= i < |parts| ==> Sat(parts[i], row)
    case AnyOf(parts) => exists i :: 0 <= i < |parts| && Sat(parts[i], row)
  }

  /** The meaning of a combination on a row: zero conditions say nothing, and neither does a combination of
      nothing but zero conditions. */
  ghost function Holds(t: Tree, row: string -> bool): Option<bool>
    decreases t, 1
  {
    match t
    case Leaf(c) => if IsZero(c) then None else Some(row(c.sql))
    case All(kids) => HoldsIn(kids, row, true)
    case Any(kids) => HoldsIn(kids, row, false)
  }

  ghost function HoldsIn(kids: seq<Tree>, row: string -> bool, all: bool): Option<bool>
    decreases kids, 0
  {
    if kids == [] then None
    else
      var front, last := HoldsIn(kids[..|kids| - 1], row, all), Holds(kids[|kids| - 1], row);
      if front == None then last
      else if last == None then front
      else Some(if all then front.value && last.value else front.value || last.value)
  }

  ghost function SatOf(e: Option<Expr>, row: string -> bool): Option<bool> {
    match e case None => None case Some(x) => Some(Sat(x, row))
  }

  ghost predicate SatAll(parts: seq<Expr>, row: string -> bool) { forall i :: 0 <= i < |parts| ==> Sat(parts[i], row) }

  ghost predicate SatAny(parts: seq<Expr>, row: string -> bool) { exists i :: 0 <= i < |parts| && Sat(parts[i], row) }

  lemma ReduceSat(parts: seq<Expr>, all: bool, row: string -> bool)
    requires parts != []
    ensures SatOf(Reduce(parts, all), row) == Some(if all then SatAll(parts, row) else SatAny(parts, row))
  {
    if |parts| == 1 { assert Sat(parts[0], row) ==> SatAny(parts, row); }
  }

  lemma ReduceSnoc(parts: seq<Expr>, e: Expr, row: string -> bool)
    ensures SatAll(parts + [e], row) <==> SatAll(parts, row) && Sat(e, row)
    ensures SatAny(parts + [e], row) <==> SatAny(parts, row) || Sat(e, row)
  {
    hide Sat;
    var more := parts + [e];
    assert more[|parts|] == e && forall i :: 0 <= i < |parts| ==> more[i] == parts[i];
  }

  /** The expression read from the text selects exactly the rows that the combination means. */
  lemma {:induction false} NormalMeans(t: Tree, row: string -> bool)
    ensures SatOf(Normal(t), row) == Holds(t, row)
    decreases t, 1
  {
    match t
    case Leaf(_) =>
    case All(kids) => NormalsMean(kids, row, true);
    case Any(kids) => NormalsMean(kids, row, false);
  }

  lemma NothingReduces(all: bool, row: string -> bool)
    ensures Reduce([], all) == None && SatAll([], row) && !SatAny([], row)
  {
  }

  lemma {:induction false} NormalsMean(kids: seq<Tree>, row: string -> bool, all: bool)
    ensures SatOf(Reduce(Normals(kids), all), row) == HoldsIn(kids, row, all)
    decreases kids, 0
  {
    hide Reduce, SatAll, SatAny, Sat;
    NothingReduces(all, row);
    if kids != [] {
      var n := |kids| - 1;
      NormalMeans(kids[n], row);
      NormalsMean(kids[..n], row, all);
      var parts := Normals(kids[..n]);
      match Normal(kids[n])
      case None => assert Normals(kids) == parts;
      case Some(e) =>
        ReduceSnoc(parts, e, row);
        ReduceSat(parts + [e], all, row);
        if parts != [] { ReduceSat(parts, all, row); }
    }
  }

  /** Reading the WHERE text and applying it to a row is applying every condition that is not zero. */
  lemma WhereSelects(kids: seq<Tree>, row: string -> bool)
    requires Normals(kids) != []
    ensures Parse(Separated(Normals(kids), AndWord(true))).Some?
    ensures Some(Sat(Parse(Separated(Normals(kids), AndWord(true))).value, row)) == HoldsIn(kids, row, true)
  {
    hide Parse, Separated, Sat;
    WhereReadsBack(kids);
    NormalsMean(kids, row, true);
  }
}
