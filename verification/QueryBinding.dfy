/** The i-th placeholder of a built query is bound to the i-th argument: binding the built text gives the query
    written with its literals in place. */
module QueryBinding {
  import opened Basics
  import opened Conditions
  import opened ConditionText
  import opened QueryText

  // ----- the query written with its literals in place

  function BoundAll(fs: seq<Fragment>, lit: Arg -> string): seq<string> {
    seq(|fs|, i requires 0 <= i < |fs| => Bound(fs[i], lit))
  }

  function InlineBody(m: Model, lit: Arg -> string): string {
    "SELECT " + Join(BoundAll(m.selects, lit), ",\n") + "\n"
    + ("FROM " + m.from + "\n")
    + Clause("WHERE ", BoundAll(Active(m.wheres), lit), "\nAND ")
    + Clause("GROUP BY ", m.groupBy, ", ")
    + Clause("HAVING ", BoundAll(m.havings, lit), " AND ")
    + Clause("ORDER BY ", m.orderBy, ", ")
    + match m.limit case None => "" case Some(n) => "LIMIT " + lit(Number(n))
  }

  function DropLast(s: string, n: nat): string { if n <= |s| then s[..|s| - n] else "" }

  /** How many newlines the build trims from the end of a text. */
  function Trailing(s: string): nat {
    TrimIsShorter(s);
    |s| - |TrimNewlines(s)|
  }

  lemma {:induction false} TrimIsShorter(s: string)
    ensures |TrimNewlines(s)| <= |s|
  {
    if s != "" && s[|s| - 1] == '\n' { TrimIsShorter(s[..|s| - 1]); }
  }

  /** Newlines are trimmed from the text, so a literal that ends in one keeps it. */
  function Inline(m: Model, lit: Arg -> string): string
    requires BuildOf(m).Ok?
    decreases m, 1
  {
    DropLast(InlineCtes(m.ctes, lit) + InlineBody(m, lit), Trailing(BuildCtes(m.ctes).sql + Body(m)))
    + SettingsText(m.settings)
  }

  function InlineCtes(ctes: seq<Cte>, lit: Arg -> string): string
    requires BuildCtes(ctes).Ok?
    decreases ctes, 0
  {
    if ctes == [] then ""
    else var n := |ctes| - 1; InlineCtes(ctes[..n], lit) + CteText(n, ctes[n].name, Inline(ctes[n].sub, lit))
  }

  // ----- queries whose pieces have one placeholder per argument

  predicate Quiet(s: string) { '?' !in s }

  predicate AllQuiet(ss: seq<string>) { forall i :: 0 <= i < |ss| ==> Quiet(ss[i]) }

  predicate AllFit(fs: seq<Fragment>) { forall i :: 0 <= i < |fs| ==> Fits(fs[i]) }

  predicate WellFormed(m: Model)
    decreases m, 1
  {
    && AllFit(m.selects) && AllFit(m.wheres) && AllFit(m.havings)
    && Quiet(m.from) && AllQuiet(m.groupBy) && AllQuiet(m.orderBy) && AllQuiet(Formats(m.settings))
    && WellFormedCtes(m.ctes)
  }

  predicate WellFormedCtes(ctes: seq<Cte>)
    decreases ctes, 0
  {
    ctes == [] ||
    (WellFormedCtes(ctes[..|ctes| - 1]) && Quiet(ctes[|ctes| - 1].name) && WellFormed(ctes[|ctes| - 1].sub))
  }

  // ----- pieces

  lemma {:induction false} QuietHoles(s: string)
    requires Quiet(s)
    ensures Holes(s) == 0
  {
    if s != "" { QuietHoles(s[..|s| - 1]); }
  }

  /** f binds to text t. */
  ghost predicate Binds(f: Fragment, lit: Arg -> string, t: string) { Fits(f) && Bound(f, lit) == t }

  lemma QuietBinds(s: string, lit: Arg -> string)
    requires Quiet(s)
    ensures Binds(Plain(s), lit, s)
  {
    QuietHoles(s);
    BoundPlain(s, lit);
  }

  lemma CatBinds(f: Fragment, s: string, g: Fragment, t: string, lit: Arg -> string)
    requires Binds(f, lit, s) && Binds(g, lit, t)
    ensures Binds(Cat(f, g), lit, s + t)
  {
    BoundCat(f, g, lit);
  }

  lemma Surround(pre: string, f: Fragment, t: string, post: string, lit: Arg -> string)
    requires Quiet(pre) && Quiet(post) && Binds(f, lit, t)
    ensures Binds(Fragment(pre + f.sql + post, f.args), lit, pre + t + post)
  {
    hide Binds, Quiet;
    QuietBinds(pre, lit);
    QuietBinds(post, lit);
    CatBinds(Plain(pre), pre, f, t, lit);
    CatBinds(Cat(Plain(pre), f), pre + t, Plain(post), post, lit);
    assert Cat(Cat(Plain(pre), f), Plain(post)) == Fragment(pre + f.sql + post, f.args);
  }

  lemma {:induction false} JoinBinds(fs: seq<Fragment>, sep: string, lit: Arg -> string)
    requires AllFit(fs) && Quiet(sep)
    ensures Binds(Fragment(Join(Sqls(fs), sep), ArgsOf(fs)), lit, Join(BoundAll(fs, lit), sep))
  {
    hide Quiet, Join, Fits, Bound;
    var n := |fs| - 1;
    if |fs| == 0 {
      JoinNothing(sep);
      assert Binds(Plain(""), lit, "") by { NoText(lit); }
    } else if |fs| == 1 {
      OnlyJoin(Sqls(fs), sep);
      OnlyJoin(BoundAll(fs, lit), sep);
      assert ArgsOf(fs[..0]) == [];
      assert Fragment(fs[0].sql, [] + fs[0].args) == fs[0];
    } else {
      JoinBinds(fs[..n], sep, lit);
      var front := Fragment(Join(Sqls(fs[..n]), sep), ArgsOf(fs[..n]));
      var text := Join(BoundAll(fs[..n], lit), sep);
      QuietBinds(sep, lit);
      CatBinds(front, text, Plain(sep), sep, lit);
      CatBinds(Cat(front, Plain(sep)), text + sep, fs[n], Bound(fs[n], lit), lit);
      JoinSnoc(Sqls(fs[..n]), fs[n].sql, sep);
      JoinSnoc(BoundAll(fs[..n], lit), Bound(fs[n], lit), sep);
      assert Sqls(fs) == Sqls(fs[..n]) + [fs[n].sql];
      assert BoundAll(fs, lit) == BoundAll(fs[..n], lit) + [Bound(fs[n], lit)];
      assert Cat(Cat(front, Plain(sep)), fs[n]) == Fragment(Join(Sqls(fs), sep), ArgsOf(fs));
    }
  }

  lemma JoinNothing(sep: string)
    ensures Join([], sep) == ""
  {
  }

  lemma NoText(lit: Arg -> string)
    ensures Binds(Plain(""), lit, "")
  {
  }

  lemma {:induction false} QuietJoin(ss: seq<string>, sep: string)
    requires AllQuiet(ss) && Quiet(sep)
    ensures Quiet(Join(ss, sep))
  {
    if |ss| > 1 { QuietJoin(ss[1..], sep); }
  }

  lemma QuietClause(word: string, exprs: seq<string>, sep: string, lit: Arg -> string)
    requires Quiet(word) && AllQuiet(exprs) && Quiet(sep)
    ensures Binds(Plain(Clause(word, exprs, sep)), lit, Clause(word, exprs, sep))
  {
    QuietJoin(exprs, sep);
    QuietBinds(Clause(word, exprs, sep), lit);
  }

  lemma ClauseBinds(word: string, fs: seq<Fragment>, sep: string, lit: Arg -> string)
    requires Quiet(word) && AllFit(fs) && Quiet(sep)
    ensures Binds(Fragment(Clause(word, Sqls(fs), sep), ArgsOf(fs)), lit, Clause(word, BoundAll(fs, lit), sep))
  {
    if fs == [] {
      NoText(lit);
    } else {
      JoinBinds(fs, sep, lit);
      Surround(word, Fragment(Join(Sqls(fs), sep), ArgsOf(fs)), Join(BoundAll(fs, lit), sep), "\n", lit);
    }
  }

  lemma WhereBinds(wheres: seq<Fragment>, lit: Arg -> string)
    requires AllFit(wheres)
    ensures var active := Active(wheres);
            Binds(Fragment(WhereLines(active), ArgsOf(active)), lit, Clause("WHERE ", BoundAll(active, lit), "\nAND "))
  {
    hide Binds, BoundAll, Fits;
    var active := Active(wheres);
    ActiveBound(wheres);
    assert AllFit(active) by {
      forall i | 0 <= i < |active| ensures Fits(active[i]) { assert active[i] in wheres; }
    }
    ClauseBinds("WHERE ", active, "\nAND ", lit);
    if active != [] { WhereLinesJoin(active); }
  }

  lemma LimitBinds(m: Model, lit: Arg -> string)
    ensures Binds(LimitPart(m), lit, match m.limit case None => "" case Some(n) => "LIMIT " + lit(Number(n)))
  {
    match m.limit
    case None => NoText(lit);
    case Some(n) =>
      HoleBinds(Number(n), lit);
      Surround("LIMIT ", Fragment("?", [Number(n)]), lit(Number(n)), "", lit);
      assert "LIMIT " + "?" + "" == "LIMIT ?";
      assert "LIMIT " + lit(Number(n)) + "" == "LIMIT " + lit(Number(n));
  }

  lemma HoleBinds(a: Arg, lit: Arg -> string)
    ensures Binds(Fragment("?", [a]), lit, lit(a))
  {
    assert Bind("?", [a], lit) == Bind("", [], lit) + lit(a);
  }

  lemma BodyBinds(m: Model, lit: Arg -> string)
    requires WellFormed(m)
    ensures Binds(Fragment(Body(m), BodyArgs(m)), lit, InlineBody(m, lit))
  {
    hide Binds, BoundAll, WhereLines, Clause, ArgsOf, Active, Sqls, Join;
    var s1, t1 := Fragment("SELECT " + Join(Sqls(m.selects), ",\n") + "\n", ArgsOf(m.selects)),
                  "SELECT " + Join(BoundAll(m.selects, lit), ",\n") + "\n";
    JoinBinds(m.selects, ",\n", lit);
    Surround("SELECT ", Fragment(Join(Sqls(m.selects), ",\n"), ArgsOf(m.selects)),
      Join(BoundAll(m.selects, lit), ",\n"), "\n", lit);
    var from := "FROM " + m.from + "\n";
    QuietBinds(from, lit);
    CatBinds(s1, t1, Plain(from), from, lit);
    var active := Active(m.wheres);
    var s2, t2 := Fragment(WhereLines(active), ArgsOf(active)), Clause("WHERE ", BoundAll(active, lit), "\nAND ");
    WhereBinds(m.wheres, lit);
    CatBinds(Cat(s1, Plain(from)), t1 + from, s2, t2, lit);
    var group := Clause("GROUP BY ", m.groupBy, ", ");
    QuietClause("GROUP BY ", m.groupBy, ", ", lit);
    CatBinds(Cat(Cat(s1, Plain(from)), s2), t1 + from + t2, Plain(group), group, lit);
    var s3, t3 := Fragment(Clause("HAVING ", Sqls(m.havings), " AND "), ArgsOf(m.havings)),
                  Clause("HAVING ", BoundAll(m.havings, lit), " AND ");
    ClauseBinds("HAVING ", m.havings, " AND ", lit);
    var head, headText := Cat(Cat(Cat(s1, Plain(from)), s2), Plain(group)), t1 + from + t2 + group;
    CatBinds(head, headText, s3, t3, lit);
    var order := Clause("ORDER BY ", m.orderBy, ", ");
    QuietClause("ORDER BY ", m.orderBy, ", ", lit);
    CatBinds(Cat(head, s3), headText + t3, Plain(order), order, lit);
    LimitBinds(m, lit);
    var limitText := match m.limit case None => "" case Some(n) => "LIMIT " + lit(Number(n));
    CatBinds(Cat(Cat(head, s3), Plain(order)), headText + t3 + order, LimitPart(m), limitText, lit);
    var whole := Cat(Cat(Cat(head, s3), Plain(order)), LimitPart(m));
    assert whole.sql == Body(m);
    assert whole.args == BodyArgs(m);
  }

  // ----- the build

  lemma {:induction false} TrimBinds(f: Fragment, t: string, lit: Arg -> string)
    requires Binds(f, lit, t)
    ensures Binds(Fragment(TrimNewlines(f.sql), f.args), lit, DropLast(t, Trailing(f.sql)))
    decreases |f.sql|
  {
    var n := |f.sql| - 1;
    if f.sql != "" && f.sql[n] == '\n' {
      var g := Fragment(f.sql[..n], f.args);
      TrimBinds(g, Bound(g, lit), lit);
      assert t == Bound(g, lit) + ['\n'];
      assert Trailing(f.sql) == Trailing(g.sql) + 1;
    }
  }

  /** Binding what Build returns gives the query with its literals in place. */
  lemma {:induction false} BuildBinds(m: Model, lit: Arg -> string)
    requires WellFormed(m) && BuildOf(m).Ok?
    ensures Binds(Fragment(BuildOf(m).sql, BuildOf(m).args), lit, Inline(m, lit))
    decreases m, 1
  {
    hide Binds, InlineBody, Body, BodyArgs, Formats, TrimNewlines, Trailing, DropLast;
    CtesBind(m.ctes, lit);
    BodyBinds(m, lit);
    var ctes, body := Fragment(BuildCtes(m.ctes).sql, BuildCtes(m.ctes).args), Fragment(Body(m), BodyArgs(m));
    CatBinds(ctes, InlineCtes(m.ctes, lit), body, InlineBody(m, lit), lit);
    TrimBinds(Cat(ctes, body), InlineCtes(m.ctes, lit) + InlineBody(m, lit), lit);
    SettingsBind(m.settings, lit);
    var trimmed := Fragment(TrimNewlines(Cat(ctes, body).sql), Cat(ctes, body).args);
    var text := DropLast(InlineCtes(m.ctes, lit) + InlineBody(m, lit), Trailing(Cat(ctes, body).sql));
    CatBinds(trimmed, text, Plain(SettingsText(m.settings)), SettingsText(m.settings), lit);
    assert Cat(trimmed, Plain(SettingsText(m.settings))).args == BuildOf(m).args;
  }

  lemma SettingsBind(settings: seq<Setting>, lit: Arg -> string)
    requires AllQuiet(Formats(settings))
    ensures Binds(Plain(SettingsText(settings)), lit, SettingsText(settings))
  {
    QuietJoin(Formats(settings), ", ");
    QuietBinds(SettingsText(settings), lit);
  }

  lemma {:induction false} CtesBind(ctes: seq<Cte>, lit: Arg -> string)
    requires WellFormedCtes(ctes) && BuildCtes(ctes).Ok?
    ensures Binds(Fragment(BuildCtes(ctes).sql, BuildCtes(ctes).args), lit, InlineCtes(ctes, lit))
    decreases ctes, 0
  {
    hide Binds, BuildOf, Inline, CteText, WellFormed;
    if ctes == [] {
      NoText(lit);
    } else {
      var n := |ctes| - 1;
      var front, sub := ctes[..n], ctes[n].sub;
      CtesBind(front, lit);
      BuildBinds(sub, lit);
      CteBinds(n, ctes[n].name, Fragment(BuildOf(sub).sql, BuildOf(sub).args), Inline(sub, lit), lit);
      CatBinds(Fragment(BuildCtes(front).sql, BuildCtes(front).args), InlineCtes(front, lit),
               Fragment(CteText(n, ctes[n].name, BuildOf(sub).sql), BuildOf(sub).args),
               CteText(n, ctes[n].name, Inline(sub, lit)), lit);
    }
  }

  lemma CteBinds(i: nat, name: string, f: Fragment, t: string, lit: Arg -> string)
    requires Quiet(name) && Binds(f, lit, t)
    ensures Binds(Fragment(CteText(i, name, f.sql), f.args), lit, CteText(i, name, t))
  {
    hide Binds;
    var pre := (if i == 0 then "WITH " else ", ") + name + " AS (\n";
    Surround(pre, f, t, "\n)\n", lit);
  }

  // ----- unions

  function InlineBranches(queries: seq<Model>, lit: Arg -> string): seq<string>
    requires forall i :: 0 <= i < |queries| ==> BuildOf(queries[i]).Ok?
  {
    seq(|queries|, i requires 0 <= i < |queries| => Inline(queries[i], lit))
  }

  lemma {:induction false} BranchesAre(queries: seq<Model>)
    requires BuildBranches(queries).Parts?
    ensures |BuildBranches(queries).sqls| == |queries|
    ensures forall i :: 0 <= i < |queries| ==>
      BuildOf(queries[i]).Ok? && BuildBranches(queries).sqls[i] == BuildOf(queries[i]).sql
    ensures BuildBranches(queries).args == ArgsOf(BranchFragments(queries))
  {
    hide BuildOf;
    if queries != [] {
      var n := |queries| - 1;
      BranchesAre(queries[..n]);
      assert forall i :: 0 <= i < n ==> queries[..n][i] == queries[i];
      var fs := BranchFragments(queries);
      assert fs[..n] == BranchFragments(queries[..n]);
    }
  }

  function BranchFragments(queries: seq<Model>): seq<Fragment> {
    seq(|queries|, i requires 0 <= i < |queries| =>
      match BuildOf(queries[i]) case Ok(sql, args) => Fragment(sql, args) case _ => ZERO)
  }

  /** The same for a union of queries. */
  lemma UnionBinds(u: UnionModel, lit: Arg -> string)
    requires BuildUnion(u).Ok? && AllQuiet(u.orderBy) && AllQuiet(Formats(u.settings))
    requires forall i :: 0 <= i < |u.queries| ==> WellFormed(u.queries[i])
    ensures forall i :: 0 <= i < |u.queries| ==> BuildOf(u.queries[i]).Ok?
    ensures Binds(Fragment(BuildUnion(u).sql, BuildUnion(u).args), lit,
                  Join(InlineBranches(u.queries, lit), "\nUNION ALL\n") + UnionOrder(u.orderBy) +
                    SettingsText(u.settings))
  {
    hide Binds, BuildOf, WellFormed, Inline, BuildBranches, Join, Formats, SettingsText, UnionOrder, Fits, Bound;
    assert BuildBranches(u.queries).Parts? by { BranchSettings(u.queries); }
    BranchesAre(u.queries);
    var fs, texts := BranchFragments(u.queries), InlineBranches(u.queries, lit);
    assert Sqls(fs) == BuildBranches(u.queries).sqls;
    forall i | 0 <= i < |fs| ensures Fits(fs[i]) && Bound(fs[i], lit) == texts[i] {
      BranchBinds(u.queries[i], lit);
    }
    assert BoundAll(fs, lit) == texts;
    JoinBinds(fs, "\nUNION ALL\n", lit);
    OrderBinds(u.orderBy, lit);
    SettingsBind(u.settings, lit);
    var joined, text := Fragment(Join(Sqls(fs), "\nUNION ALL\n"), ArgsOf(fs)), Join(texts, "\nUNION ALL\n");
    CatBinds(joined, text, Plain(UnionOrder(u.orderBy)), UnionOrder(u.orderBy), lit);
    CatBinds(Cat(joined, Plain(UnionOrder(u.orderBy))), text + UnionOrder(u.orderBy),
             Plain(SettingsText(u.settings)), SettingsText(u.settings), lit);
    assert ArgsOf(fs) + [] + [] == ArgsOf(fs);
  }

  lemma BranchBinds(m: Model, lit: Arg -> string)
    requires WellFormed(m) && BuildOf(m).Ok?
    ensures Fits(Fragment(BuildOf(m).sql, BuildOf(m).args))
    ensures Bound(Fragment(BuildOf(m).sql, BuildOf(m).args), lit) == Inline(m, lit)
  {
    BuildBinds(m, lit);
  }

  lemma OrderBinds(orderBy: seq<string>, lit: Arg -> string)
    requires AllQuiet(orderBy)
    ensures Binds(Plain(UnionOrder(orderBy)), lit, UnionOrder(orderBy))
  {
    QuietJoin(orderBy, ", ");
    QuietBinds(UnionOrder(orderBy), lit);
  }

  // ----- conditions as pieces

  predicate LeavesFit(t: Tree)
    decreases t, 1
  {
    match t
    case Leaf(c) => Fits(c)
    case All(kids) => AllLeavesFit(kids)
    case Any(kids) => AllLeavesFit(kids)
  }

  predicate AllLeavesFit(kids: seq<Tree>)
    decreases kids, 0
  {
    forall i :: 0 <= i < |kids| ==> LeavesFit(kids[i])
  }

  lemma CombineFits(op: string, conds: seq<Fragment>)
    requires AllFit(conds) && Quiet(op)
    ensures Fits(Combine(op, conds))
  {
    hide Fits, Join, Sqls, ArgsOf, Quiet;
    var active := Active(conds);
    ActiveBound(conds);
    forall i | 0 <= i < |active| ensures Fits(active[i]) { assert active[i] in conds; }
    var lit: Arg -> string := _ => "NULL";
    if |active| == 0 {
      assert Fits(ZERO) by { NoText(lit); }
    } else if |active| > 1 {
      JoinBinds(active, op, lit);
      assert Quiet("(") && Quiet(")") by { QuietParens(); }
      Surround("(", Fragment(Join(Sqls(active), op), ArgsOf(active)), Join(BoundAll(active, lit), op), ")", lit);
    }
  }

  lemma QuietParens()
    ensures Quiet("(") && Quiet(")")
  {
  }

  /** Any nesting of And and Or keeps one placeholder per argument. */
  lemma {:induction false} CompileFits(t: Tree)
    requires LeavesFit(t)
    ensures Fits(Compile(t))
    decreases t, 1
  {
    match t
    case Leaf(_) =>
    case All(kids) =>
      CompileAllFit(kids);
      CombineFits(" AND ", CompileAll(kids));
    case Any(kids) =>
      CompileAllFit(kids);
      CombineFits(" OR ", CompileAll(kids));
  }

  lemma {:induction false} CompileAllFit(kids: seq<Tree>)
    requires AllLeavesFit(kids)
    ensures AllFit(CompileAll(kids))
    decreases kids, 0
  {
    if kids != [] {
      var n := |kids| - 1;
      assert AllLeavesFit(kids[..n]);
      CompileAllFit(kids[..n]);
      CompileFits(kids[n]);
    }
  }

  function Questions(vals: seq<string>): seq<Fragment> {
    seq(|vals|, i requires 0 <= i < |vals| => Fragment("?", [Text(vals[i])]))
  }

  function Literals(vals: seq<string>, lit: Arg -> string): seq<string> {
    seq(|vals|, i requires 0 <= i < |vals| => lit(Text(vals[i])))
  }

  lemma {:induction false} QuestionArgs(vals: seq<string>)
    ensures ArgsOf(Questions(vals)) == seq(|vals|, i requires 0 <= i < |vals| => Text(vals[i]))
  {
    if vals != [] {
      QuestionArgs(vals[..|vals| - 1]);
      assert Questions(vals)[..|vals| - 1] == Questions(vals[..|vals| - 1]);
    }
  }

  lemma {:induction false} QuestionMarks(vals: seq<string>)
    requires vals != []
    ensures Join(Sqls(Questions(vals)), ", ") == Repeat("?, ", |vals| - 1) + "?"
  {
    var n := |vals| - 1;
    if n > 0 {
      QuestionMarks(vals[..n]);
      assert Sqls(Questions(vals)) == Sqls(Questions(vals[..n])) + ["?"];
      JoinSnoc(Sqls(Questions(vals[..n])), "?", ", ");
      assert Repeat("?, ", n) == Repeat("?, ", n - 1) + "?, ";
      assert "?" + ", " == "?, ";
    }
  }

  /** `In` is never dropped, whatever the values; with values it binds to the list of their literals. */
  lemma InBinds(col: string, vals: seq<string>, lit: Arg -> string)
    requires Quiet(col)
    ensures !IsZero(In(col, vals))
    ensures Binds(In(col, vals), lit, if vals == [] then "0" else col + " IN (" + Join(Literals(vals, lit), ", ") + ")")
  {
    hide Binds, Join, Repeat;
    if vals == [] {
      assert Quiet("0") by { assert "0"[0] != '?'; }
      QuietBinds("0", lit);
    } else {
      var fs := Questions(vals);
      forall i | 0 <= i < |fs| ensures Fits(fs[i]) && Bound(fs[i], lit) == lit(Text(vals[i])) {
        QuestionBinds(Text(vals[i]), lit);
      }
      JoinBinds(fs, ", ", lit);
      assert BoundAll(fs, lit) == Literals(vals, lit);
      QuestionArgs(vals);
      QuestionMarks(vals);
      Surround(col + " IN (", Fragment(Join(Sqls(fs), ", "), ArgsOf(fs)), Join(Literals(vals, lit), ", "), ")", lit);
      assert col + " IN (" + Repeat("?, ", |vals| - 1) + "?)" ==
        col + " IN (" + (Repeat("?, ", |vals| - 1) + "?") + ")";
    }
  }

  lemma QuestionBinds(a: Arg, lit: Arg -> string)
    ensures Fits(Fragment("?", [a])) && Bound(Fragment("?", [a]), lit) == lit(a)
  {
    HoleBinds(a, lit);
  }
}
