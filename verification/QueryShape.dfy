/** The exact text and arguments of a build, clause by clause: what the placeholder laws of QueryBinding leave to the
    words between the conditions. */
module QueryShape {
  import opened Basics
  import opened Conditions
  import opened QueryText
  import ConditionText

  // ----- trimming takes newlines and nothing else

  function Newlines(k: nat): string { seq(k, _ => '\n') }

  lemma {:induction false} TrimmedExactly(s: string) returns (k: nat)
    ensures TrimNewlines(s) + Newlines(k) == s
    ensures TrimNewlines(s) != "" ==> TrimNewlines(s)[|TrimNewlines(s)| - 1] != '\n'
  {
    var n := |s| - 1;
    if s != "" && s[n] == '\n' {
      var j := TrimmedExactly(s[..n]);
      k := j + 1;
      assert Newlines(k) == Newlines(j) + ['\n'];
      assert s == s[..n] + ['\n'];
    } else {
      k := 0;
    }
  }

  // ----- the words of each clause

  function Pairs(settings: seq<Setting>): seq<string> {
    seq(|settings|, i requires 0 <= i < |settings| => settings[i].key + " = " + settings[i].value)
  }

  /** A clause of a query that has something in it, with its line break. */
  function Line(words: string, empty: bool): string { if empty then "" else words + "\n" }

  /** The clauses after the CTEs, in the order and the words of the language. */
  function Clauses(m: Model): string {
    var active := Active(m.wheres);
    "SELECT " + Join(Sqls(m.selects), ",\n") + "\nFROM " + m.from + "\n"
    + Line("WHERE " + Join(Sqls(active), "\nAND "), active == [])
    + Line("GROUP BY " + Join(m.groupBy, ", "), m.groupBy == [])
    + Line("HAVING " + Join(Sqls(m.havings), " AND "), m.havings == [])
    + Line("ORDER BY " + Join(m.orderBy, ", "), m.orderBy == [])
    + if m.limit.Some? then "LIMIT ?" else ""
  }

  function LimitArgs(m: Model): seq<Arg> { if m.limit.Some? then [Number(m.limit.value)] else [] }

  lemma BodyIs(m: Model)
    ensures Body(m) == Clauses(m)
    ensures BodyArgs(m) == ArgsOf(m.selects) + ArgsOf(Active(m.wheres)) + ArgsOf(m.havings) + LimitArgs(m)
  {
    WhereIs(Active(m.wheres));
    ClauseIs("GROUP BY ", m.groupBy, ", ");
    ClauseIs("HAVING ", Sqls(m.havings), " AND ");
    ClauseIs("ORDER BY ", m.orderBy, ", ");
    NoSqls(m.havings);
    LimitIs(m);
    hide Active, Join, ConditionText.WhereLines, Sqls, ArgsOf, Line, Clause, LimitPart, LimitArgs;
    var select := "SELECT " + Join(Sqls(m.selects), ",\n");
    assert (select + "\n") + ("FROM " + m.from + "\n") == select + "\nFROM " + m.from + "\n";
  }

  lemma ClauseIs(word: string, exprs: seq<string>, sep: string)
    ensures Clause(word, exprs, sep) == Line(word + Join(exprs, sep), exprs == [])
  {
    hide Join;
  }

  lemma NoSqls(fs: seq<Fragment>)
    ensures Sqls(fs) == [] <==> fs == []
  {
    assert |Sqls(fs)| == |fs|;
  }

  lemma LimitIs(m: Model)
    ensures LimitPart(m).sql == (if m.limit.Some? then "LIMIT ?" else "") && LimitPart(m).args == LimitArgs(m)
  {
  }

  lemma WhereIs(active: seq<Fragment>)
    ensures ConditionText.WhereLines(active) == Line("WHERE " + Join(Sqls(active), "\nAND "), active == [])
  {
    if active != [] { ConditionText.WhereLinesJoin(active); }
  }

  // ----- CTEs

  function CteTexts(ctes: seq<Cte>): seq<string>
    requires forall i :: 0 <= i < |ctes| ==> BuildOf(ctes[i].sub).Ok?
  {
    seq(|ctes|, i requires 0 <= i < |ctes| => ctes[i].name + " AS (\n" + BuildOf(ctes[i].sub).sql + "\n)\n")
  }

  function CteArgs(ctes: seq<Cte>): seq<Arg>
    requires forall i :: 0 <= i < |ctes| ==> BuildOf(ctes[i].sub).Ok?
  {
    if ctes == [] then [] else CteArgs(ctes[..|ctes| - 1]) + BuildOf(ctes[|ctes| - 1].sub).args
  }

  lemma {:induction false} CtesBuild(ctes: seq<Cte>)
    requires BuildCtes(ctes).Ok?
    ensures forall i :: 0 <= i < |ctes| ==> BuildOf(ctes[i].sub).Ok? && ctes[i].sub.settings == []
    ensures BuildCtes(ctes).args == CteArgs(ctes)
  {
    hide BuildOf, CteText;
    if ctes != [] {
      var front := ctes[..|ctes| - 1];
      CtesBuild(front);
      assert forall i :: 0 <= i < |front| ==> front[i] == ctes[i];
    }
  }

  lemma {:induction false} CtesAre(ctes: seq<Cte>)
    requires BuildCtes(ctes).Ok? && forall i :: 0 <= i < |ctes| ==> BuildOf(ctes[i].sub).Ok?
    ensures BuildCtes(ctes).sql == if ctes == [] then "" else "WITH " + Join(CteTexts(ctes), ", ")
  {
    hide BuildOf, Join, CteTexts, CteText;
    if ctes != [] {
      var n := |ctes| - 1;
      var front, last := ctes[..n], ctes[n];
      assert forall i :: 0 <= i < n ==> front[i] == ctes[i];
      CtesAre(front);
      var sql := BuildOf(last.sub).sql;
      LastText(ctes);
      LastCte(n, last.name, sql);
      JoinedText(n, Join(CteTexts(front), ", "), last.name + " AS (\n" + sql + "\n)\n", Join(CteTexts(ctes), ", "));
    }
  }

  lemma JoinedText(n: nat, front: string, last: string, all: string)
    requires all == if n == 0 then last else front + ", " + last
    ensures "WITH " + all == (if n == 0 then "" else "WITH " + front) + ((if n == 0 then "WITH " else ", ") + last)
  {
  }

  /** The texts of all CTEs are those of the others and that of the last. */
  lemma LastText(ctes: seq<Cte>)
    requires ctes != [] && forall i :: 0 <= i < |ctes| ==> BuildOf(ctes[i].sub).Ok?
    ensures var n := |ctes| - 1;
      var last := ctes[n].name + " AS (\n" + BuildOf(ctes[n].sub).sql + "\n)\n";
      Join(CteTexts(ctes), ", ") == if n == 0 then last else Join(CteTexts(ctes[..n]), ", ") + ", " + last
  {
    hide BuildOf, Join;
    var n := |ctes| - 1;
    var last := ctes[n].name + " AS (\n" + BuildOf(ctes[n].sub).sql + "\n)\n";
    assert CteTexts(ctes) == CteTexts(ctes[..n]) + [last];
    if n == 0 {
      ConditionText.OnlyJoin(CteTexts(ctes), ", ");
    } else {
      ConditionText.JoinSnoc(CteTexts(ctes[..n]), last, ", ");
    }
  }

  lemma LastCte(n: nat, name: string, sql: string)
    ensures CteText(n, name, sql) == (if n == 0 then "WITH " else ", ") + (name + " AS (\n" + sql + "\n)\n")
  {
  }

  // ----- whole builds

  /** A successful build is the CTEs and the clauses, word for word, without the line breaks at their end, and then the
      SETTINGS; its arguments are those of the CTEs and of the clauses in the same order. */
  lemma BuildIs(m: Model) returns (text: string, k: nat)
    requires BuildOf(m).Ok?
    ensures forall i :: 0 <= i < |m.ctes| ==> BuildOf(m.ctes[i].sub).Ok?
    ensures text + Newlines(k) == (if m.ctes == [] then "" else "WITH " + Join(CteTexts(m.ctes), ", ")) + Clauses(m)
    ensures text != "" && text[|text| - 1] != '\n'
    ensures BuildOf(m).sql == text + if m.settings == [] then "" else "\nSETTINGS " + Join(Pairs(m.settings), ", ")
    ensures BuildOf(m).args ==
      CteArgs(m.ctes) + (ArgsOf(m.selects) + ArgsOf(Active(m.wheres)) + ArgsOf(m.havings) + LimitArgs(m))
  {
    hide Join, Active, Body, BodyArgs, Clauses, TrimNewlines, BuildCtes;
    CtesBuild(m.ctes);
    CtesAre(m.ctes);
    BodyIs(m);
    text := TrimNewlines(BuildCtes(m.ctes).sql + Body(m));
    k := TrimmedExactly(BuildCtes(m.ctes).sql + Body(m));
    SettingsAre(m.settings);
    HasClauses(m);
    if text == "" { OnlyNewlines(BuildCtes(m.ctes).sql + Body(m), k); }
  }

  lemma SettingsAre(settings: seq<Setting>)
    ensures SettingsText(settings) == if settings == [] then "" else "\nSETTINGS " + Join(Pairs(settings), ", ")
  {
    assert Formats(settings) == Pairs(settings);
  }

  lemma HasClauses(m: Model)
    ensures 'S' in Clauses(m)
  {
    hide Join, Active, Line, Sqls;
    assert Clauses(m)[0] == 'S';
  }

  lemma OnlyNewlines(s: string, k: nat)
    requires "" + Newlines(k) == s
    ensures 'S' !in s
  {
    assert forall i :: 0 <= i < |s| ==> s[i] == '\n';
  }

  /** The smallest build, word for word. */
  lemma PlainCount()
    ensures BuildOf(Model([], [Plain("count()")], "events", [], [], [], [], None, [])) ==
      Ok("SELECT count()\nFROM events", [])
  {
    var m := Model([], [Plain("count()")], "events", [], [], [], [], None, []);
    assert BuildOf(m).Ok?;
    var text, k := BuildIs(m);
    CountClauses(m);
    var whole := "SELECT count()\nFROM events";
    assert text + Newlines(k) == whole + "\n";
    EndsAlike(text, k, whole, 1);
  }

  lemma CountClauses(m: Model)
    requires m == Model([], [Plain("count()")], "events", [], [], [], [], None, [])
    ensures Clauses(m) == "SELECT count()\nFROM events\n"
    ensures ArgsOf(m.selects) == []
  {
    assert Sqls(m.selects) == ["count()"];
    assert m.selects[..0] == [];
  }

  /** A text is told by what it is without its line breaks. */
  lemma EndsAlike(a: string, j: nat, b: string, k: nat)
    requires a != "" && a[|a| - 1] != '\n' && b != "" && b[|b| - 1] != '\n'
    requires a + Newlines(j) == b + Newlines(k)
    ensures a == b
  {
    var s, t := a + Newlines(j), b + Newlines(k);
    assert |s| == |a| + j && |t| == |b| + k;
    assert s[..|a|] == a && t[..|b|] == b;
  }

  // ----- unions

  function BranchTexts(queries: seq<Model>): seq<string>
    requires forall i :: 0 <= i < |queries| ==> BuildOf(queries[i]).Ok?
  {
    seq(|queries|, i requires 0 <= i < |queries| => BuildOf(queries[i]).sql)
  }

  function BranchArgs(queries: seq<Model>): seq<Arg>
    requires forall i :: 0 <= i < |queries| ==> BuildOf(queries[i]).Ok?
  {
    if queries == [] then [] else BranchArgs(queries[..|queries| - 1]) + BuildOf(queries[|queries| - 1]).args
  }

  lemma {:induction false} BranchesBuild(queries: seq<Model>)
    requires BuildBranches(queries).Parts?
    ensures forall i :: 0 <= i < |queries| ==> BuildOf(queries[i]).Ok?
    ensures BuildBranches(queries) == Parts(BranchTexts(queries), BranchArgs(queries))
  {
    hide BuildOf;
    if queries != [] {
      var n := |queries| - 1;
      BranchesBuild(queries[..n]);
      assert forall i :: 0 <= i < n ==> queries[..n][i] == queries[i];
      assert BranchTexts(queries) == BranchTexts(queries[..n]) + [BuildOf(queries[n]).sql];
    }
  }

  /** A union is its branches joined by UNION ALL, then its order and its SETTINGS, word for word. */
  lemma UnionIs(u: UnionModel)
    requires BuildUnion(u).Ok?
    ensures forall i :: 0 <= i < |u.queries| ==> BuildOf(u.queries[i]).Ok?
    ensures BuildUnion(u).sql ==
      Join(BranchTexts(u.queries), "\nUNION ALL\n")
      + (if u.orderBy == [] then "" else "\nORDER BY " + Join(u.orderBy, ", "))
      + if u.settings == [] then "" else "\nSETTINGS " + Join(Pairs(u.settings), ", ")
    ensures BuildUnion(u).args == BranchArgs(u.queries)
  {
    hide Join, BuildBranches, BuildOf;
    BranchSettings(u.queries);
    BranchesBuild(u.queries);
    SettingsAre(u.settings);
  }

  // ----- combined conditions

  /** Two conditions or more are joined by the word and put into parentheses, in order, with their arguments. */
  lemma CombinedTexts(conds: seq<Fragment>)
    requires |Active(conds)| >= 2
    ensures And(conds) == Fragment("(" + Join(Sqls(Active(conds)), " AND ") + ")", ArgsOf(Active(conds)))
    ensures Or(conds) == Fragment("(" + Join(Sqls(Active(conds)), " OR ") + ")", ArgsOf(Active(conds)))
  {
    hide Join, Active;
  }
}
