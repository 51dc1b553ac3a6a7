/** Query builds: the text and positional arguments of a query with its CTEs and of a union, and that the i-th
    placeholder of the text is bound to the i-th argument. */
module QueryText {
  import opened Basics
  import opened Conditions
  import ConditionText

  datatype Setting = Setting(key: string, value: string)

  datatype Cte = Cte(name: string, sub: Model)

  datatype Model = Model(ctes: seq<Cte>, selects: seq<Fragment>, from: string, wheres: seq<Fragment>,
                         groupBy: seq<string>, havings: seq<Fragment>, orderBy: seq<string>, limit: Option<int>,
                         settings: seq<Setting>)

  datatype BuildError =
    | NoSelects | NoFrom | NoQueries
    | InCte(name: string, cause: BuildError) | InBranch(index: nat, cause: BuildError)

  /** Panic: SETTINGS on a query that is not the outermost. */
  datatype Built = Ok(sql: string, args: seq<Arg>) | Err(error: BuildError) | Panic

  // ----- the clauses

  function TrimNewlines(s: string): string {
    if s != "" && s[|s| - 1] == '\n' then TrimNewlines(s[..|s| - 1]) else s
  }

  function Clause(word: string, exprs: seq<string>, sep: string): string {
    if exprs == [] then "" else word + Join(exprs, sep) + "\n"
  }

  function Formats(settings: seq<Setting>): seq<string> {
    seq(|settings|, i requires 0 <= i < |settings| => settings[i].key + " = " + settings[i].value)
  }

  function SettingsText(settings: seq<Setting>): string {
    if settings == [] then "" else "\nSETTINGS " + Join(Formats(settings), ", ")
  }

  function LimitPart(m: Model): Fragment {
    match m.limit case None => ZERO case Some(n) => Fragment("LIMIT ?", [Number(n)])
  }

  function Cat(a: Fragment, b: Fragment): Fragment { Fragment(a.sql + b.sql, a.args + b.args) }

  function Plain(s: string): Fragment { Fragment(s, []) }

  function Body(m: Model): string {
    "SELECT " + Join(Sqls(m.selects), ",\n") + "\n"
    + ("FROM " + m.from + "\n")
    + ConditionText.WhereLines(Active(m.wheres))
    + Clause("GROUP BY ", m.groupBy, ", ")
    + Clause("HAVING ", Sqls(m.havings), " AND ")
    + Clause("ORDER BY ", m.orderBy, ", ")
    + LimitPart(m).sql
  }

  function BodyArgs(m: Model): seq<Arg> {
    ArgsOf(m.selects) + ArgsOf(Active(m.wheres)) + ArgsOf(m.havings) + LimitPart(m).args
  }

  // ----- the build

  function BuildOf(m: Model): Built
    decreases m, 1
  {
    match BuildCtes(m.ctes)
    case Ok(sql, args) =>
      if m.selects == [] then Err(NoSelects)
      else if m.from == "" then Err(NoFrom)
      else Ok(TrimNewlines(sql + Body(m)) + SettingsText(m.settings), args + BodyArgs(m))
    case failed => failed
  }

  function BuildCtes(ctes: seq<Cte>): Built
    decreases ctes, 0
  {
    if ctes == [] then Ok("", [])
    else
      var n := |ctes| - 1;
      match BuildCtes(ctes[..n])
      case Ok(sql, args) =>
        if ctes[n].sub.settings != [] then Panic
        else
          (match BuildOf(ctes[n].sub)
           case Ok(subSql, subArgs) => Ok(sql + CteText(n, ctes[n].name, subSql), args + subArgs)
           case Err(e) => Err(InCte(ctes[n].name, e))
           case Panic => Panic)
      case failed => failed
  }

  function CteText(i: nat, name: string, sql: string): string {
    (if i == 0 then "WITH " else ", ") + name + " AS (\n" + sql + "\n)\n"
  }

  datatype UnionModel = UnionModel(queries: seq<Model>, orderBy: seq<string>, settings: seq<Setting>)

  datatype Branches = Parts(sqls: seq<string>, args: seq<Arg>) | Failed(built: Built)

  function AddBranch(done: Branches, i: nat, q: Model): Branches {
    match done
    case Failed(b) => done
    case Parts(sqls, args) =>
      if q.settings != [] then Failed(Panic)
      else
        match BuildOf(q)
        case Ok(sql, qArgs) => Parts(sqls + [sql], args + qArgs)
        case Err(e) => Failed(Err(InBranch(i, e)))
        case Panic => Failed(Panic)
  }

  function BuildBranches(queries: seq<Model>): Branches {
    if queries == [] then Parts([], [])
    else AddBranch(BuildBranches(queries[..|queries| - 1]), |queries| - 1, queries[|queries| - 1])
  }

  function UnionOrder(orderBy: seq<string>): string {
    if orderBy == [] then "" else "\nORDER BY " + Join(orderBy, ", ")
  }

  function BuildUnion(u: UnionModel): Built {
    if u.queries == [] then Err(NoQueries)
    else
      match BuildBranches(u.queries)
      case Failed(b) => b
      case Parts(sqls, args) => Ok(Join(sqls, "\nUNION ALL\n") + UnionOrder(u.orderBy) + SettingsText(u.settings), args)
  }

  // ----- SETTINGS stand only at the very end

  /** Every query has its SELECT and FROM, and none below the outermost has SETTINGS. */
  predicate Complete(m: Model)
    decreases m, 1
  {
    m.selects != [] && m.from != "" && CompleteCtes(m.ctes)
  }

  predicate CompleteCtes(ctes: seq<Cte>)
    decreases ctes, 0
  {
    ctes == [] ||
    (CompleteCtes(ctes[..|ctes| - 1]) && ctes[|ctes| - 1].sub.settings == [] && Complete(ctes[|ctes| - 1].sub))
  }

  /** The query without any SETTINGS, at any depth. */
  function Bare(m: Model): (b: Model)
    ensures b.settings == [] && b.selects == m.selects && b.from == m.from && Body(b) == Body(m)
    ensures BodyArgs(b) == BodyArgs(m)
    decreases m, 1
  {
    m.(settings := [], ctes := BareCtes(m.ctes))
  }

  function BareCtes(ctes: seq<Cte>): (b: seq<Cte>)
    ensures |b| == |ctes|
    decreases ctes, 0
  {
    if ctes == [] then []
    else BareCtes(ctes[..|ctes| - 1]) + [Cte(ctes[|ctes| - 1].name, Bare(ctes[|ctes| - 1].sub))]
  }

  /** A build succeeds exactly on complete queries, and then SETTINGS are a suffix: the rest of the text, and all
      arguments, are those of the query that has no SETTINGS anywhere. */
  lemma {:induction false} SettingsAreLast(m: Model)
    ensures BuildOf(m).Ok? <==> Complete(m)
    ensures BuildOf(m).Ok? ==>
      BuildOf(Bare(m)).Ok? && BuildOf(m).args == BuildOf(Bare(m)).args &&
      BuildOf(m).sql == BuildOf(Bare(m)).sql + SettingsText(m.settings)
    decreases m, 1
  {
    hide Body, BodyArgs;
    CteSettings(m.ctes);
  }

  lemma {:induction false} CteSettings(ctes: seq<Cte>)
    ensures BuildCtes(ctes).Ok? <==> CompleteCtes(ctes)
    ensures BuildCtes(ctes).Ok? ==> BuildCtes(BareCtes(ctes)) == BuildCtes(ctes)
    decreases ctes, 0
  {
    hide Body, BodyArgs, BuildOf, CteText, SettingsText;
    if ctes != [] {
      var n := |ctes| - 1;
      CteSettings(ctes[..n]);
      SettingsAreLast(ctes[n].sub);
      NoSettingsNoText();
      assert BareCtes(ctes)[..n] == BareCtes(ctes[..n]);
    }
  }

  lemma NoSettingsNoText()
    ensures SettingsText([]) == ""
    ensures forall s: string :: s + "" == s
  {
  }

  /** The same for a union: it builds exactly when it has a branch and every branch is complete and has no
      SETTINGS of its own. */
  lemma UnionSettingsAreLast(u: UnionModel)
    ensures BuildUnion(u).Ok? <==> u.queries != [] && CompleteBranches(u.queries)
    ensures BuildUnion(u).Ok? ==>
      var bare := UnionModel(BareAll(u.queries), u.orderBy, []);
      BuildUnion(bare).Ok? && BuildUnion(u).args == BuildUnion(bare).args &&
      BuildUnion(u).sql == BuildUnion(bare).sql + SettingsText(u.settings)
  {
    hide BuildBranches;
    BranchSettings(u.queries);
    NoSettingsNoText();
  }

  predicate CompleteBranches(queries: seq<Model>) {
    forall i :: 0 <= i < |queries| ==> queries[i].settings == [] && Complete(queries[i])
  }

  function BareAll(queries: seq<Model>): seq<Model> {
    seq(|queries|, i requires 0 <= i < |queries| => Bare(queries[i]))
  }

  lemma {:induction false} BranchSettings(queries: seq<Model>)
    ensures BuildBranches(queries).Parts? <==> CompleteBranches(queries)
    ensures BuildBranches(queries).Failed? ==> !BuildBranches(queries).built.Ok?
    ensures BuildBranches(queries).Parts? ==> BuildBranches(BareAll(queries)) == BuildBranches(queries)
  {
    hide Complete, AddBranch, Bare, CompleteBranches;
    if queries == [] {
      NoBranches();
    } else {
      var n := |queries| - 1;
      BranchSettings(queries[..n]);
      BranchStep(BuildBranches(queries[..n]), n, queries[n]);
      CompleteSnoc(queries);
      assert BareAll(queries)[..n] == BareAll(queries[..n]);
    }
  }

  lemma NoBranches()
    ensures CompleteBranches([]) && BareAll([]) == []
  {
  }

  lemma CompleteSnoc(queries: seq<Model>)
    requires queries != []
    ensures var n := |queries| - 1;
      CompleteBranches(queries) <==> CompleteBranches(queries[..n]) && queries[n].settings == [] && Complete(queries[n])
  {
    hide Complete;
  }

  lemma BranchStep(done: Branches, i: nat, q: Model)
    requires done.Failed? ==> !done.built.Ok?
    ensures AddBranch(done, i, q).Parts? <==> done.Parts? && q.settings == [] && Complete(q)
    ensures AddBranch(done, i, q).Failed? ==> !AddBranch(done, i, q).built.Ok?
    ensures AddBranch(done, i, q).Parts? ==> AddBranch(done, i, Bare(q)) == AddBranch(done, i, q)
  {
    hide Complete, BuildOf, SettingsText;
    SettingsAreLast(q);
    NoSettingsNoText();
  }

  // ----- placeholders and arguments

  function Holes(sql: string): nat {
    if sql == "" then 0 else Holes(sql[..|sql| - 1]) + if sql[|sql| - 1] == '?' then 1 else 0
  }

  /** What the driver sends: the i-th '?' of the text stands for the i-th argument, written by `lit`. */
  function Bind(sql: string, args: seq<Arg>, lit: Arg -> string): string {
    if sql == "" then ""
    else
      var n := |sql| - 1;
      if sql[n] != '?' then Bind(sql[..n], args, lit) + [sql[n]]
      else if args == [] then Bind(sql[..n], [], lit) + "?"
      else Bind(sql[..n], args[..|args| - 1], lit) + lit(args[|args| - 1])
  }

  /** A piece has as many placeholders as arguments. */
  predicate Fits(f: Fragment) { Holes(f.sql) == |f.args| }

  function Bound(f: Fragment, lit: Arg -> string): string { Bind(f.sql, f.args, lit) }

  lemma {:induction false} HolesAppend(a: string, b: string)
    ensures Holes(a + b) == Holes(a) + Holes(b)
  {
    if b == "" {
      assert a + b == a;
    } else {
      HolesAppend(a, b[..|b| - 1]);
      assert (a + b)[..|a + b| - 1] == a + b[..|b| - 1];
    }
  }

  /** Pieces are bound one by one, each to its own arguments. */
  lemma {:induction false} BoundCat(f: Fragment, g: Fragment, lit: Arg -> string)
    requires Fits(f) && Fits(g)
    ensures Fits(Cat(f, g)) && Bound(Cat(f, g), lit) == Bound(f, lit) + Bound(g, lit)
    decreases |g.sql|
  {
    HolesAppend(f.sql, g.sql);
    if g.sql == "" {
      assert f.sql + g.sql == f.sql && f.args + g.args == f.args;
    } else {
      var n := |g.sql| - 1;
      assert (f.sql + g.sql)[..|f.sql + g.sql| - 1] == f.sql + g.sql[..n];
      assert (f.sql + g.sql)[|f.sql + g.sql| - 1] == g.sql[n];
      if g.sql[n] == '?' {
        var k := |g.args| - 1;
        BoundCat(f, Fragment(g.sql[..n], g.args[..k]), lit);
        assert (f.args + g.args)[..|f.args + g.args| - 1] == f.args + g.args[..k];
      } else {
        BoundCat(f, Fragment(g.sql[..n], g.args), lit);
      }
    }
  }

  lemma {:induction false} BoundPlain(s: string, lit: Arg -> string)
    requires Holes(s) == 0
    ensures Bind(s, [], lit) == s
  {
    if s != "" {
      BoundPlain(s[..|s| - 1], lit);
      assert s == s[..|s| - 1] + [s[|s| - 1]];
    }
  }
}
