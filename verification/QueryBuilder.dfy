/** The query builders: objects that collect pieces, and build text and arguments from them. */
module QueryBuilder {
  import opened Basics
  import opened Conditions
  import opened ConditionText
  import opened QueryText
  import SessionState

  // ----- settings

  function Upsert(settings: seq<Setting>, s: Setting): seq<Setting> {
    if settings == [] then [s]
    else if settings[0].key == s.key then [s] + settings[1..]
    else [settings[0]] + Upsert(settings[1..], s)
  }

  /** Replaces the value of an existing key, or appends. */
  method UpsertSetting(settings: seq<Setting>, s: Setting) returns (out: seq<Setting>)
    ensures out == Upsert(settings, s)
  {
    for i := 0 to |settings|
      invariant forall j :: 0 <= j < i ==> settings[j].key != s.key
    {
      if settings[i].key == s.key {
        UpsertAt(settings, s, i);
        return settings[i := s];
      }
    }
    UpsertAtEnd(settings, s);
    return settings + [s];
  }

  lemma {:induction false} UpsertAt(settings: seq<Setting>, s: Setting, i: nat)
    requires i < |settings| && settings[i].key == s.key && forall j :: 0 <= j < i ==> settings[j].key != s.key
    ensures Upsert(settings, s) == settings[i := s]
  {
    if i > 0 { UpsertAt(settings[1..], s, i - 1); }
  }

  lemma {:induction false} UpsertAtEnd(settings: seq<Setting>, s: Setting)
    requires forall j :: 0 <= j < |settings| ==> settings[j].key != s.key
    ensures Upsert(settings, s) == settings + [s]
  {
    if settings != [] {
      UpsertAtEnd(settings[1..], s);
      assert settings == [settings[0]] + settings[1..];
    }
  }

  predicate UniqueKeys(settings: seq<Setting>) {
    forall i, j :: 0 <= i < j < |settings| ==> settings[i].key != settings[j].key
  }

  function Lookup(settings: seq<Setting>, key: string): Option<string> {
    if settings == [] then None
    else if settings[0].key == key then Some(settings[0].value) else Lookup(settings[1..], key)
  }

  lemma {:induction false} UpsertKeys(settings: seq<Setting>, s: Setting)
    ensures forall i :: 0 <= i < |Upsert(settings, s)| ==>
      Upsert(settings, s)[i].key == s.key ||
      exists j :: 0 <= j < |settings| && settings[j].key == Upsert(settings, s)[i].key
  {
    if settings != [] && settings[0].key != s.key {
      UpsertKeys(settings[1..], s);
      forall i | 0 <= i < |Upsert(settings, s)| && Upsert(settings, s)[i].key != s.key
        ensures exists j :: 0 <= j < |settings| && settings[j].key == Upsert(settings, s)[i].key
      {
        if i > 0 {
          var j :| 0 <= j < |settings[1..]| && settings[1..][j].key == Upsert(settings[1..], s)[i - 1].key;
          assert settings[j + 1].key == Upsert(settings, s)[i].key;
        } else {
          assert settings[0] == Upsert(settings, s)[0];
        }
      }
    }
  }

  /** After an upsert a key is listed once and has the new value; the others keep theirs. */
  lemma {:induction false} UpsertSets(settings: seq<Setting>, s: Setting, key: string)
    requires UniqueKeys(settings)
    ensures UniqueKeys(Upsert(settings, s))
    ensures Lookup(Upsert(settings, s), key) == if key == s.key then Some(s.value) else Lookup(settings, key)
  {
    if settings != [] {
      assert UniqueKeys(settings[1..]);
      UpsertSets(settings[1..], s, key);
      UpsertKeys(settings[1..], s);
    }
  }

  lemma {:induction false} UpsertAgain(settings: seq<Setting>, s: Setting, s': Setting)
    requires s.key == s'.key
    ensures Upsert(Upsert(settings, s), s') == Upsert(settings, s')
  {
    if settings != [] && settings[0].key != s.key { UpsertAgain(settings[1..], s, s'); }
  }

  lemma {:induction false} UpsertSame(settings: seq<Setting>, s: Setting)
    requires Lookup(settings, s.key) == Some(s.value)
    ensures Upsert(settings, s) == settings
  {
    if settings[0].key != s.key { UpsertSame(settings[1..], s); }
  }

  lemma {:induction false} UpsertLooksUp(settings: seq<Setting>, s: Setting, key: string)
    ensures Lookup(Upsert(settings, s), key) == if key == s.key then Some(s.value) else Lookup(settings, key)
  {
    if settings != [] { UpsertLooksUp(settings[1..], s, key); }
  }

  function IntSetting(key: string, value: int): Setting { Setting(key, SessionState.FormatInt(value)) }

  function UpsertPair(settings: seq<Setting>, k1: string, v1: int, k2: string, v2: int): seq<Setting> {
    Upsert(Upsert(settings, IntSetting(k1, v1)), IntSetting(k2, v2))
  }

  function Cached(settings: seq<Setting>, ttl: int): seq<Setting> {
    UpsertPair(settings, "use_query_cache", 1, "query_cache_ttl", ttl)
  }

  function Spilled(settings: seq<Setting>, bytes: int): seq<Setting> {
    UpsertPair(settings, "max_bytes_before_external_group_by", bytes, "max_bytes_before_external_sort", bytes)
  }

  /** Turning the cache on again leaves one pair, with the last TTL. */
  lemma CacheLastWins(settings: seq<Setting>, a: int, b: int)
    ensures Cached(Cached(settings, a), b) == Cached(settings, b)
  {
    hide Upsert;
    var use := IntSetting("use_query_cache", 1);
    var ta, tb := IntSetting("query_cache_ttl", a), IntSetting("query_cache_ttl", b);
    var once := Upsert(settings, use);
    assert use.key != ta.key by { assert "use_query_cache"[0] != "query_cache_ttl"[0]; }
    UpsertLooksUp(settings, use, use.key);
    UpsertLooksUp(once, ta, use.key);
    UpsertSame(Upsert(once, ta), use);
    UpsertAgain(once, ta, tb);
  }

  /** What the two calls set, key by key; every other setting stays. */
  lemma SettingsSet(settings: seq<Setting>, n: int, key: string)
    ensures Lookup(Cached(settings, n), key) ==
      if key == "use_query_cache" then Some("1")
      else if key == "query_cache_ttl" then Some(SessionState.FormatInt(n)) else Lookup(settings, key)
    ensures Lookup(Spilled(settings, n), key) ==
      if key == "max_bytes_before_external_group_by" || key == "max_bytes_before_external_sort"
      then Some(SessionState.FormatInt(n)) else Lookup(settings, key)
  {
    hide Upsert, Lookup;
    assert SessionState.FormatInt(1) == "1";
    assert "use_query_cache"[0] != "query_cache_ttl"[0];
    var use, ttl := IntSetting("use_query_cache", 1), IntSetting("query_cache_ttl", n);
    UpsertLooksUp(settings, use, key);
    UpsertLooksUp(Upsert(settings, use), ttl, key);
    var group, sort :=
      IntSetting("max_bytes_before_external_group_by", n), IntSetting("max_bytes_before_external_sort", n);
    UpsertLooksUp(settings, group, key);
    UpsertLooksUp(Upsert(settings, group), sort, key);
  }

  // ----- the builders

  function PlainAll(exprs: seq<string>): seq<Fragment> { seq(|exprs|, i requires 0 <= i < |exprs| => Plain(exprs[i])) }

  lemma PartsSnoc(parts: seq<Fragment>, f: Fragment)
    ensures Sqls(parts + [f]) == Sqls(parts) + [f.sql] && ArgsOf(parts + [f]) == ArgsOf(parts) + f.args
  {
    assert (parts + [f])[..|parts|] == parts;
  }

  lemma {:induction false} PartsAppend(parts: seq<Fragment>, exprs: seq<string>)
    ensures Sqls(parts + PlainAll(exprs)) == Sqls(parts) + exprs && ArgsOf(parts + PlainAll(exprs)) == ArgsOf(parts)
  {
    hide Sqls, ArgsOf;
    if exprs == [] {
      assert Sqls(parts) + exprs == Sqls(parts);
      assert parts + PlainAll(exprs) == parts;
    } else {
      var n := |exprs| - 1;
      var f := Plain(exprs[n]);
      PartsAppend(parts, exprs[..n]);
      PartsSnoc(parts + PlainAll(exprs[..n]), f);
      assert f == Fragment(exprs[n], []);
      assert parts + PlainAll(exprs) == parts + PlainAll(exprs[..n]) + [Plain(exprs[n])];
      assert exprs == exprs[..n] + [exprs[n]];
    }
  }

  lemma NoCtesYet()
    ensures BuildCtes([]) == Ok("", [])
  {
  }

  /** The next round of the CTE loop. */
  function AddCte(done: Built, i: nat, c: Cte): Built {
    match done
    case Ok(sql, args) =>
      if c.sub.settings != [] then Panic
      else
        (match BuildOf(c.sub)
         case Ok(subSql, subArgs) => Ok(sql + CteText(i, c.name, subSql), args + subArgs)
         case Err(e) => Err(InCte(c.name, e))
         case Panic => Panic)
    case failed => failed
  }

  lemma CteStep(ctes: seq<Cte>, i: nat)
    requires i < |ctes|
    ensures BuildCtes(ctes[..i + 1]) == AddCte(BuildCtes(ctes[..i]), i, ctes[i])
  {
    assert ctes[..i + 1][..i] == ctes[..i];
  }

  /** A failure stops the build. */
  lemma {:induction false} CtesStop(m: Model, i: nat)
    requires i <= |m.ctes| && !BuildCtes(m.ctes[..i]).Ok?
    ensures BuildOf(m) == BuildCtes(m.ctes[..i])
    decreases |m.ctes| - i
  {
    if i < |m.ctes| {
      CteStep(m.ctes, i);
      CtesStop(m, i + 1);
    } else {
      assert m.ctes[..i] == m.ctes;
    }
  }

  method NonZero(conds: seq<Fragment>) returns (kept: seq<Fragment>)
    ensures kept == Active(conds)
  {
    kept := [];
    for i := 0 to |conds|
      invariant kept == Active(conds[..i])
    {
      ActiveSnoc(conds, i);
      if !IsZero(conds[i]) { kept := kept + [conds[i]]; }
    }
    assert conds[..|conds|] == conds;
  }

  lemma NoParts(parts: seq<Fragment>)
    ensures |Sqls(parts)| == |parts| && (parts == [] ==> ArgsOf(parts) == [])
  {
  }

  /** The WHERE lines; the stored conditions hold no zero condition, so compacting them changes nothing. */
  method WriteWheres(wheres: seq<Fragment>) returns (sql: string, args: seq<Arg>)
    ensures sql == WhereLines(Active(wheres)) && args == ArgsOf(Active(wheres))
  {
    var active := Active(wheres);
    sql := "";
    args := [];
    assert active[..0] == [];
    for i := 0 to |active|
      invariant sql == WhereLines(active[..i]) && args == ArgsOf(active[..i])
    {
      assert active[..i + 1][..i] == active[..i];
      sql := sql + (if i == 0 then "WHERE " else "AND ") + active[i].sql + "\n";
      args := args + active[i].args;
    }
    assert active[..|active|] == active;
  }

  datatype CteRef = CteRef(name: string, sub: Query)

  class Query {
    var selects: seq<string>
    var selectArgs: seq<Arg>
    var from: string
    var wheres: seq<Fragment>
    var groupBy: seq<string>
    var havings: seq<string>
    var havingArgs: seq<Arg>
    var orderBy: seq<string>
    var limit: Option<int>
    var ctes: seq<CteRef>
    var settings: seq<Setting>
    /** Which arguments were given with which expression. */
    ghost var selectParts: seq<Fragment>
    ghost var havingParts: seq<Fragment>
    ghost var Repr: set<object>

    ghost predicate Valid()
      reads this, Repr
      decreases Repr + {this}
    {
      && this in Repr && Own()
      && forall i :: 0 <= i < |ctes| ==>
           ctes[i].sub in Repr && ctes[i].sub.Repr <= Repr && this !in ctes[i].sub.Repr && ctes[i].sub.Valid()
    }

    /** The fields of this object alone. */
    ghost predicate Own()
      reads this
    {
      && Sqls(selectParts) == selects && ArgsOf(selectParts) == selectArgs
      && Sqls(havingParts) == havings && ArgsOf(havingParts) == havingArgs
      && UniqueKeys(settings)
      && forall i :: 0 <= i < |wheres| ==> !IsZero(wheres[i])
    }

    ghost function CtesOf(): (cs: seq<Cte>)
      requires Valid()
      reads this, Repr
      ensures |cs| == |ctes|
      ensures forall i :: 0 <= i < |ctes| ==> cs[i] == Cte(ctes[i].name, ctes[i].sub.ModelOf())
      decreases Repr + {this}, 0
    {
      seq(|ctes|, i requires 0 <= i < |ctes| && Valid() reads this, Repr => Cte(ctes[i].name, ctes[i].sub.ModelOf()))
    }

    /** The query as it stands, sub-queries as they stand now. */
    ghost function ModelOf(): Model
      requires Valid()
      reads this, Repr
      decreases Repr + {this}, 1
    {
      Model(CtesOf(), selectParts, from, wheres, groupBy, havingParts, orderBy, limit, settings)
    }

    twostate lemma SameOwn()
      requires old(Own()) && selects == old(selects) && selectArgs == old(selectArgs) && wheres == old(wheres)
      requires havings == old(havings) && havingArgs == old(havingArgs) && settings == old(settings)
      requires selectParts == old(selectParts) && havingParts == old(havingParts)
      ensures Own()
    {
    }

    /** Changing this object's other fields leaves its sub-queries alone. */
    twostate lemma SameCtes()
      requires old(Valid()) && ctes == old(ctes) && Repr == old(Repr) && Own() && unchanged(old(Repr) - {this})
      ensures Valid() && CtesOf() == old(CtesOf())
    {
      hide Own;
      forall i | 0 <= i < |ctes|
        ensures ctes[i].sub.Valid() && ctes[i].sub.ModelOf() == old(ctes[i].sub.ModelOf())
      {
        assert old(ctes[i].sub.Valid());
      }
    }

    /** Changing this object leaves the sub-queries it had alone. */
    twostate lemma SubsStay()
      requires old(Valid()) && unchanged(old(Repr) - {this})
      ensures forall i :: 0 <= i < |old(ctes)| ==>
        var sub := old(ctes)[i].sub;
        sub.Valid() && sub.Repr == old(sub.Repr) && sub.ModelOf() == old(sub.ModelOf())
    {
      hide Own;
      forall i | 0 <= i < |old(ctes)|
        ensures var sub := old(ctes)[i].sub;
          sub.Valid() && sub.Repr == old(sub.Repr) && sub.ModelOf() == old(sub.ModelOf())
      {
        assert old(ctes[i].sub.Valid());
      }
    }

    constructor ()
      ensures Valid() && fresh(Repr) && ModelOf() == Model([], [], "", [], [], [], [], None, [])
    {
      selects, selectArgs, from, wheres, groupBy := [], [], "", [], [];
      havings, havingArgs, orderBy, limit, ctes, settings := [], [], [], None, [], [];
      selectParts, havingParts, Repr := [], [], {this};
    }

    method Select(exprs: seq<string>)
      requires Valid()
      modifies this
      ensures Valid() && Repr == old(Repr)
      ensures ModelOf() == old(ModelOf()).(selects := old(ModelOf()).selects + PlainAll(exprs))
    {
      PartsAppend(selectParts, exprs);
      selects := selects + exprs;
      selectParts := selectParts + PlainAll(exprs);
      SameCtes();
    }

    method SelectExpr(expr: string, args: seq<Arg>)
      requires Valid()
      modifies this
      ensures Valid() && Repr == old(Repr)
      ensures ModelOf() == old(ModelOf()).(selects := old(ModelOf()).selects + [Fragment(expr, args)])
    {
      PartsSnoc(selectParts, Fragment(expr, args));
      selects := selects + [expr];
      selectArgs := selectArgs + args;
      selectParts := selectParts + [Fragment(expr, args)];
      SameCtes();
    }

    method From(table: string)
      requires Valid()
      modifies this
      ensures Valid() && Repr == old(Repr)
      ensures ModelOf() == old(ModelOf()).(from := table)
    {
      from := table;
      SameCtes();
    }

    /** Zero conditions are skipped. */
    method Where(conds: seq<Fragment>)
      requires Valid()
      modifies this
      ensures Valid() && Repr == old(Repr)
      ensures ModelOf() == old(ModelOf()).(wheres := old(ModelOf()).wheres + Active(conds))
    {
      var added := NonZero(conds);
      ActiveBound(conds);
      wheres := wheres + added;
      SameCtes();
    }

    method GroupBy(cols: seq<string>)
      requires Valid()
      modifies this
      ensures Valid() && Repr == old(Repr)
      ensures ModelOf() == old(ModelOf()).(groupBy := old(ModelOf()).groupBy + cols)
    {
      groupBy := groupBy + cols;
      SameCtes();
    }

    /** Having is HavingExpr without arguments. */
    method HavingExpr(expr: string, args: seq<Arg>)
      requires Valid()
      modifies this
      ensures Valid() && Repr == old(Repr)
      ensures ModelOf() == old(ModelOf()).(havings := old(ModelOf()).havings + [Fragment(expr, args)])
    {
      PartsSnoc(havingParts, Fragment(expr, args));
      havings := havings + [expr];
      havingArgs := havingArgs + args;
      havingParts := havingParts + [Fragment(expr, args)];
      SameCtes();
    }

    method OrderBy(exprs: seq<string>)
      requires Valid()
      modifies this
      ensures Valid() && Repr == old(Repr)
      ensures ModelOf() == old(ModelOf()).(orderBy := old(ModelOf()).orderBy + exprs)
    {
      orderBy := orderBy + exprs;
      SameCtes();
    }

    method Limit(n: int)
      requires Valid()
      modifies this
      ensures Valid() && Repr == old(Repr)
      ensures ModelOf() == old(ModelOf()).(limit := Some(n))
    {
      limit := Some(n);
      SameCtes();
    }

    method SetPair(k1: string, v1: int, k2: string, v2: int)
      requires Valid()
      modifies this
      ensures Valid() && Repr == old(Repr)
      ensures ModelOf() == old(ModelOf()).(settings := UpsertPair(old(ModelOf()).settings, k1, v1, k2, v2))
    {
      var once := UpsertSetting(settings, IntSetting(k1, v1));
      var twice := UpsertSetting(once, IntSetting(k2, v2));
      UpsertSets(settings, IntSetting(k1, v1), k1);
      UpsertSets(once, IntSetting(k2, v2), k2);
      settings := twice;
      SameCtes();
    }

    method DisableTopKDynamicFiltering()
      requires Valid()
      modifies this
      ensures Valid() && Repr == old(Repr)
      ensures ModelOf() == old(ModelOf()).(settings :=
        Upsert(old(ModelOf()).settings, IntSetting("use_top_k_dynamic_filtering", 0)))
    {
      var s := IntSetting("use_top_k_dynamic_filtering", 0);
      var once := UpsertSetting(settings, s);
      UpsertSets(settings, s, s.key);
      settings := once;
      SameCtes();
    }

    /** A TTL that is not positive panics. */
    method WithQueryCache(ttlSeconds: int) returns (panicked: bool)
      requires Valid()
      modifies this
      ensures Valid() && Repr == old(Repr) && panicked == (ttlSeconds <= 0)
      ensures ModelOf() ==
        if panicked then old(ModelOf()) else old(ModelOf()).(settings := Cached(old(ModelOf()).settings, ttlSeconds))
    {
      if ttlSeconds <= 0 { return true; }
      SetPair("use_query_cache", 1, "query_cache_ttl", ttlSeconds);
      panicked := false;
    }

    method WithSpillThreshold(thresholdBytes: int) returns (panicked: bool)
      requires Valid()
      modifies this
      ensures Valid() && Repr == old(Repr) && panicked == (thresholdBytes <= 0)
      ensures ModelOf() ==
        if panicked then old(ModelOf())
        else old(ModelOf()).(settings := Spilled(old(ModelOf()).settings, thresholdBytes))
    {
      if thresholdBytes <= 0 { return true; }
      SetPair("max_bytes_before_external_group_by", thresholdBytes, "max_bytes_before_external_sort", thresholdBytes);
      panicked := false;
    }

    /** The sub-query is held by reference: it counts as it stands when this query is built. */
    method With(name: string, sub: Query)
      requires Valid() && sub.Valid() && this !in sub.Repr
      modifies this
      ensures Valid() && Repr == old(Repr) + sub.Repr
      ensures sub.Valid() && sub.ModelOf() == old(sub.ModelOf())
      ensures ModelOf() == old(ModelOf()).(ctes := old(ModelOf()).ctes + [Cte(name, sub.ModelOf())])
    {
      hide Own;
      ghost var models := CtesOf();
      ctes := ctes + [CteRef(name, sub)];
      Repr := Repr + sub.Repr;
      SubsStay();
      assert Own() by { SameOwn(); }
      assert Valid();
      assert CtesOf() == models + [Cte(name, sub.ModelOf())];
    }

    /** Everything after the CTEs. */
    method BuildMain(ctesSql: string, ctesArgs: seq<Arg>) returns (b: Built)
      requires Valid() && BuildCtes(ModelOf().ctes) == Ok(ctesSql, ctesArgs)
      ensures b == BuildOf(ModelOf())
    {
      hide BuildCtes, TrimNewlines, SettingsText, Join, WhereLines, Active, Sqls, ArgsOf, CtesOf, UniqueKeys, IsZero;
      ghost var m := ModelOf();
      NoParts(selectParts);
      NoParts(havingParts);
      if |selects| == 0 { return Err(NoSelects); }
      if from == "" { return Err(NoFrom); }
      var whereSql, whereArgs := WriteWheres(wheres);
      var sb := "SELECT " + Join(selects, ",\n") + "\n" + ("FROM " + from + "\n") + whereSql
        + Clause("GROUP BY ", groupBy, ", ") + Clause("HAVING ", havings, " AND ") + Clause("ORDER BY ", orderBy, ", ")
        + (if limit.Some? then "LIMIT ?" else "");
      var args := selectArgs + whereArgs + (if |havings| > 0 then havingArgs else [])
        + (if limit.Some? then [Number(limit.value)] else []);
      assert sb == Body(m);
      assert args == BodyArgs(m);
      b := Ok(TrimNewlines(ctesSql + sb) + SettingsText(settings), ctesArgs + args);
    }

    /** Building changes nothing, so building twice gives the same. */
    method Build() returns (b: Built)
      requires Valid()
      ensures b == BuildOf(ModelOf())
      decreases Repr + {this}
    {
      hide BuildOf, BuildCtes, CteText, Own, UniqueKeys;
      ghost var m := ModelOf();
      var sb := "";
      var args: seq<Arg> := [];
      NoCtesYet();
      assert m.ctes[..0] == [];
      for i := 0 to |ctes|
        invariant BuildCtes(m.ctes[..i]) == Ok(sb, args)
      {
        var c := ctes[i];
        CteStep(m.ctes, i);
        if |c.sub.settings| > 0 {
          CtesStop(m, i + 1);
          return Panic;
        }
        var sub := c.sub.Build();
        match sub {
          case Ok(subSql, subArgs) =>
            sb := sb + CteText(i, c.name, subSql);
            args := args + subArgs;
          case Err(e) =>
            CtesStop(m, i + 1);
            return Err(InCte(c.name, e));
          case Panic =>
            CtesStop(m, i + 1);
            return Panic;
        }
      }
      assert m.ctes[..|ctes|] == m.ctes;
      b := BuildMain(sb, args);
    }
  }

  /** A failed branch stops the build of a union. */
  lemma {:induction false} BranchesStop(queries: seq<Model>, i: nat)
    requires i <= |queries| && BuildBranches(queries[..i]).Failed?
    ensures BuildBranches(queries) == BuildBranches(queries[..i])
    decreases |queries| - i
  {
    if i < |queries| {
      BranchNext(queries, i);
      BranchesStop(queries, i + 1);
    } else {
      assert queries[..i] == queries;
    }
  }

  lemma BranchNext(queries: seq<Model>, i: nat)
    requires i < |queries|
    ensures BuildBranches(queries[..i + 1]) == AddBranch(BuildBranches(queries[..i]), i, queries[i])
  {
    assert queries[..i + 1][..i] == queries[..i];
  }

  class UnionQuery {
    var queries: seq<Query>
    var orderBy: seq<string>
    var settings: seq<Setting>
    ghost var Repr: set<object>

    ghost predicate Valid()
      reads this, Repr
    {
      && this in Repr && UniqueKeys(settings)
      && forall i :: 0 <= i < |queries| ==>
           queries[i] in Repr && queries[i].Repr <= Repr && this !in queries[i].Repr && queries[i].Valid()
    }

    ghost function BranchesOf(): (ms: seq<Model>)
      requires Valid()
      reads this, Repr
      ensures |ms| == |queries| && forall i :: 0 <= i < |queries| ==> ms[i] == queries[i].ModelOf()
    {
      seq(|queries|, i requires 0 <= i < |queries| && Valid() reads this, Repr => queries[i].ModelOf())
    }

    ghost function ModelOf(): UnionModel
      requires Valid()
      reads this, Repr
    {
      UnionModel(BranchesOf(), orderBy, settings)
    }

    /** The branches are held by reference: they count as they stand when the union is built. */
    constructor (branches: seq<Query>, ghost footprint: set<object>)
      requires forall i :: 0 <= i < |branches| ==>
        branches[i] in footprint && branches[i].Repr <= footprint && branches[i].Valid()
      ensures Valid() && Repr == footprint + {this}
      ensures queries == branches && orderBy == [] && settings == []
    {
      queries, orderBy, settings, Repr := branches, [], [], footprint + {this};
    }

    twostate lemma SameBranches()
      requires old(Valid()) && queries == old(queries) && Repr == old(Repr) && unchanged(old(Repr) - {this})
      requires UniqueKeys(settings)
      ensures Valid() && BranchesOf() == old(BranchesOf())
    {
      forall i | 0 <= i < |queries|
        ensures queries[i].Valid() && queries[i].ModelOf() == old(queries[i].ModelOf())
      {
        assert old(queries[i].Valid());
      }
    }

    method OrderBy(exprs: seq<string>)
      requires Valid()
      modifies this
      ensures Valid() && Repr == old(Repr)
      ensures ModelOf() == old(ModelOf()).(orderBy := old(ModelOf()).orderBy + exprs)
    {
      orderBy := orderBy + exprs;
      SameBranches();
    }

    method WithQueryCache(ttlSeconds: int) returns (panicked: bool)
      requires Valid()
      modifies this
      ensures Valid() && Repr == old(Repr) && panicked == (ttlSeconds <= 0)
      ensures ModelOf() ==
        if panicked then old(ModelOf()) else old(ModelOf()).(settings := Cached(old(ModelOf()).settings, ttlSeconds))
    {
      if ttlSeconds <= 0 { return true; }
      var use, ttl := IntSetting("use_query_cache", 1), IntSetting("query_cache_ttl", ttlSeconds);
      var once := UpsertSetting(settings, use);
      var twice := UpsertSetting(once, ttl);
      UpsertSets(settings, use, use.key);
      UpsertSets(once, ttl, ttl.key);
      settings := twice;
      SameBranches();
      panicked := false;
    }

    method Build() returns (b: Built)
      requires Valid()
      ensures b == BuildUnion(ModelOf())
    {
      hide BuildOf, BuildBranches, UnionOrder, SettingsText, Join;
      ghost var ms := ModelOf().queries;
      if |queries| == 0 { return Err(NoQueries); }
      var parts: seq<string> := [];
      var args: seq<Arg> := [];
      NoBranchesYet();
      assert ms[..0] == [];
      for i := 0 to |queries|
        invariant BuildBranches(ms[..i]) == Parts(parts, args)
      {
        var q := queries[i];
        BranchNext(ms, i);
        if |q.settings| > 0 {
          BranchesStop(ms, i + 1);
          return Panic;
        }
        var part := q.Build();
        match part {
          case Ok(sql, qArgs) =>
            parts := parts + [sql];
            args := args + qArgs;
          case Err(e) =>
            BranchesStop(ms, i + 1);
            return Err(InBranch(i, e));
          case Panic =>
            BranchesStop(ms, i + 1);
            return Panic;
        }
      }
      assert ms[..|queries|] == ms;
      b := Ok(Join(parts, "\nUNION ALL\n") + UnionOrder(orderBy) + SettingsText(settings), args);
    }
  }

  lemma NoBranchesYet()
    ensures BuildBranches([]) == Parts([], [])
  {
  }
}
