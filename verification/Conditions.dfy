/** SQL conditions and how they are combined. */
module Conditions {
  import opened Basics

  datatype Arg = Text(text: string) | Number(n: int)

  /** A piece of SQL with its positional arguments; a Condition is one, and so is a SELECT or HAVING
      expression. A piece without text is a zero condition. */
  datatype Fragment = Fragment(sql: string, args: seq<Arg>)

  const ZERO := Fragment("", [])

  predicate IsZero(c: Fragment) { c.sql == "" }

  function Compare(col: string, op: string, val: Arg): Fragment { Fragment(col + " " + op + " ?", [val]) }

  function Eq(col: string, val: Arg): Fragment { Compare(col, "=", val) }

  function Lt(col: string, val: Arg): Fragment { Compare(col, "<", val) }

  function Repeat(s: string, n: nat): string { if n == 0 then "" else Repeat(s, n - 1) + s }

  /** No values match nothing, rather than a zero condition, which would match everything. */
  function In(col: string, vals: seq<string>): Fragment {
    if vals == [] then Fragment("0", [])
    else Fragment(col + " IN (" + Repeat("?, ", |vals| - 1) + "?)",
                  seq(|vals|, i requires 0 <= i < |vals| => Text(vals[i])))
  }

  function When(ok: bool, c: Fragment): Fragment { if ok then c else ZERO }

  function Active(conds: seq<Fragment>): seq<Fragment> {
    if conds == [] then []
    else Active(conds[..|conds| - 1]) + if IsZero(conds[|conds| - 1]) then [] else [conds[|conds| - 1]]
  }

  function Sqls(conds: seq<Fragment>): seq<string> { seq(|conds|, i requires 0 <= i < |conds| => conds[i].sql) }

  function ArgsOf(conds: seq<Fragment>): seq<Arg> {
    if conds == [] then [] else ArgsOf(conds[..|conds| - 1]) + conds[|conds| - 1].args
  }

  function JoinWith(op: string, conds: seq<Fragment>): Fragment {
    Fragment("(" + Join(Sqls(conds), op) + ")", ArgsOf(conds))
  }

  function Combine(op: string, conds: seq<Fragment>): Fragment {
    var active := Active(conds);
    if |active| == 0 then ZERO else if |active| == 1 then active[0] else JoinWith(op, active)
  }

  function And(conds: seq<Fragment>): Fragment { Combine(" AND ", conds) }

  function Or(conds: seq<Fragment>): Fragment { Combine(" OR ", conds) }

  // ----- compaction in place

  lemma {:induction false} ActiveLength(conds: seq<Fragment>)
    ensures |Active(conds)| <= |conds|
  {
    if conds != [] { ActiveLength(conds[..|conds| - 1]); }
  }

  lemma {:induction false} ActiveBound(conds: seq<Fragment>)
    ensures |Active(conds)| <= |conds|
    ensures forall c :: c in Active(conds) <==> c in conds && !IsZero(c)
  {
    if conds != [] {
      var n := |conds| - 1;
      ActiveBound(conds[..n]);
      assert conds == conds[..n] + [conds[n]];
    }
  }

  lemma ActiveSnoc(conds: seq<Fragment>, k: nat)
    requires k < |conds|
    ensures Active(conds[..k + 1]) == Active(conds[..k]) + if IsZero(conds[k]) then [] else [conds[k]]
  {
    assert conds[..k + 1][..k] == conds[..k];
  }

  /** Writes the non-zero conditions to the front of the caller's own slice and leaves what was behind them. */
  method FilterZero(conds: array<Fragment>) returns (n: nat)
    modifies conds
    ensures n <= conds.Length && conds[..n] == Active(old(conds[..]))
    ensures conds[n..] == old(conds[n..])
  {
    n := 0;
    ghost var was := conds[..];
    for k := 0 to conds.Length
      invariant n <= k
      invariant conds[..n] == Active(was[..k])
      invariant conds[n..] == was[n..]
    {
      ActiveSnoc(was, k);
      var c := conds[k];
      assert c == conds[n..][k - n] == was[k];
      if !IsZero(c) {
        ghost var before := conds[..];
        conds[n] := c;
        assert conds[..n] == before[..n] && conds[n + 1..] == before[n + 1..] == was[n + 1..];
        assert conds[..n + 1] == conds[..n] + [c];
        n := n + 1;
      }
    }
    assert was[..conds.Length] == was;
  }

  /** A zero condition stands in front of a non-zero one. */
  ghost predicate HasHole(conds: seq<Fragment>) {
    exists i, j :: 0 <= i < j < |conds| && IsZero(conds[i]) && !IsZero(conds[j])
  }

  /** The caller's slice after a compaction. */
  function Compacted(conds: seq<Fragment>): (after: seq<Fragment>)
    ensures |after| == |conds|
  {
    ActiveBound(conds);
    Active(conds) + conds[|Active(conds)|..]
  }

  lemma {:induction false} ActiveOfActive(conds: seq<Fragment>)
    requires forall i :: 0 <= i < |conds| ==> !IsZero(conds[i])
    ensures Active(conds) == conds
  {
    if conds != [] {
      ActiveOfActive(conds[..|conds| - 1]);
      assert conds == conds[..|conds| - 1] + [conds[|conds| - 1]];
    }
  }

  lemma {:induction false} ActiveAppend(a: seq<Fragment>, b: seq<Fragment>)
    ensures Active(a + b) == Active(a) + Active(b)
  {
    if b == [] {
      assert a + b == a;
    } else {
      ActiveAppend(a, b[..|b| - 1]);
      assert (a + b)[..|a + b| - 1] == a + b[..|b| - 1];
    }
  }

  lemma {:induction false} NoActive(conds: seq<Fragment>)
    ensures Active(conds) == [] <==> forall i :: 0 <= i < |conds| ==> IsZero(conds[i])
  {
    if conds != [] {
      NoActive(conds[..|conds| - 1]);
      assert forall i :: 0 <= i < |conds| - 1 ==> conds[..|conds| - 1][i] == conds[i];
    }
  }

  lemma {:induction false} ActiveShorter(conds: seq<Fragment>, i: nat)
    requires i < |conds| && IsZero(conds[i])
    ensures |Active(conds)| < |conds|
  {
    var n := |conds| - 1;
    ActiveLength(conds[..n]);
    if i < n { ActiveShorter(conds[..n], i); }
  }

  function FirstZero(conds: seq<Fragment>): (p: nat)
    ensures p <= |conds| && (forall i :: 0 <= i < p ==> !IsZero(conds[i]))
    ensures p < |conds| ==> IsZero(conds[p])
  {
    if conds == [] || IsZero(conds[0]) then 0 else 1 + FirstZero(conds[1..])
  }

  lemma SplitActive(conds: seq<Fragment>, n: nat)
    requires n <= |conds|
    ensures Active(conds) == Active(conds[..n]) + Active(conds[n..])
    ensures Active(conds[n..]) == [] <==> forall i :: n <= i < |conds| ==> IsZero(conds[i])
  {
    hide Active, IsZero;
    ActiveAppend(conds[..n], conds[n..]);
    assert conds == conds[..n] + conds[n..];
    NoActive(conds[n..]);
    assert forall i :: n <= i < |conds| ==> conds[i] == conds[n..][i - n];
    assert forall i :: 0 <= i < |conds| - n ==> conds[n..][i] == conds[n + i];
  }

  lemma NoHoleIsPrefix(conds: seq<Fragment>)
    requires !HasHole(conds)
    ensures |Active(conds)| <= |conds| && Active(conds[|Active(conds)|..]) == []
  {
    hide Active, IsZero;
    var p := FirstZero(conds);
    SplitActive(conds, p);
    ActiveOfActive(conds[..p]);
  }

  lemma HoleLeavesMore(conds: seq<Fragment>)
    requires HasHole(conds) && |Active(conds)| <= |conds|
    ensures Active(conds[|Active(conds)|..]) != []
  {
    hide Active, IsZero;
    var n := |Active(conds)|;
    SplitActive(conds, n);
    var i, j :| 0 <= i < j < |conds| && IsZero(conds[i]) && !IsZero(conds[j]);
    if j < n { ActiveShorter(conds[..n], i); }
  }

  /** Combining one slice a second time sees the same conditions exactly when no zero condition stood in front
      of a non-zero one; otherwise the compaction has duplicated some. */
  lemma SecondCallAgreesExactly(conds: seq<Fragment>)
    ensures Active(Compacted(conds)) == Active(conds) <==> !HasHole(conds)
  {
    var active := Active(conds);
    ActiveBound(conds);
    ActiveOfActive(active);
    ActiveAppend(active, conds[|active|..]);
    if HasHole(conds) {
      HoleLeavesMore(conds);
    } else {
      NoHoleIsPrefix(conds);
    }
  }

  /** The smallest such slice: the second combination holds the condition twice. */
  lemma SecondCallDuplicates(c: Fragment)
    requires !IsZero(c)
    ensures And([ZERO, c]) == c && Compacted([ZERO, c]) == [c, c]
    ensures And(Compacted([ZERO, c])) == JoinWith(" AND ", [c, c])
  {
    var slice := [ZERO, c];
    assert slice[..1] == [ZERO] && slice[..1][..0] == [];
    assert Active(slice[..1]) == [];
    assert Active(slice) == [c];
    ActiveOfActive([c, c]);
  }

  /** A condition that is off is as if it were not written. */
  lemma WhenOffIsDropped(ok: bool, c: Fragment, front: seq<Fragment>, back: seq<Fragment>, op: string)
    ensures Combine(op, front + [When(ok, c)] + back) == Combine(op, front + (if ok then [c] else []) + back)
  {
    ActiveAppend(front + [When(ok, c)], back);
    ActiveAppend(front, [When(ok, c)]);
    ActiveAppend(front + (if ok then [c] else []), back);
    ActiveAppend(front, if ok then [c] else []);
    assert Active([ZERO]) == Active([]) by { assert [ZERO][..0] == []; }
  }
}
