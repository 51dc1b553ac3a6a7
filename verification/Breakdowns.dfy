/** Breakdown tuples and the map key they are joined into. */
module Breakdowns {
  import opened Basics

  const NUL := "\0"
  const OTHERS := "$others"

  function BreakdownKey(vals: seq<string>): string { Join(vals, NUL) }

  predicate NulFree(vals: seq<string>) {
    forall i :: 0 <= i < |vals| ==> '\0' !in vals[i]
  }

  /** Of two tuples of one arity without a NUL, the joined key tells which it was made from. */
  lemma {:induction false} KeyInjective(a: seq<string>, b: seq<string>)
    requires |a| == |b| && NulFree(a) && NulFree(b) && BreakdownKey(a) == BreakdownKey(b)
    ensures a == b
  {
    if |a| > 1 {
      var key := BreakdownKey(a);
      var ra, rb := BreakdownKey(a[1..]), BreakdownKey(b[1..]);
      assert key == a[0] + NUL + ra && key == b[0] + NUL + rb;
      assert key[|a[0]|] == '\0' && key[|b[0]|] == '\0';
      assert forall i :: 0 <= i < |a[0]| ==> key[i] == a[0][i];
      assert forall i :: 0 <= i < |b[0]| ==> key[i] == b[0][i];
      assert |a[0]| == |b[0]|;
      assert a[0] == key[..|a[0]|] && b[0] == key[..|a[0]|];
      assert ra == key[|a[0]| + 1..] && rb == key[|a[0]| + 1..];
      KeyInjective(a[1..], b[1..]);
      assert a == [a[0]] + a[1..] && b == [b[0]] + b[1..];
    }
  }

  /** Across arities, or with a NUL inside a value, two tuples can share a key. */
  lemma KeyNeedsItsConditions()
    ensures BreakdownKey([]) == BreakdownKey([""])
    ensures BreakdownKey(["a\0b", "c"]) == BreakdownKey(["a", "b\0c"])
  {
    assert "a\0b" + NUL + "c" == "a" + NUL + "b\0c";
  }

  // ----- exactly which tuples their keys name

  function NulCount(s: string): nat { if s == "" then 0 else (if s[0] == '\0' then 1 else 0) + NulCount(s[1..]) }

  lemma {:induction false} NulCountAppend(a: string, b: string)
    ensures NulCount(a + b) == NulCount(a) + NulCount(b)
  {
    if a == "" {
      assert a + b == b;
    } else {
      NulCountAppend(a[1..], b);
      assert (a + b)[1..] == a[1..] + b;
    }
  }

  lemma {:induction false} NoNulCounted(s: string)
    ensures NulCount(s) == 0 <==> '\0' !in s
  {
    if s != "" {
      NoNulCounted(s[1..]);
      assert s == [s[0]] + s[1..];
    }
  }

  /** A key of n values has n - 1 separators, and as many NULs more as the values hold. */
  lemma {:induction false} KeyNuls(vals: seq<string>)
    requires vals != []
    ensures NulCount(BreakdownKey(vals)) >= |vals| - 1
    ensures NulCount(BreakdownKey(vals)) == |vals| - 1 <==> NulFree(vals)
  {
    NoNulCounted(vals[0]);
    if |vals| > 1 {
      KeyNuls(vals[1..]);
      NulCountAppend(vals[0] + NUL, BreakdownKey(vals[1..]));
      NulCountAppend(vals[0], NUL);
      assert NulCount(NUL) == 1 + NulCount(NUL[1..]);
      assert vals == [vals[0]] + vals[1..];
      assert NulFree(vals) <==> '\0' !in vals[0] && NulFree(vals[1..]) by { NulFreeTail(vals); }
    }
  }

  lemma NulFreeTail(vals: seq<string>)
    requires vals != []
    ensures NulFree(vals) <==> '\0' !in vals[0] && NulFree(vals[1..])
  {
    if '\0' !in vals[0] && NulFree(vals[1..]) {
      forall i | 0 <= i < |vals| ensures '\0' !in vals[i] {
        if i > 0 { assert vals[i] == vals[1..][i - 1]; }
      }
    }
  }

  /** Of two neighbours only their joined text enters the key. */
  lemma {:induction false} NeighboursJoin(front: seq<string>, x: string, y: string, x': string, y': string,
                                          back: seq<string>)
    requires x + NUL + y == x' + NUL + y'
    ensures BreakdownKey(front + [x, y] + back) == BreakdownKey(front + [x', y'] + back)
  {
    if front == [] {
      PairJoin(x, y, back);
      PairJoin(x', y', back);
    } else {
      var a, b := front + [x, y] + back, front + [x', y'] + back;
      NeighboursJoin(front[1..], x, y, x', y', back);
      assert a[1..] == front[1..] + [x, y] + back && b[1..] == front[1..] + [x', y'] + back;
    }
  }

  lemma PairJoin(x: string, y: string, back: seq<string>)
    ensures BreakdownKey([] + [x, y] + back) ==
      (x + NUL + y) + if back == [] then "" else NUL + BreakdownKey(back)
  {
    var all, rest := [] + [x, y] + back, [y] + back;
    assert all[1..] == rest && rest[1..] == back;
    assert BreakdownKey(all) == x + NUL + BreakdownKey(rest);
    if back != [] {
      assert BreakdownKey(rest) == y + NUL + BreakdownKey(back);
      assert x + NUL + (y + NUL + BreakdownKey(back)) == (x + NUL + y) + (NUL + BreakdownKey(back));
    }
  }

  /** A NUL in a value is a place where the boundary to a neighbour can be moved. */
  lemma BoundaryMoves(a: seq<string>, i: nat) returns (b: seq<string>)
    requires |a| > 1 && i < |a| && '\0' in a[i]
    ensures |b| == |a| && b != a && BreakdownKey(b) == BreakdownKey(a)
  {
    var k :| 0 <= k < |a[i]| && a[i][k] == '\0';
    var p, q := a[i][..k], a[i][k + 1..];
    assert a[i] == p + NUL + q;
    if i + 1 < |a| {
      var y := a[i + 1];
      assert a == a[..i] + [a[i], y] + a[i + 2..];
      assert a[i] + NUL + y == p + NUL + (q + NUL + y);
      NeighboursJoin(a[..i], a[i], y, p, q + NUL + y, a[i + 2..]);
      b := a[..i] + [p, q + NUL + y] + a[i + 2..];
      assert |b[i]| < |a[i]|;
    } else {
      var x := a[i - 1];
      assert a == a[..i - 1] + [x, a[i]] + [];
      assert x + NUL + a[i] == (x + NUL + p) + NUL + q;
      NeighboursJoin(a[..i - 1], x, a[i], x + NUL + p, q, []);
      b := a[..i - 1] + [x + NUL + p, q] + [];
      assert |b[i - 1]| > |a[i - 1]|;
    }
  }

  /** A key names its tuple among all tuples of the arity if and only if there is no second value or no value holds a
      NUL; string properties may hold one, as only their length is bounded. */
  lemma KeyNamesExactly(a: seq<string>)
    ensures (forall b: seq<string> :: |b| == |a| && BreakdownKey(b) == BreakdownKey(a) ==> b == a) <==>
      |a| <= 1 || NulFree(a)
  {
    hide BreakdownKey, NulFree;
    if |a| <= 1 || NulFree(a) {
      forall b: seq<string> | |b| == |a| && BreakdownKey(b) == BreakdownKey(a) ensures b == a {
        if |a| <= 1 { ShortKey(a, b); } else { PlainKey(a, b); }
      }
    } else {
      var i := HasNul(a);
      var b := BoundaryMoves(a, i);
    }
  }

  lemma ShortKey(a: seq<string>, b: seq<string>)
    requires |b| == |a| <= 1 && BreakdownKey(b) == BreakdownKey(a)
    ensures b == a
  {
  }

  lemma PlainKey(a: seq<string>, b: seq<string>)
    requires |b| == |a| > 1 && NulFree(a) && BreakdownKey(b) == BreakdownKey(a)
    ensures b == a
  {
    KeyNuls(a);
    KeyNuls(b);
    KeyInjective(a, b);
  }

  lemma HasNul(a: seq<string>) returns (i: nat)
    requires !NulFree(a)
    ensures i < |a| && '\0' in a[i]
  {
    i :| 0 <= i < |a| && '\0' in a[i];
  }

  // ----- splitting at a separator

  lemma SplitFirst(a: string, x: string, b: string, y: string)
    requires '\0' !in a && '\0' !in b && a + NUL + x == b + NUL + y
    ensures a == b && x == y
  {
    var s := a + NUL + x;
    assert s[|a|] == '\0' && s[|b|] == '\0';
    assert forall i :: 0 <= i < |a| ==> s[i] == a[i];
    assert forall i :: 0 <= i < |b| ==> s[i] == b[i];
    assert |a| == |b| && a == s[..|a|] && x == s[|a| + 1..];
  }

  lemma SplitLast(x: string, a: string, y: string, b: string)
    requires '\0' !in a && '\0' !in b && x + NUL + a == y + NUL + b
    ensures a == b && x == y
  {
    var s := x + NUL + a;
    assert s[|x|] == '\0' && s[|y|] == '\0';
    assert forall i :: |x| < i < |s| ==> s[i] == a[i - |x| - 1];
    assert forall i :: |y| < i < |s| ==> s[i] == b[i - |y| - 1];
    assert |x| == |y| && x == s[..|x|] && a == s[|x| + 1..];
  }
}
