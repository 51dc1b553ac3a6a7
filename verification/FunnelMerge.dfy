/** Joining step counts from one query with conversion times from another. */
module FunnelMerge {
  import opened Basics
  import opened Breakdowns
  import opened FunnelTiming

  datatype Slot = Slot(stepIndex: nat, breakdown: string)

  function SlotOf(r: Row): Slot { Slot(r.stepIndex, BreakdownKey(r.breakdowns)) }

  /** Row i holds the times of a slot: it has some, and no later row of the slot does. */
  predicate LastTiming(rows: seq<Row>, slot: Slot, i: int) {
    0 <= i < |rows| && SlotOf(rows[i]) == slot && rows[i].timing.Some? &&
    forall j :: i < j < |rows| ==> SlotOf(rows[j]) != slot || rows[j].timing.None?
  }

  predicate HasTiming(rows: seq<Row>, slot: Slot) {
    exists i :: 0 <= i < |rows| && SlotOf(rows[i]) == slot && rows[i].timing.Some?
  }

  method MergeFunnelCountsAndTiming(countRows: seq<Row>, timingRows: seq<Row>) returns (merged: seq<Row>)
    ensures |merged| == |countRows|
    ensures forall i :: 0 <= i < |merged| ==> merged[i] == countRows[i].(timing := merged[i].timing)
    ensures forall i, j :: 0 <= i < |merged| && LastTiming(timingRows, SlotOf(countRows[i]), j) ==>
      merged[i].timing == timingRows[j].timing
    ensures forall i :: 0 <= i < |merged| && !HasTiming(timingRows, SlotOf(countRows[i])) ==>
      merged[i].timing == countRows[i].timing
  {
    var timingByKey := IndexTimings(timingRows);
    merged := [];
    for i := 0 to |countRows|
      invariant |merged| == i
      invariant forall k :: 0 <= k < i ==> merged[k] == countRows[k].(timing :=
        if SlotOf(countRows[k]) in timingByKey then Some(timingByKey[SlotOf(countRows[k])]) else countRows[k].timing)
    {
      var slot := SlotOf(countRows[i]);
      var row := countRows[i];
      if slot in timingByKey { row := row.(timing := Some(timingByKey[slot])); }
      merged := merged + [row];
    }
    forall i, j | 0 <= i < |merged| && LastTiming(timingRows, SlotOf(countRows[i]), j)
      ensures merged[i].timing == timingRows[j].timing
    {
      assert HasTiming(timingRows, SlotOf(countRows[i]));
    }
  }

  method IndexTimings(rows: seq<Row>) returns (index: map<Slot, Timing>)
    ensures forall slot :: slot in index <==> HasTiming(rows, slot)
    ensures forall slot, j :: LastTiming(rows, slot, j) && slot in index ==> rows[j].timing == Some(index[slot])
  {
    index := map[];
    for i := 0 to |rows|
      invariant forall slot :: slot in index <==> HasTiming(rows[..i], slot)
      invariant forall slot, j :: LastTiming(rows[..i], slot, j) && slot in index ==>
        rows[j].timing == Some(index[slot])
    {
      hide SlotOf, LastTiming, HasTiming;
      var r := rows[i];
      TimingSnoc(rows, i);
      if r.timing.Some? { index := index[SlotOf(r) := r.timing.value]; }
    }
    assert rows[..|rows|] == rows;
  }

  lemma TimingSnoc(rows: seq<Row>, i: nat)
    requires i < |rows|
    ensures forall slot :: HasTiming(rows[..i + 1], slot) <==>
      HasTiming(rows[..i], slot) || (SlotOf(rows[i]) == slot && rows[i].timing.Some?)
    ensures forall slot, j :: LastTiming(rows[..i + 1], slot, j) ==>
      if SlotOf(rows[i]) == slot && rows[i].timing.Some? then j == i else LastTiming(rows[..i], slot, j)
    ensures forall slot, j :: LastTiming(rows[..i], slot, j) ==> HasTiming(rows[..i], slot)
  {
    hide SlotOf;
    var front, all := rows[..i], rows[..i + 1];
    assert all == front + [rows[i]];
    assert all[i] == rows[i];
    forall slot
      ensures HasTiming(all, slot) <==> HasTiming(front, slot) || (SlotOf(rows[i]) == slot && rows[i].timing.Some?)
    {
      if HasTiming(front, slot) {
        var k :| 0 <= k < |front| && SlotOf(front[k]) == slot && front[k].timing.Some?;
        assert all[k] == front[k];
      }
    }
    forall slot, j | LastTiming(all, slot, j)
      ensures if SlotOf(rows[i]) == slot && rows[i].timing.Some? then j == i else LastTiming(front, slot, j)
    {
      assert j < i ==> SlotOf(all[i]) != slot || all[i].timing.None?;
      assert forall k :: j < k < i ==> all[k] == front[k];
    }
  }
}
