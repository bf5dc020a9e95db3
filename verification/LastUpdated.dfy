/** What the `last_updated_at` setter of a vehicle stores, and what that guarantees over
    whole runs of assignments. */
module LastUpdated {
  import opened Prelude

  /** An aware time as the setter sees it after `astimezone`: its instant, and the UTC
      offset that the local zone has then, both in seconds. */
  datatype Aware = Aware(instant: int, offset: int)

  function Max(a: int, b: int): int {
    if a >= b then a else b
  }

  /** An older time is kept out, unless adding its offset makes it no older. */
  function Newer(previous: int, v: Aware): int {
    if v.instant < previous && v.instant + v.offset >= previous then v.instant + v.offset
    else Max(v.instant, previous)
  }

  function Next(previous: Option<int>, v: Option<Aware>): Option<int> {
    match (previous, v)
    case (_, None) => None
    case (None, Some(t)) => Some(t.instant)
    case (Some(p), Some(t)) => Some(Newer(p, t))
  }

  /** The value after assigning `values` in order. */
  function Run(start: Option<int>, values: seq<Aware>): Option<int> {
    if values == [] then start else Next(Run(start, values[..|values| - 1]), Some(values[|values| - 1]))
  }

  function RunningMax(start: int, values: seq<Aware>): int {
    if values == [] then start else Max(RunningMax(start, values[..|values| - 1]), values[|values| - 1].instant)
  }

  /** No run of assignments takes the value back, wherever the run is cut. */
  lemma {:induction false} NeverDecreases(start: int, values: seq<Aware>, n: nat)
    requires n <= |values|
    ensures Run(Some(start), values[..n]).Some? && Run(Some(start), values).Some?
    ensures Run(Some(start), values[..n]).value <= Run(Some(start), values).value
    decreases |values|
  {
    if n == |values| {
      assert values[..n] == values;
      if n > 0 {
        NeverDecreases(start, values[..n - 1], n - 1);
        assert values[..n - 1][..n - 1] == values[..n - 1];
      }
    } else {
      NeverDecreases(start, values[..|values| - 1], n);
      assert values[..|values| - 1][..n] == values[..n];
    }
  }

  /** After a run, the value is at least everything that was assigned. */
  lemma {:induction false} AtLeastAll(start: Option<int>, values: seq<Aware>, i: nat)
    requires i < |values|
    ensures Run(start, values).Some? && Run(start, values).value >= values[i].instant
    decreases |values|
  {
    var n := |values| - 1;
    if i < n {
      AtLeastAll(start, values[..n], i);
    }
  }

  /** The value is the start, an assigned time, or an assigned time plus its own offset. */
  predicate Origin(start: Option<int>, values: seq<Aware>, result: int) {
    || start == Some(result)
    || exists i :: 0 <= i < |values| && (result == values[i].instant || result == values[i].instant + values[i].offset)
  }

  lemma {:induction false} ComesFromARun(start: Option<int>, values: seq<Aware>)
    requires start.Some? || values != []
    ensures Run(start, values).Some? && Origin(start, values, Run(start, values).value)
    decreases |values|
  {
    if values != [] {
      var n := |values| - 1;
      var v := values[n];
      var result := Next(Run(start, values[..n]), Some(v)).value;
      if result != v.instant && result != v.instant + v.offset {
        ComesFromARun(start, values[..n]);
        var init := values[..n];
        if i :| 0 <= i < n && (result == init[i].instant || result == init[i].instant + init[i].offset) {
          assert init[i] == values[i];
        }
      } else {
        assert values[n] == v;
      }
    }
  }

  /** One assignment keeps the newer of the two times exactly when the offset does not lift
      an older one above the old value. */
  lemma KeepsNewerIff(previous: int, v: Aware)
    ensures Newer(previous, v) == Max(previous, v.instant)
       <==> !(v.instant < previous && v.instant + v.offset > previous)
  {
  }

  /** West of Greenwich the value is exactly the running maximum. */
  lemma {:induction false} RunningMaximum(start: int, values: seq<Aware>)
    requires forall i | 0 <= i < |values| :: values[i].offset <= 0
    ensures Run(Some(start), values) == Some(RunningMax(start, values))
    decreases |values|
  {
    if values != [] {
      RunningMaximum(start, values[..|values| - 1]);
    }
  }

  /** Assignment `i` of a run is older than the running maximum before it, and its offset
      lifts it above that. */
  predicate Lifted(start: int, values: seq<Aware>, i: nat)
    requires i < |values|
  {
    var m := RunningMax(start, values[..i]);
    values[i].instant < m && values[i].instant + values[i].offset > m
  }

  predicate IsRunningMax(start: int, values: seq<Aware>) {
    Run(Some(start), values) == Some(RunningMax(start, values))
  }

  /** The value is the running maximum after every assignment of a run exactly when no
      assignment of it is lifted. */
  lemma {:induction false} RunningMaximumIff(start: int, values: seq<Aware>)
    ensures (forall n | 0 <= n <= |values| :: IsRunningMax(start, values[..n]))
       <==> (forall i | 0 <= i < |values| :: !Lifted(start, values, i))
    decreases |values|
  {
    if values == [] {
      assert values[..0] == values;
    } else {
      var k := |values| - 1;
      var init := values[..k];
      RunningMaximumIff(start, init);
      assert forall n | 0 <= n <= k :: init[..n] == values[..n];
      assert forall i | 0 <= i < k :: Lifted(start, init, i) <==> Lifted(start, values, i);
      assert values[..k + 1] == values && init[..k] == init;
      if IsRunningMax(start, init) {
        KeepsNewerIff(RunningMax(start, init), values[k]);
        assert IsRunningMax(start, values) <==> !Lifted(start, values, k);
      } else {
        assert !IsRunningMax(start, values[..k]);
        assert !forall n | 0 <= n <= k :: IsRunningMax(start, init[..n]);
      }
    }
  }

  /** The first assignment to a fresh vehicle is where its run starts. */
  lemma {:induction false} FreshRun(values: seq<Aware>)
    requires values != []
    ensures Run(None, values) == Run(Some(values[0].instant), values[1..])
    decreases |values|
  {
    var n := |values| - 1;
    if n > 0 {
      FreshRun(values[..n]);
      assert values[1..][..n - 1] == values[..n][1..];
    } else {
      assert values[..0] == [];
    }
  }

  /** East of it the value can pass every time that was ever assigned. */
  lemma CanOvershoot()
    ensures Run(Some(100), [Aware(50, 60)]) == Some(110)
  {
    assert [Aware(50, 60)][..0] == [];
  }

  /** An assignment of None forgets everything: afterwards any time is accepted. */
  lemma NoneResets(previous: Option<int>, v: Aware)
    ensures Next(Next(previous, None), Some(v)) == Some(v.instant)
  {
  }
}
