/** try_reclaim_ as the loops it is, and its agreement with the interleaved steps of MpscQueue
    (core/include/collab/mpsc_queue.h). */
module MpscReclaim {
  import opened Operations
  import opened MpscQueue

  /** The non-null hazard slots, in slot order. */
  function NonNull(hazards: seq<Option<Addr>>): seq<Addr> {
    if hazards == [] then []
    else
      var before := NonNull(hazards[..|hazards| - 1]);
      var last := hazards[|hazards| - 1];
      if last.Some? then before + [last.value] else before
  }

  /** The retired list after a sweep: the guarded nodes, each pushed in front of the survivors. */
  function Swept(retired: seq<Addr>, snapshot: seq<Addr>, survivors: seq<Addr>): seq<Addr>
    decreases |retired|
  {
    if retired == [] then survivors
    else Swept(retired[1..], snapshot, if retired[0] in snapshot then [retired[0]] + survivors else survivors)
  }

  /** A sweep keeps the guarded nodes and no others. */
  lemma {:induction false} SweptAreGuarded(retired: seq<Addr>, snapshot: seq<Addr>, survivors: seq<Addr>, a: Addr)
    ensures a in Swept(retired, snapshot, survivors) <==> a in survivors || (a in retired && a in snapshot)
    decreases |retired|
  {
    if retired != [] {
      var kept := if retired[0] in snapshot then [retired[0]] + survivors else survivors;
      SweptAreGuarded(retired[1..], snapshot, kept, a);
      assert retired == [retired[0]] + retired[1..];
    }
  }

  class Reclaimer {
    /** The list from retired_head_ on. */
    var retired: seq<Addr>
    var retiredCount: nat

    method TryReclaim(hazards: seq<Option<Addr>>) returns (deleted: seq<Addr>)
      modifies this
      ensures retired == Swept(old(retired), NonNull(hazards), []) && retiredCount == |retired|
      ensures forall a :: a in retired <==> a in old(retired) && a in NonNull(hazards)
      ensures forall a :: a in deleted <==> a in old(retired) && a !in NonNull(hazards)
    {
      var snapshot := Snapshot(hazards);
      var survivors, kept, cur := [], 0, retired;
      ghost var done := [];
      deleted := [];
      while cur != []
        modifies {}
        invariant Swept(cur, snapshot, survivors) == Swept(retired, snapshot, []) && kept == |survivors|
        invariant forall a :: a in retired <==> a in done || a in cur
        invariant forall a :: a in deleted <==> a in done && a !in snapshot
        decreases |cur|
      {
        var node := cur[0];
        assert forall a :: a in cur <==> a == node || a in cur[1..];
        var guarded := IsGuarded(node, snapshot);
        if guarded {
          survivors := [node] + survivors;
          kept := kept + 1;
        } else {
          deleted := deleted + [node];
        }
        done := done + [node];
        cur := cur[1..];
      }
      forall a
        ensures a in Swept(retired, snapshot, []) <==> a in retired && a in snapshot
      {
        SweptAreGuarded(retired, snapshot, [], a);
      }
      retired, retiredCount := survivors, kept;
    }

    static method Snapshot(hazards: seq<Option<Addr>>) returns (snapshot: seq<Addr>)
      ensures snapshot == NonNull(hazards)
    {
      snapshot := [];
      for i := 0 to |hazards|
        invariant snapshot == NonNull(hazards[..i])
      {
        assert hazards[..i + 1][..i] == hazards[..i];
        if hazards[i].Some? {
          snapshot := snapshot + [hazards[i].value];
        }
      }
      assert hazards[..|hazards|] == hazards;
    }

    static method IsGuarded(node: Addr, snapshot: seq<Addr>) returns (guarded: bool)
      ensures guarded <==> node in snapshot
    {
      guarded := false;
      for i := 0 to |snapshot|
        invariant !guarded && node !in snapshot[..i]
      {
        if snapshot[i] == node {
          return true;
        }
      }
    }
  }

  function Consumes<T>(n: nat): (actions: seq<Action<T>>)
    ensures |actions| == n
  {
    seq(n, _ => Consume)
  }

  /** The consumer's sweep steps, taken one after another, compute what the loop computes. */
  lemma {:induction false} SweepStepsAgree<T>(q: Queue<T>)
    requires q.consumer.Sweep?
    ensures var steps := Consumes<T>(|q.retired| + 1);
            && IsRun(q, steps)
            && After(q, steps).consumer.Rest?
            && After(q, steps).retired == Swept(q.retired, q.consumer.snapshot, q.consumer.survivors)
    decreases |q.retired|
  {
    var steps := Consumes<T>(|q.retired| + 1);
    var q' := Next(q, Consume);
    assert steps[0] == Consume && steps[1..] == Consumes<T>(|q.retired|);
    if q.retired == [] {
      assert steps[1..] == [];
    } else {
      SweepStepsAgree(q');
    }
  }
}
