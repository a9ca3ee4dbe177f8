/** What the queue's invariant means: safe reclamation, first-in first-out order, bounded garbage. */
module MpscSafety {
  import opened Operations
  import opened MpscQueue
  import opened MpscInvariant
  import opened MpscPreservation

  lemma StepKeepsInv<T>(q: Queue<T>, a: Action<T>)
    requires Inv(q) && Enabled(q, a)
    ensures Inv(Next(q, a))
  {
    hide Inv, ProducerStep, ConsumerStep;
    match a
    case Enter => EnterKept(q);
    case Begin(p, value, node) => BeginKept(q, p, value, node);
    case Produce(p) => ProducerStepKept(q, p);
    case Consume => ConsumerStepKept(q);
  }

  lemma {:induction false} RunKeepsInv<T>(q: Queue<T>, actions: seq<Action<T>>)
    requires Inv(q) && IsRun(q, actions)
    ensures Inv(After(q, actions))
    decreases |actions|
  {
    hide Inv, Next, Enabled;
    if actions != [] {
      StepKeepsInv(q, actions[0]);
      RunKeepsInv(Next(q, actions[0]), actions[1..]);
    }
  }

  /** The node k next pointers behind head. */
  function Reached<T>(q: Queue<T>, k: nat): Option<Addr> {
    if k == 0 then Some(q.head)
    else match Reached(q, k - 1)
      case None => None
      case Some(a) => if a in q.next then q.next[a] else None
  }

  /** The recorded chain is what the pointers say. */
  lemma {:induction false} ReachedIsChain<T>(q: Queue<T>, k: nat)
    requires ChainInv(q)
    ensures Reached(q, k) == if k < |q.chain| then Some(q.chain[k]) else None
  {
    if k > 0 {
      ReachedIsChain(q, k - 1);
    }
  }

  /** In every interleaving nobody touches a deleted node; what is reachable from head, the tail, and every
      node a producer has validated and may still read are allocated; the tail is never behind head, and
      retired nodes lie strictly before it. */
  lemma NoUseAfterFree<T>(maxProducers: nat, sentinel: Addr, actions: seq<Action<T>>)
    requires maxProducers >= 1 && IsRun(Start(maxProducers, sentinel), actions)
    ensures var q := After(Start(maxProducers, sentinel), actions);
            && !q.fault
            && (forall k: nat :: Reached(q, k) == if k < |q.chain| then Some(q.chain[k]) else None)
            && q.chain != [] && q.chain[0] == q.head && q.tail in q.chain
            && (forall a :: a in q.chain || a in q.RetiredNodes() ==> a in q.next)
            && (forall a :: a in q.chain ==> a !in q.RetiredNodes())
            && (forall p :: 0 <= p < |q.producers| && q.producers[p].Guarded().Some? ==>
                  q.producers[p].Guarded().value in q.next)
  {
    hide HistoryInv, ConsumerInv;
    StartIsInv<T>(maxProducers, sentinel);
    RunKeepsInv(Start<T>(maxProducers, sentinel), actions);
    var q := After(Start<T>(maxProducers, sentinel), actions);
    forall k: nat
      ensures Reached(q, k) == if k < |q.chain| then Some(q.chain[k]) else None
    {
      ReachedIsChain(q, k);
    }
    forall p | 0 <= p < |q.producers| && q.producers[p].Guarded().Some?
      ensures q.producers[p].Guarded().value in q.next
    {
      assert GuardInv(q, q.producers[p]);
    }
  }

  /** A node is deleted only when no next pointers lead to it from head, it is not the tail, belongs to no
      producer, and no producer that has validated it can still read it. */
  lemma DeletionIsSafe<T>(maxProducers: nat, sentinel: Addr, actions: seq<Action<T>>, a: Action<T>, node: Addr)
    requires maxProducers >= 1 && IsRun(Start(maxProducers, sentinel), actions)
    requires var q := After(Start(maxProducers, sentinel), actions);
             Enabled(q, a) && node in q.next && node !in Next(q, a).next
    ensures var q := After(Start(maxProducers, sentinel), actions);
            && node in q.RetiredNodes() && node != q.tail && (forall k: nat :: Reached(q, k) != Some(node))
            && forall p :: 0 <= p < |q.producers| ==>
                 && q.producers[p].Guarded() != Some(node)
                 && !(q.producers[p].Owns() && q.producers[p].node == node)
  {
    hide HistoryInv;
    StartIsInv<T>(maxProducers, sentinel);
    RunKeepsInv(Start<T>(maxProducers, sentinel), actions);
    var q := After(Start<T>(maxProducers, sentinel), actions);
    OnlySweepsDelete(q, a, node);
    DeletedIsUnused(q);
    forall k: nat
      ensures Reached(q, k) != Some(node)
    {
      ReachedIsChain(q, k);
    }
  }

  lemma OnlySweepsDelete<T>(q: Queue<T>, a: Action<T>, node: Addr)
    requires Inv(q) && Enabled(q, a) && node in q.next && node !in Next(q, a).next
    ensures Deleting(q) && q.retired[0] == node
  {
    hide Inv, ProducerStep;
    if a.Produce? {
      ProducersDeleteNothing(q, a.p);
    }
  }

  lemma ProducersDeleteNothing<T>(q: Queue<T>, p: nat)
    requires p < |q.producers|
    ensures q.next.Keys <= ProducerStep(q, p).next.Keys && ProducerStep(q, p).maxProducers == q.maxProducers
  {
  }

  /** First in, first out: the values dequeued, followed by those still linked, are the values in the order
      of their successful compare-and-swaps. */
  lemma LinearizableFifo<T(!new)>(maxProducers: nat, sentinel: Addr, actions: seq<Action<T>>)
    requires maxProducers >= 1 && IsRun(Start(maxProducers, sentinel), actions)
    ensures var q := After(Start(maxProducers, sentinel), actions);
            && q.chain != []
            && (forall i :: 1 <= i < |q.chain| ==> q.chain[i] in q.data)
            && q.taken
               + seq(|q.chain| - 1,
                     i requires 0 <= i < |q.chain| - 1 && q.chain[i + 1] in q.data => q.data[q.chain[i + 1]])
               == seq(|q.linked|, i requires 0 <= i < |q.linked| => q.linked[i].1)
  {
    hide ChainInv, RetiredInv, ConsumerInv, ProducersInv, SubmittedInv;
    StartIsInv<T>(maxProducers, sentinel);
    RunKeepsInv(Start<T>(maxProducers, sentinel), actions);
  }

  /** Nothing is lost, duplicated or overtaken on the way in: the values a producer has linked are the values
      it submitted, in order, except the one it is still trying to link. */
  lemma ProducerOrder<T>(maxProducers: nat, sentinel: Addr, actions: seq<Action<T>>, p: nat)
    requires maxProducers >= 1 && IsRun(Start(maxProducers, sentinel), actions)
    requires p < |After(Start(maxProducers, sentinel), actions).producers|
    ensures var q := After(Start(maxProducers, sentinel), actions);
            var linked := ValuesOf(q.linked, p);
            && (q.producers[p].Owns() ==> q.producers[p].node in q.data)
            && q.producers[p].submitted
               == linked + (if q.producers[p].Owns() then [q.data[q.producers[p].node]] else [])
  {
    hide ChainInv, RetiredInv, ConsumerInv;
    StartIsInv<T>(maxProducers, sentinel);
    RunKeepsInv(Start<T>(maxProducers, sentinel), actions);
    var q := After(Start<T>(maxProducers, sentinel), actions);
    assert SubmittedInv(q, p) && OwnerInv(q, q.producers[p]);
  }

  /** try_dequeue finds nothing exactly when every linked value has been taken. */
  lemma EmptyMeansAllTaken<T>(maxProducers: nat, sentinel: Addr, actions: seq<Action<T>>)
    requires maxProducers >= 1 && IsRun(Start(maxProducers, sentinel), actions)
    ensures var q := After(Start(maxProducers, sentinel), actions);
            q.consumer.Rest? ==> (ConsumerStep(q).consumer.Rest? <==> |q.taken| == |q.linked|)
  {
    hide RetiredInv, ProducersInv;
    StartIsInv<T>(maxProducers, sentinel);
    RunKeepsInv(Start<T>(maxProducers, sentinel), actions);
    var q := After(Start<T>(maxProducers, sentinel), actions);
    ChainPointsOn(q, q.head);
  }

  /** Between calls fewer than 2 * MaxProducers nodes are retired, each listed once; a reclaim starts with
      2 * MaxProducers of them and leaves at most MaxProducers. */
  lemma RetiredIsBounded<T>(maxProducers: nat, sentinel: Addr, actions: seq<Action<T>>)
    requires maxProducers >= 1 && IsRun(Start(maxProducers, sentinel), actions)
    ensures var q := After(Start(maxProducers, sentinel), actions);
            && Distinct(q.RetiredNodes())
            && (q.consumer.Rest? ==> |q.retired| < 2 * maxProducers)
            && (q.consumer.ReadUsed? ==> |q.retired| == 2 * maxProducers)
            && (q.consumer.Sweep? && ConsumerStep(q).consumer.Rest? ==> |ConsumerStep(q).retired| <= maxProducers)
  {
    hide ChainInv, ProducersInv, HistoryInv;
    StartIsInv<T>(maxProducers, sentinel);
    RunKeepsInv(Start<T>(maxProducers, sentinel), actions);
    SlotsAreFixed(Start<T>(maxProducers, sentinel), actions);
    var q := After(Start<T>(maxProducers, sentinel), actions);
    if q.consumer.Sweep? && ConsumerStep(q).consumer.Rest? {
      SweepEnds(q);
    }
  }

  lemma {:induction false} SlotsAreFixed<T>(q: Queue<T>, actions: seq<Action<T>>)
    requires IsRun(q, actions)
    ensures After(q, actions).maxProducers == q.maxProducers
    decreases |actions|
  {
    hide Next, Enabled;
    if actions != [] {
      StepKeepsSlots(q, actions[0]);
      SlotsAreFixed(Next(q, actions[0]), actions[1..]);
    }
  }

  lemma StepKeepsSlots<T>(q: Queue<T>, a: Action<T>)
    requires Enabled(q, a)
    ensures Next(q, a).maxProducers == q.maxProducers
  {
    hide ProducerStep;
    if a.Produce? {
      ProducersDeleteNothing(q, a.p);
    }
  }
}
