/** Every atomic step of every thread keeps the queue's invariant. */
module MpscPreservation {
  import opened Operations
  import opened MpscQueue
  import opened MpscInvariant

  // ---- the parts of the invariant under a change of the rest

  ghost predicate SameMemory<T>(q: Queue<T>, q': Queue<T>) {
    && q'.next == q.next && q'.data == q.data && q'.chain == q.chain && q'.head == q.head
    && q'.retired == q.retired && q'.consumer == q.consumer && q'.linked == q.linked && q'.taken == q.taken
    && q'.maxProducers == q.maxProducers && q'.fault == q.fault && |q'.producers| == |q.producers|
  }

  ghost predicate StillSeen<T>(q: Queue<T>, q': Queue<T>)
    requires |q'.producers| == |q.producers|
  {
    forall r, snapshot :: 0 <= r < |q.producers| && Seen(q, r, snapshot) ==> Seen(q', r, snapshot)
  }

  /** Nothing but the tail and the producers changes. */
  lemma MemoryKept<T>(q: Queue<T>, q': Queue<T>)
    requires Inv(q) && SameMemory(q, q') && StillSeen(q, q')
    requires q'.tail in q.chain && (q.consumer.Take? ==> q'.tail != q.head)
    requires ProducersInv(q') && forall r :: 0 <= r < |q'.producers| ==> SubmittedInv(q', r)
    ensures Inv(q')
  {
    hide ProducersInv, SubmittedInv, Seen;
  }

  // ---- a producer moves without touching shared nodes

  /** A producer's private step: it keeps its node and its history, and what it guards afterwards is
      either what it guarded before or not retired. */
  lemma PrivateStepKept<T>(q: Queue<T>, p: nat, me: Producer<T>)
    requires Inv(q) && p < |q.producers|
    requires me.node == q.producers[p].node && me.submitted == q.producers[p].submitted
    requires me.Owns() == q.producers[p].Owns() && GuardInv(q, me)
    requires me.Guarded().Some? && me.Guarded().value in q.RetiredNodes()
             ==> q.producers[p].Guarded() == me.Guarded()
    ensures Inv(q.(producers := q.producers[p := me]))
  {
    hide ChainInv, RetiredInv, ConsumerInv;
    var q' := q.(producers := q.producers[p := me]);
    forall r | 0 <= r < |q'.producers|
      ensures OwnerInv(q', q'.producers[r]) && GuardInv(q', q'.producers[r]) && SubmittedInv(q', r)
    {
      assert OwnerInv(q, q.producers[p]) && OwnerInv(q, q.producers[r]) && GuardInv(q, q.producers[r]);
      assert SubmittedInv(q, r);
    }
    TailInChain(q);
    MemoryKept(q, q');
  }

  lemma TailInChain<T>(q: Queue<T>)
    requires Inv(q)
    ensures q.tail in q.chain && (q.consumer.Take? ==> q.tail != q.head)
  {
    hide RetiredInv, ProducersInv, HistoryInv;
  }

  lemma TailKept<T>(q: Queue<T>, tail: Addr)
    requires Inv(q) && tail in q.chain && (q.consumer.Take? ==> tail != q.head)
    ensures Inv(q.(tail := tail))
  {
    hide ChainInv, RetiredInv, ConsumerInv;
    var q' := q.(tail := tail);
    forall r | 0 <= r < |q'.producers|
      ensures OwnerInv(q', q'.producers[r]) && GuardInv(q', q'.producers[r]) && SubmittedInv(q', r)
    {
      assert OwnerInv(q, q.producers[r]) && GuardInv(q, q.producers[r]) && SubmittedInv(q, r);
    }
    MemoryKept(q, q');
  }

  /** Only the next node in the chain can replace the tail. */
  lemma SuccessorInChain<T>(q: Queue<T>, t: Addr, n: Addr)
    requires ChainInv(q) && t in q.chain && t in q.next && q.next[t] == Some(n)
    ensures n in q.chain && n != q.head
  {
    var k :| 0 <= k < |q.chain| && q.chain[k] == t;
    assert k < |q.chain| - 1;
    assert q.chain[k + 1] == n;
  }

  lemma CompareAndSwapKept<T>(q: Queue<T>, t: Addr, n: Addr)
    requires Inv(q) && t in q.next && q.next[t] == Some(n)
    ensures Inv(q.(tail := CompareAndSwap(q.tail, t, n)))
  {
    if q.tail == t {
      SuccessorInChain(q, t, n);
      TailKept(q, n);
    }
  }

  // ---- the steps of enqueue

  lemma EnterKept<T>(q: Queue<T>)
    requires Inv(q) && |q.producers| < q.maxProducers
    ensures Inv(Next(q, Enter))
  {
    hide ChainInv, RetiredInv, ProducersInv, HistoryInv, ConsumerInv;
    EnterKeepsMemory(q);
    EnterKeepsProducers(q);
    EnterKeepsHistory(q);
    EnterKeepsConsumer(q);
  }

  lemma EnterKeepsConsumer<T>(q: Queue<T>)
    requires ConsumerInv(q) && Enabled(q, Enter)
    ensures ConsumerInv(Next(q, Enter))
  {
    var q' := Next(q, Enter);
    assert forall r, snapshot :: 0 <= r < |q.producers| && Seen(q, r, snapshot) ==> Seen(q', r, snapshot);
    assert forall snapshot :: Seen(q', |q.producers|, snapshot);
  }

  lemma EnterKeepsProducers<T>(q: Queue<T>)
    requires ProducersInv(q) && Enabled(q, Enter)
    ensures ProducersInv(Next(q, Enter))
  {
    var q' := Next(q, Enter);
    forall r | 0 <= r < |q'.producers|
      ensures OwnerInv(q', q'.producers[r]) && GuardInv(q', q'.producers[r])
    {
      if r < |q.producers| {
        assert OwnerInv(q, q.producers[r]) && GuardInv(q, q.producers[r]);
      }
    }
  }

  lemma EnterKeepsHistory<T>(q: Queue<T>)
    requires HistoryInv(q) && Enabled(q, Enter)
    ensures HistoryInv(Next(q, Enter))
  {
    hide ValuesOf;
    var q' := Next(q, Enter);
    NoValues(q.linked, |q.producers|);
    forall r | 0 <= r < |q'.producers|
      ensures SubmittedInv(q', r)
    {
      if r < |q.producers| {
        assert SubmittedInv(q, r);
      }
    }
  }

  lemma EnterKeepsMemory<T>(q: Queue<T>)
    requires ChainInv(q) && RetiredInv(q) && Enabled(q, Enter)
    ensures ChainInv(Next(q, Enter)) && RetiredInv(Next(q, Enter))
  {
  }

  lemma {:induction false} NoValues<T>(linked: seq<(nat, T)>, p: nat)
    requires forall i :: 0 <= i < |linked| ==> linked[i].0 != p
    ensures ValuesOf(linked, p) == []
  {
    if linked != [] {
      NoValues(linked[..|linked| - 1], p);
    }
  }

  /** A fresh node: its address is not in use anywhere. */
  lemma BeginKept<T>(q: Queue<T>, p: nat, value: T, node: Addr)
    requires Inv(q) && Enabled(q, Begin(p, value, node))
    ensures Inv(Next(q, Begin(p, value, node)))
  {
    hide ValuesOf;
    var q' := Next(q, Begin(p, value, node));
    BeginKeepsMemory(q, p, value, node);
    BeginKeepsProducers(q, p, value, node);
    assert forall r, snapshot :: 0 <= r < |q.producers| && Seen(q, r, snapshot) ==> Seen(q', r, snapshot);
    BeginKeepsHistory(q, p, value, node);
    hide ChainInv, RetiredInv, ProducersInv, HistoryInv;
  }

  lemma BeginKeepsMemory<T>(q: Queue<T>, p: nat, value: T, node: Addr)
    requires Inv(q) && Enabled(q, Begin(p, value, node))
    ensures ChainInv(Next(q, Begin(p, value, node))) && RetiredInv(Next(q, Begin(p, value, node)))
  {
    hide ProducersInv, ConsumerInv, HistoryInv;
  }

  lemma BeginKeepsProducers<T>(q: Queue<T>, p: nat, value: T, node: Addr)
    requires Inv(q) && Enabled(q, Begin(p, value, node))
    ensures ProducersInv(Next(q, Begin(p, value, node)))
  {
    hide ConsumerInv, HistoryInv;
    var q' := Next(q, Begin(p, value, node));
    forall r | 0 <= r < |q'.producers|
      ensures OwnerInv(q', q'.producers[r]) && GuardInv(q', q'.producers[r])
    {
      assert OwnerInv(q, q.producers[r]) && GuardInv(q, q.producers[r]);
    }
  }

  lemma BeginKeepsHistory<T>(q: Queue<T>, p: nat, value: T, node: Addr)
    requires Inv(q) && Enabled(q, Begin(p, value, node))
    ensures HistoryInv(Next(q, Begin(p, value, node)))
  {
    hide ConsumerInv, RetiredInv, ProducersInv, ValuesOf;
    var q' := Next(q, Begin(p, value, node));
    forall r | 0 <= r < |q'.producers|
      ensures SubmittedInv(q', r)
    {
      assert SubmittedInv(q, r);
    }
  }

  /** A successful compare-and-swap on a null next pointer happens at the end of the chain. */
  lemma NullIsLast<T>(q: Queue<T>, t: Addr)
    requires ChainInv(q) && RetiredInv(q) && (t in q.chain || t in q.RetiredNodes())
    requires t in q.next && q.next[t].None?
    ensures t == q.chain[|q.chain| - 1]
  {
    if t in q.chain {
      ChainPointsOn(q, t);
    } else {
      RetiredPointsOn(q, t);
    }
  }

  lemma ChainPointsOn<T>(q: Queue<T>, t: Addr)
    requires ChainInv(q) && t in q.chain
    ensures t in q.next && (t != q.chain[|q.chain| - 1] ==> q.next[t].Some?)
  {
    var k :| 0 <= k < |q.chain| && q.chain[k] == t;
    if k < |q.chain| - 1 {
      assert q.next[q.chain[k]] == Some(q.chain[k + 1]);
    }
  }

  lemma RetiredPointsOn<T>(q: Queue<T>, t: Addr)
    requires RetiredInv(q) && t in q.RetiredNodes()
    ensures t in q.next && q.next[t].Some?
  {
    var k :| 0 <= k < |q.RetiredNodes()| && q.RetiredNodes()[k] == t;
  }

  ghost predicate Linking<T>(q: Queue<T>, p: nat) {
    && Inv(q) && p < |q.producers| && q.producers[p].pc.LinkNode?
    && q.producers[p].pc.t in q.next && q.next[q.producers[p].pc.t].None?
  }

  lemma LinkKeepsMemory<T>(q: Queue<T>, p: nat)
    requires Linking(q, p)
    ensures ChainInv(ProducerStep(q, p)) && RetiredInv(ProducerStep(q, p))
  {
    hide ConsumerInv, HistoryInv;
    var me := q.producers[p];
    var q' := ProducerStep(q, p);
    assert OwnerInv(q, me) && GuardInv(q, me);
    NullIsLast(q, me.pc.t);
    assert q'.chain[|q.chain|] == me.node && forall i :: 0 <= i < |q.chain| ==> q'.chain[i] == q.chain[i];
  }

  lemma LinkKeepsProducers<T>(q: Queue<T>, p: nat)
    requires Linking(q, p)
    ensures ProducersInv(ProducerStep(q, p))
  {
    hide ConsumerInv, HistoryInv;
    var me := q.producers[p];
    var q' := ProducerStep(q, p);
    assert OwnerInv(q, me) && GuardInv(q, me);
    NullIsLast(q, me.pc.t);
    forall r | 0 <= r < |q'.producers|
      ensures OwnerInv(q', q'.producers[r]) && GuardInv(q', q'.producers[r])
    {
      assert OwnerInv(q, q.producers[r]) && GuardInv(q, q.producers[r]);
    }
  }

  lemma LinkKeepsHistory<T>(q: Queue<T>, p: nat)
    requires Linking(q, p)
    ensures HistoryInv(ProducerStep(q, p))
  {
    hide ConsumerInv, ChainInv, RetiredInv, ValuesOf;
    var me := q.producers[p];
    var q' := ProducerStep(q, p);
    assert OwnerInv(q, me);
    forall r | 0 <= r < |q'.producers|
      ensures SubmittedInv(q', r)
    {
      assert SubmittedInv(q, r) && SubmittedInv(q, p);
      OneMoreValue(q.linked, (p, q.data[me.node]), r);
    }
    assert q'.chain[|q.chain|] == me.node && forall i :: 0 <= i < |q.chain| ==> q'.chain[i] == q.chain[i];
  }

  lemma OneMoreValue<T>(linked: seq<(nat, T)>, entry: (nat, T), p: nat)
    ensures ValuesOf(linked + [entry], p) == ValuesOf(linked, p) + (if entry.0 == p then [entry.1] else [])
  {
    assert (linked + [entry])[..|linked|] == linked;
  }

  /** The linearization point of enqueue. */
  lemma LinkKept<T>(q: Queue<T>, p: nat)
    requires Linking(q, p)
    ensures Inv(ProducerStep(q, p))
  {
    var q' := ProducerStep(q, p);
    assert OwnerInv(q, q.producers[p]);
    LinkKeepsMemory(q, p);
    LinkKeepsProducers(q, p);
    LinkKeepsHistory(q, p);
    assert forall r, snapshot :: 0 <= r < |q.producers| && Seen(q, r, snapshot) ==> Seen(q', r, snapshot);
    hide ChainInv, RetiredInv, ProducersInv, HistoryInv;
    assert q'.chain[0] == q.chain[0] by { ChainStarts(q); }
    assert |q.chain| >= 2 ==> q'.chain[1] == q.chain[1];
  }

  lemma ChainStarts<T>(q: Queue<T>)
    requires ChainInv(q)
    ensures q.chain != [] && q.chain[0] == q.head
  {
  }

  lemma ProducerStepKept<T>(q: Queue<T>, p: nat)
    requires Inv(q) && Enabled(q, Produce(p))
    ensures Inv(ProducerStep(q, p))
  {
    hide ConsumerInv, HistoryInv;
    var me := q.producers[p];
    assert OwnerInv(q, me) && GuardInv(q, me);
    match me.pc
    case LoadTail => PrivateStepKept(q, p, me.(pc := Publish(q.tail)));
    case Publish(t) => PrivateStepKept(q, p, me.(hazard := Some(t), pc := Validate(t)));
    case Validate(t) =>
      TailInChain(q);
      PrivateStepKept(q, p, me.(pc := if q.tail == t then ReadNext(t) else LoadTail));
    case ReadNext(t) =>
      PrivateStepKept(q, p, me.(pc := if q.next[t].Some? then HelpTail(t, q.next[t].value) else LinkNode(t)));
    case HelpTail(t, tNext) =>
      PrivateStepKept(q, p, me.(pc := LoadTail));
      CompareAndSwapKept(q.(producers := q.producers[p := me.(pc := LoadTail)]), t, tNext);
    case LinkNode(t) =>
      if q.next[t].Some? {
        PrivateStepKept(q, p, me.(pc := LoadTail));
      } else {
        LinkKept(q, p);
      }
    case SwingTail(t) =>
      PrivateStepKept(q, p, me.(pc := Withdraw));
      CompareAndSwapKept(q.(producers := q.producers[p := me.(pc := Withdraw)]), t, me.node);
    case Withdraw => PrivateStepKept(q, p, me.(hazard := None, pc := Idle));
  }

  // ---- the steps of try_dequeue and try_reclaim_

  /** The consumer's private steps: shared memory and the retired nodes stay as they are. */
  lemma ConsumerMoveKept<T>(q: Queue<T>, consumer: ConsumerPc)
    requires Inv(q) && !q.consumer.Sweep? && ConsumerInv(q.(consumer := consumer))
    requires consumer.Sweep? ==> consumer.survivors == []
    ensures Inv(q.(consumer := consumer))
  {
    hide ChainInv, RetiredInv, ProducersInv, ConsumerInv, HistoryInv;
    var q' := q.(consumer := consumer);
    assert q'.RetiredNodes() == q.RetiredNodes();
    SameRetiredKept(q, q');
    SameProducersKept(q, q');
    SameHistoryKept(q, q');
  }

  lemma SameRetiredKept<T>(q: Queue<T>, q': Queue<T>)
    requires ChainInv(q) && RetiredInv(q)
    requires q' == q.(consumer := q'.consumer) && q'.RetiredNodes() == q.RetiredNodes()
    ensures ChainInv(q') && RetiredInv(q')
  {
  }

  lemma SameProducersKept<T>(q: Queue<T>, q': Queue<T>)
    requires ProducersInv(q) && q' == q.(consumer := q'.consumer, retired := q'.retired)
    requires forall a :: a in q'.RetiredNodes() <==> a in q.RetiredNodes()
    ensures ProducersInv(q')
  {
    forall r | 0 <= r < |q'.producers|
      ensures OwnerInv(q', q'.producers[r]) && GuardInv(q', q'.producers[r])
    {
      assert OwnerInv(q, q.producers[r]) && GuardInv(q, q.producers[r]);
    }
  }

  lemma SameHistoryKept<T>(q: Queue<T>, q': Queue<T>)
    requires HistoryInv(q) && q' == q.(consumer := q'.consumer, retired := q'.retired)
    ensures HistoryInv(q')
  {
    hide ValuesOf;
    forall r | 0 <= r < |q'.producers|
      ensures SubmittedInv(q', r)
    {
      assert SubmittedInv(q, r);
    }
  }

  lemma SecondInChain<T>(q: Queue<T>)
    requires ChainInv(q) && q.head in q.next && q.next[q.head].Some?
    ensures |q.chain| >= 2 && q.next[q.head].value == q.chain[1] && q.chain[1] != q.head
  {
  }

  lemma ReadTailKept<T>(q: Queue<T>)
    requires Inv(q) && (q.consumer.Rest? || q.consumer.ReadTail? || q.consumer.AdvanceTail?)
    ensures Inv(ConsumerStep(q))
  {
    var q' := ConsumerStep(q);
    if q.consumer.Rest? && q.next[q.head].Some? {
      SecondInChain(q);
      ConsumerMoveKept(q, q'.consumer);
    } else if q.consumer.ReadTail? {
      ConsumerMoveKept(q, q'.consumer);
    } else if q.consumer.AdvanceTail? {
      assert q.chain[1] in q.chain && q.chain[1] != q.chain[0];
      TailKept(q, q'.tail);
      ConsumerMoveKept(q.(tail := q'.tail), q'.consumer);
    }
  }

  /** Head has moved to the next node, whose value was taken, and the old head is retired. */
  ghost predicate Took<T>(q: Queue<T>, q': Queue<T>) {
    && |q.chain| >= 2 && q.chain[0] == q.head && q.tail != q.head && q.chain[1] in q.data
    && !q.consumer.Sweep? && !q'.consumer.Sweep?
    && q' == q.(taken := q.taken + [q.data[q.chain[1]]], head := q.chain[1], retired := [q.head] + q.retired,
                chain := q.chain[1..], consumer := q'.consumer)
  }

  lemma TakeTakes<T>(q: Queue<T>)
    requires Inv(q) && q.consumer.Take?
    ensures Took(q, ConsumerStep(q)) && ConsumerInv(ConsumerStep(q))
  {
    hide RetiredInv, ProducersInv, ValuesOf, SubmittedInv, Distinct;
  }

  /** Taking a value: the set of nodes that are in the chain or retired is the same. */
  lemma TakeKept<T>(q: Queue<T>)
    requires Inv(q) && q.consumer.Take?
    ensures Inv(ConsumerStep(q))
  {
    hide ConsumerStep, ChainInv, RetiredInv, ProducersInv, HistoryInv, ConsumerInv;
    var q' := ConsumerStep(q);
    TakeTakes(q);
    TakeKeepsChain(q, q');
    TakeKeepsRetired(q, q');
    TakeKeepsProducers(q, q');
    TakeKeepsHistory(q, q');
  }

  lemma TakeKeepsChain<T>(q: Queue<T>, q': Queue<T>)
    requires ChainInv(q) && Took(q, q')
    ensures ChainInv(q')
  {
    var k :| 0 <= k < |q.chain| && q.chain[k] == q.tail;
    assert q'.chain[k - 1] == q.tail;
    assert forall i :: 0 <= i < |q'.chain| ==> q'.chain[i] == q.chain[i + 1];
  }

  lemma TakeKeepsRetired<T>(q: Queue<T>, q': Queue<T>)
    requires ChainInv(q) && RetiredInv(q) && Took(q, q')
    ensures RetiredInv(q')
  {
    assert q'.RetiredNodes() == [q.chain[0]] + q.RetiredNodes();
    assert forall i :: 0 <= i < |q'.chain| ==> q'.chain[i] == q.chain[i + 1];
    assert q.next[q.chain[0]] == Some(q.chain[1]);
  }

  lemma TakeKeepsProducers<T>(q: Queue<T>, q': Queue<T>)
    requires ProducersInv(q) && Took(q, q')
    ensures ProducersInv(q')
  {
    assert q.chain == [q.head] + q'.chain && q'.RetiredNodes() == [q.head] + q.RetiredNodes();
    forall r | 0 <= r < |q'.producers|
      ensures OwnerInv(q', q'.producers[r]) && GuardInv(q', q'.producers[r])
    {
      assert OwnerInv(q, q.producers[r]) && GuardInv(q, q.producers[r]);
    }
  }

  lemma TakeKeepsHistory<T>(q: Queue<T>, q': Queue<T>)
    requires HistoryInv(q) && Took(q, q')
    ensures HistoryInv(q')
  {
    hide ValuesOf;
    assert forall i :: 1 <= i < |q'.chain| ==> q'.chain[i] == q.chain[i + 1];
    forall r | 0 <= r < |q'.producers|
      ensures SubmittedInv(q', r)
    {
      assert SubmittedInv(q, r);
    }
  }

  lemma ScanKept<T>(q: Queue<T>)
    requires Inv(q) && (q.consumer.ReadUsed? || q.consumer.Scan?)
    ensures Inv(ConsumerStep(q))
  {
    hide ChainInv, HistoryInv, RetiredInv;
    var q' := ConsumerStep(q);
    if q.consumer.Scan? {
      var snapshot := q'.consumer.snapshot;
      forall r | 0 <= r < |q.producers| && (r <= q.consumer.i || r >= q.consumer.used)
        ensures Seen(q', r, snapshot)
      {
        assert GuardInv(q, q.producers[r]);
        assert r < q.consumer.i || r >= q.consumer.used ==> Seen(q, r, q.consumer.snapshot);
        assert q'.RetiredNodes() == q.RetiredNodes();
      }
    }
    ConsumerMoveKept(q, q'.consumer);
  }

  lemma SweepKept<T>(q: Queue<T>)
    requires Inv(q) && q.consumer.Sweep?
    ensures Inv(ConsumerStep(q))
  {
    if q.retired == [] {
      SweepEnds(q);
    } else if q.retired[0] in q.consumer.snapshot {
      SweepSpares(q);
    } else {
      SweepDeletes(q);
    }
  }

  function Elements(s: seq<Addr>): set<Addr> {
    set a | a in s
  }

  /** Survivors are distinct and were all seen in some slot, so there are no more of them than slots. */
  lemma SurvivorsFit(survivors: seq<Addr>, snapshot: seq<Addr>)
    requires Distinct(survivors) && forall i :: 0 <= i < |survivors| ==> survivors[i] in snapshot
    ensures |survivors| <= |snapshot|
  {
    CountElements(survivors);
    CountElements(snapshot);
    SubsetSize(Elements(survivors), Elements(snapshot));
  }

  lemma {:induction false} CountElements(s: seq<Addr>)
    ensures |Elements(s)| <= |s|
    ensures Distinct(s) ==> |Elements(s)| == |s|
  {
    if s != [] {
      CountElements(s[1..]);
      assert Elements(s) == {s[0]} + Elements(s[1..]);
    }
  }

  lemma {:induction false} SubsetSize(a: set<Addr>, b: set<Addr>)
    requires a <= b
    ensures |a| <= |b|
    decreases |a|
  {
    if a != {} {
      var x :| x in a;
      SubsetSize(a - {x}, b - {x});
    }
  }

  /** The retired nodes are listed in another order. */
  lemma ReorderKept<T>(q: Queue<T>, q': Queue<T>)
    requires Inv(q) && q' == q.(retired := q'.retired, consumer := q'.consumer)
    requires Distinct(q'.RetiredNodes()) && ConsumerInv(q')
    requires forall a :: a in q'.RetiredNodes() <==> a in q.RetiredNodes()
    ensures Inv(q')
  {
    hide RetiredInv, ProducersInv, ConsumerInv, HistoryInv;
    ReorderKeepsRetired(q, q');
    SameProducersKept(q, q');
    SameHistoryKept(q, q');
  }

  lemma ReorderKeepsRetired<T>(q: Queue<T>, q': Queue<T>)
    requires RetiredInv(q) && q'.chain == q.chain && q'.next == q.next
    requires Distinct(q'.RetiredNodes())
    requires forall a :: a in q'.RetiredNodes() <==> a in q.RetiredNodes()
    ensures RetiredInv(q')
  {
    var was := q.RetiredNodes();
    var now := q'.RetiredNodes();
    forall i | 0 <= i < |now|
      ensures now[i] in q.next && q.next[now[i]].Some? && now[i] !in q.chain
    {
      assert now[i] in now;
      var k :| 0 <= k < |was| && was[k] == now[i];
    }
  }

  /** The end of a sweep: at most one survivor for every slot is kept. */
  lemma SweepEnds<T>(q: Queue<T>)
    requires Inv(q) && q.consumer.Sweep? && q.retired == []
    ensures Inv(ConsumerStep(q)) && |ConsumerStep(q).retired| <= q.maxProducers
  {
    var q' := ConsumerStep(q);
    assert q.RetiredNodes() == q.consumer.survivors == q'.RetiredNodes();
    SurvivorsFit(q.consumer.survivors, q.consumer.snapshot);
    ReorderKept(q, q');
  }

  lemma SweepSpares<T>(q: Queue<T>)
    requires Inv(q) && q.consumer.Sweep? && q.retired != [] && q.retired[0] in q.consumer.snapshot
    ensures Inv(ConsumerStep(q))
  {
    hide ChainInv, HistoryInv, ProducersInv, Distinct;
    var q' := ConsumerStep(q);
    SparedMoves(q.retired, q.consumer.survivors);
    forall r | 0 <= r < |q.producers|
      ensures Seen(q', r, q.consumer.snapshot)
    {
      assert Seen(q, r, q.consumer.snapshot);
    }
    ReorderKept(q, q');
  }

  /** The first retired node moves in front of the survivors. */
  lemma SparedMoves(retired: seq<Addr>, survivors: seq<Addr>)
    requires retired != [] && Distinct(retired + survivors)
    ensures Distinct(retired[1..] + ([retired[0]] + survivors))
    ensures forall a :: a in retired[1..] + ([retired[0]] + survivors) <==> a in retired + survivors
  {
    var was := retired + survivors;
    var now := retired[1..] + ([retired[0]] + survivors);
    var n := |retired|;
    assert was == [retired[0]] + retired[1..] + survivors;
    forall i, j | 0 <= i < j < |now|
      ensures now[i] != now[j]
    {
      assert now[i] == was[if i < n - 1 then i + 1 else if i == n - 1 then 0 else i];
      assert now[j] == was[if j < n - 1 then j + 1 else if j == n - 1 then 0 else j];
    }
  }

  ghost predicate Deleting<T>(q: Queue<T>) {
    Inv(q) && q.consumer.Sweep? && q.retired != [] && q.retired[0] !in q.consumer.snapshot
  }

  /** A retired node is gone and nothing else has changed. */
  ghost predicate Deleted<T>(q: Queue<T>, q': Queue<T>, node: Addr) {
    && q' == q.(retired := q'.retired, next := q.next - {node}, data := q.data - {node})
    && q.RetiredNodes() == [node] + q'.RetiredNodes()
  }

  /** What a sweep deletes: an unguarded retired node. */
  lemma SweepDeletes<T>(q: Queue<T>)
    requires Deleting(q)
    ensures Inv(ConsumerStep(q))
  {
    hide ChainInv, RetiredInv, ProducersInv, HistoryInv, ConsumerInv;
    var q' := ConsumerStep(q);
    var node := q.retired[0];
    assert q.RetiredNodes() == [node] + q'.RetiredNodes();
    DeletedIsUnused(q);
    DeleteKeepsMemory(q, q', node);
    DeleteKeepsProducers(q, q', node);
    DeleteKeepsHistory(q, q', node);
    DeleteKeepsConsumer(q, q', node);
  }

  lemma RetiredIsOutside<T>(q: Queue<T>, node: Addr)
    requires ChainInv(q) && RetiredInv(q) && node in q.RetiredNodes()
    ensures node !in q.chain && node != q.tail && node != q.head
  {
  }

  /** The node about to be deleted: retired, unguarded, and in nobody's hands. */
  lemma DeletedIsUnused<T>(q: Queue<T>)
    requires Deleting(q)
    ensures var node := q.retired[0];
            && node in q.RetiredNodes() && node !in q.chain && node != q.tail && node != q.head
            && forall r :: 0 <= r < |q.producers| ==>
                 && q.producers[r].Guarded() != Some(node)
                 && !(q.producers[r].Owns() && q.producers[r].node == node)
  {
    hide ChainInv, RetiredInv, HistoryInv;
    var node := q.retired[0];
    assert q.RetiredNodes()[0] == node;
    RetiredIsOutside(q, node);
    forall r | 0 <= r < |q.producers|
      ensures q.producers[r].Guarded() != Some(node) && !(q.producers[r].Owns() && q.producers[r].node == node)
    {
      assert Seen(q, r, q.consumer.snapshot) && OwnerInv(q, q.producers[r]);
    }
  }

  lemma DeleteKeepsMemory<T>(q: Queue<T>, q': Queue<T>, node: Addr)
    requires ChainInv(q) && RetiredInv(q) && Deleted(q, q', node) && node !in q.chain
    ensures ChainInv(q') && RetiredInv(q')
  {
    var was := q.RetiredNodes();
    var now := q'.RetiredNodes();
    forall i | 0 <= i < |now|
      ensures now[i] in q'.next && q'.next[now[i]].Some?
    {
      assert now[i] == was[i + 1] && was[0] == node;
    }
    assert now == was[1..];
    TailOfList(was, q.chain);
  }

  lemma TailOfList(list: seq<Addr>, other: seq<Addr>)
    requires list != [] && Distinct(list) && Disjoint(other, list)
    ensures Distinct(list[1..]) && Disjoint(other, list[1..])
  {
  }

  lemma DeleteKeepsProducers<T>(q: Queue<T>, q': Queue<T>, node: Addr)
    requires ProducersInv(q) && Deleted(q, q', node)
    requires forall r :: 0 <= r < |q.producers| ==>
               && q.producers[r].Guarded() != Some(node)
               && !(q.producers[r].Owns() && q.producers[r].node == node)
    ensures ProducersInv(q')
  {
    forall r | 0 <= r < |q'.producers|
      ensures OwnerInv(q', q'.producers[r]) && GuardInv(q', q'.producers[r])
    {
      assert OwnerInv(q, q.producers[r]) && GuardInv(q, q.producers[r]);
    }
  }

  lemma DeleteKeepsHistory<T>(q: Queue<T>, q': Queue<T>, node: Addr)
    requires HistoryInv(q) && Deleted(q, q', node) && node !in q.chain
    ensures HistoryInv(q')
  {
    hide ValuesOf;
    forall r | 0 <= r < |q'.producers|
      ensures SubmittedInv(q', r)
    {
      assert SubmittedInv(q, r);
    }
  }

  lemma DeleteKeepsConsumer<T>(q: Queue<T>, q': Queue<T>, node: Addr)
    requires ConsumerInv(q) && Deleted(q, q', node) && q.consumer.Sweep? && |q'.retired| <= |q.retired|
    ensures ConsumerInv(q')
  {
    forall r | 0 <= r < |q.producers|
      ensures Seen(q', r, q.consumer.snapshot)
    {
      assert Seen(q, r, q.consumer.snapshot);
    }
  }

  lemma ConsumerStepKept<T>(q: Queue<T>)
    requires Inv(q)
    ensures Inv(ConsumerStep(q))
  {
    hide Inv, ConsumerStep;
    match q.consumer
    case Rest => ReadTailKept(q);
    case ReadTail(_) => ReadTailKept(q);
    case AdvanceTail(_) => ReadTailKept(q);
    case Take(_) => TakeKept(q);
    case ReadUsed => ScanKept(q);
    case Scan(_, _, _) => ScanKept(q);
    case Sweep(_, _) => SweepKept(q);
  }
}
