/** What a call of the queue achieves: try_dequeue on a non-empty queue returns the oldest value, and enqueue
    links its value, each after a bounded number of its own steps when no other thread interferes
    (core/include/collab/mpsc_queue.h). */
module MpscProgress {
  import opened Operations
  import opened MpscQueue
  import opened MpscInvariant
  import opened MpscPreservation
  import opened MpscSafety
  import opened MpscReclaim

  // ---- try_dequeue

  /** The consumer has found a successor of head and has not taken its value yet. */
  predicate BeforeTaking<T>(q: Queue<T>) {
    q.consumer.ReadTail? || q.consumer.AdvanceTail? || q.consumer.Take?
  }

  /** The value the running call is going to return, if it has not taken it yet. */
  function Due<T>(q: Queue<T>): seq<T> {
    if BeforeTaking(q) && |q.taken| < |q.linked| then [q.linked[|q.taken|].1] else []
  }

  /** A call of try_dequeue under way, and the rest of the run up to its return. */
  predicate Returns<T>(q: Queue<T>, actions: seq<Action<T>>)
    requires IsRun(q, actions)
    decreases |actions|
  {
    if actions == [] then q.consumer.Rest?
    else !q.consumer.Rest? && Returns(Next(q, actions[0]), actions[1..])
  }

  lemma NextValue<T>(q: Queue<T>)
    requires Inv(q) && BeforeTaking(q)
    ensures |q.taken| < |q.linked| && q.consumer.next in q.data
    ensures q.data[q.consumer.next] == q.linked[|q.taken|].1
  {
    hide RetiredInv, ProducersInv;
    assert q.chain[1] == q.consumer.next;
  }

  lemma ProducersLeaveTheCall<T>(q: Queue<T>, p: nat)
    requires p < |q.producers|
    ensures var t := ProducerStep(q, p);
            t.consumer == q.consumer && t.taken == q.taken && q.linked <= t.linked
  {
    hide CompareAndSwap;
    var me := q.producers[p];
    if me.pc.LinkNode? && me.node in q.data {
      assert q.linked <= q.linked + [(p, q.data[me.node])];
    }
  }

  lemma OthersLeaveTheCall<T>(q: Queue<T>, a: Action<T>)
    requires Enabled(q, a) && !a.Consume?
    ensures Next(q, a).consumer == q.consumer && Next(q, a).taken == q.taken && q.linked <= Next(q, a).linked
  {
    hide ProducerStep;
    if a.Produce? {
      ProducersLeaveTheCall(q, a.p);
    }
  }

  /** A step neither loses the value that is due nor takes another. */
  lemma StepKeepsDue<T>(q: Queue<T>, a: Action<T>)
    requires Inv(q) && Enabled(q, a) && !q.consumer.Rest?
    ensures Next(q, a).taken + Due(Next(q, a)) == q.taken + Due(q)
  {
    hide Inv, ProducerStep;
    var t := Next(q, a);
    if BeforeTaking(q) {
      NextValue(q);
    }
    if !a.Consume? {
      OthersLeaveTheCall(q, a);
    } else {
      ConsumerStepKept(q);
      if BeforeTaking(t) {
        NextValue(t);
      }
    }
  }

  lemma {:induction false} CallTakesDue<T>(q: Queue<T>, actions: seq<Action<T>>)
    requires Inv(q) && IsRun(q, actions) && Returns(q, actions)
    ensures After(q, actions).taken == q.taken + Due(q)
    decreases |actions|
  {
    hide Inv, Next, Enabled;
    if actions != [] {
      StepKeepsDue(q, actions[0]);
      StepKeepsInv(q, actions[0]);
      CallTakesDue(Next(q, actions[0]), actions[1..]);
    }
  }

  /** A call of try_dequeue starts: it finds something exactly if a linked value has not been taken. */
  lemma CallStarts<T>(q: Queue<T>)
    requires Inv(q) && q.consumer.Rest?
    ensures |q.taken| == |q.linked| ==> ConsumerStep(q) == q
    ensures |q.taken| < |q.linked| ==>
              BeforeTaking(ConsumerStep(q)) && ConsumerStep(q).taken == q.taken && ConsumerStep(q).linked == q.linked
  {
    hide RetiredInv, ProducersInv;
    ChainPointsOn(q, q.head);
  }

  /** In every interleaving a call of try_dequeue on a non-empty queue that returns has taken exactly one value,
      the oldest one that was linked and not taken. */
  lemma DequeueTakesOldest<T>(
      maxProducers: nat, sentinel: Addr, past: seq<Action<T>>, call: seq<Action<T>>)
    requires maxProducers >= 1 && IsRun(Start(maxProducers, sentinel), past)
    requires var q := After(Start(maxProducers, sentinel), past);
             q.consumer.Rest? && |q.taken| < |q.linked|
    requires var q := After(Start(maxProducers, sentinel), past);
             IsRun(Next(q, Consume), call) && Returns(Next(q, Consume), call)
    ensures var q := After(Start(maxProducers, sentinel), past);
            After(Next(q, Consume), call).taken == q.taken + [q.linked[|q.taken|].1]
  {
    hide Inv, ConsumerStep;
    StartIsInv<T>(maxProducers, sentinel);
    RunKeepsInv(Start<T>(maxProducers, sentinel), past);
    var q := After(Start<T>(maxProducers, sentinel), past);
    CallStarts(q);
    StepKeepsInv(q, Consume);
    CallTakesDue(Next(q, Consume), call);
  }

  /** The steps a sweep, a scan, or a whole call still takes. */
  function Remaining<T>(q: Queue<T>): nat {
    match q.consumer
    case Rest => 0
    case Sweep(_, _) => |q.retired| + 1
    case Scan(i, used, _) => ScanLength(q, i, used) + |q.retired| + 2
    case ReadUsed => ScanLength(q, 0, |q.producers|) + |q.retired| + 3
    case Take(_) => ScanLength(q, 0, |q.producers|) + |q.retired| + 5
    case AdvanceTail(_) => ScanLength(q, 0, |q.producers|) + |q.retired| + 6
    case ReadTail(_) => ScanLength(q, 0, |q.producers|) + |q.retired| + 7
  }

  function ScanLength<T>(q: Queue<T>, i: nat, used: nat): nat {
    if i < used && i < |q.producers| then (if used < |q.producers| then used else |q.producers|) - i else 0
  }

  lemma ConsumerAdvances<T>(q: Queue<T>)
    requires Inv(q) && !q.consumer.Rest?
    ensures Remaining(ConsumerStep(q)) < Remaining(q)
  {
    hide Inv, CompareAndSwap;
    if BeforeTaking(q) {
      NextValue(q);
    }
  }

  /** The consumer alone finishes its call. */
  lemma {:induction false} ConsumerReturns<T>(q: Queue<T>) returns (n: nat)
    requires Inv(q)
    ensures n <= Remaining(q) && IsRun(q, Consumes<T>(n)) && Returns(q, Consumes<T>(n))
    decreases Remaining(q)
  {
    hide Inv, ConsumerStep, Remaining;
    if q.consumer.Rest? {
      n := 0;
    } else {
      ConsumerAdvances(q);
      StepKeepsInv(q, Consume);
      var rest := ConsumerReturns(Next(q, Consume));
      n := rest + 1;
      assert Consumes<T>(n)[0] == Consume && Consumes<T>(n)[1..] == Consumes<T>(rest);
    }
  }

  /** A consumer that is not interfered with comes back with the oldest value, within a bounded number of steps. */
  lemma DequeueReturnsValue<T>(maxProducers: nat, sentinel: Addr, past: seq<Action<T>>) returns (n: nat)
    requires maxProducers >= 1 && IsRun(Start(maxProducers, sentinel), past)
    requires var q := After(Start(maxProducers, sentinel), past);
             q.consumer.Rest? && |q.taken| < |q.linked|
    ensures var q := After(Start(maxProducers, sentinel), past);
            && 1 <= n <= |q.producers| + |q.retired| + 8
            && IsRun(q, Consumes<T>(n)) && After(q, Consumes<T>(n)).consumer.Rest?
            && After(q, Consumes<T>(n)).taken == q.taken + [q.linked[|q.taken|].1]
  {
    hide Inv, ConsumerStep;
    StartIsInv<T>(maxProducers, sentinel);
    RunKeepsInv(Start<T>(maxProducers, sentinel), past);
    var q := After(Start<T>(maxProducers, sentinel), past);
    CallStarts(q);
    StepKeepsInv(q, Consume);
    var q1 := Next(q, Consume);
    var rest := ConsumerReturns(q1);
    n := rest + 1;
    assert Consumes<T>(n)[0] == Consume && Consumes<T>(n)[1..] == Consumes<T>(rest);
    ReturnsAtRest(q1, Consumes<T>(rest));
    DequeueTakesOldest(maxProducers, sentinel, past, Consumes<T>(rest));
    CallIsShort(q);
  }

  lemma {:induction false} ReturnsAtRest<T>(q: Queue<T>, actions: seq<Action<T>>)
    requires IsRun(q, actions) && Returns(q, actions)
    ensures After(q, actions).consumer.Rest?
    decreases |actions|
  {
    hide Next, Enabled;
    if actions != [] {
      ReturnsAtRest(Next(q, actions[0]), actions[1..]);
    }
  }

  lemma CallIsShort<T>(q: Queue<T>)
    requires q.consumer.Rest?
    ensures Remaining(ConsumerStep(q)) <= |q.producers| + |q.retired| + 7
  {
  }

  // ---- enqueue

  function Produces<T>(p: nat, n: nat): (actions: seq<Action<T>>)
    ensures |actions| == n
  {
    seq(n, _ => Produce(p))
  }

  /** Producer p takes n steps, nobody else any. */
  ghost predicate Leads<T>(q: Queue<T>, p: nat, n: nat, t: Queue<T>) {
    IsRun(q, Produces<T>(p, n)) && After(q, Produces<T>(p, n)) == t
  }

  lemma LeadsNowhere<T>(q: Queue<T>, p: nat)
    ensures Leads(q, p, 0, q)
  {
  }

  lemma LeadsOn<T>(q: Queue<T>, p: nat, n: nat, t: Queue<T>)
    requires p < |q.producers| && !q.producers[p].pc.Idle? && Leads(ProducerStep(q, p), p, n, t)
    ensures Leads(q, p, n + 1, t)
  {
    hide ProducerStep;
    var actions := Produces<T>(p, n + 1);
    assert actions[0] == Produce(p) && actions[1..] == Produces<T>(p, n);
    assert Next(q, Produce(p)) == ProducerStep(q, p);
  }

  /** Producer p is about to read the tail, which is node i of the chain. */
  ghost predicate Loading<T>(q: Queue<T>, p: nat, i: nat) {
    && p < |q.producers| && q.producers[p].pc.LoadTail? && q.producers[p].node in q.data
    && i < |q.chain| && q.chain[i] == q.tail
    && (forall j :: i <= j < |q.chain| ==> q.chain[j] in q.next)
    && (forall j :: i <= j < |q.chain| - 1 ==> q.next[q.chain[j]] == Some(q.chain[j + 1]))
    && q.next[q.chain[|q.chain| - 1]] == None
  }

  /** What a finished enqueue has done: the value is linked last, the tail points to it, the slot is empty. */
  ghost predicate Enqueued<T>(q: Queue<T>, p: nat, t: Queue<T>)
    requires p < |q.producers| && q.producers[p].node in q.data
  {
    var me := q.producers[p];
    && t.linked == q.linked + [(p, q.data[me.node])] && t.chain == q.chain + [me.node] && t.tail == me.node
    && t.taken == q.taken && t.consumer == q.consumer
    && t.producers == q.producers[p := me.(pc := Idle, hazard := None)]
  }

  /** The queue with producer p somewhere else. */
  function With<T>(q: Queue<T>, p: nat, pc: ProducerPc, hazard: Option<Addr>): Queue<T>
    requires p < |q.producers|
  {
    q.(producers := q.producers[p := q.producers[p].(pc := pc, hazard := hazard)])
  }

  lemma OneStep<T>(q: Queue<T>, p: nat, pc: ProducerPc, hazard: Option<Addr>)
    requires p < |q.producers|
    ensures var at := With(q, p, pc, hazard);
            && (pc.LoadTail? ==> ProducerStep(at, p) == With(q, p, Publish(q.tail), hazard))
            && (pc.Publish? ==> ProducerStep(at, p) == With(q, p, Validate(pc.t), Some(pc.t)))
            && (pc.Validate? && pc.t == q.tail ==> ProducerStep(at, p) == With(q, p, ReadNext(pc.t), hazard))
            && (pc.ReadNext? && pc.t in q.next ==>
                  var (t, next) := (pc.t, q.next[pc.t]);
                  var read := if next.Some? then HelpTail(t, next.value) else LinkNode(t);
                  ProducerStep(at, p) == With(q, p, read, hazard))
  {
    hide CompareAndSwap;
  }

  /** Reading the tail, publishing and validating the hazard, reading the successor: four steps. */
  lemma ReadsSuccessor<T>(q: Queue<T>, p: nat, n: nat, t: Queue<T>)
    requires p < |q.producers| && q.producers[p].pc.LoadTail? && q.tail in q.next
    requires var next := q.next[q.tail];
             var pc := if next.Some? then HelpTail(q.tail, next.value) else LinkNode(q.tail);
             Leads(With(q, p, pc, Some(q.tail)), p, n, t)
    ensures Leads(q, p, n + 4, t)
  {
    hide Leads, ProducerStep;
    var (tail, hazard) := (q.tail, q.producers[p].hazard);
    assert With(q, p, LoadTail, hazard) == q;
    OneStep(q, p, LoadTail, hazard);
    OneStep(q, p, Publish(tail), hazard);
    OneStep(q, p, Validate(tail), Some(tail));
    OneStep(q, p, ReadNext(tail), Some(tail));
    LeadsOn(With(q, p, ReadNext(tail), Some(tail)), p, n, t);
    LeadsOn(With(q, p, Validate(tail), Some(tail)), p, n + 1, t);
    LeadsOn(With(q, p, Publish(tail), hazard), p, n + 2, t);
    LeadsOn(q, p, n + 3, t);
  }

  /** What a finished enqueue leaves behind. */
  function Linked<T>(q: Queue<T>, p: nat): Queue<T>
    requires p < |q.producers| && q.producers[p].node in q.data
  {
    var node := q.producers[p].node;
    With(q, p, Idle, None).(
      next := q.next[q.tail := Some(node)], tail := node,
      chain := q.chain + [node], linked := q.linked + [(p, q.data[node])])
  }

  /** With the tail at the end the value is linked within seven steps. */
  lemma LinkAtEnd<T>(q: Queue<T>, p: nat)
    requires q.chain != [] && Loading(q, p, |q.chain| - 1)
    ensures Leads(q, p, 7, Linked(q, p))
  {
    hide Leads;
    var (tail, node) := (q.tail, q.producers[p].node);
    var t := Linked(q, p);
    var linking := With(q, p, LinkNode(tail), Some(tail));
    var swinging := With(q, p, SwingTail(tail), Some(tail)).(
      next := q.next[tail := Some(node)], chain := q.chain + [node], linked := q.linked + [(p, q.data[node])]);
    var leaving := swinging.(tail := node, producers := With(q, p, Withdraw, Some(tail)).producers);
    assert ProducerStep(linking, p) == swinging;
    assert ProducerStep(swinging, p) == leaving;
    assert ProducerStep(leaving, p) == t;
    LeadsNowhere(t, p);
    LeadsOn(leaving, p, 0, t);
    LeadsOn(swinging, p, 1, t);
    LeadsOn(linking, p, 2, t);
    ReadsSuccessor(q, p, 3, t);
  }

  /** The queue after the tail has been helped to node. */
  function Helped<T>(q: Queue<T>, p: nat, node: Addr): Queue<T>
    requires p < |q.producers|
  {
    With(q, p, LoadTail, Some(q.tail)).(tail := node)
  }

  /** A lagging tail is helped one node along in five steps. */
  lemma HelpAlong<T>(q: Queue<T>, p: nat, i: nat, n: nat, u: Queue<T>)
    requires Loading(q, p, i) && i < |q.chain| - 1
    requires Leads(Helped(q, p, q.chain[i + 1]), p, n, u)
    ensures Leads(q, p, n + 5, u)
  {
    hide Leads;
    var (tail, next) := (q.tail, q.chain[i + 1]);
    assert ProducerStep(With(q, p, HelpTail(tail, next), Some(tail)), p) == Helped(q, p, next);
    LeadsOn(With(q, p, HelpTail(tail, next), Some(tail)), p, n, u);
    ReadsSuccessor(q, p, n + 1, u);
  }

  lemma HelpedLoads<T>(q: Queue<T>, p: nat, i: nat)
    requires Loading(q, p, i) && i < |q.chain| - 1
    ensures Loading(Helped(q, p, q.chain[i + 1]), p, i + 1)
  {
  }

  lemma HelpedLinks<T>(q: Queue<T>, p: nat, node: Addr, t: Queue<T>)
    requires p < |q.producers| && q.producers[p].node in q.data && Enqueued(Helped(q, p, node), p, t)
    ensures Enqueued(q, p, t)
  {
  }

  lemma HelpedChain<T>(q: Queue<T>, p: nat, node: Addr)
    requires p < |q.producers|
    ensures Helped(q, p, node).chain == q.chain
  {
  }

  lemma LinkedIsEnqueued<T>(q: Queue<T>, p: nat)
    requires p < |q.producers| && q.producers[p].node in q.data
    ensures Enqueued(q, p, Linked(q, p))
  {
  }

  lemma {:induction false} LoadingLinks<T>(q: Queue<T>, p: nat, i: nat) returns (t: Queue<T>)
    requires Loading(q, p, i)
    ensures Leads(q, p, 5 * (|q.chain| - 1 - i) + 7, t) && Enqueued(q, p, t)
    decreases |q.chain| - i
  {
    hide Loading, Leads, Linked, Helped, Enqueued;
    LoadingBounds(q, p, i);
    if i == |q.chain| - 1 {
      LinkAtEnd(q, p);
      LinkedIsEnqueued(q, p);
      t := Linked(q, p);
    } else {
      var u := Helped(q, p, q.chain[i + 1]);
      HelpedLoads(q, p, i);
      HelpedChain(q, p, q.chain[i + 1]);
      t := LoadingLinks(u, p, i + 1);
      HelpAlong(q, p, i, 5 * (|q.chain| - 2 - i) + 7, t);
      HelpedLinks(q, p, q.chain[i + 1], t);
    }
  }

  lemma LoadingBounds<T>(q: Queue<T>, p: nat, i: nat)
    requires Loading(q, p, i)
    ensures i < |q.chain| && p < |q.producers| && q.producers[p].node in q.data
  {
  }

  /** A producer that is not interfered with enqueues its value: after every run, from the start of a call its own
      steps alone link the value last and end the call, at most five for every node the tail lags behind, and
      seven more. */
  lemma EnqueueLinksValue<T>(
      maxProducers: nat, sentinel: Addr, past: seq<Action<T>>, p: nat, value: T, node: Addr)
    returns (n: nat, t: Queue<T>)
    requires maxProducers >= 1 && IsRun(Start(maxProducers, sentinel), past)
    requires Enabled(After(Start(maxProducers, sentinel), past), Begin(p, value, node))
    ensures var q := After(Start(maxProducers, sentinel), past);
            && n <= 5 * (|q.chain| - 1) + 7 && Leads(Next(q, Begin(p, value, node)), p, n, t)
            && t.linked == q.linked + [(p, value)] && t.taken == q.taken && t.tail == node
            && p < |t.producers| && t.producers[p].pc.Idle? && t.producers[p].hazard.None?
  {
    hide Inv, Leads;
    StartIsInv<T>(maxProducers, sentinel);
    RunKeepsInv(Start<T>(maxProducers, sentinel), past);
    var q := After(Start<T>(maxProducers, sentinel), past);
    var a := Begin(p, value, node);
    StepKeepsInv(q, a);
    var q1 := Next(q, a);
    var i := TailPlace(q1, p);
    t := LoadingLinks(q1, p, i);
    n := 5 * (|q1.chain| - 1 - i) + 7;
  }

  lemma TailPlace<T>(q: Queue<T>, p: nat) returns (i: nat)
    requires Inv(q) && p < |q.producers| && q.producers[p].pc.LoadTail?
    ensures Loading(q, p, i)
  {
    hide HistoryInv, ConsumerInv, RetiredInv;
    assert OwnerInv(q, q.producers[p]);
    i :| 0 <= i < |q.chain| && q.chain[i] == q.tail;
  }
}
