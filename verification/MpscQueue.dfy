/** The lock-free queue that carries document commands: many producers, one consumer, hazard slots that
    guard nodes against reclamation (core/include/collab/mpsc_queue.h). Every constructor of the program
    counters stands for one atomic access to shared memory; steps of different threads interleave freely
    and are sequentially consistent. */
module MpscQueue {
  import opened Operations

  /** Addresses of nodes; a deleted node's address may be handed out again. */
  type Addr = nat

  /** The next shared access of a producer inside enqueue. */
  datatype ProducerPc =
    | Idle
    | LoadTail
    | Publish(t: Addr)
    | Validate(t: Addr)
    | ReadNext(t: Addr)
    | HelpTail(t: Addr, tNext: Addr)
    | LinkNode(t: Addr)
    | SwingTail(t: Addr)
    | Withdraw

  /** A producer thread; its index is its slot. submitted records the values it has asked to enqueue. */
  datatype Producer<T> = Producer(pc: ProducerPc, node: Addr, hazard: Option<Addr>, submitted: seq<T>)
  {
    /** The node is the producer's alone: it is not linked yet. */
    predicate Owns() {
      pc.LoadTail? || pc.Publish? || pc.Validate? || pc.ReadNext? || pc.HelpTail? || pc.LinkNode?
    }

    /** The node the producer may still dereference or compare after validating its hazard. */
    function Guarded(): Option<Addr> {
      match pc
      case ReadNext(t) => Some(t)
      case HelpTail(t, _) => Some(t)
      case LinkNode(t) => Some(t)
      case SwingTail(t) => Some(t)
      case _ => None
    }
  }

  /** The next access of the consumer inside try_dequeue and try_reclaim_. */
  datatype ConsumerPc =
    | Rest
    | ReadTail(next: Addr)
    | AdvanceTail(next: Addr)
    | Take(next: Addr)
    | ReadUsed
    | Scan(i: nat, used: nat, snapshot: seq<Addr>)
    | Sweep(snapshot: seq<Addr>, survivors: seq<Addr>)

  /** chain, linked and taken are history: the nodes from head on, the values in the order of their
      successful compare-and-swap with their producers, and the values dequeued. fault records an access to
      a node that is not allocated. */
  datatype Queue<T> = Queue(
    maxProducers: nat,
    next: map<Addr, Option<Addr>>, data: map<Addr, T>,
    tail: Addr, head: Addr, retired: seq<Addr>,
    producers: seq<Producer<T>>, consumer: ConsumerPc, fault: bool,
    chain: seq<Addr>, linked: seq<(nat, T)>, taken: seq<T>)
  {
    /** Nodes unlinked and not yet deleted. */
    function RetiredNodes(): seq<Addr> {
      if consumer.Sweep? then retired + consumer.survivors else retired
    }
  }

  datatype Action<T> =
    | Enter
    | Begin(p: nat, value: T, node: Addr)
    | Produce(p: nat)
    | Consume

  function Start<T>(maxProducers: nat, sentinel: Addr): Queue<T> {
    Queue(maxProducers, map[sentinel := None], map[], sentinel, sentinel, [], [], Rest, false, [sentinel], [], [])
  }

  predicate Enabled<T>(q: Queue<T>, a: Action<T>) {
    match a
    case Enter => |q.producers| < q.maxProducers
    case Begin(p, _, node) => p < |q.producers| && q.producers[p].pc.Idle? && node !in q.next
    case Produce(p) => p < |q.producers| && !q.producers[p].pc.Idle?
    case Consume => true
  }

  function CompareAndSwap(current: Addr, expected: Addr, desired: Addr): Addr {
    if current == expected then desired else current
  }

  function Moved<T>(q: Queue<T>, p: nat, pc: ProducerPc): Queue<T>
    requires p < |q.producers|
  {
    q.(producers := q.producers[p := q.producers[p].(pc := pc)])
  }

  function ProducerStep<T>(q: Queue<T>, p: nat): Queue<T>
    requires p < |q.producers|
  {
    var me := q.producers[p];
    match me.pc
    case Idle => q
    case LoadTail => Moved(q, p, Publish(q.tail))
    case Publish(t) => q.(producers := q.producers[p := me.(hazard := Some(t), pc := Validate(t))])
    case Validate(t) => Moved(q, p, if q.tail == t then ReadNext(t) else LoadTail)
    case ReadNext(t) =>
      if t !in q.next then q.(fault := true)
      else Moved(q, p, if q.next[t].Some? then HelpTail(t, q.next[t].value) else LinkNode(t))
    case HelpTail(t, tNext) => Moved(q, p, LoadTail).(tail := CompareAndSwap(q.tail, t, tNext))
    case LinkNode(t) =>
      if t !in q.next || me.node !in q.data then q.(fault := true)
      else if q.next[t].Some? then Moved(q, p, LoadTail)
      else Moved(q, p, SwingTail(t)).(
             next := q.next[t := Some(me.node)],
             chain := q.chain + [me.node], linked := q.linked + [(p, q.data[me.node])])
    case SwingTail(t) => Moved(q, p, Withdraw).(tail := CompareAndSwap(q.tail, t, me.node))
    case Withdraw => q.(producers := q.producers[p := me.(hazard := None, pc := Idle)])
  }

  function ConsumerStep<T>(q: Queue<T>): Queue<T> {
    match q.consumer
    case Rest =>
      if q.head !in q.next then q.(fault := true)
      else if q.next[q.head].None? then q
      else q.(consumer := ReadTail(q.next[q.head].value))
    case ReadTail(next) => q.(consumer := if q.tail == q.head then AdvanceTail(next) else Take(next))
    case AdvanceTail(next) => q.(tail := CompareAndSwap(q.tail, q.head, next), consumer := Take(next))
    case Take(next) =>
      if next !in q.data then q.(fault := true)
      else
        q.(taken := q.taken + [q.data[next]], head := next, retired := [q.head] + q.retired,
           chain := if q.chain == [] then [] else q.chain[1..],
           consumer := if |q.retired| + 1 >= 2 * q.maxProducers then ReadUsed else Rest)
    case ReadUsed =>
      var used := if |q.producers| > q.maxProducers then q.maxProducers else |q.producers|;
      q.(consumer := Scan(0, used, []))
    case Scan(i, used, snapshot) =>
      if i < used && i < |q.producers| then
        var hazard := q.producers[i].hazard;
        q.(consumer := Scan(i + 1, used, if hazard.Some? then snapshot + [hazard.value] else snapshot))
      else q.(consumer := Sweep(snapshot, []))
    case Sweep(snapshot, survivors) =>
      if q.retired == [] then q.(retired := survivors, consumer := Rest)
      else
        var cur := q.retired[0];
        if cur in snapshot then q.(retired := q.retired[1..], consumer := Sweep(snapshot, [cur] + survivors))
        else q.(retired := q.retired[1..], next := q.next - {cur}, data := q.data - {cur})
  }

  function Next<T>(q: Queue<T>, a: Action<T>): Queue<T>
    requires Enabled(q, a)
  {
    match a
    case Enter => q.(producers := q.producers + [Producer(Idle, 0, None, [])])
    case Begin(p, value, node) =>
      q.(next := q.next[node := None], data := q.data[node := value],
         producers := q.producers[p :=
           q.producers[p].(pc := LoadTail, node := node, submitted := q.producers[p].submitted + [value])])
    case Produce(p) => ProducerStep(q, p)
    case Consume => ConsumerStep(q)
  }

  predicate IsRun<T>(q: Queue<T>, actions: seq<Action<T>>)
    decreases |actions|
  {
    actions == [] || (Enabled(q, actions[0]) && IsRun(Next(q, actions[0]), actions[1..]))
  }

  function After<T>(q: Queue<T>, actions: seq<Action<T>>): Queue<T>
    requires IsRun(q, actions)
    decreases |actions|
  {
    if actions == [] then q else After(Next(q, actions[0]), actions[1..])
  }
}
