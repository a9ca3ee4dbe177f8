/** What every interleaving of the queue keeps. */
module MpscInvariant {
  import opened Operations
  import opened MpscQueue

  ghost predicate Distinct(s: seq<Addr>) {
    forall i, j :: 0 <= i < j < |s| ==> s[i] != s[j]
  }

  ghost predicate Disjoint(s: seq<Addr>, t: seq<Addr>) {
    forall i, j :: 0 <= i < |s| && 0 <= j < |t| ==> s[i] != t[j]
  }

  /** The nodes from head on are allocated and linked in order, ending in null; tail is one of them. */
  ghost predicate ChainInv<T>(q: Queue<T>) {
    && q.chain != [] && q.chain[0] == q.head && q.tail in q.chain
    && Distinct(q.chain)
    && (forall i :: 0 <= i < |q.chain| ==> q.chain[i] in q.next)
    && (forall i :: 0 <= i < |q.chain| - 1 ==> q.next[q.chain[i]] == Some(q.chain[i + 1]))
    && q.next[q.chain[|q.chain| - 1]] == None
  }

  /** Retired nodes are allocated, behind head, and still point forward. */
  ghost predicate RetiredInv<T>(q: Queue<T>) {
    && Distinct(q.RetiredNodes()) && Disjoint(q.chain, q.RetiredNodes())
    && (forall i :: 0 <= i < |q.RetiredNodes()| ==>
          q.RetiredNodes()[i] in q.next && q.next[q.RetiredNodes()[i]].Some?)
  }

  /** A node not yet linked belongs to one producer. */
  ghost predicate OwnerInv<T>(q: Queue<T>, p: Producer<T>) {
    p.Owns() ==>
      && p.node in q.next && q.next[p.node] == None
      && p.node in q.data && p.submitted != [] && q.data[p.node] == p.submitted[|p.submitted| - 1]
      && p.node !in q.chain && p.node !in q.RetiredNodes()
  }

  /** A validated node is guarded by the hazard slot, is not deleted, and the successor read from it is
      its successor. */
  ghost predicate GuardInv<T>(q: Queue<T>, p: Producer<T>) {
    && (p.pc.Validate? ==> p.hazard == Some(p.pc.t))
    && (p.Guarded().Some? ==>
          var t := p.Guarded().value;
          && p.hazard == Some(t)
          && (t in q.chain || t in q.RetiredNodes())
          && (p.pc.HelpTail? ==> t in q.next && q.next[t] == Some(p.pc.tNext))
          && (p.pc.SwingTail? ==> t in q.next && q.next[t] == Some(p.node)))
  }

  ghost predicate ProducersInv<T>(q: Queue<T>) {
    && |q.producers| <= q.maxProducers
    && (forall p :: 0 <= p < |q.producers| ==> OwnerInv(q, q.producers[p]) && GuardInv(q, q.producers[p]))
    && (forall p, r :: 0 <= p < r < |q.producers| && q.producers[p].Owns() && q.producers[r].Owns()
          ==> q.producers[p].node != q.producers[r].node)
  }

  /** A retired node that a producer guards has been seen in that producer's slot. */
  ghost predicate Seen<T>(q: Queue<T>, p: nat, snapshot: seq<Addr>)
    requires p < |q.producers|
  {
    var guarded := q.producers[p].Guarded();
    guarded.Some? && guarded.value in q.RetiredNodes() ==> guarded.value in snapshot
  }

  ghost predicate ConsumerInv<T>(q: Queue<T>) {
    match q.consumer
    case Rest => |q.retired| < 2 * q.maxProducers
    case ReadTail(next) => |q.retired| < 2 * q.maxProducers && |q.chain| >= 2 && q.chain[1] == next
    case AdvanceTail(next) => |q.retired| < 2 * q.maxProducers && |q.chain| >= 2 && q.chain[1] == next
    case Take(next) =>
      |q.retired| < 2 * q.maxProducers && |q.chain| >= 2 && q.chain[1] == next && q.tail != q.head
    case ReadUsed => |q.retired| == 2 * q.maxProducers
    case Scan(i, used, snapshot) =>
      && |q.retired| == 2 * q.maxProducers
      && |snapshot| <= i <= used <= |q.producers|
      && (forall p :: 0 <= p < |q.producers| && (p < i || p >= used) ==> Seen(q, p, snapshot))
    case Sweep(snapshot, survivors) =>
      && |snapshot| <= q.maxProducers
      && |q.retired| + |survivors| <= 2 * q.maxProducers
      && (forall p :: 0 <= p < |q.producers| ==> Seen(q, p, snapshot))
      && (forall i :: 0 <= i < |survivors| ==> survivors[i] in snapshot)
  }

  function ValuesOf<T>(linked: seq<(nat, T)>, p: nat): seq<T> {
    if linked == [] then []
    else
      var before := ValuesOf(linked[..|linked| - 1], p);
      if linked[|linked| - 1].0 == p then before + [linked[|linked| - 1].1] else before
  }

  /** Linked values are those taken followed by those in the chain behind head; each producer's values are
      linked in the order it submitted them, and only a value whose node it still owns is missing. */
  ghost predicate HistoryInv<T>(q: Queue<T>) {
    && q.chain != []
    && |q.linked| == |q.taken| + |q.chain| - 1
    && (forall i :: 0 <= i < |q.taken| ==> q.taken[i] == q.linked[i].1)
    && (forall i :: 1 <= i < |q.chain| ==>
          q.chain[i] in q.data && q.data[q.chain[i]] == q.linked[|q.taken| + i - 1].1)
    && (forall i :: 0 <= i < |q.linked| ==> q.linked[i].0 < |q.producers|)
    && (forall p :: 0 <= p < |q.producers| ==> SubmittedInv(q, p))
  }

  ghost predicate SubmittedInv<T>(q: Queue<T>, p: nat)
    requires p < |q.producers|
  {
    var me := q.producers[p];
    if me.Owns() then me.submitted != [] && ValuesOf(q.linked, p) == me.submitted[..|me.submitted| - 1]
    else ValuesOf(q.linked, p) == me.submitted
  }

  ghost predicate Inv<T>(q: Queue<T>) {
    && q.maxProducers >= 1 && !q.fault
    && ChainInv(q) && RetiredInv(q) && ProducersInv(q) && ConsumerInv(q) && HistoryInv(q)
  }

  lemma StartIsInv<T>(maxProducers: nat, sentinel: Addr)
    requires maxProducers >= 1
    ensures Inv(Start<T>(maxProducers, sentinel))
  {
  }
}
