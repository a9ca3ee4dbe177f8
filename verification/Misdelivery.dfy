/** An orphan accepted while its user is connected again (server/src/main.cpp, server/src/document_session.cpp):
    when the acknowledgement breaks the protocol, and what the client that receives it ends up with. */
module Misdelivery {
  import opened Operations
  import opened Transformation
  import opened Alignment
  import opened Rebase
  import opened Documents
  import opened Messages
  import opened Clients
  import opened Network
  import opened Invariant
  import opened Preservation
  import opened Refusal
  import opened Convergence

  /** The operation that is logged when the server accepts an orphan. */
  function Rewritten(s: System, o: Orphan): Operation
    requires |o.msg.ops| == 1 && o.msg.revision <= |s.log|
  {
    RewriteAgainst(Decoded(o.userId, o.msg), s.log[o.msg.revision..])
  }

  /** The client waits for a refused operation that would have been logged as the same edit. */
  predicate WaitsForTwin(log: seq<Operation>, l: Link, op: Operation)
    requires l.client.revision <= |log|
  {
    RefusedLink(log, l) && SameEdit(RewriteAgainst(l.client.pending.value, log[l.client.revision..]), op)
  }

  // ---- when the invariant survives

  /** A client whose user's name is under a logged operation it has not sent is out of step. */
  lemma StrayAckInStep(log: seq<Operation>, l: Link, op: Operation, m: ServerMsg)
    requires l.client.revision <= |log| && InStep(log, l) && op.userId == l.client.userId
    ensures InStep(log + [op], Told(l, m)) <==> WaitsForTwin(log, l, op)
  {
    hide SameEdit, RewriteAgainst, Submitted;
    var (log', l') := (log + [op], Told(l, m));
    assert log'[|log|] == op && forall i :: 0 <= i < |log| ==> log'[i] == log[i];
    assert log'[l.client.revision..|log|] == log[l.client.revision..];
    if WaitsForTwin(log, l, op) {
      assert LoggedAt(log', l', |log|);
    }
  }

  lemma StrayAckLink(reading: Reading, initial: Text, log: seq<Operation>, l: Link, op: Operation)
    requires LinkInv(reading, initial, log, l) && op.userId == l.client.userId && l.client.revision <= |log|
    ensures LinkInv(reading, initial, log + [op], Told(l, MessageFor(l.client.userId, op.userId, |log| + 1, op)))
            <==> WaitsForTwin(log, l, op)
  {
    hide Mirrors, MessageFor, InStep, WaitsForTwin;
    var m := MessageFor(l.client.userId, op.userId, |log| + 1, op);
    MirrorsSurvivesAppend(reading, initial, log, l.client, op);
    ExpectedAppend(log, op, l.client.revision, l.client.userId);
    OtMsgsAppend(l.down, m);
    MessageForIsOt(l.client.userId, op.userId, |log| + 1, op);
    StrayAckInStep(log, l, op, m);
  }

  /** What the server does with an orphan it accepts. */
  lemma OrphanAccepted(reading: Reading, s: System, k: nat)
    requires Inv(reading, s) && s.Sound() && Enabled(reading, s, TakeOrphan(k))
    requires s.orphans[k].msg.revision >= s.doc.oldestRevision
    ensures forall j :: 0 <= j < |s.links| ==> s.links[j].client.revision <= |s.log|
    ensures s.orphans[k].msg.revision <= |s.log|
    ensures var (o, t) := (s.orphans[k], Next(reading, s, TakeOrphan(k)));
            var op := Rewritten(s, o);
            && t.log == s.log + [op] && t.initial == s.initial && op.userId == o.userId
            && t.doc.revision == |s.log| + 1 && Windowed(t.doc, t.initial, t.log) && LogInv(reading, t.initial, t.log)
            && t.links == TellOperation(s.links, o.userId, |s.log| + 1, op)
            && (forall j :: 0 <= j < |s.links| && s.links[j].client.userId != o.userId ==>
                  LinkInv(reading, t.initial, t.log, t.links[j]))
            && (forall i :: 0 <= i < |t.orphans| ==> OrphanInv(reading, t.initial, t.log, t.orphans[i]))
  {
    hide Inv, LinkInv, LogInv, Windowed, Processed, MessageFor, RewriteAgainst, Fits, ApplyAll;
    InvIsSound(reading, s);
    forall j | 0 <= j < |s.links|
      ensures s.links[j].client.revision <= |s.log|
    {
      InFlightBounds(reading, s.initial, s.log, s.links[j]);
    }
    WithoutOrphanKept(reading, s, k);
    LoggedKept(reading, WithoutOrphan(s, k), s.orphans[k].userId, s.orphans[k].msg);
  }

  /** Accepting an orphan keeps the invariant if and only if its user is not connected, or waits for a refused
      operation that would have been logged as the same edit. */
  lemma OrphanKeepsInvExactly(reading: Reading, s: System, k: nat)
    requires Inv(reading, s) && s.Sound() && Enabled(reading, s, TakeOrphan(k))
    requires s.orphans[k].msg.revision >= s.doc.oldestRevision
    ensures s.orphans[k].msg.revision <= |s.log|
    ensures forall j :: 0 <= j < |s.links| ==> s.links[j].client.revision <= |s.log|
    ensures Inv(reading, Next(reading, s, TakeOrphan(k)))
            <==> forall j :: 0 <= j < |s.links| && s.links[j].client.userId == s.orphans[k].userId ==>
                   WaitsForTwin(s.log, s.links[j], Rewritten(s, s.orphans[k]))
  {
    hide LinkInv, OrphanInv, LogInv, Windowed, Next, MessageFor, Rewritten, WaitsForTwin;
    InvIsSound(reading, s);
    OrphanAccepted(reading, s, k);
    var (o, t) := (s.orphans[k], Next(reading, s, TakeOrphan(k)));
    var op := Rewritten(s, o);
    forall j | 0 <= j < |s.links| && s.links[j].client.userId == o.userId
      ensures LinkInv(reading, t.initial, t.log, t.links[j]) <==> WaitsForTwin(s.log, s.links[j], op)
    {
      StrayAckLink(reading, s.initial, s.log, s.links[j], op);
    }
    ToldUsersStay(s.links, o.userId, |s.log| + 1, op);
    if Inv(reading, t) {
      forall j | 0 <= j < |s.links| && s.links[j].client.userId == o.userId
        ensures WaitsForTwin(s.log, s.links[j], op)
      {
        assert LinkInv(reading, t.initial, t.log, t.links[j]);
      }
    }
  }

  /** The one thing besides leaving that ends the waiting of a refused client: an accepted orphan of its user. */
  lemma OrphanEndsWaiting(reading: Reading, s: System, k: nat)
    requires Inv(reading, s) && s.Sound() && Enabled(reading, s, TakeOrphan(k))
    requires s.orphans[k].msg.revision >= s.doc.oldestRevision
    ensures !RefusedUser(Next(reading, s, TakeOrphan(k)), s.orphans[k].userId)
  {
    hide Inv, Next, MessageFor, Rewritten, RefusedLink, Windowed, LogInv, LinkInv, OrphanInv;
    OrphanAccepted(reading, s, k);
    var (o, t) := (s.orphans[k], Next(reading, s, TakeOrphan(k)));
    var op := Rewritten(s, o);
    forall j | 0 <= j < |t.links| && t.links[j].client.userId == o.userId
      ensures !Refused(t, j)
    {
      LoggedRefusal(s.log, s.links[j], op, MessageFor(s.links[j].client.userId, o.userId, |s.log| + 1, op));
    }
  }

  // ---- what the client ends up with

  /** A connection after everything on it has been delivered. */
  function Drained(l: Link): (r: Link)
    requires l.client.Shape()
    ensures r.client.Shape() && r.down == []
    decreases |l.down|
  {
    if l.down == [] then l else Drained(DeliverLink(l))
  }

  function Deliveries(j: nat, n: nat): (actions: seq<Action>)
    ensures |actions| == n
  {
    seq(n, _ => Deliver(j))
  }

  lemma DeliverShortens(l: Link)
    requires l.client.Shape() && l.down != []
    ensures DeliverLink(l).down == l.down[1..]
    ensures l.client.phase.Synchronized? ==>
              DeliverLink(l).client.phase.Synchronized? && DeliverLink(l).up == l.up
  {
    hide Apply, RebaseLocal;
    assert l.up + [] == l.up;
    match l.down[0]
    case Broadcast(userId, revision, ops) => ReceiveKeepsPhase(l.client, userId, revision, ops);
    case _ =>
  }

  lemma {:induction false} ReceiveKeepsPhase(c: ClientState, userId: nat, revision: nat, ops: seq<OpEntry>)
    requires c.Shape()
    ensures ReceiveAll(c, userId, revision, ops).0.phase == c.phase
    decreases |ops|
  {
    hide Apply, RebaseLocal;
    if ops != [] {
      ReceiveKeepsPhase(ReceiveOne(c, FromEntry(ops[0], userId, revision)).0, userId, revision, ops[1..]);
    }
  }

  /** Delivering everything is a run of the network. */
  lemma {:induction false} DeliveriesDrain(reading: Reading, s: System, j: nat)
    requires s.Sound() && j < |s.links|
    ensures IsRun(reading, s, Deliveries(j, |s.links[j].down|))
    ensures After(reading, s, Deliveries(j, |s.links[j].down|)) == s.(links := s.links[j := Drained(s.links[j])])
    decreases |s.links[j].down|
  {
    hide DeliverLink;
    var l := s.links[j];
    var actions := Deliveries(j, |l.down|);
    if l.down == [] {
      assert s.links[j := l] == s.links;
    } else {
      DeliverShortens(l);
      var t := Next(reading, s, Deliver(j));
      assert actions[0] == Deliver(j) && actions[1..] == Deliveries(j, |t.links[j].down|);
      DeliveriesDrain(reading, t, j);
    }
  }

  /** A message behind the others waits until they are delivered. */
  lemma {:induction false} DrainedTold(l: Link, m: ServerMsg)
    requires l.client.Shape()
    ensures Drained(Told(l, m)) == DeliverLink(Told(Drained(l), m))
    decreases |l.down|
  {
    hide DeliverLink;
    if l.down == [] {
      DeliverShortens(Told(l, m));
    } else {
      DeliverShortens(l);
      ToldBehind(l, m);
      DrainedTold(DeliverLink(l), m);
    }
  }

  lemma ToldBehind(l: Link, m: ServerMsg)
    requires l.client.Shape() && l.down != []
    ensures DeliverLink(Told(l, m)) == Told(DeliverLink(l), m)
  {
    hide Acknowledge, Receive;
  }

  lemma {:induction false} DrainedKept(reading: Reading, initial: Text, log: seq<Operation>, l: Link)
    requires LogInv(reading, initial, log) && LinkInv(reading, initial, log, l) && l.client.Shape()
    requires l.client.phase.Synchronized?
    ensures LinkInv(reading, initial, log, Drained(l)) && Drained(l).client.phase.Synchronized?
    decreases |l.down|
  {
    hide LinkInv, LogInv, DeliverLink;
    if l.down != [] {
      DeliverShortens(l);
      DeliverLinkKept(reading, initial, log, l);
      DrainedKept(reading, initial, log, DeliverLink(l));
    }
  }

  lemma DrainedAgrees(reading: Reading, initial: Text, log: seq<Operation>, l: Link)
    requires LinkInv(reading, initial, log, l) && l.client.phase.Synchronized? && l.down == []
    ensures l.client.revision == |log| && l.client.content == ApplyAll(initial, log) && l.up == []
  {
    hide SameEdit, RewriteAgainst;
    assert OtMsgs(l.down) == [] && log[..|log|] == log;
  }

  lemma EffectIsVisible(doc: Text, op: Operation)
    requires Valid(doc, op)
    ensures Apply(doc, op) == doc <==> op.IsNoop()
  {
    if !op.IsNoop() {
      ApplyInBounds(doc, op);
    }
  }

  /** A client with nothing of its own under way that is sent the acknowledgement of an orphan: once everything
      has been delivered to it, it is synchronized at the server's revision, and its copy is the server's if and
      only if the orphan was emptied on the way. */
  lemma RejoinedConvergesExactly(reading: Reading, s: System, k: nat, j: nat)
    requires Inv(reading, s) && s.Sound() && Enabled(reading, s, TakeOrphan(k)) && j < |s.links|
    requires s.orphans[k].msg.revision >= s.doc.oldestRevision && s.links[j].client.userId == s.orphans[k].userId
    requires s.links[j].client.phase.Synchronized?
    ensures s.orphans[k].msg.revision <= |s.log|
    ensures var t := Next(reading, s, TakeOrphan(k));
            && j < |t.links|
            && IsRun(reading, t, Deliveries(j, |t.links[j].down|))
            && var u := After(reading, t, Deliveries(j, |t.links[j].down|));
               && |u.links| == |s.links| && u.links[j].up == [] && u.links[j].down == []
               && u.links[j].client.phase.Synchronized? && u.links[j].client.revision == u.doc.revision == |s.log| + 1
               && u.links[j].client.content == s.doc.content
               && (Converged(u, j) <==> Rewritten(s, s.orphans[k]).IsNoop())
  {
    hide Inv, LinkInv, LogInv, OrphanInv, Windowed, Next, RewriteAgainst, ApplyAll, Apply, Fits, After, IsRun, Drained;
    InvIsSound(reading, s);
    OrphanAccepted(reading, s, k);
    var (o, l, t) := (s.orphans[k], s.links[j], Next(reading, s, TakeOrphan(k)));
    var op := Rewritten(s, o);
    var ack := Ack(|s.log| + 1);
    assert t.links[j] == Told(l, ack);
    DeliveriesDrain(reading, t, j);
    DrainedTold(l, ack);
    DrainedKept(reading, s.initial, s.log, l);
    DrainedAgrees(reading, s.initial, s.log, Drained(l));
    WindowBounds(s.doc, s.initial, s.log);
    WindowBounds(t.doc, t.initial, t.log);
    ApplyAllAppend(s.initial, s.log, op);
    OrphanFits(reading, s.initial, s.log, o);
    EffectIsVisible(s.doc.content, op);
  }

  lemma OrphanFits(reading: Reading, initial: Text, log: seq<Operation>, o: Orphan)
    requires OrphanInv(reading, initial, log, o)
    ensures |o.msg.ops| == 1 && o.msg.revision <= |log|
    ensures Valid(ApplyAll(initial, log), RewriteAgainst(Decoded(o.userId, o.msg), log[o.msg.revision..]))
  {
    hide Valid, ApplyAll, RewriteAgainst;
  }
}
