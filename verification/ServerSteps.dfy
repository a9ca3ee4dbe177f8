/** The network's server is the program's: every handler of DocumentSession does to its document and its
    connections what the corresponding step does to the network (server/src/document_session.cpp). */
module ServerSteps {
  import opened Operations
  import opened Documents
  import opened Messages
  import opened Network
  import opened Invariant
  import opened Sessions

  /** The session's connections are those of the network, with the same messages sent and not yet received. */
  ghost predicate Carries(links: seq<Link>, connected: Outboxes) {
    && (forall u :: u in connected <==> Connected(links, u))
    && (forall j :: 0 <= j < |links| ==>
          links[j].client.userId in connected && connected[links[j].client.userId] == links[j].down)
  }

  ghost predicate Runs(session: DocumentSession, s: System)
    reads session, session.doc
  {
    && session.doc.Valid() && session.doc.State() == s.doc && session.doc.log == s.log
    && Carries(s.links, session.connected)
  }

  /** Every connection gets what `told` says. */
  lemma EveryoneTold(
      links: seq<Link>, links': seq<Link>, before: Outboxes, after: Outboxes, told: nat -> seq<ServerMsg>)
    requires Carries(links, before) && |links'| == |links| && after.Keys == before.Keys
    requires forall j :: 0 <= j < |links| ==>
               links'[j].client.userId == links[j].client.userId
               && links'[j].down == links[j].down + told(links[j].client.userId)
    requires forall u :: u in after ==> after[u] == before[u] + told(u)
    ensures Carries(links', after)
  {
    forall u
      ensures u in after <==> Connected(links', u)
    {
      if Connected(links, u) {
        var j :| 0 <= j < |links| && links[j].client.userId == u;
        assert links'[j].client.userId == u;
      }
      if Connected(links', u) {
        var j :| 0 <= j < |links'| && links'[j].client.userId == u;
        assert links[j].client.userId == u;
      }
    }
  }

  lemma ServeDecides(doc: DocState, op: Operation)
    requires doc.oldestRevision + |doc.history| == doc.revision
    ensures Serve(doc, op).1.RevisionTooOld? <==> op.revision < doc.oldestRevision
    ensures Serve(doc, op).1.RevisionTooOld? ==> Serve(doc, op).0 == doc
  {
  }

  lemma RefusalCarried(links: seq<Link>, userId: nat, before: Outboxes, after: Outboxes)
    requires Carries(links, before) && after.Keys == before.Keys
    requires forall u :: u in after ==> after[u] == before[u] + (if u == userId then [ErrorTooOld] else [])
    ensures Carries(TellRefused(links, userId), after)
  {
    hide Carries;
    var told := (u: nat) => if u == userId then [ErrorTooOld] else [];
    forall j | 0 <= j < |links|
      ensures TellRefused(links, userId)[j].down == links[j].down + told(links[j].client.userId)
    {
      assert links[j].client.userId != userId ==> links[j].down + [] == links[j].down;
    }
    EveryoneTold(links, TellRefused(links, userId), before, after, told);
  }

  lemma OperationCarried(
      links: seq<Link>, userId: nat, revision: nat, op: Operation, before: Outboxes, after: Outboxes)
    requires Carries(links, before) && after.Keys == before.Keys
    requires forall u :: u in after ==> after[u] == before[u] + [MessageFor(u, userId, revision, op)]
    ensures Carries(TellOperation(links, userId, revision, op), after)
  {
    hide Carries, MessageFor;
    var told := (u: nat) => [MessageFor(u, userId, revision, op)];
    EveryoneTold(links, TellOperation(links, userId, revision, op), before, after, told);
  }

  lemma JoinCarried(s: System, userId: nat, before: Outboxes, after: Outboxes)
    requires s.Sound() && Carries(s.links, before) && !Connected(s.links, userId)
    requires after.Keys == before.Keys + {userId} && after[userId] == []
    requires forall u :: u in after && u != userId ==> after[u] == before[u] + [UserJoined(userId)]
    ensures Carries(Joined(s, userId).links, after)
  {
    var told := (u: nat) => [UserJoined(userId)];
    var others := TellAll(s.links, UserJoined(userId));
    EveryoneTold(s.links, others, before, after - {userId}, told);
    NewcomerCarried(others, Joined(s, userId).links[|s.links|], after - {userId}, after);
  }

  lemma NewcomerCarried(links: seq<Link>, newcomer: Link, before: Outboxes, after: Outboxes)
    requires Carries(links, before) && newcomer.client.userId !in before && newcomer.down == []
    requires after == before[newcomer.client.userId := []]
    ensures Carries(links + [newcomer], after)
  {
    var all := links + [newcomer];
    assert forall j :: 0 <= j < |links| ==> all[j] == links[j];
    forall u
      ensures u in after <==> Connected(all, u)
    {
      if Connected(links, u) {
        var j :| 0 <= j < |links| && links[j].client.userId == u;
        assert all[j].client.userId == u;
      }
      assert all[|links|] == newcomer;
    }
  }

  lemma LeaveCarried(s: System, i: nat, before: Outboxes, after: Outboxes)
    requires s.Sound() && Carries(s.links, before) && DistinctUsers(s.links) && i < |s.links|
    requires after.Keys == before.Keys - {s.links[i].client.userId}
    requires forall u :: u in after ==> after[u] == before[u] + [UserLeft(s.links[i].client.userId)]
    ensures Carries(Left(s, i).links, after)
  {
    var userId := s.links[i].client.userId;
    var told := (u: nat) => [UserLeft(userId)];
    var rest := s.links[..i] + s.links[i + 1..];
    RestCarried(s.links, i, before);
    EveryoneTold(rest, TellAll(rest, UserLeft(userId)), before - {userId}, after, told);
  }

  lemma RestCarried(links: seq<Link>, i: nat, connected: Outboxes)
    requires Carries(links, connected) && DistinctUsers(links) && i < |links|
    ensures Carries(links[..i] + links[i + 1..], connected - {links[i].client.userId})
  {
    hide Connected;
    var rest := links[..i] + links[i + 1..];
    forall u: nat
      ensures Connected(rest, u) <==> Connected(links, u) && u != links[i].client.userId
    {
      RestConnected(links, i, rest, u);
    }
    forall j | 0 <= j < |rest|
      ensures rest[j] == links[if j < i then j else j + 1]
    {
    }
  }

  lemma RestConnected(links: seq<Link>, i: nat, rest: seq<Link>, u: nat)
    requires DistinctUsers(links) && i < |links| && rest == links[..i] + links[i + 1..]
    ensures Connected(rest, u) <==> Connected(links, u) && u != links[i].client.userId
  {
    if Connected(links, u) && u != links[i].client.userId {
      var j :| 0 <= j < |links| && links[j].client.userId == u;
      assert rest[if j < i then j else j - 1].client.userId == u;
    }
    if Connected(rest, u) {
      var j :| 0 <= j < |rest| && rest[j].client.userId == u;
      assert links[if j < i then j else j + 1].client.userId == u;
    }
  }

  /** An operation command. */
  method TakeOperation(session: DocumentSession, userId: nat, msg: ClientMsg, ghost s: System)
    requires s.Sound() && |msg.ops| == 1 && Runs(session, s)
    modifies session, session.doc
    ensures Runs(session, Processed(s, userId, msg))
  {
    hide Serve, Carries, MessageFor, TellOperation, TellRefused;
    ghost var before := session.connected;
    ServeDecides(s.doc, Decoded(userId, msg));
    session.HandleOperation(userId, FromEntry(msg.ops[0], userId, msg.revision));
    if msg.revision < s.doc.oldestRevision {
      RefusalCarried(s.links, userId, before, session.connected);
    } else {
      ghost var op := Serve(s.doc, Decoded(userId, msg)).1.op;
      OperationCarried(s.links, userId, session.doc.revision, op, before, session.connected);
    }
  }

  /** A join command, for a user who is not connected. */
  method TakeJoin(session: DocumentSession, userId: nat, ghost s: System)
    requires s.Sound() && Runs(session, s) && !Connected(s.links, userId)
    modifies session
    ensures Runs(session, Joined(s, userId))
  {
    hide Carries;
    ghost var before := session.connected;
    session.HandleJoin(userId);
    JoinCarried(s, userId, before, session.connected);
  }

  /** A leave command, for the user at place i. */
  method TakeLeave(session: DocumentSession, ghost i: nat, userId: nat, ghost s: System)
    requires s.Sound() && Runs(session, s) && DistinctUsers(s.links)
    requires i < |s.links| && s.links[i].client.userId == userId
    modifies session
    ensures Runs(session, Left(s, i))
  {
    hide Carries;
    ghost var before := session.connected;
    session.HandleLeave(userId);
    LeaveCarried(s, i, before, session.connected);
  }
}
