/** The server side of one open document: commands are processed one at a time
    (server/src/document_session.cpp). */
module Sessions {
  import opened Operations
  import opened Documents
  import opened Messages

  /** For every connected user, the messages sent on that user's connection so far. */
  type Outboxes = map<nat, seq<ServerMsg>>

  function SendTo(out: Outboxes, userId: nat, m: ServerMsg): Outboxes {
    if userId in out then out[userId := out[userId] + [m]] else out
  }

  function SendToOthers(out: Outboxes, excluded: Option<nat>, m: ServerMsg): Outboxes {
    map u | u in out :: if Some(u) == excluded then out[u] else out[u] + [m]
  }

  class DocumentSession {
    const doc: Document
    var connected: Outboxes

    constructor (doc: Document)
      ensures this.doc == doc && connected == map[]
    {
      this.doc := doc;
      connected := map[];
    }

    method Broadcast(m: ServerMsg, excluded: Option<nat>)
      modifies this
      ensures connected == SendToOthers(old(connected), excluded, m)
      ensures connected.Keys == old(connected).Keys
      ensures forall u :: u in connected ==>
                connected[u] == old(connected)[u] + (if excluded == Some(u) then [] else [m])
    {
      var targets := set u | u in connected && Some(u) != excluded;
      while targets != {}
        invariant targets <= connected.Keys && connected.Keys == old(connected).Keys
        invariant forall u :: u in targets ==> Some(u) != excluded && connected[u] == old(connected)[u]
        invariant forall u :: u in connected && u !in targets
                    ==> connected[u] == SendToOthers(old(connected), excluded, m)[u]
        decreases targets
      {
        var u :| u in targets;
        connected := connected[u := connected[u] + [m]];
        targets := targets - {u};
      }
    }

    method SendToUser(userId: nat, m: ServerMsg)
      modifies this
      ensures connected == SendTo(old(connected), userId, m)
      ensures connected.Keys == old(connected).Keys
      ensures forall u :: u in connected ==>
                connected[u] == old(connected)[u] + (if u == userId then [m] else [])
    {
      if userId in connected {
        connected := connected[userId := connected[userId] + [m]];
      }
    }

    method HandleJoin(userId: nat)
      modifies this
      ensures connected == SendToOthers(old(connected)[userId := []], Some(userId), UserJoined(userId))
      ensures connected.Keys == old(connected).Keys + {userId} && connected[userId] == []
      ensures forall u :: u in connected && u != userId ==> connected[u] == old(connected)[u] + [UserJoined(userId)]
    {
      connected := connected[userId := []];
      Broadcast(UserJoined(userId), Some(userId));
    }

    method HandleLeave(userId: nat)
      modifies this
      ensures connected == SendToOthers(old(connected) - {userId}, None, UserLeft(userId))
      ensures connected.Keys == old(connected).Keys - {userId}
      ensures forall u :: u in connected ==> connected[u] == old(connected)[u] + [UserLeft(userId)]
    {
      connected := connected - {userId};
      Broadcast(UserLeft(userId), None);
    }

    /** An accepted operation reaches every connected user as exactly one message, an acknowledgement
        for its sender and a broadcast for everyone else, stamped with the revision it created;
        a refused one changes nothing but the sender's connection. */
    method HandleOperation(userId: nat, op: Operation)
      requires doc.Valid()
      modifies this, doc
      ensures doc.Valid() && doc.State() == Serve(old(doc.State()), op).0
      ensures connected.Keys == old(connected).Keys
      ensures op.revision < old(doc.oldestRevision)
              ==> doc.log == old(doc.log)
                  && forall u :: u in connected ==>
                       connected[u] == old(connected)[u] + (if u == userId then [ErrorTooOld] else [])
      ensures op.revision >= old(doc.oldestRevision)
              ==> doc.revision == old(doc.revision) + 1 == |doc.log|
                  && doc.log == old(doc.log) + [Serve(old(doc.State()), op).1.op]
      ensures op.revision >= old(doc.oldestRevision)
              ==> forall u :: u in connected ==>
                    connected[u] == old(connected)[u] + [MessageFor(u, userId, |doc.log|, doc.log[|doc.log| - 1])]
    {
      hide Serve;
      var result := doc.ApplyWithOt(op);
      if result.RevisionTooOld? {
        SendToUser(userId, ErrorTooOld);
        return;
      }
      SendToUser(userId, Ack(doc.revision));
      Broadcast(ServerMsg.Broadcast(userId, doc.revision, [ToEntry(result.op)]), Some(userId));
    }
  }
}
