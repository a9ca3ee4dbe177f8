/** The messages of one document's editing protocol (protocol/src/protocol.cpp). */
module Messages {
  import opened Operations

  /** operation: the client sends one entry at a time. */
  datatype ClientMsg = Submit(revision: nat, ops: seq<OpEntry>)

  datatype ServerMsg =
    | Ack(revision: nat)
    | Broadcast(userId: nat, revision: nat, ops: seq<OpEntry>)
    | ErrorTooOld
    | UserJoined(userId: nat)
    | UserLeft(userId: nat)

  /** Does the OT controller react to the message? The others concern the user interface. */
  predicate IsOtMsg(m: ServerMsg) {
    m.Ack? || m.Broadcast?
  }

  /** What one recipient is told about an accepted operation of the sender. */
  function MessageFor(recipient: nat, sender: nat, revision: nat, op: Operation): ServerMsg {
    if recipient == sender then Ack(revision) else Broadcast(sender, revision, [ToEntry(op)])
  }

  function OtMsgs(channel: seq<ServerMsg>): seq<ServerMsg>
    decreases |channel|
  {
    if channel == [] then []
    else if IsOtMsg(channel[0]) then [channel[0]] + OtMsgs(channel[1..])
    else OtMsgs(channel[1..])
  }

  lemma {:induction false} OtMsgsAppend(channel: seq<ServerMsg>, m: ServerMsg)
    ensures OtMsgs(channel + [m]) == if IsOtMsg(m) then OtMsgs(channel) + [m] else OtMsgs(channel)
    decreases |channel|
  {
    if channel == [] {
      assert channel + [m] == [m];
    } else {
      assert (channel + [m])[1..] == channel[1..] + [m];
      OtMsgsAppend(channel[1..], m);
    }
  }
}
