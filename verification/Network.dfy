/** The whole editor as one transition system: the server, its clients, and a first-in first-out
    connection each way for every client. */
module Network {
  import opened Operations
  import opened Alignment
  import opened Rebase
  import opened Documents
  import opened Messages
  import opened Clients

  /** A client and its connection: what it has sent and the server has not taken, and what the server
      has sent and it has not received. */
  datatype Link = Link(client: ClientState, up: seq<ClientMsg>, down: seq<ServerMsg>)

  /** A submission whose user has left: the leave command overtook it on the way through the worker pool. */
  datatype Orphan = Orphan(userId: nat, msg: ClientMsg)

  /** initial and log record the history the server's window is a part of; no step reads them. */
  datatype System = System(
    initial: Text, log: seq<Operation>, doc: DocState, links: seq<Link>, orphans: seq<Orphan>)
  {
    predicate Sound() {
      && doc.oldestRevision + |doc.history| == doc.revision
      && forall i :: 0 <= i < |links| ==> links[i].client.Shape()
    }
  }

  datatype Action =
    | Edit(i: nat, ops: seq<Operation>)
    | ServerTakes(i: nat)
    | Deliver(i: nat)
    | Join(userId: nat)
    | Leave(i: nat)
    | TakeOrphan(k: nat)
    | DropOrphan(k: nat)
    | SetHistoryLimit(limit: nat)

  function Start(content: Text, historyLimit: nat): System {
    System(content, [], DocState(content, 0, [], 0, historyLimit), [], [])
  }

  /** The operation a message of one entry stands for (server/src/message_handler.cpp). */
  function Decoded(userId: nat, msg: ClientMsg): Operation
    requires |msg.ops| == 1
  {
    FromEntry(msg.ops[0], userId, msg.revision)
  }

  function Submitted(l: Link): Operation
    requires l.up != [] && |l.up[0].ops| == 1
  {
    Decoded(l.client.userId, l.up[0])
  }

  predicate Connected(links: seq<Link>, userId: nat) {
    exists i :: 0 <= i < |links| && links[i].client.userId == userId
  }

  predicate Enabled(reading: Reading, s: System, a: Action) {
    match a
    case Edit(i, ops) => i < |s.links| && FitsAll(reading, s.links[i].client.content, ops)
    case ServerTakes(i) => i < |s.links| && s.links[i].up != [] && |s.links[i].up[0].ops| == 1
    case Deliver(i) => i < |s.links| && s.links[i].down != []
    case Join(userId) => !Connected(s.links, userId)
    case Leave(i) => i < |s.links|
    case TakeOrphan(k) => k < |s.orphans| && |s.orphans[k].msg.ops| == 1
    case DropOrphan(k) => k < |s.orphans|
    case SetHistoryLimit(_) => true
  }

  /** The submission at the front of connection i predates the server's window. */
  predicate Refuses(s: System, i: nat)
    requires i < |s.links| && s.links[i].up != [] && |s.links[i].up[0].ops| == 1
  {
    Submitted(s.links[i]).revision < s.doc.oldestRevision
  }

  /** An orphan is accepted while its user is connected again: the acknowledgement goes to a connection
      that has not made the edit. */
  predicate Misdelivers(s: System, a: Action) {
    && a.TakeOrphan? && a.k < |s.orphans|
    && s.orphans[a.k].msg.revision >= s.doc.oldestRevision && Connected(s.links, s.orphans[a.k].userId)
  }

  function EditLink(l: Link, ops: seq<Operation>): (r: Link)
    requires l.client.Shape()
    ensures r.client.Shape()
  {
    var (client, sent) := EditAll(l.client, ops);
    Link(client, l.up + sent, l.down)
  }

  function DeliverLink(l: Link): (r: Link)
    requires l.client.Shape() && l.down != []
    ensures r.client.Shape()
  {
    match l.down[0]
    case Ack(revision) =>
      var (client, sent) := Acknowledge(l.client, revision);
      Link(client, l.up + sent, l.down[1..])
    case Broadcast(userId, revision, ops) =>
      Link(Receive(l.client, userId, revision, ops).0, l.up, l.down[1..])
    case _ => l.(down := l.down[1..])
  }

  function Told(l: Link, m: ServerMsg): Link {
    l.(down := l.down + [m])
  }

  function TellAll(links: seq<Link>, m: ServerMsg): (r: seq<Link>)
    ensures |r| == |links|
  {
    seq(|links|, j requires 0 <= j < |links| => Told(links[j], m))
  }

  /** Every connection carries exactly one message about an accepted operation. */
  function TellOperation(links: seq<Link>, sender: nat, revision: nat, op: Operation): (r: seq<Link>)
    ensures |r| == |links|
  {
    seq(|links|, j requires 0 <= j < |links| =>
      Told(links[j], MessageFor(links[j].client.userId, sender, revision, op)))
  }

  /** A refusal concerns its user only, who is looked up among those connected now: that of an orphan reaches a
      later connection, which the error makes the program close. In the model that is the user's next leave. */
  function TellRefused(links: seq<Link>, userId: nat): (r: seq<Link>)
    ensures |r| == |links|
  {
    seq(|links|, j requires 0 <= j < |links| =>
      if links[j].client.userId == userId then Told(links[j], ErrorTooOld) else links[j])
  }

  /** The document thread processes one operation command. */
  function Processed(s: System, userId: nat, msg: ClientMsg): (r: System)
    requires s.Sound() && |msg.ops| == 1
    ensures r.Sound()
  {
    var (doc, result) := Serve(s.doc, Decoded(userId, msg));
    match result
    case RevisionTooOld => s.(links := TellRefused(s.links, userId))
    case Accepted(op) =>
      s.(log := s.log + [op], doc := doc, links := TellOperation(s.links, userId, doc.revision, op))
  }

  function Popped(s: System, i: nat): (r: System)
    requires s.Sound() && i < |s.links| && s.links[i].up != []
    ensures r.Sound()
  {
    s.(links := s.links[i := s.links[i].(up := s.links[i].up[1..])])
  }

  function Taken(s: System, i: nat): (r: System)
    requires s.Sound() && i < |s.links| && s.links[i].up != [] && |s.links[i].up[0].ops| == 1
    ensures r.Sound()
  {
    Processed(Popped(s, i), s.links[i].client.userId, s.links[i].up[0])
  }

  function WithoutOrphan(s: System, k: nat): (r: System)
    requires s.Sound() && k < |s.orphans|
    ensures r.Sound()
  {
    s.(orphans := s.orphans[..k] + s.orphans[k + 1..])
  }

  /** What a user who leaves has sent and the server has not taken stays on its way. */
  function Orphaned(l: Link): (r: seq<Orphan>)
    ensures |r| == |l.up|
  {
    seq(|l.up|, j requires 0 <= j < |l.up| => Orphan(l.client.userId, l.up[j]))
  }

  function Left(s: System, i: nat): (r: System)
    requires s.Sound() && i < |s.links|
    ensures r.Sound()
  {
    s.(links := TellAll(s.links[..i] + s.links[i + 1..], UserLeft(s.links[i].client.userId)),
       orphans := s.orphans + Orphaned(s.links[i]))
  }

  /** Joining is one atomic step: content, revision and subscription belong to the same moment. */
  function Joined(s: System, userId: nat): (r: System)
    requires s.Sound()
    ensures r.Sound()
  {
    var client := ClientState(userId, Synchronized, None, [], s.doc.revision, s.doc.content);
    s.(links := TellAll(s.links, UserJoined(userId)) + [Link(client, [], [])])
  }

  function Next(reading: Reading, s: System, a: Action): (s': System)
    requires s.Sound() && Enabled(reading, s, a)
    ensures s'.Sound()
  {
    match a
    case Edit(i, ops) => s.(links := s.links[i := EditLink(s.links[i], ops)])
    case ServerTakes(i) => Taken(s, i)
    case Deliver(i) => s.(links := s.links[i := DeliverLink(s.links[i])])
    case Join(userId) => Joined(s, userId)
    case Leave(i) => Left(s, i)
    case TakeOrphan(k) => Processed(WithoutOrphan(s, k), s.orphans[k].userId, s.orphans[k].msg)
    case DropOrphan(k) => WithoutOrphan(s, k)
    case SetHistoryLimit(limit) => s.(doc := s.doc.(historyLimit := limit))
  }

  /** A run: every action is enabled in the state it is taken in. */
  predicate IsRun(reading: Reading, s: System, actions: seq<Action>)
    requires s.Sound()
    decreases |actions|
  {
    actions == []
    || (Enabled(reading, s, actions[0]) && IsRun(reading, Next(reading, s, actions[0]), actions[1..]))
  }

  function After(reading: Reading, s: System, actions: seq<Action>): (s': System)
    requires s.Sound() && IsRun(reading, s, actions)
    ensures s'.Sound()
    decreases |actions|
  {
    if actions == [] then s else After(reading, Next(reading, s, actions[0]), actions[1..])
  }

  /** A run in which every acknowledgement goes to the connection the operation came from. */
  predicate NeverMisdelivers(reading: Reading, s: System, actions: seq<Action>)
    requires s.Sound() && IsRun(reading, s, actions)
    decreases |actions|
  {
    actions == []
    || (!Misdelivers(s, actions[0]) && NeverMisdelivers(reading, Next(reading, s, actions[0]), actions[1..]))
  }
}
