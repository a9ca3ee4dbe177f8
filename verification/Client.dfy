/** The client's side: one operation in flight, a buffer behind it, and incoming operations rewritten
    against both (client/src/ot_controller.cpp, client/src/local_document.cpp). */
module Clients {
  import opened Operations
  import opened Transformation
  import opened Rebase
  import opened Messages

  datatype Phase = Synchronized | AwaitingAck | AwaitingAckWithBuffer

  /** The fields of an OTController and of its LocalDocument as a value. */
  datatype ClientState = ClientState(
    userId: nat, phase: Phase, pending: Option<Operation>, buffer: seq<Operation>, revision: nat, content: Text)
  {
    /** The phase says exactly which of the two holds something. */
    predicate Shape() {
      match phase
      case Synchronized => pending.None? && buffer == []
      case AwaitingAck => pending.Some? && buffer == []
      case AwaitingAckWithBuffer => pending.Some? && buffer != []
    }

    /** The edits the server has not acknowledged, oldest first. */
    function Unacked(): seq<Operation> {
      (if pending.Some? then [pending.value] else []) + buffer
    }
  }

  function Submission(op: Operation, revision: nat): ClientMsg {
    Submit(revision, [ToEntry(op)])
  }

  function Stamped(c: ClientState, op: Operation): Operation {
    op.(userId := c.userId, revision := c.revision)
  }

  /** One local edit: the next state and what is sent. */
  function EditOne(c: ClientState, op: Operation): (r: (ClientState, seq<ClientMsg>))
    requires c.Shape()
    ensures r.0.Shape()
  {
    if op.IsNoop() then (c, [])
    else
      var mine := Stamped(c, op);
      var edited := c.(content := Apply(c.content, mine));
      if c.phase.Synchronized? then
        (edited.(pending := Some(mine), phase := AwaitingAck), [Submission(mine, c.revision)])
      else
        (edited.(buffer := c.buffer + [mine], phase := AwaitingAckWithBuffer), [])
  }

  function EditAll(c: ClientState, ops: seq<Operation>): (r: (ClientState, seq<ClientMsg>))
    requires c.Shape()
    ensures r.0.Shape()
    decreases |ops|
  {
    if ops == [] then (c, [])
    else
      var (c1, sent) := EditOne(c, ops[0]);
      var (c2, more) := EditAll(c1, ops[1..]);
      (c2, sent + more)
  }

  function Acknowledge(c: ClientState, revision: nat): (r: (ClientState, seq<ClientMsg>))
    requires c.Shape()
    ensures r.0.Shape()
  {
    match c.phase
    case Synchronized => (c.(revision := revision), [])
    case AwaitingAck => (c.(revision := revision, pending := None, phase := Synchronized), [])
    case AwaitingAckWithBuffer =>
      var next := c.buffer[0];
      var phase := if |c.buffer| == 1 then AwaitingAck else AwaitingAckWithBuffer;
      (c.(revision := revision, pending := Some(next), buffer := c.buffer[1..], phase := phase),
       [Submission(next, revision)])
  }

  /** A client whose unacknowledged edits are rewritten as given; their number does not change. */
  function WithUnacked(c: ClientState, unacked: seq<Operation>): (r: ClientState)
    requires c.Shape() && |unacked| == |c.Unacked()|
    ensures r.Shape() && r.Unacked() == unacked
  {
    if c.pending.None? then c else c.(pending := Some(unacked[0]), buffer := unacked[1..])
  }

  /** One remote operation: the client's loop rewrites it and the unacknowledged edits against each other.
      The second result is the operation handed on to the editor. */
  function ReceiveOne(c: ClientState, remote: Operation): (r: (ClientState, Operation))
    requires c.Shape()
    ensures r.0.Shape()
  {
    var (unacked, evolved) := RebaseLocal(c.Unacked(), remote);
    (WithUnacked(c, unacked).(content := Apply(c.content, evolved)), evolved)
  }

  function ReceiveAll(c: ClientState, userId: nat, revision: nat, ops: seq<OpEntry>): (r: (ClientState, seq<Operation>))
    requires c.Shape()
    ensures r.0.Shape()
    decreases |ops|
  {
    if ops == [] then (c, [])
    else
      var (c1, evolved) := ReceiveOne(c, FromEntry(ops[0], userId, revision));
      var (c2, more) := ReceiveAll(c1, userId, revision, ops[1..]);
      (c2, [evolved] + more)
  }

  /** The client's own broadcasts are ignored. */
  function Receive(c: ClientState, userId: nat, revision: nat, ops: seq<OpEntry>): (r: (ClientState, seq<Operation>))
    requires c.Shape()
    ensures r.0.Shape()
  {
    if userId == c.userId then (c, [])
    else
      var (c1, evolved) := ReceiveAll(c, userId, revision, ops);
      (c1.(revision := revision), evolved)
  }

  // ---- the client as a queue of unacknowledged edits

  /** A local edit joins the queue at its end, and is sent at once exactly if it is the only one. */
  lemma EditJoinsQueue(c: ClientState, op: Operation)
    requires c.Shape()
    ensures var (c', sent) := EditOne(c, op);
            if op.IsNoop() then c' == c && sent == []
            else
              && c'.Unacked() == c.Unacked() + [op.(userId := c.userId, revision := c.revision)]
              && c'.content == Apply(c.content, op) && c'.revision == c.revision && c'.userId == c.userId
              && sent == if c.Unacked() == [] then [Submit(c.revision, [ToEntry(op)])] else []
  {
  }

  /** An acknowledgement takes the first edit off the queue and sends the one behind it, at the new revision. */
  lemma AckServesQueue(c: ClientState, revision: nat)
    requires c.Shape()
    ensures var ((c', sent), queue) := (Acknowledge(c, revision), c.Unacked());
            && c'.revision == revision && c'.content == c.content && c'.userId == c.userId
            && (queue == [] ==> c'.Unacked() == [] && sent == [])
            && (queue != [] ==> c'.Unacked() == queue[1..])
            && (|queue| > 1 ==> sent == [Submit(revision, [ToEntry(queue[1])])])
            && (|queue| <= 1 ==> sent == [])
  {
    assert c.pending.Some? ==> c.Unacked()[1..] == c.buffer;
  }

  /** The entries of a broadcast are received one after the other. */
  lemma {:induction false} ReceiveInOrder(
      c: ClientState, userId: nat, revision: nat, ops: seq<OpEntry>, last: OpEntry)
    requires c.Shape()
    ensures var (c1, evolved) := ReceiveAll(c, userId, revision, ops);
            var (c2, op) := ReceiveOne(c1, FromEntry(last, userId, revision));
            ReceiveAll(c, userId, revision, ops + [last]) == (c2, evolved + [op])
    decreases |ops|
  {
    hide ReceiveOne;
    if ops == [] {
      var (c2, op) := ReceiveOne(c, FromEntry(last, userId, revision));
      assert ops + [last] == [last] && [last][1..] == [] && [] + [op] == [op] + [];
      assert ReceiveAll(c2, userId, revision, []) == (c2, []);
    } else {
      var (c1, first) := ReceiveOne(c, FromEntry(ops[0], userId, revision));
      assert (ops + [last])[1..] == ops[1..] + [last];
      ReceiveInOrder(c1, userId, revision, ops[1..], last);
      var (c2, more) := ReceiveAll(c1, userId, revision, ops[1..]);
      var op := ReceiveOne(c2, FromEntry(last, userId, revision)).1;
      assert [first] + (more + [op]) == ([first] + more) + [op];
    }
  }

  class LocalDocument {
    var content: Text
    var revision: nat

    constructor (initialContent: Text, initialRevision: nat)
      ensures content == initialContent && revision == initialRevision
    {
      content, revision := initialContent, initialRevision;
    }

    method ApplyOperation(op: Operation)
      modifies this`content
      ensures content == Apply(old(content), op)
    {
      content := Apply(content, op);
    }

    method SetRevision(rev: nat)
      modifies this`revision
      ensures revision == rev
    {
      revision := rev;
    }
  }

  class OTController {
    const userId: nat
    const doc: LocalDocument
    var revision: nat
    var phase: Phase
    var pending: Option<Operation>
    var buffer: seq<Operation>
    /** Everything handed to the network so far. */
    var sent: seq<ClientMsg>

    function State(): ClientState
      reads this, doc
    {
      ClientState(userId, phase, pending, buffer, revision, doc.content)
    }

    predicate Valid()
      reads this, doc
    {
      State().Shape() && doc.revision == revision
    }

    constructor (userId: nat, doc: LocalDocument)
      ensures Valid() && this.userId == userId && this.doc == doc
      ensures State() == ClientState(userId, Synchronized, None, [], doc.revision, doc.content) && sent == []
    {
      this.userId, this.doc, revision := userId, doc, doc.revision;
      phase, pending, buffer, sent := Synchronized, None, [], [];
    }

    method SendOp(op: Operation)
      modifies this`sent
      ensures sent == old(sent) + [Submission(op, revision)]
    {
      sent := sent + [Submit(revision, [ToEntry(op)])];
    }

    method OnLocalOperations(ops: seq<Operation>)
      requires Valid()
      modifies this`phase, this`pending, this`buffer, this`sent, doc`content
      ensures Valid()
      ensures State() == EditAll(old(State()), ops).0
      ensures sent == old(sent) + EditAll(old(State()), ops).1
    {
      hide Apply, EditOne;
      assert ops[0..] == ops;
      for i := 0 to |ops|
        invariant Valid()
        invariant EditAll(State(), ops[i..]).0 == EditAll(old(State()), ops).0
        invariant sent + EditAll(State(), ops[i..]).1 == old(sent) + EditAll(old(State()), ops).1
      {
        assert ops[i..][0] == ops[i] && ops[i..][1..] == ops[i + 1..];
        EditLocally(ops[i]);
      }
      assert ops[|ops|..] == [];
    }

    /** One turn of the loop of onLocalOperations. */
    method EditLocally(edit: Operation)
      requires Valid()
      modifies this`phase, this`pending, this`buffer, this`sent, doc`content
      ensures Valid()
      ensures State() == EditOne(old(State()), edit).0
      ensures sent == old(sent) + EditOne(old(State()), edit).1
    {
      hide Apply;
      if edit.IsNoop() {
        return;
      }
      var op := edit.(userId := userId, revision := revision);
      doc.ApplyOperation(op);
      if phase.Synchronized? {
        pending := Some(op);
        SendOp(op);
        phase := AwaitingAck;
      } else {
        buffer := buffer + [op];
        if phase.AwaitingAck? {
          phase := AwaitingAckWithBuffer;
        }
      }
    }

    method HandleAck(rev: nat)
      requires Valid()
      modifies this`revision, this`phase, this`pending, this`buffer, this`sent, doc`revision
      ensures Valid()
      ensures State() == Acknowledge(old(State()), rev).0
      ensures sent == old(sent) + Acknowledge(old(State()), rev).1
    {
      revision := rev;
      doc.SetRevision(rev);
      if phase.AwaitingAck? {
        pending := None;
        phase := Synchronized;
      } else if phase.AwaitingAckWithBuffer? {
        pending := Some(buffer[0]);
        buffer := buffer[1..];
        SendOp(pending.value);
        if buffer == [] {
          phase := AwaitingAck;
        }
      }
    }

    /** The loop of handleBroadcast over the buffer, with the pending operation in front of it. */
    method RewriteUnacked(remote: Operation) returns (evolved: Operation)
      requires Valid() && pending.Some?
      modifies this`pending, this`buffer
      ensures Valid() && pending.Some?
      ensures (State().Unacked(), evolved) == RebaseLocal(old(State().Unacked()), remote)
      ensures State() == WithUnacked(old(State()), State().Unacked())
    {
      hide Transform, RebaseLocal;
      var (pending', first) := Transform(pending.value, remote);
      ghost var was := buffer;
      pending := Some(pending');
      evolved := first;
      assert was[0..] == was && was[..0] == [];
      for i := 0 to |buffer|
        invariant |buffer| == |was| && pending == Some(pending') && buffer[i..] == was[i..]
        invariant RebaseLocal(was, first).0 == buffer[..i] + RebaseLocal(was[i..], evolved).0
        invariant RebaseLocal(was, first).1 == RebaseLocal(was[i..], evolved).1
      {
        assert was[i..] == [buffer[i]] + was[i + 1..];
        RebaseStep(buffer[i], was[i + 1..], evolved);
        var (buffered, next) := Transform(buffer[i], evolved);
        ghost var later := RebaseLocal(was[i + 1..], next).0;
        assert buffer[..i] + ([buffered] + later) == (buffer[..i] + [buffered]) + later;
        buffer := buffer[i := buffered];
        evolved := next;
        assert buffer[..i + 1] == buffer[..i] + [buffered];
      }
      RebaseNothing(evolved);
      assert was[|was|..] == [] && buffer[..|was|] + [] == buffer;
      assert RebaseLocal(was, first) == (buffer, evolved);
      RebaseStep(old(pending).value, was, remote);
    }

    /** One turn of the loop over the entries of a broadcast. */
    method ReceiveOperation(remote: Operation) returns (evolved: Operation)
      requires Valid()
      modifies this`pending, this`buffer, doc`content
      ensures Valid()
      ensures (State(), evolved) == ReceiveOne(old(State()), remote)
    {
      hide Apply, RebaseLocal;
      evolved := remote;
      if phase.Synchronized? {
        RebaseNothing(remote);
      } else {
        evolved := RewriteUnacked(remote);
      }
      doc.ApplyOperation(evolved);
    }

    method HandleBroadcast(sender: nat, rev: nat, ops: seq<OpEntry>) returns (applied: seq<Operation>)
      requires Valid()
      modifies this`revision, this`pending, this`buffer, doc
      ensures Valid()
      ensures (State(), applied) == Receive(old(State()), sender, rev, ops)
    {
      hide ReceiveOne;
      applied := [];
      if sender == userId {
        return;
      }
      assert ops[0..] == ops;
      for i := 0 to |ops|
        invariant Valid() && phase == old(phase)
        invariant ReceiveAll(old(State()), sender, rev, ops).0 == ReceiveAll(State(), sender, rev, ops[i..]).0
        invariant ReceiveAll(old(State()), sender, rev, ops).1 == applied + ReceiveAll(State(), sender, rev, ops[i..]).1
      {
        var evolved := ReceiveOperation(FromEntry(ops[i], sender, rev));
        assert ops[i..][0] == ops[i] && ops[i..][1..] == ops[i + 1..];
        applied := applied + [evolved];
      }
      assert ops[|ops|..] == [] && applied + [] == applied;
      assert (State(), applied) == ReceiveAll(old(State()), sender, rev, ops);
      revision := rev;
      doc.SetRevision(rev);
    }
  }
}
