/** Every step of the network keeps the invariant. */
module Preservation {
  import opened Operations
  import opened Transformation
  import opened Alignment
  import opened Rebase
  import opened Documents
  import opened Messages
  import opened Clients
  import opened Network
  import opened Invariant

  // ---- the server logs one more operation

  lemma MirrorsSurvivesAppend(
      reading: Reading, initial: Text, log: seq<Operation>, c: ClientState, op: Operation)
    requires Mirrors(reading, initial, log, c)
    ensures Mirrors(reading, initial, log + [op], c)
  {
    assert (log + [op])[..c.revision] == log[..c.revision];
  }

  lemma InStepSurvivesAppend(log: seq<Operation>, l: Link, op: Operation)
    requires l.client.revision <= |log| && InStep(log, l) && op.userId != l.client.userId
    ensures InStep(log + [op], l)
  {
    hide SameEdit, RewriteAgainst;
    var log' := log + [op];
    var r := l.client.revision;
    if Quiet(log, l) {
      assert Quiet(log', l);
    } else if InFlight(log, l) {
      assert log'[l.up[0].revision..r] == log[l.up[0].revision..r];
      assert InFlight(log', l);
    } else {
      var k :| 0 <= k < |log| && LoggedAt(log, l, k);
      assert log'[r..k] == log[r..k];
      assert LoggedAt(log', l, k);
    }
  }

  /** Someone else's operation: one broadcast more, nothing else changes. */
  lemma OtherLinkKept(reading: Reading, initial: Text, log: seq<Operation>, l: Link, op: Operation)
    requires LinkInv(reading, initial, log, l) && op.userId != l.client.userId
    ensures LinkInv(reading, initial, log + [op],
                    Told(l, MessageFor(l.client.userId, op.userId, |log| + 1, op)))
  {
    hide Mirrors, InStep, MessageFor;
    var m := MessageFor(l.client.userId, op.userId, |log| + 1, op);
    MirrorsSurvivesAppend(reading, initial, log, l.client, op);
    MirrorsBounds(reading, initial, log, l.client);
    InStepSurvivesAppend(log, l, op);
    InStepIgnoresDown(log + [op], l, l.down + [m]);
    ExpectedAppend(log, op, l.client.revision, l.client.userId);
    OtMsgsAppend(l.down, m);
    MessageForIsOt(l.client.userId, op.userId, |log| + 1, op);
  }

  lemma MirrorsBounds(reading: Reading, initial: Text, log: seq<Operation>, c: ClientState)
    requires Mirrors(reading, initial, log, c)
    ensures c.revision <= |log|
  {
  }

  lemma MessageForIsOt(recipient: nat, sender: nat, revision: nat, op: Operation)
    ensures IsOtMsg(MessageFor(recipient, sender, revision, op))
  {
  }

  lemma InStepIgnoresDown(log: seq<Operation>, l: Link, down: seq<ServerMsg>)
    requires l.client.revision <= |log| && InStep(log, l)
    ensures InStep(log, l.(down := down))
  {
    hide SameEdit, RewriteAgainst;
    var l' := l.(down := down);
    if Quiet(log, l) {
      assert Quiet(log, l');
    } else if InFlight(log, l) {
      assert Submitted(l') == Submitted(l);
      assert InFlight(log, l');
    } else {
      var k :| 0 <= k < |log| && LoggedAt(log, l, k);
      assert LoggedAt(log, l', k);
    }
  }

  /** The sender's own operation: it is now logged, and the acknowledgement is on its way. */
  lemma SenderLinkKept(reading: Reading, initial: Text, log: seq<Operation>, l: Link, op: Operation)
    requires LogInv(reading, initial, log) && LinkInv(reading, initial, log, l) && InFlight(log, l)
    requires op == RewriteAgainst(Submitted(l), log[l.up[0].revision..])
    ensures LinkInv(reading, initial, log + [op],
                    Told(l.(up := []), MessageFor(l.client.userId, op.userId, |log| + 1, op)))
  {
    hide Mirrors, MessageFor, InStep, InFlight, Logged, SameEdit, RewriteAgainst, Fits, ApplyAll, LogInv;
    var m := MessageFor(l.client.userId, op.userId, |log| + 1, op);
    MirrorsBounds(reading, initial, log, l.client);
    InFlightBoundsUp(log, l);
    ServerAgreesWithClient(reading, initial, log, l);
    SenderIsLogged(log, l, op, m);
    MirrorsSurvivesAppend(reading, initial, log, l.client, op);
    ExpectedAppend(log, op, l.client.revision, l.client.userId);
    OtMsgsAppend(l.down, m);
    MessageForIsOt(l.client.userId, op.userId, |log| + 1, op);
  }

  lemma SenderIsLogged(log: seq<Operation>, l: Link, op: Operation, m: ServerMsg)
    requires l.client.revision <= |log| && InFlight(log, l) && op.userId == l.client.userId
    requires SameEdit(RewriteAgainst(l.client.pending.value, log[l.client.revision..]), op)
    ensures InStep(log + [op], Told(l.(up := []), m))
  {
    hide SameEdit, RewriteAgainst, Submitted;
    var (log', l') := (log + [op], Told(l.(up := []), m));
    assert log'[l.client.revision..|log|] == log[l.client.revision..];
    assert LoggedAt(log', l', |log|);
  }

  lemma LogKept(reading: Reading, initial: Text, log: seq<Operation>, op: Operation)
    requires LogInv(reading, initial, log) && Fits(reading, ApplyAll(initial, log), op)
    ensures LogInv(reading, initial, log + [op])
  {
    hide Fits, Encoded, ApplyAll;
    FitsAllAppend(reading, initial, log, op);
  }

  /** A submission in flight, seen as an orphan. */
  lemma InFlightIsSound(reading: Reading, initial: Text, log: seq<Operation>, l: Link)
    requires LogInv(reading, initial, log) && LinkInv(reading, initial, log, l) && l.up != []
    ensures |l.up| == 1 && OrphanInv(reading, initial, log, Orphan(l.client.userId, l.up[0]))
  {
    hide Fits, ApplyAll, RewriteAgainst, SameEdit, LogInv;
    WaitingIsInFlight(reading, initial, log, l);
    ServerAgreesWithClient(reading, initial, log, l);
  }

  /** Whatever is logged, an orphan still fits. */
  lemma OrphanKept(reading: Reading, initial: Text, log: seq<Operation>, o: Orphan, x: Operation)
    requires LogInv(reading, initial, log) && Fits(reading, ApplyAll(initial, log), x)
    requires OrphanInv(reading, initial, log, o)
    ensures OrphanInv(reading, initial, log + [x], o)
  {
    hide Fits, ApplyAll, RewriteAgainst, Transform, Encoded, Apply;
    var r := o.msg.revision;
    var op := RewriteAgainst(Decoded(o.userId, o.msg), log[r..]);
    assert (log + [x])[r..] == log[r..] + [x];
    RewriteAppend(Decoded(o.userId, o.msg), log[r..], x);
    ApplyAllAppend(initial, log, x);
    ApplyAllKeepsEncoding(reading, initial, log);
    RewrittenFits(reading, ApplyAll(initial, log), op, x);
    FitsIsWellFormed(reading, ApplyAll(initial, log), op);
    FitsIsWellFormed(reading, ApplyAll(initial, log), x);
    TransformKeepsShape(op, x);
  }

  lemma InFlightBounds(reading: Reading, initial: Text, log: seq<Operation>, l: Link)
    requires LinkInv(reading, initial, log, l)
    ensures l.client.revision <= |log| && l.client.Shape()
  {
  }

  /** A waiting submission means the pending operation is in flight. */
  lemma WaitingIsInFlight(reading: Reading, initial: Text, log: seq<Operation>, l: Link)
    requires LinkInv(reading, initial, log, l) && l.up != []
    ensures l.client.revision <= |log| && InFlight(log, l)
  {
  }

  /** Once its submission is taken off the connection a client has nothing in flight. */
  lemma PoppedLinkKept(reading: Reading, initial: Text, log: seq<Operation>, l: Link)
    requires LinkInv(reading, initial, log, l) && l.up != []
    ensures LinkInv(reading, initial, log, l.(up := l.up[1..]))
  {
    hide Mirrors, SameEdit, RewriteAgainst;
    WaitingIsInFlight(reading, initial, log, l);
    assert Quiet(log, l.(up := l.up[1..]));
  }

  // ---- local edits

  lemma StampedFits(reading: Reading, c: ClientState, doc: Text, op: Operation)
    requires Fits(reading, doc, op)
    ensures Fits(reading, doc, Stamped(c, op)) && Apply(doc, Stamped(c, op)) == Apply(doc, op)
  {
  }

  lemma EditOneKept(reading: Reading, initial: Text, log: seq<Operation>, l: Link, op: Operation)
    requires LinkInv(reading, initial, log, l) && Fits(reading, l.client.content, op)
    ensures var (client, sent) := EditOne(l.client, op);
            && LinkInv(reading, initial, log, Link(client, l.up + sent, l.down))
            && client.content == Apply(l.client.content, op)
  {
    hide Fits, Apply, ApplyAll, FitsAll, RewriteAgainst, Transform;
    var c := l.client;
    var (c', sent) := EditOne(c, op);
    if op.IsNoop() {
      assert l.up + sent == l.up;
      ApplyNoop(c.content, op);
    } else {
      var mine := Stamped(c, op);
      StampedFits(reading, c, c.content, op);
      var base := ContentAt(initial, log, c.revision);
      assert c'.Unacked() == c.Unacked() + [mine];
      FitsAllAppend(reading, base, c.Unacked(), mine);
      ApplyAllAppend(base, c.Unacked(), mine);
      assert Mirrors(reading, initial, log, c');
      var l' := Link(c', l.up + sent, l.down);
      if c.phase.Synchronized? {
        FitsIsWellFormed(reading, c.content, mine);
        FreshSubmissionInFlight(log, l', mine);
      } else {
        PendingDecidesStep(log, l, l');
      }
    }
  }

  /** A submission just sent at the client's own revision is in flight. */
  lemma FreshSubmissionInFlight(log: seq<Operation>, l: Link, op: Operation)
    requires l.client.revision <= |log| && op.WellFormed() && op.userId == l.client.userId
    requires l.client.pending == Some(op) && l.up == [Submission(op, l.client.revision)]
    requires NoneByIn(log, l.client.revision, |log|, l.client.userId)
    ensures InFlight(log, l)
  {
    EntryRoundTrip(op, l.client.revision);
    SameEditSwaps(op, Submitted(l));
    assert log[l.client.revision..l.client.revision] == [];
  }

  lemma PendingDecidesStep(log: seq<Operation>, l: Link, l': Link)
    requires l.client.revision <= |log| && InStep(log, l)
    requires l'.client.pending == l.client.pending && l'.client.revision == l.client.revision
    requires l'.client.userId == l.client.userId && l'.up == l.up
    ensures InStep(log, l')
  {
    hide SameEdit, RewriteAgainst;
    if Quiet(log, l) {
      assert Quiet(log, l');
    } else if InFlight(log, l) {
      assert Submitted(l') == Submitted(l);
      assert InFlight(log, l');
    } else {
      var k :| 0 <= k < |log| && LoggedAt(log, l, k);
      assert LoggedAt(log, l', k);
    }
  }

  lemma {:induction false} EditLinkKept(
      reading: Reading, initial: Text, log: seq<Operation>, l: Link, ops: seq<Operation>)
    requires LinkInv(reading, initial, log, l) && FitsAll(reading, l.client.content, ops)
    ensures LinkInv(reading, initial, log, EditLink(l, ops))
    decreases |ops|
  {
    hide LinkInv, EditOne, Fits, Apply;
    InFlightBounds(reading, initial, log, l);
    if ops == [] {
      assert l.up + [] == l.up;
    } else {
      EditOneKept(reading, initial, log, l, ops[0]);
      var (c1, sent) := EditOne(l.client, ops[0]);
      var l1 := Link(c1, l.up + sent, l.down);
      EditLinkKept(reading, initial, log, l1, ops[1..]);
      var (c2, more) := EditAll(c1, ops[1..]);
      assert (l.up + sent) + more == l.up + (sent + more);
    }
  }

  // ---- a client receives a message

  /** The next OT message is about the first log entry the client has not processed. */
  lemma HeadOfDown(log: seq<Operation>, r: nat, userId: nat, down: seq<ServerMsg>)
    requires r <= |log| && down != [] && OtMsgs(down) == Expected(log, r, userId)
    ensures !IsOtMsg(down[0]) ==> OtMsgs(down[1..]) == Expected(log, r, userId)
    ensures IsOtMsg(down[0]) ==>
              && r < |log| && down[0] == MessageFor(userId, log[r].userId, r + 1, log[r])
              && OtMsgs(down[1..]) == Expected(log, r + 1, userId)
  {
    hide MessageFor, IsOtMsg;
    if IsOtMsg(down[0]) {
      var expected := Expected(log, r, userId);
      assert expected[0] == down[0];
      assert expected[1..] == OtMsgs(down[1..]);
      assert r < |log| ==> expected[1..] == Expected(log, r + 1, userId);
    }
  }

  /** The acknowledged operation: when an acknowledgement arrives, the pending operation, as rewritten
      by the broadcasts seen since it was sent, is the operation the server logged. */
  lemma AckedIsLogged(reading: Reading, initial: Text, log: seq<Operation>, l: Link)
    requires LinkInv(reading, initial, log, l) && l.down != [] && l.down[0].Ack?
    ensures var r := l.client.revision;
            && r < |log| && l.down[0].revision == r + 1 && log[r].userId == l.client.userId
            && LoggedAt(log, l, r)
            && SameEdit(l.client.pending.value, log[r])
  {
    hide Mirrors, SameEdit;
    MirrorsBounds(reading, initial, log, l.client);
    HeadOfDown(log, l.client.revision, l.client.userId, l.down);
    var k :| 0 <= k < |log| && LoggedAt(log, l, k);
    assert k == l.client.revision;
    assert log[k..k] == [];
  }

  lemma AckKept(reading: Reading, initial: Text, log: seq<Operation>, l: Link)
    requires LinkInv(reading, initial, log, l) && l.down != [] && l.down[0].Ack?
    ensures LinkInv(reading, initial, log, DeliverLink(l))
  {
    hide Fits, Apply, ApplyAll, SameEdit, RewriteAgainst, ContentAt;
    var c := l.client;
    var r := c.revision;
    AckedIsLogged(reading, initial, log, l);
    HeadOfDown(log, r, c.userId, l.down);
    var base := ContentAt(initial, log, r);
    var l' := DeliverLink(l);
    assert c.Unacked()[1..] == c.buffer == l'.client.Unacked();
    ContentAtStep(initial, log, r);
    ApplyRespectsEdit(base, c.pending.value, log[r]);
    ApplyAllFirst(base, c.Unacked());
    FitsAllWellFormed(reading, base, c.Unacked());
    assert Mirrors(reading, initial, log, l'.client);
    if c.buffer == [] {
      assert Quiet(log, l');
    } else {
      var next := c.buffer[0];
      assert next == c.Unacked()[1];
      FreshSubmissionInFlight(log, l', next);
    }
  }

  lemma ApplyAllFirst(doc: Text, ops: seq<Operation>)
    requires ops != []
    ensures ApplyAll(doc, ops) == ApplyAll(Apply(doc, ops[0]), ops[1..])
  {
  }

  /** The broadcast decoded by the client is the logged operation, up to what the wire drops. */
  lemma DecodedFits(reading: Reading, initial: Text, log: seq<Operation>, r: nat, remote: Operation)
    requires LogInv(reading, initial, log) && r < |log|
    requires remote == FromEntry(ToEntry(log[r]), log[r].userId, r + 1)
    ensures var base := ContentAt(initial, log, r);
            && log[r].WellFormed() && remote.WellFormed() && SameEdit(remote, log[r])
            && Encoded(reading, base) && Fits(reading, base, remote)
            && Apply(base, remote) == ContentAt(initial, log, r + 1)
  {
    hide Fits, Apply, ApplyAll, Encoded, ContentAt;
    var base := ContentAt(initial, log, r);
    LogEntryFits(reading, initial, log, r);
    EntryRoundTrip(log[r], r + 1);
    SameEditSwaps(log[r], remote);
    FitsRespectsEdit(reading, base, log[r], remote);
    ApplyRespectsEdit(base, log[r], remote);
    ContentAtStep(initial, log, r);
  }

  lemma ReceivedMirrors(
      reading: Reading, initial: Text, log: seq<Operation>, c: ClientState, remote: Operation, c': ClientState)
    requires LogInv(reading, initial, log) && c.Shape() && Mirrors(reading, initial, log, c)
    requires c.revision < |log| && log[c.revision].userId != c.userId
    requires remote == FromEntry(ToEntry(log[c.revision]), log[c.revision].userId, c.revision + 1)
    requires c' == ReceiveOne(c, remote).0.(revision := c.revision + 1)
    ensures Mirrors(reading, initial, log, c') && c'.Unacked() == RebaseLocal(c.Unacked(), remote).0
  {
    hide Fits, Apply, ApplyAll, FitsAll, Encoded, ContentAt, RebaseLocal, LogInv;
    var r := c.revision;
    var base := ContentAt(initial, log, r);
    DecodedFits(reading, initial, log, r, remote);
    ListDiamond(reading, base, c.Unacked(), remote);
    FitsAllWellFormed(reading, base, c.Unacked());
    RebaseKeepsUsers(c.Unacked(), remote, c.userId);
  }

  lemma ReceivedInStep(log: seq<Operation>, l: Link, remote: Operation, l': Link)
    requires AllWellFormed(log) && AllWellFormed(l.client.Unacked()) && l.client.Shape()
    requires l.client.revision < |log| && log[l.client.revision].userId != l.client.userId
    requires remote.WellFormed() && SameEdit(remote, log[l.client.revision])
    requires InStep(log, l)
    requires l'.up == l.up && l'.client.userId == l.client.userId && l'.client.revision == l.client.revision + 1
    requires l'.client.pending == if l.client.pending.None? then None
                                  else Some(Transform(l.client.pending.value, remote).0)
    ensures InStep(log, l')
  {
    hide SameEdit, Transform;
    var r := l.client.revision;
    if Quiet(log, l) {
      assert Quiet(log, l');
    } else {
      var p := l.client.pending.value;
      assert p == l.client.Unacked()[0];
      TransformSeesEdit(p, remote, log[r]);
      if InFlight(log, l) {
        var r0 := l.up[0].revision;
        assert log[r0..r + 1] == log[r0..r] + [log[r]];
        var sent := Submitted(l);
        RewriteAppend(sent, log[r0..r], log[r]);
        RewriteKeepsShape(sent, log[r0..r]);
        SameEditReflexive(log[r]);
        TransformRespectsEdit(RewriteAgainst(sent, log[r0..r]), p, log[r], log[r]);
        assert InFlight(log, l');
      } else {
        var k :| 0 <= k < |log| && LoggedAt(log, l, k);
        assert log[r..k][0] == log[r] && log[r..k][1..] == log[r + 1..k];
        assert LoggedAt(log, l', k);
      }
    }
  }

  lemma BroadcastKept(reading: Reading, initial: Text, log: seq<Operation>, l: Link)
    requires LogInv(reading, initial, log) && LinkInv(reading, initial, log, l)
    requires l.down != [] && l.down[0].Broadcast?
    ensures LinkInv(reading, initial, log, DeliverLink(l))
  {
    hide Mirrors, SameEdit, InStep, LogInv, ReceiveOne, Receive;
    var c := l.client;
    var r := c.revision;
    MirrorsBounds(reading, initial, log, c);
    HeadOfDown(log, r, c.userId, l.down);
    var remote := FromEntry(l.down[0].ops[0], l.down[0].userId, l.down[0].revision);
    var l' := DeliverLink(l);
    ReceiveSingle(c, l.down[0].userId, r + 1, l.down[0].ops);
    assert l'.client == ReceiveOne(c, remote).0.(revision := r + 1);
    ReceivedMirrors(reading, initial, log, c, remote, l'.client);
    ReceivedPending(c, remote);
    DecodedFits(reading, initial, log, r, remote);
    LogEntryFits(reading, initial, log, r);
    MirrorsWellFormed(reading, initial, log, c);
    ReceivedInStep(log, l, remote, l');
  }

  lemma ReceivedPending(c: ClientState, remote: Operation)
    requires c.Shape()
    ensures var c' := ReceiveOne(c, remote).0;
            && c'.userId == c.userId
            && c'.pending == if c.pending.None? then None else Some(Transform(c.pending.value, remote).0)
  {
    hide Apply, Transform;
  }

  lemma MirrorsWellFormed(reading: Reading, initial: Text, log: seq<Operation>, c: ClientState)
    requires Mirrors(reading, initial, log, c)
    ensures AllWellFormed(c.Unacked())
  {
    hide FitsAll, ApplyAll;
    FitsAllWellFormed(reading, ContentAt(initial, log, c.revision), c.Unacked());
  }

  lemma ReceiveSingle(c: ClientState, userId: nat, revision: nat, ops: seq<OpEntry>)
    requires c.Shape() && |ops| == 1 && userId != c.userId
    ensures Receive(c, userId, revision, ops).0
            == ReceiveOne(c, FromEntry(ops[0], userId, revision)).0.(revision := revision)
  {
    hide ReceiveOne;
    var c1 := ReceiveOne(c, FromEntry(ops[0], userId, revision)).0;
    assert ops[1..] == [];
    assert ReceiveAll(c1, userId, revision, ops[1..]).0 == c1;
  }

  lemma OtherMessageKept(reading: Reading, initial: Text, log: seq<Operation>, l: Link)
    requires LinkInv(reading, initial, log, l) && l.down != [] && !IsOtMsg(l.down[0])
    ensures LinkInv(reading, initial, log, DeliverLink(l))
  {
    hide Mirrors, InStep;
    MirrorsBounds(reading, initial, log, l.client);
    InStepIgnoresDown(log, l, l.down[1..]);
  }

  lemma DeliverLinkKept(reading: Reading, initial: Text, log: seq<Operation>, l: Link)
    requires LogInv(reading, initial, log) && LinkInv(reading, initial, log, l) && l.down != []
    ensures LinkInv(reading, initial, log, DeliverLink(l))
  {
    hide LogInv, Mirrors, InStep;
    if l.down[0].Ack? {
      AckKept(reading, initial, log, l);
    } else if l.down[0].Broadcast? {
      BroadcastKept(reading, initial, log, l);
    } else {
      OtherMessageKept(reading, initial, log, l);
    }
  }

  // ---- the whole network

  lemma InvIsSound(reading: Reading, s: System)
    requires Inv(reading, s)
    ensures s.Sound() && Windowed(s.doc, s.initial, s.log)
    ensures forall i :: 0 <= i < |s.links| ==> LinkInv(reading, s.initial, s.log, s.links[i])
    ensures LogInv(reading, s.initial, s.log)
    ensures forall k :: 0 <= k < |s.orphans| ==> OrphanInv(reading, s.initial, s.log, s.orphans[k])
  {
  }

  lemma PresenceKept(reading: Reading, initial: Text, log: seq<Operation>, l: Link, m: ServerMsg)
    requires LinkInv(reading, initial, log, l) && !IsOtMsg(m)
    ensures LinkInv(reading, initial, log, Told(l, m))
  {
    hide Mirrors, InStep;
    MirrorsBounds(reading, initial, log, l.client);
    OtMsgsAppend(l.down, m);
    InStepIgnoresDown(log, l, l.down + [m]);
  }

  /** A change of one link that keeps its user keeps the invariant. */
  lemma OneLinkKept(reading: Reading, s: System, i: nat, l: Link)
    requires Inv(reading, s) && i < |s.links| && l.client.userId == s.links[i].client.userId
    requires LinkInv(reading, s.initial, s.log, l)
    ensures Inv(reading, s.(links := s.links[i := l]))
  {
    hide LinkInv, Windowed, LogInv, OrphanInv;
  }

  lemma {:induction false} EditKeepsUser(c: ClientState, ops: seq<Operation>)
    requires c.Shape()
    ensures EditAll(c, ops).0.userId == c.userId
    decreases |ops|
  {
    hide Apply;
    if ops != [] {
      EditKeepsUser(EditOne(c, ops[0]).0, ops[1..]);
    }
  }

  lemma {:induction false} ReceiveKeepsUser(c: ClientState, userId: nat, revision: nat, ops: seq<OpEntry>)
    requires c.Shape()
    ensures ReceiveAll(c, userId, revision, ops).0.userId == c.userId
    decreases |ops|
  {
    hide Apply, RebaseLocal;
    if ops != [] {
      ReceiveKeepsUser(ReceiveOne(c, FromEntry(ops[0], userId, revision)).0, userId, revision, ops[1..]);
    }
  }

  lemma DeliverKeepsUser(l: Link)
    requires l.client.Shape() && l.down != []
    ensures DeliverLink(l).client.userId == l.client.userId
  {
    hide ReceiveAll;
    if l.down[0].Broadcast? {
      ReceiveKeepsUser(l.client, l.down[0].userId, l.down[0].revision, l.down[0].ops);
    }
  }

  /** The server accepts an operation that fits: every other user's link and every orphan stay sound. */
  lemma LoggedKept(reading: Reading, s: System, userId: nat, msg: ClientMsg)
    requires Inv(reading, s) && s.Sound() && OrphanInv(reading, s.initial, s.log, Orphan(userId, msg))
    requires msg.revision >= s.doc.oldestRevision
    ensures var op := RewriteAgainst(Decoded(userId, msg), s.log[msg.revision..]);
            var t := Processed(s, userId, msg);
            && t.initial == s.initial && t.log == s.log + [op] && t.orphans == s.orphans
            && Windowed(t.doc, t.initial, t.log) && t.doc.revision == |s.log| + 1
            && op.userId == userId && LogInv(reading, t.initial, t.log)
            && t.links == TellOperation(s.links, userId, |s.log| + 1, op)
            && (forall j :: 0 <= j < |s.links| && s.links[j].client.userId != userId ==>
                  LinkInv(reading, t.initial, t.log, t.links[j]))
            && (forall k :: 0 <= k < |s.orphans| ==> OrphanInv(reading, t.initial, t.log, s.orphans[k]))
  {
    hide LinkInv, Windowed, LogInv, Serve, RewriteAgainst, MessageFor, Fits, ApplyAll;
    InvIsSound(reading, s);
    var t := Processed(s, userId, msg);
    var op := RewriteAgainst(Decoded(userId, msg), s.log[msg.revision..]);
    WindowBounds(s.doc, s.initial, s.log);
    WindowRefinesLog(s.doc, s.initial, s.log, Decoded(userId, msg));
    WindowBounds(t.doc, t.initial, t.log);
    LogKept(reading, s.initial, s.log, op);
    forall j | 0 <= j < |s.links| && s.links[j].client.userId != userId
      ensures LinkInv(reading, t.initial, t.log, t.links[j])
    {
      OtherLinkKept(reading, s.initial, s.log, s.links[j], op);
    }
    forall k | 0 <= k < |s.orphans|
      ensures OrphanInv(reading, t.initial, t.log, s.orphans[k])
    {
      OrphanKept(reading, s.initial, s.log, s.orphans[k], op);
    }
  }

  lemma ToldUsersStay(links: seq<Link>, sender: nat, revision: nat, op: Operation)
    requires DistinctUsers(links)
    ensures DistinctUsers(TellOperation(links, sender, revision, op))
  {
    hide MessageFor;
  }

  lemma AcceptedKept(reading: Reading, s: System, i: nat)
    requires Inv(reading, s) && Enabled(reading, s, ServerTakes(i)) && !Refuses(s, i)
    ensures s.Sound() && Inv(reading, Taken(s, i))
  {
    hide LinkInv, OrphanInv, Windowed, LogInv, Processed, RewriteAgainst, MessageFor;
    InvIsSound(reading, s);
    var l := s.links[i];
    InFlightIsSound(reading, s.initial, s.log, l);
    PoppedKept(reading, s, i);
    var u := Popped(s, i);
    LoggedKept(reading, u, l.client.userId, l.up[0]);
    SenderTold(reading, s.initial, s.log, l);
    var t := Taken(s, i);
    assert t.links[i] == Told(u.links[i], MessageFor(l.client.userId, l.client.userId, |s.log| + 1, t.log[|s.log|]));
    ToldUsersStay(u.links, l.client.userId, |s.log| + 1, t.log[|s.log|]);
  }

  lemma SenderTold(reading: Reading, initial: Text, log: seq<Operation>, l: Link)
    requires LogInv(reading, initial, log) && LinkInv(reading, initial, log, l) && l.up != []
    ensures |l.up| == 1 && |l.up[0].ops| == 1 && l.up[0].revision <= |log|
    ensures var op := RewriteAgainst(Submitted(l), log[l.up[0].revision..]);
            LinkInv(reading, initial, log + [op],
                    Told(l.(up := l.up[1..]), MessageFor(l.client.userId, l.client.userId, |log| + 1, op)))
  {
    hide LinkInv, MessageFor, RewriteAgainst, LogInv;
    WaitingIsInFlight(reading, initial, log, l);
    InFlightBoundsUp(log, l);
    var op := RewriteAgainst(Submitted(l), log[l.up[0].revision..]);
    ServerAgreesWithClient(reading, initial, log, l);
    SenderLinkKept(reading, initial, log, l, op);
  }

  lemma InFlightBoundsUp(log: seq<Operation>, l: Link)
    requires l.client.revision <= |log| && InFlight(log, l)
    ensures |l.up| == 1 && l.up[1..] == [] && |l.up[0].ops| == 1 && l.up[0].revision <= |log|
  {
  }

  lemma WindowBounds(doc: DocState, initial: Text, log: seq<Operation>)
    requires Windowed(doc, initial, log)
    ensures doc.revision == |log| && doc.content == ApplyAll(initial, log)
    ensures doc.oldestRevision + |doc.history| == doc.revision
  {
  }

  lemma PoppedKept(reading: Reading, s: System, i: nat)
    requires Inv(reading, s) && s.Sound() && i < |s.links| && s.links[i].up != []
    ensures Inv(reading, Popped(s, i))
  {
    hide Inv, LinkInv;
    InvIsSound(reading, s);
    PoppedLinkKept(reading, s.initial, s.log, s.links[i]);
    OneLinkKept(reading, s, i, s.links[i].(up := s.links[i].up[1..]));
  }

  /** A refusal consumes no revision and changes no copy. */
  lemma RefusalKept(reading: Reading, s: System, userId: nat, msg: ClientMsg)
    requires Inv(reading, s) && s.Sound() && |msg.ops| == 1 && msg.revision < s.doc.oldestRevision
    ensures Processed(s, userId, msg) == s.(links := TellRefused(s.links, userId))
    ensures Inv(reading, Processed(s, userId, msg))
  {
    hide LinkInv, OrphanInv, Windowed, LogInv;
    InvIsSound(reading, s);
    WindowBounds(s.doc, s.initial, s.log);
    forall j | 0 <= j < |s.links|
      ensures LinkInv(reading, s.initial, s.log, TellRefused(s.links, userId)[j])
    {
      PresenceKept(reading, s.initial, s.log, s.links[j], ErrorTooOld);
    }
  }

  lemma RefusedKept(reading: Reading, s: System, i: nat)
    requires Inv(reading, s) && Enabled(reading, s, ServerTakes(i)) && Refuses(s, i)
    ensures s.Sound() && Inv(reading, Taken(s, i))
  {
    hide Inv, Processed;
    InvIsSound(reading, s);
    PoppedKept(reading, s, i);
    RefusalKept(reading, Popped(s, i), s.links[i].client.userId, s.links[i].up[0]);
  }

  lemma WithoutOrphanKept(reading: Reading, s: System, k: nat)
    requires Inv(reading, s) && s.Sound() && k < |s.orphans|
    ensures Inv(reading, WithoutOrphan(s, k))
  {
    hide LinkInv, OrphanInv, Windowed, LogInv;
    var rest := s.orphans[..k] + s.orphans[k + 1..];
    forall j | 0 <= j < |rest|
      ensures OrphanInv(reading, s.initial, s.log, rest[j])
    {
      assert rest[j] == s.orphans[if j < k then j else j + 1];
    }
  }

  /** An orphan of a user who is not connected: everybody hears of it, nobody is acknowledged. */
  lemma OrphanTakenKept(reading: Reading, s: System, k: nat)
    requires Inv(reading, s) && s.Sound() && Enabled(reading, s, TakeOrphan(k)) && !Misdelivers(s, TakeOrphan(k))
    ensures Inv(reading, Next(reading, s, TakeOrphan(k)))
  {
    hide LinkInv, OrphanInv, Windowed, LogInv, Processed, RewriteAgainst, MessageFor;
    InvIsSound(reading, s);
    var o := s.orphans[k];
    WithoutOrphanKept(reading, s, k);
    var u := WithoutOrphan(s, k);
    if o.msg.revision < s.doc.oldestRevision {
      RefusalKept(reading, u, o.userId, o.msg);
    } else {
      LoggedKept(reading, u, o.userId, o.msg);
      ToldUsersStay(u.links, o.userId, |s.log| + 1, Processed(u, o.userId, o.msg).log[|s.log|]);
    }
  }

  lemma JoinKept(reading: Reading, s: System, userId: nat)
    requires Inv(reading, s) && s.Sound() && Enabled(reading, s, Join(userId))
    ensures Inv(reading, Joined(s, userId))
  {
    hide LinkInv, Windowed, LogInv;
    var s' := Joined(s, userId);
    WindowBounds(s.doc, s.initial, s.log);
    forall j | 0 <= j < |s'.links|
      ensures LinkInv(reading, s.initial, s.log, s'.links[j])
    {
      if j < |s.links| {
        PresenceKept(reading, s.initial, s.log, s.links[j], UserJoined(userId));
      } else {
        FreshLink(reading, s.initial, s.log, s'.links[j]);
      }
    }
  }

  lemma FreshLink(reading: Reading, initial: Text, log: seq<Operation>, l: Link)
    requires l.client.Shape() && l.client.phase.Synchronized? && l.client.revision == |log|
    requires l.client.content == ApplyAll(initial, log) && l.up == [] && l.down == []
    ensures LinkInv(reading, initial, log, l)
  {
    assert log[..|log|] == log;
    assert Quiet(log, l);
  }

  lemma LeaveKept(reading: Reading, s: System, i: nat)
    requires Inv(reading, s) && s.Sound() && i < |s.links|
    ensures Inv(reading, Left(s, i))
  {
    hide LinkInv, OrphanInv, Windowed, LogInv;
    var rest := s.links[..i] + s.links[i + 1..];
    var m := UserLeft(s.links[i].client.userId);
    forall j | 0 <= j < |rest|
      ensures LinkInv(reading, s.initial, s.log, TellAll(rest, m)[j])
    {
      assert rest[j] == s.links[if j < i then j else j + 1];
      PresenceKept(reading, s.initial, s.log, rest[j], m);
    }
    if s.links[i].up != [] {
      InFlightIsSound(reading, s.initial, s.log, s.links[i]);
    }
  }

  /** Every step of every client, of the server and of the connections keeps the invariant, unless it
      acknowledges an orphan to a later connection of its user. */
  lemma StepKeepsInv(reading: Reading, s: System, a: Action)
    requires Inv(reading, s) && s.Sound() && Enabled(reading, s, a) && !Misdelivers(s, a)
    ensures Inv(reading, Next(reading, s, a))
  {
    hide LinkInv, OrphanInv, Windowed, LogInv, Processed, Left, EditAll, DeliverLink, FitsAll;
    InvIsSound(reading, s);
    match a
    case Edit(i, ops) =>
      EditContentFits(reading, s, i, ops);
      EditLinkKept(reading, s.initial, s.log, s.links[i], ops);
      EditKeepsUser(s.links[i].client, ops);
      OneLinkKept(reading, s, i, EditLink(s.links[i], ops));
    case ServerTakes(i) =>
      if Refuses(s, i) {
        RefusedKept(reading, s, i);
      } else {
        AcceptedKept(reading, s, i);
      }
    case Deliver(i) =>
      DeliverLinkKept(reading, s.initial, s.log, s.links[i]);
      DeliverKeepsUser(s.links[i]);
      OneLinkKept(reading, s, i, DeliverLink(s.links[i]));
    case Join(userId) => JoinKept(reading, s, userId);
    case Leave(i) => LeaveKept(reading, s, i);
    case TakeOrphan(k) => OrphanTakenKept(reading, s, k);
    case DropOrphan(k) => WithoutOrphanKept(reading, s, k);
    case SetHistoryLimit(limit) => LimitKept(s.doc, s.initial, s.log, limit);
  }

  lemma EditContentFits(reading: Reading, s: System, i: nat, ops: seq<Operation>)
    requires Enabled(reading, s, Edit(i, ops))
    ensures i < |s.links| && FitsAll(reading, s.links[i].client.content, ops)
  {
  }

  lemma LimitKept(doc: DocState, initial: Text, log: seq<Operation>, limit: nat)
    requires Windowed(doc, initial, log)
    ensures Windowed(doc.(historyLimit := limit), initial, log)
  {
  }

  lemma StartIsInv(reading: Reading, content: Text, historyLimit: nat)
    requires Encoded(reading, content)
    ensures Inv(reading, Start(content, historyLimit))
  {
  }

  /** The invariant holds after every run. */
  lemma {:induction false} RunKeepsInv(reading: Reading, s: System, actions: seq<Action>)
    requires Inv(reading, s) && s.Sound() && IsRun(reading, s, actions) && NeverMisdelivers(reading, s, actions)
    ensures Inv(reading, After(reading, s, actions))
    decreases |actions|
  {
    hide Inv, Next, Enabled, Misdelivers;
    if actions != [] {
      StepKeepsInv(reading, s, actions[0]);
      RunKeepsInv(reading, Next(reading, s, actions[0]), actions[1..]);
    }
  }

  // ---- what needs no assumption at all

  lemma StepKeepsWindow(reading: Reading, s: System, a: Action)
    requires s.Sound() && Windowed(s.doc, s.initial, s.log) && Enabled(reading, s, a)
    ensures var t := Next(reading, s, a); t.initial == s.initial && Windowed(t.doc, t.initial, t.log)
  {
    hide Windowed, FitsAll, EditLink, DeliverLink, RewriteAgainst;
    match a
    case ServerTakes(i) => ProcessedKeepsWindow(Popped(s, i), s.links[i].client.userId, s.links[i].up[0]);
    case TakeOrphan(k) => ProcessedKeepsWindow(WithoutOrphan(s, k), s.orphans[k].userId, s.orphans[k].msg);
    case SetHistoryLimit(limit) => LimitKept(s.doc, s.initial, s.log, limit);
    case _ =>
  }

  lemma ProcessedKeepsWindow(s: System, userId: nat, msg: ClientMsg)
    requires s.Sound() && Windowed(s.doc, s.initial, s.log) && |msg.ops| == 1
    ensures var t := Processed(s, userId, msg); t.initial == s.initial && Windowed(t.doc, t.initial, t.log)
  {
    hide Windowed, Serve, RewriteAgainst;
    WindowBounds(s.doc, s.initial, s.log);
    WindowRefinesLog(s.doc, s.initial, s.log, Decoded(userId, msg));
  }

  /** After every run whatsoever the server's content is its log replayed and its history the end of the log. */
  lemma {:induction false} RunKeepsWindow(reading: Reading, s: System, actions: seq<Action>)
    requires s.Sound() && Windowed(s.doc, s.initial, s.log) && IsRun(reading, s, actions)
    ensures var t := After(reading, s, actions); t.initial == s.initial && Windowed(t.doc, t.initial, t.log)
    decreases |actions|
  {
    hide Windowed, Next, Enabled;
    if actions != [] {
      StepKeepsWindow(reading, s, actions[0]);
      RunKeepsWindow(reading, Next(reading, s, actions[0]), actions[1..]);
    }
  }
}
