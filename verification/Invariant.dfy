/** What holds in every reachable state of the network, and the proof that every step keeps it. */
module Invariant {
  import opened Operations
  import opened Transformation
  import opened Alignment
  import opened Rebase
  import opened Documents
  import opened Messages
  import opened Clients
  import opened Network

  predicate NoneByIn(log: seq<Operation>, lo: nat, hi: nat, userId: nat)
    requires hi <= |log|
  {
    forall i :: lo <= i < hi ==> log[i].userId != userId
  }

  /** The OT messages still to reach a client that has processed the first `from` log entries. */
  function Expected(log: seq<Operation>, from: nat, userId: nat): seq<ServerMsg>
    decreases |log| - from
  {
    if from >= |log| then []
    else [MessageFor(userId, log[from].userId, from + 1, log[from])] + Expected(log, from + 1, userId)
  }

  /** Nothing is in flight: there is nothing to acknowledge, or the server has refused it. */
  predicate Quiet(log: seq<Operation>, l: Link)
    requires l.client.revision <= |log|
  {
    l.up == [] && NoneByIn(log, l.client.revision, |log|, l.client.userId)
  }

  /** The pending operation is on its way to the server; the copy on the wire, rewritten against what
      the client has seen since sending it, is the pending operation. */
  predicate InFlight(log: seq<Operation>, l: Link)
    requires l.client.revision <= |log|
  {
    && l.client.pending.Some?
    && |l.up| == 1 && |l.up[0].ops| == 1 && l.up[0].revision <= l.client.revision
    && NoneByIn(log, l.client.revision, |log|, l.client.userId)
    && SameEdit(RewriteAgainst(Submitted(l), log[l.up[0].revision..l.client.revision]), l.client.pending.value)
  }

  /** The server has logged the pending operation as entry k, and the client has not reached that entry;
      when it does, its pending operation will be that entry. */
  predicate LoggedAt(log: seq<Operation>, l: Link, k: nat)
    requires l.client.revision <= |log|
  {
    && l.client.pending.Some?
    && l.up == []
    && l.client.revision <= k < |log| && log[k].userId == l.client.userId
    && NoneByIn(log, l.client.revision, k, l.client.userId) && NoneByIn(log, k + 1, |log|, l.client.userId)
    && SameEdit(RewriteAgainst(l.client.pending.value, log[l.client.revision..k]), log[k])
  }

  predicate Logged(log: seq<Operation>, l: Link)
    requires l.client.revision <= |log|
  {
    exists k :: 0 <= k < |log| && LoggedAt(log, l, k)
  }

  predicate InStep(log: seq<Operation>, l: Link)
    requires l.client.revision <= |log|
  {
    Quiet(log, l) || InFlight(log, l) || Logged(log, l)
  }

  /** The document as the server had it at a given revision. */
  function ContentAt(initial: Text, log: seq<Operation>, revision: nat): Text
    requires revision <= |log|
  {
    ApplyAll(initial, log[..revision])
  }

  /** A client's document is the server's at the client's revision, followed by the client's own
      unacknowledged edits. */
  predicate Mirrors(reading: Reading, initial: Text, log: seq<Operation>, c: ClientState) {
    && c.revision <= |log|
    && AllBy(c.Unacked(), c.userId)
    && FitsAll(reading, ContentAt(initial, log, c.revision), c.Unacked())
    && c.content == ApplyAll(ContentAt(initial, log, c.revision), c.Unacked())
  }

  predicate LinkInv(reading: Reading, initial: Text, log: seq<Operation>, l: Link) {
    && l.client.Shape()
    && Mirrors(reading, initial, log, l.client)
    && OtMsgs(l.down) == Expected(log, l.client.revision, l.client.userId)
    && InStep(log, l)
  }

  /** An orphan, rewritten as the server will rewrite it, fits the server's document. */
  predicate OrphanInv(reading: Reading, initial: Text, log: seq<Operation>, o: Orphan) {
    && |o.msg.ops| == 1 && o.msg.revision <= |log|
    && var op := RewriteAgainst(Decoded(o.userId, o.msg), log[o.msg.revision..]);
       op.userId == o.userId && Fits(reading, ApplyAll(initial, log), op)
  }

  predicate LogInv(reading: Reading, initial: Text, log: seq<Operation>) {
    Encoded(reading, initial) && FitsAll(reading, initial, log)
  }

  predicate DistinctUsers(links: seq<Link>) {
    forall i, j :: 0 <= i < j < |links| ==> links[i].client.userId != links[j].client.userId
  }

  predicate Inv(reading: Reading, s: System) {
    && Windowed(s.doc, s.initial, s.log)
    && LogInv(reading, s.initial, s.log)
    && DistinctUsers(s.links)
    && (forall i :: 0 <= i < |s.links| ==> LinkInv(reading, s.initial, s.log, s.links[i]))
    && (forall k :: 0 <= k < |s.orphans| ==> OrphanInv(reading, s.initial, s.log, s.orphans[k]))
  }

  // ---- lists of expected messages

  lemma {:induction false} ExpectedAppend(log: seq<Operation>, op: Operation, from: nat, userId: nat)
    requires from <= |log|
    ensures Expected(log + [op], from, userId)
            == Expected(log, from, userId) + [MessageFor(userId, op.userId, |log| + 1, op)]
    decreases |log| - from
  {
    if from < |log| {
      ExpectedAppend(log, op, from + 1, userId);
    } else {
      assert Expected(log + [op], from + 1, userId) == [];
    }
  }

  /** What a client is still to hear: one message for every later revision, in order and without a gap, an
      acknowledgement exactly where the operation is its own. */
  lemma {:induction false} ExpectedAt(log: seq<Operation>, from: nat, userId: nat, k: nat)
    requires from <= |log|
    ensures |Expected(log, from, userId)| == |log| - from
    ensures k < |log| - from ==>
              && Expected(log, from, userId)[k] == MessageFor(userId, log[from + k].userId, from + k + 1, log[from + k])
              && (Expected(log, from, userId)[k].Ack? <==> log[from + k].userId == userId)
    decreases |log| - from
  {
    if from < |log| {
      ExpectedAt(log, from + 1, userId, if k == 0 then 0 else k - 1);
    }
  }

  lemma ContentAtStep(initial: Text, log: seq<Operation>, r: nat)
    requires r < |log|
    ensures ContentAt(initial, log, r + 1) == Apply(ContentAt(initial, log, r), log[r])
  {
    assert log[..r + 1] == log[..r] + [log[r]];
    ApplyAllAppend(initial, log[..r], log[r]);
  }

  lemma LogEntryFits(reading: Reading, initial: Text, log: seq<Operation>, r: nat)
    requires LogInv(reading, initial, log) && r < |log|
    ensures Encoded(reading, ContentAt(initial, log, r))
    ensures Fits(reading, ContentAt(initial, log, r), log[r])
    ensures AllWellFormed(log)
  {
    hide Fits, Apply, ApplyAll, Encoded;
    assert log == log[..r] + log[r..];
    FitsAllSplit(reading, initial, log[..r], log[r..]);
    ApplyAllKeepsEncoding(reading, initial, log[..r]);
    FitsAllWellFormed(reading, initial, log);
  }

  lemma {:induction false} RewriteSplit(op: Operation, log: seq<Operation>, more: seq<Operation>)
    ensures RewriteAgainst(op, log + more) == RewriteAgainst(RewriteAgainst(op, log), more)
    decreases |log|
  {
    hide Transform;
    if log == [] {
      assert log + more == more;
    } else {
      assert (log + more)[1..] == log[1..] + more;
      RewriteSplit(Transform(op, log[0]).0, log[1..], more);
    }
  }

  lemma FitsRespectsEdit(reading: Reading, doc: Text, a: Operation, b: Operation)
    requires SameEdit(a, b) && a.WellFormed() && b.WellFormed() && Fits(reading, doc, a)
    ensures Fits(reading, doc, b)
  {
  }

  // ---- the server takes a submission

  /** The pending operation, rewritten against what its client has not seen, fits the server's document. */
  lemma PendingFits(reading: Reading, initial: Text, log: seq<Operation>, l: Link)
    requires LogInv(reading, initial, log) && LinkInv(reading, initial, log, l) && InFlight(log, l)
    ensures var op := RewriteAgainst(l.client.pending.value, log[l.client.revision..]);
            op.WellFormed() && Fits(reading, ApplyAll(initial, log), op)
    ensures l.client.pending.value.WellFormed() && l.client.pending.value.userId == l.client.userId
  {
    hide Fits, Apply, ApplyAll, SameEdit, RewriteAgainst, Transform, Encoded;
    var (c, r) := (l.client, l.client.revision);
    assert c.Unacked()[0] == c.pending.value;
    var base := ContentAt(initial, log, r);
    assert Fits(reading, base, c.pending.value);
    FitsIsWellFormed(reading, base, c.pending.value);
    assert log == log[..r] + log[r..];
    FitsAllSplit(reading, initial, log[..r], log[r..]);
    ApplyAllSplit(initial, log[..r], log[r..]);
    ApplyAllKeepsEncoding(reading, initial, log[..r]);
    RewriteFits(reading, base, c.pending.value, log[r..]);
    FitsIsWellFormed(reading, ApplyAll(initial, log), RewriteAgainst(c.pending.value, log[r..]));
  }

  /** The agreement of the two rewriting loops: what the server is about to log is the sender's pending
      operation, rewritten against the entries the sender has not seen. */
  lemma ServerAgreesWithClient(reading: Reading, initial: Text, log: seq<Operation>, l: Link)
    requires LogInv(reading, initial, log) && LinkInv(reading, initial, log, l) && InFlight(log, l)
    ensures var op := RewriteAgainst(Submitted(l), log[l.up[0].revision..]);
            && SameEdit(RewriteAgainst(l.client.pending.value, log[l.client.revision..]), op)
            && op.WellFormed() && op.userId == l.client.userId
            && Fits(reading, ApplyAll(initial, log), op)
  {
    hide Fits, Apply, ApplyAll, FitsAll, SameEdit, RewriteAgainst, Transform, Encoded, OtMsgs, Expected;
    var c := l.client;
    var (r0, r) := (l.up[0].revision, c.revision);
    var sent := Submitted(l);
    var op := RewriteAgainst(sent, log[r0..]);
    PendingFits(reading, initial, log, l);
    FitsAllWellFormed(reading, initial, log);
    assert log[r0..] == log[r0..r] + log[r..];
    RewriteSplit(sent, log[r0..r], log[r..]);
    RewriteKeepsShape(sent, log[r0..r]);
    RewriteKeepsShape(sent, log[r0..]);
    RewriteRespectsEdit(RewriteAgainst(sent, log[r0..r]), c.pending.value, log[r..]);
    SameEditSwaps(op, RewriteAgainst(c.pending.value, log[r..]));
    FitsRespectsEdit(reading, ApplyAll(initial, log), RewriteAgainst(c.pending.value, log[r..]), op);
  }

  lemma SameEditSwaps(a: Operation, b: Operation)
    requires SameEdit(a, b)
    ensures SameEdit(b, a)
  {
  }
}
