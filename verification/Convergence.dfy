/** What the invariant gives: agreement of all copies, and that every run of deliveries ends in it. */
module Convergence {
  import opened Operations
  import opened Transformation
  import opened Alignment
  import opened Rebase
  import opened Utf8
  import opened Documents
  import opened Messages
  import opened Clients
  import opened Network
  import opened Invariant
  import opened Preservation
  import opened Refusal

  /** Nothing is under way on any connection. */
  predicate Silent(s: System) {
    forall i :: 0 <= i < |s.links| ==> s.links[i].up == [] && s.links[i].down == []
  }

  /** A refused client is told from its user as well as from its place. */
  lemma RefusedSeat(s: System, i: nat)
    requires i < |s.links| && DistinctUsers(s.links)
    ensures RefusedUser(s, s.links[i].client.userId) <==> Refused(s, i)
  {
    hide Refused;
    if RefusedUser(s, s.links[i].client.userId) {
      var j :| 0 <= j < |s.links| && s.links[j].client.userId == s.links[i].client.userId && Refused(s, j);
      assert j == i;
    }
  }

  /** After every run, from any text and with any history limit: the server's content is its log replayed;
      every client holds the server's document at the client's revision followed by its own pending and
      buffered edits; and each connection is going to deliver exactly one message for every revision the
      client has not reached, in order, an acknowledgement exactly for the client's own. */
  lemma CopiesMirrorServer(reading: Reading, content: Text, limit: nat, actions: seq<Action>)
    requires Encoded(reading, content) && IsRun(reading, Start(content, limit), actions)
    requires NeverMisdelivers(reading, Start(content, limit), actions)
    ensures var s := After(reading, Start(content, limit), actions);
            && s.doc.content == ApplyAll(s.initial, s.log)
            && forall i :: 0 <= i < |s.links| ==>
                 var c := s.links[i].client;
                 && c.revision <= |s.log| == s.doc.revision
                 && c.content == ApplyAll(ApplyAll(s.initial, s.log[..c.revision]), c.Unacked())
                 && OtMsgs(s.links[i].down) == Expected(s.log, c.revision, c.userId)
  {
    hide FitsAll, ApplyAll, RewriteAgainst, SameEdit, Expected;
    StartIsInv(reading, content, limit);
    RunKeepsInv(reading, Start(content, limit), actions);
  }

  /** The messages on a connection carry consecutive revisions, from the first the client has not reached to
      the last, one for each: an acknowledgement of an own operation, a broadcast of any other. */
  lemma MessagesAreConsecutive(reading: Reading, content: Text, limit: nat, actions: seq<Action>, i: nat, k: nat)
    requires Encoded(reading, content) && IsRun(reading, Start(content, limit), actions)
    requires NeverMisdelivers(reading, Start(content, limit), actions)
    requires i < |After(reading, Start(content, limit), actions).links|
    ensures var s := After(reading, Start(content, limit), actions);
            var (r, u, msgs) := (s.links[i].client.revision, s.links[i].client.userId, OtMsgs(s.links[i].down));
            && |msgs| == |s.log| - r
            && (k < |msgs| ==>
                  msgs[k] == if s.log[r + k].userId == u then Ack(r + k + 1)
                             else Broadcast(s.log[r + k].userId, r + k + 1, [ToEntry(s.log[r + k])]))
  {
    hide Inv, Expected, OtMsgs, ApplyAll;
    CopiesMirrorServer(reading, content, limit, actions);
    var s := After(reading, Start(content, limit), actions);
    ExpectedAt(s.log, s.links[i].client.revision, s.links[i].client.userId, k);
  }

  /** The client has nothing of its own left, and its copy is the server's. */
  predicate Converged(s: System, i: nat)
    requires i < |s.links|
  {
    s.links[i].client.phase.Synchronized? && s.links[i].client.content == s.doc.content
  }

  lemma SilentAgrees(reading: Reading, s: System, i: nat)
    requires Inv(reading, s) && Silent(s) && i < |s.links|
    ensures var c := s.links[i].client;
            && c.revision == s.doc.revision
            && c.content == ApplyAll(s.doc.content, c.Unacked())
            && (Converged(s, i) <==> !Refused(s, i))
  {
    hide FitsAll, RewriteAgainst, SameEdit;
    var l := s.links[i];
    assert LinkInv(reading, s.initial, s.log, l);
    assert OtMsgs(l.down) == [];
    assert s.log[..|s.log|] == s.log;
  }

  lemma SilentDecides(reading: Reading, s: System)
    requires Inv(reading, s) && Silent(s)
    ensures forall i :: 0 <= i < |s.links| ==>
              (Converged(s, i) <==> !RefusedUser(s, s.links[i].client.userId))
  {
    hide LinkInv, LogInv, Windowed, OrphanInv, Refused, RefusedUser, Converged;
    forall i | 0 <= i < |s.links|
      ensures Converged(s, i) <==> !RefusedUser(s, s.links[i].client.userId)
    {
      SilentAgrees(reading, s, i);
      RefusedSeat(s, i);
    }
  }

  lemma NobodyAtStart(content: Text, limit: nat, userId: nat)
    ensures !RefusedUser(Start(content, limit), userId)
  {
  }

  /** Convergence: whenever no message is under way, a client is synchronized and its copy is the server's if
      and only if no submission of its user has been refused since the user last joined. */
  lemma AllCopiesConverge(reading: Reading, content: Text, limit: nat, actions: seq<Action>)
    requires Encoded(reading, content) && IsRun(reading, Start(content, limit), actions)
    requires NeverMisdelivers(reading, Start(content, limit), actions)
    ensures var s := After(reading, Start(content, limit), actions);
            Silent(s) ==>
              forall i :: 0 <= i < |s.links| ==>
                (Converged(s, i)
                 <==> !WasRefused(reading, Start(content, limit), actions, s.links[i].client.userId, false))
  {
    hide Inv, Silent, Converged, RefusedUser, WasRefused;
    var start := Start(content, limit);
    StartIsInv(reading, content, limit);
    RunKeepsInv(reading, start, actions);
    var s := After(reading, start, actions);
    if Silent(s) {
      SilentDecides(reading, s);
      forall i | 0 <= i < |s.links|
        ensures Converged(s, i) <==> !WasRefused(reading, start, actions, s.links[i].client.userId, false)
      {
        NobodyAtStart(content, limit, s.links[i].client.userId);
        RunDecidesRefusal(reading, start, actions, s.links[i].client.userId);
      }
    }
  }

  /** Whenever an acknowledgement is next, it is for the next revision, and the client's pending operation
      makes the edit the server logged for it. */
  lemma AckAgreement(reading: Reading, content: Text, limit: nat, actions: seq<Action>, i: nat)
    requires Encoded(reading, content) && IsRun(reading, Start(content, limit), actions)
    requires NeverMisdelivers(reading, Start(content, limit), actions)
    requires var s := After(reading, Start(content, limit), actions);
             i < |s.links| && s.links[i].down != [] && s.links[i].down[0].Ack?
    ensures var s := After(reading, Start(content, limit), actions);
            var c := s.links[i].client;
            && c.revision < |s.log| && s.links[i].down[0].revision == c.revision + 1
            && c.pending.Some? && SameEdit(c.pending.value, s.log[c.revision])
  {
    hide LinkInv, SameEdit, Windowed, LogInv;
    StartIsInv(reading, content, limit);
    RunKeepsInv(reading, Start(content, limit), actions);
    var s := After(reading, Start(content, limit), actions);
    InvIsSound(reading, s);
    AckedIsLogged(reading, s.initial, s.log, s.links[i]);
  }

  /** In a run whose initial text is UTF-8 and whose local edits insert UTF-8 between characters and
      delete whole characters, every copy is UTF-8 and every logged operation starts and ends between
      characters of the document it was applied to. */
  lemma RunsKeepUtf8(content: Text, limit: nat, actions: seq<Action>)
    requires IsUtf8(content) && IsRun(Utf8Text, Start(content, limit), actions)
    requires NeverMisdelivers(Utf8Text, Start(content, limit), actions)
    ensures var s := After(Utf8Text, Start(content, limit), actions);
            && IsUtf8(s.doc.content)
            && (forall i :: 0 <= i < |s.links| ==> IsUtf8(s.links[i].client.content))
            && (forall k :: 0 <= k < |s.log| ==> Aligned(ApplyAll(s.initial, s.log[..k]), s.log[k]))
  {
    hide LinkInv, LogInv, Windowed, Aligned, IsUtf8;
    StartEncoded(content, limit);
    RunKeepsInv(Utf8Text, Start(content, limit), actions);
    var s := After(Utf8Text, Start(content, limit), actions);
    InvIsSound(Utf8Text, s);
    LogIsUtf8(s.initial, s.log);
    WindowBounds(s.doc, s.initial, s.log);
    forall i | 0 <= i < |s.links|
      ensures IsUtf8(s.links[i].client.content)
    {
      LinkIsUtf8(s.initial, s.log, s.links[i]);
    }
    forall k | 0 <= k < |s.log|
      ensures Aligned(ApplyAll(s.initial, s.log[..k]), s.log[k])
    {
      EntryIsAligned(s.initial, s.log, k);
    }
  }

  lemma StartEncoded(content: Text, limit: nat)
    requires IsUtf8(content)
    ensures Inv(Utf8Text, Start(content, limit))
  {
    StartIsInv(Utf8Text, content, limit);
  }

  lemma LogIsUtf8(initial: Text, log: seq<Operation>)
    requires LogInv(Utf8Text, initial, log)
    ensures IsUtf8(ApplyAll(initial, log))
  {
    hide Fits, IsUtf8, ApplyAll;
    ApplyAllKeepsEncoding(Utf8Text, initial, log);
  }

  lemma LinkIsUtf8(initial: Text, log: seq<Operation>, l: Link)
    requires LogInv(Utf8Text, initial, log) && LinkInv(Utf8Text, initial, log, l)
    ensures IsUtf8(l.client.content)
  {
    hide Fits, ApplyAll, IsUtf8;
    var r := l.client.revision;
    assert log == log[..r] + log[r..];
    FitsAllSplit(Utf8Text, initial, log[..r], log[r..]);
    ApplyAllKeepsEncoding(Utf8Text, initial, log[..r]);
    ApplyAllKeepsEncoding(Utf8Text, ContentAt(initial, log, r), l.client.Unacked());
  }

  lemma EntryIsAligned(initial: Text, log: seq<Operation>, k: nat)
    requires LogInv(Utf8Text, initial, log) && k < |log|
    ensures Aligned(ApplyAll(initial, log[..k]), log[k])
  {
    hide Aligned, IsUtf8;
    LogEntryFits(Utf8Text, initial, log, k);
  }

  // ---- every run of server and delivery steps ends

  /** The steps that remain when nobody edits, joins or leaves. */
  predicate IsSettling(a: Action) {
    a.ServerTakes? || a.Deliver? || a.TakeOrphan? || a.DropOrphan?
  }

  /** An undelivered message counts 1; an operation that has yet to reach the server counts one more than
      the messages it will cause. */
  function LinkWeight(l: Link, clients: nat): nat {
    |l.down| + (clients + 1) * (|l.up| + |l.client.buffer|)
  }

  function TotalWeight(links: seq<Link>, clients: nat): nat
    decreases |links|
  {
    if links == [] then 0 else LinkWeight(links[0], clients) + TotalWeight(links[1..], clients)
  }

  function Measure(s: System): nat {
    TotalWeight(s.links, |s.links|) + (|s.links| + 1) * |s.orphans|
  }

  lemma {:induction false} WeightOfUpdate(links: seq<Link>, clients: nat, i: nat, l: Link)
    requires i < |links|
    ensures TotalWeight(links[i := l], clients)
            == TotalWeight(links, clients) - LinkWeight(links[i], clients) + LinkWeight(l, clients)
    decreases |links|
  {
    hide LinkWeight;
    if i == 0 {
      assert links[i := l][1..] == links[1..];
    } else {
      assert links[i := l][1..] == links[1..][i - 1 := l];
      WeightOfUpdate(links[1..], clients, i - 1, l);
    }
  }

  lemma {:induction false} WeightOfTelling(links: seq<Link>, clients: nat, sender: nat, revision: nat, op: Operation)
    ensures TotalWeight(TellOperation(links, sender, revision, op), clients) == TotalWeight(links, clients) + |links|
    decreases |links|
  {
    hide MessageFor;
    if links != [] {
      var told := TellOperation(links, sender, revision, op);
      assert told[1..] == TellOperation(links[1..], sender, revision, op);
      WeightOfTelling(links[1..], clients, sender, revision, op);
    }
  }

  lemma {:induction false} ReceiveKeepsBuffer(c: ClientState, userId: nat, revision: nat, ops: seq<OpEntry>)
    requires c.Shape()
    ensures |ReceiveAll(c, userId, revision, ops).0.buffer| == |c.buffer|
    decreases |ops|
  {
    hide Apply, RebaseLocal;
    if ops != [] {
      ReceiveKeepsBuffer(ReceiveOne(c, FromEntry(ops[0], userId, revision)).0, userId, revision, ops[1..]);
    }
  }

  lemma DeliverLightens(l: Link, clients: nat)
    requires l.client.Shape() && l.down != []
    ensures LinkWeight(DeliverLink(l), clients) < LinkWeight(l, clients)
  {
    hide ReceiveAll;
    if l.down[0].Broadcast? {
      ReceiveKeepsBuffer(l.client, l.down[0].userId, l.down[0].revision, l.down[0].ops);
    }
  }

  lemma {:induction false} WeightOfRefusing(links: seq<Link>, clients: nat, userId: nat)
    ensures TotalWeight(TellRefused(links, userId), clients) <= TotalWeight(links, clients) + |links|
    decreases |links|
  {
    if links != [] {
      assert TellRefused(links, userId)[1..] == TellRefused(links[1..], userId);
      WeightOfRefusing(links[1..], clients, userId);
    }
  }

  /** Processing a command causes at most one message per connection. */
  lemma ProcessedWeight(s: System, userId: nat, msg: ClientMsg)
    requires s.Sound() && |msg.ops| == 1
    ensures var t := Processed(s, userId, msg);
            |t.links| == |s.links| && t.orphans == s.orphans && Measure(t) <= Measure(s) + |s.links|
  {
    hide Serve, TellOperation, TellRefused, TotalWeight;
    var (doc, result) := Serve(s.doc, Decoded(userId, msg));
    match result
    case RevisionTooOld => WeightOfRefusing(s.links, |s.links|, userId);
    case Accepted(op) => WeightOfTelling(s.links, |s.links|, userId, doc.revision, op);
  }

  lemma PoppedWeight(s: System, i: nat)
    requires s.Sound() && i < |s.links| && s.links[i].up != []
    ensures |Popped(s, i).links| == |s.links| && Measure(Popped(s, i)) == Measure(s) - (|s.links| + 1)
  {
    hide TotalWeight;
    var (l, n) := (s.links[i], |s.links|);
    WeightOfUpdate(s.links, n, i, l.(up := l.up[1..]));
    Distribute(n + 1, |l.up| + |l.client.buffer|);
    assert LinkWeight(l.(up := l.up[1..]), n) == LinkWeight(l, n) - (n + 1);
  }

  lemma OrphanWeight(s: System, k: nat)
    requires s.Sound() && k < |s.orphans|
    ensures |WithoutOrphan(s, k).links| == |s.links|
    ensures Measure(WithoutOrphan(s, k)) == Measure(s) - (|s.links| + 1)
  {
    hide TotalWeight;
    Distribute(|s.links| + 1, |s.orphans|);
  }

  lemma Distribute(x: nat, y: nat)
    ensures x * (y - 1) == x * y - x
  {
  }

  lemma DeliveredWeight(s: System, i: nat)
    requires s.Sound() && i < |s.links| && s.links[i].down != []
    ensures Measure(s.(links := s.links[i := DeliverLink(s.links[i])])) < Measure(s)
  {
    hide DeliverLink, LinkWeight, TotalWeight;
    DeliverLightens(s.links[i], |s.links|);
    WeightOfUpdate(s.links, |s.links|, i, DeliverLink(s.links[i]));
  }

  /** Every settling step makes the measure smaller. */
  lemma SettlingLightens(reading: Reading, s: System, a: Action)
    requires s.Sound() && Enabled(reading, s, a) && IsSettling(a)
    ensures Measure(Next(reading, s, a)) < Measure(s)
    ensures |Next(reading, s, a).links| == |s.links|
  {
    hide Measure, Processed, Popped, WithoutOrphan, DeliverLink;
    match a
    case ServerTakes(i) =>
      PoppedWeight(s, i);
      ProcessedWeight(Popped(s, i), s.links[i].client.userId, s.links[i].up[0]);
    case Deliver(i) => DeliveredWeight(s, i);
    case TakeOrphan(k) =>
      OrphanWeight(s, k);
      ProcessedWeight(WithoutOrphan(s, k), s.orphans[k].userId, s.orphans[k].msg);
    case DropOrphan(k) => OrphanWeight(s, k);
  }

  /** A run of settling steps is no longer than the measure it starts with. */
  lemma {:induction false} SettlingRunIsBounded(reading: Reading, s: System, actions: seq<Action>)
    requires s.Sound() && IsRun(reading, s, actions)
    requires forall k :: 0 <= k < |actions| ==> IsSettling(actions[k])
    ensures |actions| + Measure(After(reading, s, actions)) <= Measure(s)
    decreases |actions|
  {
    hide Next, Enabled, Measure, IsSettling;
    if actions != [] {
      assert IsSettling(actions[0]);
      SettlingLightens(reading, s, actions[0]);
      SettlingRunIsBounded(reading, Next(reading, s, actions[0]), actions[1..]);
    }
  }

  /** No settling step is left. */
  predicate Settled(reading: Reading, s: System) {
    && (forall i :: 0 <= i < |s.links| ==> !Enabled(reading, s, ServerTakes(i)) && !Enabled(reading, s, Deliver(i)))
    && (forall k :: 0 <= k < |s.orphans| ==> !Enabled(reading, s, DropOrphan(k)))
  }

  lemma SettledIsSilent(reading: Reading, s: System)
    requires Inv(reading, s) && Settled(reading, s)
    ensures Silent(s)
  {
    hide LinkInv, Windowed, LogInv, OrphanInv;
    forall i | 0 <= i < |s.links|
      ensures s.links[i].up == [] && s.links[i].down == []
    {
      assert !Enabled(reading, s, ServerTakes(i)) && !Enabled(reading, s, Deliver(i));
      if s.links[i].up != [] {
        WaitingIsInFlight(reading, s.initial, s.log, s.links[i]);
      }
    }
  }

  /** Eventual convergence: once nobody edits, joins or leaves, every run of server and delivery steps is
      finite, bounded by the measure, and when no step is left a client is synchronized and its copy is the
      server's if and only if no submission of its user has been refused since the user last joined. */
  lemma EveryRunSettles(reading: Reading, content: Text, limit: nat, past: seq<Action>, rest: seq<Action>)
    requires Encoded(reading, content)
    requires IsRun(reading, Start(content, limit), past) && NeverMisdelivers(reading, Start(content, limit), past)
    requires var s := After(reading, Start(content, limit), past);
             IsRun(reading, s, rest) && NeverMisdelivers(reading, s, rest)
    requires forall k :: 0 <= k < |rest| ==> IsSettling(rest[k])
    ensures var s := After(reading, Start(content, limit), past);
            var t := After(reading, s, rest);
            && |rest| <= Measure(s)
            && (Settled(reading, t) ==>
                  forall i :: 0 <= i < |t.links| ==>
                    var u := t.links[i].client.userId;
                    (Converged(t, i)
                     <==> !WasRefused(reading, s, rest, u,
                                      WasRefused(reading, Start(content, limit), past, u, false))))
  {
    hide Inv, Measure, IsSettling, Settled, Silent, Converged, RefusedUser, WasRefused;
    var start := Start(content, limit);
    var s := After(reading, start, past);
    var t := After(reading, s, rest);
    StartIsInv(reading, content, limit);
    RunKeepsInv(reading, start, past);
    RunKeepsInv(reading, s, rest);
    SettlingRunIsBounded(reading, s, rest);
    if Settled(reading, t) {
      SettledIsSilent(reading, t);
      SilentDecides(reading, t);
      forall i | 0 <= i < |t.links|
        ensures var u := t.links[i].client.userId;
                Converged(t, i)
                <==> !WasRefused(reading, s, rest, u, WasRefused(reading, start, past, u, false))
      {
        var u := t.links[i].client.userId;
        NobodyAtStart(content, limit, u);
        RunDecidesRefusal(reading, start, past, u);
        RunDecidesRefusal(reading, s, rest, u);
      }
    }
  }
}
