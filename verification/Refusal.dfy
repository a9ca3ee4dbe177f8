/** Refused submissions (core/src/document.cpp): who is left waiting, for how long, and that it happens with
    every history limit. */
module Refusal {
  import opened Operations
  import opened Transformation
  import opened Alignment
  import opened Rebase
  import opened Documents
  import opened Messages
  import opened Clients
  import opened Network
  import opened Invariant
  import opened Preservation

  /** The client waits for an acknowledgement that will never come: its submission was refused. */
  predicate RefusedLink(log: seq<Operation>, l: Link) {
    && l.client.pending.Some? && l.up == []
    && forall k :: l.client.revision <= k < |log| ==> log[k].userId != l.client.userId
  }

  predicate Refused(s: System, i: nat)
    requires i < |s.links|
  {
    RefusedLink(s.log, s.links[i])
  }

  predicate RefusedUser(s: System, userId: nat) {
    exists i :: 0 <= i < |s.links| && s.links[i].client.userId == userId && Refused(s, i)
  }

  /** The user's own leave. */
  predicate LeavesAs(s: System, a: Action, userId: nat) {
    a.Leave? && a.i < |s.links| && s.links[a.i].client.userId == userId
  }

  /** The server refuses the user's submission. */
  predicate RefusesUser(s: System, a: Action, userId: nat) {
    && a.ServerTakes? && a.i < |s.links| && s.links[a.i].client.userId == userId
    && s.links[a.i].up != [] && |s.links[a.i].up[0].ops| == 1 && Refuses(s, a.i)
  }

  // ---- one connection

  lemma EditOneRefusal(log: seq<Operation>, l: Link, op: Operation)
    requires l.client.Shape()
    ensures var (client, sent) := EditOne(l.client, op);
            RefusedLink(log, Link(client, l.up + sent, l.down)) <==> RefusedLink(log, l)
  {
    hide Apply;
    assert l.up + [] == l.up;
  }

  lemma {:induction false} EditLinkRefusal(log: seq<Operation>, l: Link, ops: seq<Operation>)
    requires l.client.Shape()
    ensures RefusedLink(log, EditLink(l, ops)) <==> RefusedLink(log, l)
    decreases |ops|
  {
    hide EditOne, RefusedLink;
    if ops == [] {
      assert l.up + [] == l.up;
    } else {
      EditOneRefusal(log, l, ops[0]);
      var (c1, sent) := EditOne(l.client, ops[0]);
      EditLinkRefusal(log, Link(c1, l.up + sent, l.down), ops[1..]);
      assert (l.up + sent) + EditAll(c1, ops[1..]).1 == l.up + (sent + EditAll(c1, ops[1..]).1);
    }
  }

  lemma AckRefusal(reading: Reading, initial: Text, log: seq<Operation>, l: Link)
    requires LinkInv(reading, initial, log, l) && l.down != [] && l.down[0].Ack?
    ensures !RefusedLink(log, l) && !RefusedLink(log, DeliverLink(l))
  {
    hide LinkInv, LoggedAt, SameEdit;
    InFlightBounds(reading, initial, log, l);
    AckedIsLogged(reading, initial, log, l);
  }

  lemma BroadcastRefusal(reading: Reading, initial: Text, log: seq<Operation>, l: Link)
    requires LinkInv(reading, initial, log, l) && l.down != [] && l.down[0].Broadcast?
    ensures RefusedLink(log, DeliverLink(l)) <==> RefusedLink(log, l)
  {
    hide Mirrors, InStep, ReceiveOne, Receive;
    var (c, r) := (l.client, l.client.revision);
    MirrorsBounds(reading, initial, log, c);
    HeadOfDown(log, r, c.userId, l.down);
    ReceiveSingle(c, l.down[0].userId, r + 1, l.down[0].ops);
    ReceivedPending(c, FromEntry(l.down[0].ops[0], l.down[0].userId, r + 1));
  }

  lemma DeliverRefusal(reading: Reading, initial: Text, log: seq<Operation>, l: Link)
    requires LinkInv(reading, initial, log, l) && l.down != [] && l.client.Shape()
    ensures RefusedLink(log, DeliverLink(l)) <==> RefusedLink(log, l)
  {
    hide LinkInv;
    if l.down[0].Ack? {
      AckRefusal(reading, initial, log, l);
    } else if l.down[0].Broadcast? {
      BroadcastRefusal(reading, initial, log, l);
    }
  }

  lemma LoggedRefusal(log: seq<Operation>, l: Link, op: Operation, m: ServerMsg)
    ensures op.userId != l.client.userId ==> (RefusedLink(log + [op], Told(l, m)) <==> RefusedLink(log, l))
    ensures op.userId == l.client.userId && l.client.revision <= |log| ==> !RefusedLink(log + [op], Told(l, m))
  {
    var log' := log + [op];
    assert log'[|log|] == op && forall k :: 0 <= k < |log| ==> log'[k] == log[k];
  }

  // ---- the whole network

  /** Steps that leave the connections where they are are decided connection by connection. */
  lemma SeatsDecide(s: System, t: System, userId: nat, refuses: bool)
    requires |t.links| == |s.links| && (refuses ==> Connected(s.links, userId))
    requires forall j :: 0 <= j < |s.links| ==> t.links[j].client.userId == s.links[j].client.userId
    requires forall j :: 0 <= j < |s.links| && s.links[j].client.userId == userId ==>
               (Refused(t, j) <==> Refused(s, j) || refuses)
    ensures RefusedUser(t, userId) <==> RefusedUser(s, userId) || refuses
  {
    hide RefusedLink;
    if RefusedUser(s, userId) || refuses {
      var j :| 0 <= j < |s.links| && s.links[j].client.userId == userId && (Refused(s, j) || refuses);
      assert Refused(t, j);
    }
    if RefusedUser(t, userId) {
      var j :| 0 <= j < |t.links| && t.links[j].client.userId == userId && Refused(t, j);
      assert Refused(s, j) || refuses;
    }
  }

  lemma TakenDecides(reading: Reading, s: System, i: nat, userId: nat)
    requires Inv(reading, s) && s.Sound() && Enabled(reading, s, ServerTakes(i))
    ensures RefusedUser(Taken(s, i), userId)
            <==> RefusedUser(s, userId) || RefusesUser(s, ServerTakes(i), userId)
  {
    hide Inv, LinkInv, RefusedLink, InFlight, Processed, MessageFor, RewriteAgainst;
    InvIsSound(reading, s);
    var (l, t) := (s.links[i], Taken(s, i));
    WaitingIsInFlight(reading, s.initial, s.log, l);
    PoppedKept(reading, s, i);
    TakenLinks(reading, s, i);
    forall j | 0 <= j < |s.links| && s.links[j].client.userId == userId
      ensures t.links[j].client.userId == s.links[j].client.userId
      ensures Refused(t, j) <==> Refused(s, j) || RefusesUser(s, ServerTakes(i), userId)
    {
      InFlightBounds(reading, s.initial, s.log, s.links[j]);
      OneTakenDecides(reading, s, i, j);
    }
    SeatsDecide(s, t, userId, RefusesUser(s, ServerTakes(i), userId));
  }

  /** What becomes of each connection when the server takes a submission. */
  lemma TakenLinks(reading: Reading, s: System, i: nat)
    requires Inv(reading, s) && s.Sound() && Enabled(reading, s, ServerTakes(i))
    ensures var (t, l, popped) := (Taken(s, i), s.links[i], Popped(s, i).links);
            && |t.links| == |s.links|
            && if Refuses(s, i) then t.log == s.log && t.links == TellRefused(popped, l.client.userId)
               else
                 && |t.log| == |s.log| + 1 && t.log == s.log + [t.log[|s.log|]]
                 && t.log[|s.log|].userId == l.client.userId
                 && t.links == TellOperation(popped, l.client.userId, |s.log| + 1, t.log[|s.log|])
  {
    hide Inv, LinkInv, LogInv, OrphanInv, Windowed, Processed, MessageFor, RewriteAgainst;
    InvIsSound(reading, s);
    var l := s.links[i];
    PoppedKept(reading, s, i);
    InFlightIsSound(reading, s.initial, s.log, l);
    if Refuses(s, i) {
      RefusalKept(reading, Popped(s, i), l.client.userId, l.up[0]);
    } else {
      LoggedKept(reading, Popped(s, i), l.client.userId, l.up[0]);
    }
  }

  lemma OneTakenDecides(reading: Reading, s: System, i: nat, j: nat)
    requires Inv(reading, s) && s.Sound() && Enabled(reading, s, ServerTakes(i)) && j < |s.links|
    ensures |Taken(s, i).links| == |s.links| && Taken(s, i).links[j].client.userId == s.links[j].client.userId
    ensures Refused(Taken(s, i), j)
            <==> Refused(s, j) || RefusesUser(s, ServerTakes(i), s.links[j].client.userId)
  {
    hide LinkInv, LogInv, OrphanInv, Windowed, Processed, MessageFor, RewriteAgainst, SameEdit;
    InvIsSound(reading, s);
    var (l, t) := (s.links[i], Taken(s, i));
    WaitingIsInFlight(reading, s.initial, s.log, l);
    TakenLinks(reading, s, i);
    var popped := Popped(s, i).links;
    if !Refuses(s, i) {
      var op := t.log[|s.log|];
      LoggedRefusal(s.log, popped[j], op, MessageFor(popped[j].client.userId, l.client.userId, |s.log| + 1, op));
    }
  }

  lemma OrphanDecides(reading: Reading, s: System, k: nat, userId: nat)
    requires Inv(reading, s) && s.Sound() && Enabled(reading, s, TakeOrphan(k)) && !Misdelivers(s, TakeOrphan(k))
    ensures RefusedUser(Next(reading, s, TakeOrphan(k)), userId) <==> RefusedUser(s, userId)
  {
    hide LinkInv, LogInv, OrphanInv, Windowed, Processed, MessageFor, RewriteAgainst, Refused, RefusedUser;
    InvIsSound(reading, s);
    var (o, u) := (s.orphans[k], WithoutOrphan(s, k));
    var t := Next(reading, s, TakeOrphan(k));
    WithoutOrphanKept(reading, s, k);
    if o.msg.revision < s.doc.oldestRevision {
      RefusalKept(reading, u, o.userId, o.msg);
    } else {
      LoggedKept(reading, u, o.userId, o.msg);
    }
    forall j | 0 <= j < |s.links|
      ensures t.links[j].client.userId == s.links[j].client.userId
      ensures Refused(t, j) <==> Refused(s, j)
    {
      if o.msg.revision < s.doc.oldestRevision {
        ToldRefusal(s.log, s.links[j], ErrorTooOld);
      } else {
        var op := t.log[|s.log|];
        LoggedRefusal(s.log, s.links[j], op, MessageFor(s.links[j].client.userId, o.userId, |s.log| + 1, op));
      }
      RefusedMeans(s, j);
      RefusedMeans(t, j);
    }
    SeatsDecide(s, t, userId, false);
  }

  lemma RefusedMeans(s: System, j: nat)
    requires j < |s.links|
    ensures Refused(s, j) <==> RefusedLink(s.log, s.links[j])
  {
  }

  lemma ToldRefusal(log: seq<Operation>, l: Link, m: ServerMsg)
    ensures RefusedLink(log, Told(l, m)) <==> RefusedLink(log, l)
  {
  }

  lemma JoinDecides(s: System, newcomer: nat, userId: nat)
    requires s.Sound()
    ensures RefusedUser(Joined(s, newcomer), userId) <==> RefusedUser(s, userId)
  {
    var t := Joined(s, newcomer);
    if RefusedUser(s, userId) {
      var j :| 0 <= j < |s.links| && s.links[j].client.userId == userId && Refused(s, j);
      assert Refused(t, j);
    }
    if RefusedUser(t, userId) {
      var j :| 0 <= j < |t.links| && t.links[j].client.userId == userId && Refused(t, j);
      assert j < |s.links| && Refused(s, j);
    }
  }

  lemma LeaveDecides(s: System, i: nat, userId: nat)
    requires s.Sound() && i < |s.links| && DistinctUsers(s.links)
    ensures RefusedUser(Left(s, i), userId) <==> RefusedUser(s, userId) && s.links[i].client.userId != userId
  {
    hide RefusedLink, Left;
    var t := Left(s, i);
    if RefusedUser(s, userId) && s.links[i].client.userId != userId {
      var j :| 0 <= j < |s.links| && s.links[j].client.userId == userId && Refused(s, j);
      SeatAfterLeave(s, i, j);
      assert Refused(t, if j < i then j else j - 1);
    }
    if RefusedUser(t, userId) {
      var j :| 0 <= j < |t.links| && t.links[j].client.userId == userId && Refused(t, j);
      SeatsAfterLeave(s, i);
      SeatAfterLeave(s, i, if j < i then j else j + 1);
      assert Refused(s, if j < i then j else j + 1);
    }
  }

  lemma SeatsAfterLeave(s: System, i: nat)
    requires s.Sound() && i < |s.links|
    ensures |Left(s, i).links| == |s.links| - 1
  {
  }

  lemma SeatAfterLeave(s: System, i: nat, j: nat)
    requires s.Sound() && i < |s.links| && j < |s.links| && j != i
    ensures var (t, seat) := (Left(s, i), if j < i then j else j - 1);
            && |t.links| == |s.links| - 1
            && t.links[seat].client.userId == s.links[j].client.userId
            && (Refused(t, seat) <==> Refused(s, j))
  {
    hide RefusedLink;
    var m := UserLeft(s.links[i].client.userId);
    ToldRefusal(s.log, s.links[j], m);
    assert Left(s, i).links[if j < i then j else j - 1] == Told(s.links[j], m);
  }

  /** A client is left waiting exactly by the refusal of its own submission, and stays so until it leaves. */
  lemma StepDecidesRefusal(reading: Reading, s: System, a: Action, userId: nat)
    requires Inv(reading, s) && s.Sound() && Enabled(reading, s, a) && !Misdelivers(s, a)
    ensures RefusedUser(Next(reading, s, a), userId)
            <==> (RefusedUser(s, userId) && !LeavesAs(s, a, userId)) || RefusesUser(s, a, userId)
  {
    hide LinkInv, LogInv, OrphanInv, Windowed, FitsAll, RefusedLink;
    hide Processed, Left, Joined, Taken, EditLink, DeliverLink;
    InvIsSound(reading, s);
    var t := Next(reading, s, a);
    match a
    case Edit(i, ops) =>
      EditLinkRefusal(s.log, s.links[i], ops);
      EditKeepsUser(s.links[i].client, ops);
      EditLinkUser(s.links[i], ops);
      SeatsDecide(s, t, userId, false);
    case ServerTakes(i) => TakenDecides(reading, s, i, userId);
    case Deliver(i) =>
      DeliverRefusal(reading, s.initial, s.log, s.links[i]);
      DeliverKeepsUser(s.links[i]);
      SeatsDecide(s, t, userId, false);
    case Join(newcomer) => JoinDecides(s, newcomer, userId);
    case Leave(i) => LeaveDecides(s, i, userId);
    case TakeOrphan(k) => OrphanDecides(reading, s, k, userId);
    case DropOrphan(k) => SeatsDecide(s, t, userId, false);
    case SetHistoryLimit(limit) => SeatsDecide(s, t, userId, false);
  }

  lemma EditLinkUser(l: Link, ops: seq<Operation>)
    requires l.client.Shape()
    ensures EditLink(l, ops).client.userId == EditAll(l.client, ops).0.userId
  {
  }

  /** Told from the run alone: was a submission of the user refused, and has the user not left since? */
  predicate WasRefused(reading: Reading, s: System, actions: seq<Action>, userId: nat, before: bool)
    requires s.Sound() && IsRun(reading, s, actions)
    decreases |actions|
  {
    if actions == [] then before
    else
      var now := (before && !LeavesAs(s, actions[0], userId)) || RefusesUser(s, actions[0], userId);
      WasRefused(reading, Next(reading, s, actions[0]), actions[1..], userId, now)
  }

  lemma {:induction false} RunDecidesRefusal(reading: Reading, s: System, actions: seq<Action>, userId: nat)
    requires Inv(reading, s) && s.Sound() && IsRun(reading, s, actions) && NeverMisdelivers(reading, s, actions)
    ensures RefusedUser(After(reading, s, actions), userId)
            <==> WasRefused(reading, s, actions, userId, RefusedUser(s, userId))
    decreases |actions|
  {
    hide Inv, Next, Enabled, Misdelivers, RefusedUser, LeavesAs, RefusesUser;
    if actions != [] {
      StepKeepsInv(reading, s, actions[0]);
      StepDecidesRefusal(reading, s, actions[0], userId);
      RunDecidesRefusal(reading, Next(reading, s, actions[0]), actions[1..], userId);
    }
  }

  predicate NeverLeaves(reading: Reading, s: System, actions: seq<Action>, userId: nat)
    requires s.Sound() && IsRun(reading, s, actions)
    decreases |actions|
  {
    actions == []
    || (&& !LeavesAs(s, actions[0], userId)
        && NeverLeaves(reading, Next(reading, s, actions[0]), actions[1..], userId))
  }

  /** A refused client waits for ever: whatever happens, it stays refused as long as its user does not leave. */
  lemma {:induction false} RefusedWaitsForEver(reading: Reading, s: System, actions: seq<Action>, userId: nat)
    requires Inv(reading, s) && s.Sound() && IsRun(reading, s, actions) && NeverMisdelivers(reading, s, actions)
    requires RefusedUser(s, userId) && NeverLeaves(reading, s, actions, userId)
    ensures RefusedUser(After(reading, s, actions), userId)
    decreases |actions|
  {
    hide Inv, Next, Enabled, Misdelivers, RefusedUser, LeavesAs;
    if actions != [] {
      StepKeepsInv(reading, s, actions[0]);
      StepDecidesRefusal(reading, s, actions[0], userId);
      RefusedWaitsForEver(reading, Next(reading, s, actions[0]), actions[1..], userId);
    }
  }

  // ---- when submissions are refused

  /** As long as the history limit stays the same, the window holds the most recent operations. */
  lemma {:induction false} WindowIsRecent(reading: Reading, s: System, actions: seq<Action>, limit: nat)
    requires Windowed(s.doc, s.initial, s.log) && s.Sound() && IsRun(reading, s, actions)
    requires forall k :: 0 <= k < |actions| ==> !actions[k].SetHistoryLimit?
    requires s.doc.historyLimit == limit && s.doc.oldestRevision == Max(0, |s.log| - limit)
    ensures var t := After(reading, s, actions);
            t.doc.historyLimit == limit && t.doc.oldestRevision == Max(0, |t.log| - limit)
    decreases |actions|
  {
    hide Windowed, Next, Enabled;
    if actions != [] {
      StepKeepsWindow(reading, s, actions[0]);
      StepKeepsRecent(reading, s, actions[0]);
      WindowIsRecent(reading, Next(reading, s, actions[0]), actions[1..], limit);
    }
  }

  lemma StepKeepsRecent(reading: Reading, s: System, a: Action)
    requires Windowed(s.doc, s.initial, s.log) && s.Sound() && Enabled(reading, s, a) && !a.SetHistoryLimit?
    requires s.doc.oldestRevision == Max(0, |s.log| - s.doc.historyLimit)
    ensures var t := Next(reading, s, a);
            t.doc.historyLimit == s.doc.historyLimit && t.doc.oldestRevision == Max(0, |t.log| - t.doc.historyLimit)
  {
    hide Windowed, EditLink, DeliverLink, FitsAll, RewriteAgainst;
    WindowBounds(s.doc, s.initial, s.log);
    if a.ServerTakes? {
      WindowRefinesLog(s.doc, s.initial, s.log, Submitted(s.links[a.i]));
    } else if a.TakeOrphan? {
      WindowRefinesLog(s.doc, s.initial, s.log, Decoded(s.orphans[a.k].userId, s.orphans[a.k].msg));
    }
  }

  /** A submission is refused exactly when more operations than the history limit have been logged since
      the revision it is stamped with. */
  lemma RefusedExactlyWhenTooFarBehind(reading: Reading, content: Text, limit: nat, actions: seq<Action>, i: nat)
    requires IsRun(reading, Start(content, limit), actions)
    requires forall k :: 0 <= k < |actions| ==> !actions[k].SetHistoryLimit?
    requires Enabled(reading, After(reading, Start(content, limit), actions), ServerTakes(i))
    ensures var s := After(reading, Start(content, limit), actions);
            Refuses(s, i) <==> |s.log| - s.links[i].up[0].revision > limit
  {
    WindowIsRecent(reading, Start(content, limit), actions, limit);
    var s := After(reading, Start(content, limit), actions);
    SubmittedRevision(s.links[i]);
  }

  lemma SubmittedRevision(l: Link)
    requires l.up != [] && |l.up[0].ops| == 1
    ensures Submitted(l).revision == l.up[0].revision
  {
  }
}
