/** The two ways in which a client fails to converge, each with the runs that lead to it: a refusal, with every
    history limit (core/src/document.cpp), and an acknowledgement that reaches a later connection of its user
    (server/src/main.cpp, server/src/document_session.cpp). */
module Scenarios {
  import opened Operations
  import opened Transformation
  import opened Alignment
  import opened Rebase
  import opened Documents
  import opened Messages
  import opened Clients
  import opened Network
  import opened Invariant
  import opened Preservation
  import opened Refusal

  lemma NoActions(s: System)
    requires s.Sound()
    ensures IsRun(AnyBytes, s, []) && NeverMisdelivers(AnyBytes, s, []) && After(AnyBytes, s, []) == s
  {
  }

  lemma FirstAction(s: System, a: Action, rest: seq<Action>)
    requires s.Sound() && Enabled(AnyBytes, s, a)
    ensures IsRun(AnyBytes, s, [a] + rest) <==> IsRun(AnyBytes, Next(AnyBytes, s, a), rest)
    ensures IsRun(AnyBytes, s, [a] + rest) ==>
              && After(AnyBytes, s, [a] + rest) == After(AnyBytes, Next(AnyBytes, s, a), rest)
              && (NeverMisdelivers(AnyBytes, s, [a] + rest)
                  <==> !Misdelivers(s, a) && NeverMisdelivers(AnyBytes, Next(AnyBytes, s, a), rest))
  {
    hide Next, Enabled, Misdelivers;
    assert ([a] + rest)[1..] == rest;
  }

  // ---- a refusal

  function Typed(userId: nat, b: byte): Operation {
    MakeInsert(0, [b], userId, 0)
  }

  /** Two users; n operations are logged, and what user 2 typed before all of them is still on its way. */
  predicate Lagging(s: System, limit: nat, n: nat) {
    && Inv(AnyBytes, s) && s.Sound() && |s.links| == 2
    && s.links[0].client.userId == 2 && s.links[1].client.userId == 1
    && |s.links[0].up| == 1 && |s.links[0].up[0].ops| == 1 && s.links[0].up[0].revision == 0
    && |s.log| == n && s.doc.historyLimit == limit && s.doc.oldestRevision == Max(0, n - limit)
  }

  predicate UpToDate(l: Link, n: nat) {
    l.client.userId == 1 && l.client.revision == n && l.client.phase.Synchronized? && l.up == [] && l.down == []
  }

  predicate Waiting(l: Link, n: nat) {
    && l.client.userId == 1 && l.client.revision == n && l.client.phase.AwaitingAck? && l.down == []
    && |l.up| == 1 && |l.up[0].ops| == 1 && l.up[0].revision == n
  }

  predicate Answered(l: Link, n: nat) {
    l.client.userId == 1 && l.client.phase.AwaitingAck? && l.up == [] && l.down == [Ack(n + 1)]
  }

  lemma TypedFits(doc: Text, userId: nat, b: byte)
    ensures FitsAll(AnyBytes, doc, [Typed(userId, b)])
  {
    hide Apply;
    var doc' := Apply(doc, Typed(userId, b));
    assert [Typed(userId, b)][1..] == [] && FitsAll(AnyBytes, doc', []);
  }

  lemma TypingIsSent(l: Link, userId: nat, b: byte)
    requires l.client.Shape() && l.client.phase.Synchronized? && l.client.userId == userId
    ensures var l' := EditLink(l, [Typed(userId, b)]);
            && l'.client.userId == userId && l'.client.revision == l.client.revision && l'.down == l.down
            && l'.client.phase.AwaitingAck?
            && l'.up == l.up + [Submission(Stamped(l.client, Typed(userId, b)), l.client.revision)]
            && l'.client.content == Apply(l.client.content, Typed(userId, b))
  {
    hide Apply;
    var (c1, sent) := EditOne(l.client, Typed(userId, b));
    StampedFits(AnyBytes, l.client, l.client.content, Typed(userId, b));
    assert [Typed(userId, b)][1..] == [] && EditAll(c1, []) == (c1, []) && sent + [] == sent;
  }

  lemma TypingLags(s: System, limit: nat, n: nat)
    requires Lagging(s, limit, n) && UpToDate(s.links[1], n)
    ensures var a := Edit(1, [Typed(1, 0)]);
            && Enabled(AnyBytes, s, a) && !Misdelivers(s, a)
            && Lagging(Next(AnyBytes, s, a), limit, n) && Waiting(Next(AnyBytes, s, a).links[1], n)
  {
    hide Inv, EditLink, FitsAll;
    TypedFits(s.links[1].client.content, 1, 0);
    TypingIsSent(s.links[1], 1, 0);
    StepKeepsInv(AnyBytes, s, Edit(1, [Typed(1, 0)]));
  }

  lemma TakingLags(s: System, limit: nat, n: nat)
    requires Lagging(s, limit, n) && Waiting(s.links[1], n)
    ensures var a := ServerTakes(1);
            && Enabled(AnyBytes, s, a) && !Misdelivers(s, a)
            && Lagging(Next(AnyBytes, s, a), limit, n + 1) && Answered(Next(AnyBytes, s, a).links[1], n)
  {
    hide Inv, Processed, Windowed, LinkInv, LogInv, OrphanInv;
    var a := ServerTakes(1);
    StepKeepsInv(AnyBytes, s, a);
    TakenLinks(AnyBytes, s, 1);
    InvIsSound(AnyBytes, s);
    StepKeepsRecent(AnyBytes, s, a);
  }

  lemma AnswerLags(s: System, limit: nat, n: nat)
    requires Lagging(s, limit, n + 1) && Answered(s.links[1], n)
    ensures var a := Deliver(1);
            && Enabled(AnyBytes, s, a) && !Misdelivers(s, a)
            && Lagging(Next(AnyBytes, s, a), limit, n + 1) && UpToDate(Next(AnyBytes, s, a).links[1], n + 1)
  {
    hide Inv;
    StepKeepsInv(AnyBytes, s, Deliver(1));
  }

  /** User 1 goes on typing until the window has moved past the revision user 2 has typed at. */
  lemma {:induction false} OvertakenIsRefused(s: System, limit: nat, n: nat) returns (actions: seq<Action>)
    requires Lagging(s, limit, n) && UpToDate(s.links[1], n) && n <= limit + 1
    ensures IsRun(AnyBytes, s, actions) && NeverMisdelivers(AnyBytes, s, actions)
    ensures RefusedUser(After(AnyBytes, s, actions), 2)
    decreases limit + 1 - n
  {
    hide Inv, Lagging, UpToDate, Waiting, Answered, RefusedUser, Next;
    if n == limit + 1 {
      LaggardIsRefused(s, limit);
      actions := [ServerTakes(0)] + [];
      NoActions(Next(AnyBytes, s, ServerTakes(0)));
      FirstAction(s, ServerTakes(0), []);
    } else {
      LagSounds(s, limit, n);
      TypingLags(s, limit, n);
      var s1 := Next(AnyBytes, s, Edit(1, [Typed(1, 0)]));
      TakingLags(s1, limit, n);
      var s2 := Next(AnyBytes, s1, ServerTakes(1));
      AnswerLags(s2, limit, n);
      var s3 := Next(AnyBytes, s2, Deliver(1));
      var rest := OvertakenIsRefused(s3, limit, n + 1);
      FirstAction(s2, Deliver(1), rest);
      FirstAction(s1, ServerTakes(1), [Deliver(1)] + rest);
      actions := [Edit(1, [Typed(1, 0)])] + ([ServerTakes(1)] + ([Deliver(1)] + rest));
      FirstAction(s, Edit(1, [Typed(1, 0)]), [ServerTakes(1)] + ([Deliver(1)] + rest));
    }
  }

  lemma LagSounds(s: System, limit: nat, n: nat)
    requires Lagging(s, limit, n)
    ensures s.Sound()
  {
    hide Inv;
  }

  lemma LaggardIsRefused(s: System, limit: nat)
    requires Lagging(s, limit, limit + 1)
    ensures var a := ServerTakes(0);
            && s.Sound() && Enabled(AnyBytes, s, a) && !Misdelivers(s, a)
            && RefusedUser(Next(AnyBytes, s, a), 2)
  {
    hide Inv, RefusedUser, Taken;
    StepDecidesRefusal(AnyBytes, s, ServerTakes(0), 2);
  }

  lemma BothJoined(content: Text, limit: nat)
    ensures var s0 := Start(content, limit);
            Enabled(AnyBytes, s0, Join(2)) && Enabled(AnyBytes, Next(AnyBytes, s0, Join(2)), Join(1))
    ensures var s2 := Next(AnyBytes, Next(AnyBytes, Start(content, limit), Join(2)), Join(1));
            && Inv(AnyBytes, s2) && |s2.links| == 2 && s2.links[0].client.userId == 2 && UpToDate(s2.links[1], 0)
            && s2.links[0].client.phase.Synchronized? && s2.links[0].up == [] && s2.links[0].client.revision == 0
            && s2.log == [] && s2.doc == Start(content, limit).doc
  {
    hide Inv;
    var s0 := Start(content, limit);
    StartIsInv(AnyBytes, content, limit);
    StepKeepsInv(AnyBytes, s0, Join(2));
    var s1 := Next(AnyBytes, s0, Join(2));
    StepKeepsInv(AnyBytes, s1, Join(1));
  }

  lemma LagBegins(s: System, limit: nat)
    requires Inv(AnyBytes, s) && s.Sound() && |s.links| == 2 && s.links[0].client.userId == 2
    requires UpToDate(s.links[1], 0) && s.links[0].client.phase.Synchronized? && s.links[0].up == []
    requires s.links[0].client.revision == 0 && s.log == [] && s.doc.historyLimit == limit && s.doc.oldestRevision == 0
    ensures var a := Edit(0, [Typed(2, 0)]);
            && Enabled(AnyBytes, s, a) && !Misdelivers(s, a)
            && Lagging(Next(AnyBytes, s, a), limit, 0) && UpToDate(Next(AnyBytes, s, a).links[1], 0)
  {
    hide Inv, EditLink, FitsAll;
    TypedFits(s.links[0].client.content, 2, 0);
    TypingIsSent(s.links[0], 2, 0);
    StepKeepsInv(AnyBytes, s, Edit(0, [Typed(2, 0)]));
  }

  /** With every history limit and from every text there is a run that leaves a client waiting for ever. */
  lemma RefusalHappens(content: Text, limit: nat) returns (actions: seq<Action>)
    ensures IsRun(AnyBytes, Start(content, limit), actions)
    ensures NeverMisdelivers(AnyBytes, Start(content, limit), actions)
    ensures RefusedUser(After(AnyBytes, Start(content, limit), actions), 2)
  {
    hide Inv, RefusedUser, Next, UpToDate, Lagging;
    var s0 := Start(content, limit);
    BothJoined(content, limit);
    var s1 := Next(AnyBytes, s0, Join(2));
    var s2 := Next(AnyBytes, s1, Join(1));
    LagBegins(s2, limit);
    var typed := Edit(0, [Typed(2, 0)]);
    var rest := OvertakenIsRefused(Next(AnyBytes, s2, typed), limit, 0);
    FirstAction(s2, typed, rest);
    FirstAction(s1, Join(1), [typed] + rest);
    actions := [Join(2)] + ([Join(1)] + ([typed] + rest));
    FirstAction(s0, Join(2), [Join(1)] + ([typed] + rest));
  }

  // ---- an acknowledgement for somebody else

  function OneCharacter(b: byte): ClientMsg {
    Submit(0, [InsertEntry(0, [b])])
  }

  /** A user joins, types a character, and leaves before the server has taken it. */
  lemma TypedAndLeft(content: Text, limit: nat, b: byte) returns (s3: System)
    ensures var (s0, typed) := (Start(content, limit), Edit(0, [Typed(1, b)]));
            && Enabled(AnyBytes, s0, Join(1))
            && var s1 := Next(AnyBytes, s0, Join(1));
               && Enabled(AnyBytes, s1, typed)
               && var s2 := Next(AnyBytes, s1, typed);
                  Enabled(AnyBytes, s2, Leave(0)) && s3 == Next(AnyBytes, s2, Leave(0))
    ensures s3 == Start(content, limit).(orphans := [Orphan(1, OneCharacter(b))])
  {
    hide Apply, FitsAll, EditLink;
    var s0 := Start(content, limit);
    var s1 := Next(AnyBytes, s0, Join(1));
    TypedFits(content, 1, b);
    TypingIsSent(s1.links[0], 1, b);
    var s2 := Next(AnyBytes, s1, Edit(0, [Typed(1, b)]));
    assert s2.links[0].up == [OneCharacter(b)];
    s3 := Next(AnyBytes, s2, Leave(0));
    assert s3.orphans == [Orphan(1, OneCharacter(b))] && s3.links == [];
  }

  lemma OneCharacterServed(content: Text, limit: nat, b: byte)
    ensures var (doc, result) := Serve(Start(content, limit).doc, Decoded(1, OneCharacter(b)));
            result == Accepted(Typed(1, b)) && doc.content == [b] + content && doc.revision == 1
  {
    hide Trimmed;
    var d := Start(content, limit).doc;
    assert RewriteAgainst(Typed(1, b), []) == Typed(1, b);
    assert Apply(content, Typed(1, b)) == [b] + content;
    var op := Typed(1, b);
    TrimKeepsContent(d.(content := Apply(content, op), history := d.history + [op], revision := d.revision + 1));
  }

  lemma TrimKeepsContent(d: DocState)
    ensures Trimmed(d).content == d.content && Trimmed(d).revision == d.revision
  {
  }

  /** The user joins again, the server takes the character, and the acknowledgement arrives. */
  lemma RejoinedAndTaken(content: Text, limit: nat, b: byte, s3: System) returns (s6: System)
    requires s3 == Start(content, limit).(orphans := [Orphan(1, OneCharacter(b))])
    ensures Enabled(AnyBytes, s3, Join(1))
    ensures var s4 := Next(AnyBytes, s3, Join(1));
            && Enabled(AnyBytes, s4, TakeOrphan(0))
            && var s5 := Next(AnyBytes, s4, TakeOrphan(0));
               Enabled(AnyBytes, s5, Deliver(0)) && s6 == Next(AnyBytes, s5, Deliver(0))
    ensures |s6.links| == 1 && s6.links[0].up == [] && s6.links[0].down == [] && s6.orphans == []
    ensures s6.links[0].client == ClientState(1, Synchronized, None, [], 1, content)
    ensures s6.doc.content == [b] + content && s6.doc.revision == 1
  {
    hide Serve;
    OneCharacterServed(content, limit, b);
    var s4 := Next(AnyBytes, s3, Join(1));
    assert s4.links == [Link(ClientState(1, Synchronized, None, [], 0, content), [], [])];
    var s5 := Next(AnyBytes, s4, TakeOrphan(0));
    assert |s5.links| == 1 && s5.links[0] == Told(s4.links[0], Ack(1));
    s6 := Next(AnyBytes, s5, Deliver(0));
  }

  /** The finding: a user types a character, loses the connection, and joins again before the server has taken
      the character. The character is logged, but the new client only hears that an operation of its own has
      arrived: with nothing left under way it is synchronized at the server's revision, without the character. */
  lemma RejoiningMissesOwnEdit(content: Text, limit: nat, b: byte) returns (actions: seq<Action>)
    ensures IsRun(AnyBytes, Start(content, limit), actions)
    ensures var s := After(AnyBytes, Start(content, limit), actions);
            && |s.links| == 1 && s.links[0].up == [] && s.links[0].down == [] && s.orphans == []
            && s.links[0].client == ClientState(1, Synchronized, None, [], s.doc.revision, content)
            && s.doc.content == [b] + content
  {
    hide Next, Enabled, Misdelivers;
    var (s0, typed) := (Start(content, limit), Edit(0, [Typed(1, b)]));
    var s3 := TypedAndLeft(content, limit, b);
    var s6 := RejoinedAndTaken(content, limit, b, s3);
    var s1 := Next(AnyBytes, s0, Join(1));
    var s4 := Next(AnyBytes, s3, Join(1));
    var s5 := Next(AnyBytes, s4, TakeOrphan(0));
    NoActions(s6);
    FirstAction(s5, Deliver(0), []);
    FirstAction(s4, TakeOrphan(0), [Deliver(0)] + []);
    var rest := [Join(1)] + ([TakeOrphan(0)] + ([Deliver(0)] + []));
    FirstAction(s3, Join(1), [TakeOrphan(0)] + ([Deliver(0)] + []));
    FirstAction(Next(AnyBytes, s1, typed), Leave(0), rest);
    FirstAction(s1, typed, [Leave(0)] + rest);
    actions := [Join(1)] + ([typed] + ([Leave(0)] + rest));
    FirstAction(s0, Join(1), [typed] + ([Leave(0)] + rest));
  }
}
