/** The editor widget joined to the network: what it sends may be sent, and what it is handed it can apply
    (client/src/editor_widget.cpp, client/src/ot_controller.cpp). */
module EndToEnd {
  import opened Operations
  import opened Transformation
  import opened Alignment
  import opened Rebase
  import opened Documents
  import opened Messages
  import opened Clients
  import opened Network
  import opened Invariant
  import opened Preservation
  import opened Refusal
  import opened Convergence
  import opened Utf8
  import opened Unicode
  import opened Editor

  lemma {:induction false} EditAllContent(c: ClientState, ops: seq<Operation>)
    requires c.Shape()
    ensures EditAll(c, ops).0.content == ApplyAll(c.content, ops)
    decreases |ops|
  {
    hide Apply;
    if ops != [] {
      EditOneContent(c, ops[0]);
      EditAllContent(EditOne(c, ops[0]).0, ops[1..]);
    }
  }

  lemma EditOneContent(c: ClientState, op: Operation)
    requires c.Shape()
    ensures EditOne(c, op).0.content == Apply(c.content, op)
  {
  }

  /** Whatever a user types or deletes between characters is an edit the network allows, and it brings the
      client's document to the UTF-8 form of what the user now sees. */
  lemma TypingIsAnEdit(
      s: System, i: nat, before: Units, after: Units, position: nat, charsRemoved: nat, charsAdded: nat)
    requires s.Sound() && i < |s.links| && HonestChange(before, after, position, charsRemoved, charsAdded)
    requires s.links[i].client.content == ToUtf8(before)
    ensures var c := s.links[i].client;
            var a := Edit(i, ChangeOps(before, after, position, charsRemoved, charsAdded, c.userId, c.revision));
            && Enabled(Utf8Text, s, a)
            && IsUtf16(after) && Next(Utf8Text, s, a).links[i].client.content == ToUtf8(after)
  {
    hide FitsAll, ApplyAll, ToUtf8, ChangeOps, HonestChange, EditAll;
    var c := s.links[i].client;
    var ops := ChangeOps(before, after, position, charsRemoved, charsAdded, c.userId, c.revision);
    ChangeOpsMirrorText(before, after, position, charsRemoved, charsAdded, c.userId, c.revision);
    EditAllContent(c, ops);
  }

  /** The operation a broadcast hands on to the editor fits the document it is applied to, between
      characters, so the widget's text stays the UTF-16 form of the client's document. */
  lemma BroadcastReachesEditor(initial: Text, log: seq<Operation>, l: Link)
    requires LogInv(Utf8Text, initial, log) && LinkInv(Utf8Text, initial, log, l)
    requires l.down != [] && l.down[0].Broadcast?
    ensures var (c, handed) := Receive(l.client, l.down[0].userId, l.down[0].revision, l.down[0].ops);
            && |handed| == 1 && Fits(Utf8Text, l.client.content, handed[0])
            && c.content == Apply(l.client.content, handed[0])
  {
    hide Fits, Apply, ApplyAll, FitsAll, ContentAt, LogInv, InStep, RebaseLocal;
    var c := l.client;
    var r := c.revision;
    HeadOfDown(log, r, c.userId, l.down);
    var remote := FromEntry(l.down[0].ops[0], l.down[0].userId, r + 1);
    DecodedFits(Utf8Text, initial, log, r, remote);
    ListDiamond(Utf8Text, ContentAt(initial, log, r), c.Unacked(), remote);
    ReceiveSingle(c, l.down[0].userId, r + 1, l.down[0].ops);
    HandedOn(c, l.down[0].userId, r + 1, l.down[0].ops);
  }

  lemma HandedOn(c: ClientState, userId: nat, revision: nat, ops: seq<OpEntry>)
    requires c.Shape() && |ops| == 1 && userId != c.userId
    ensures Receive(c, userId, revision, ops).1 == [ReceiveOne(c, FromEntry(ops[0], userId, revision)).1]
  {
    hide ReceiveOne;
    var c1 := ReceiveOne(c, FromEntry(ops[0], userId, revision)).0;
    assert ops[1..] == [];
    assert ReceiveAll(c1, userId, revision, ops[1..]).1 == [];
  }

  // ---- whole runs with an editor widget at every client

  /** The network, and the text each client's widget shows. */
  datatype Room = Room(net: System, texts: seq<Units>)
  {
    predicate Sound() {
      net.Sound() && |texts| == |net.links|
    }
  }

  /** Somebody types, or the network takes a step. */
  datatype Deed =
    | Type(i: nat, after: Units, position: nat, charsRemoved: nat, charsAdded: nat)
    | Step(a: Action)

  function Opened(content: Text, limit: nat): Room {
    Room(Start(content, limit), [])
  }

  predicate Possible(room: Room, deed: Deed) {
    match deed
    case Type(i, after, position, charsRemoved, charsAdded) =>
      i < |room.texts| && HonestChange(room.texts[i], after, position, charsRemoved, charsAdded)
    case Step(a) => !a.Edit? && Enabled(Utf8Text, room.net, a)
  }

  /** What the client hands on to its widget when it receives its next message. */
  function HandedOver(l: Link): seq<Operation>
    requires l.client.Shape() && l.down != []
  {
    match l.down[0]
    case Broadcast(userId, revision, ops) => Receive(l.client, userId, revision, ops).1
    case _ => []
  }

  predicate CanFollow(units: Units, op: Operation) {
    IsUtf16(units) && Fits(Utf8Text, ToUtf8(units), op)
  }

  function FollowedAll(units: Units, ops: seq<Operation>): Units
    decreases |ops|
  {
    if ops == [] then units
    else FollowedAll(if CanFollow(units, ops[0]) then Followed(units, ops[0]) else units, ops[1..])
  }

  /** What every widget shows after a step of the network. */
  function Shown(room: Room, a: Action): (texts: seq<Units>)
    requires room.Sound() && Enabled(Utf8Text, room.net, a)
    ensures |texts| == |Next(Utf8Text, room.net, a).links|
  {
    match a
    case Deliver(i) => room.texts[i := FollowedAll(room.texts[i], HandedOver(room.net.links[i]))]
    case Join(_) => room.texts + [if IsUtf8(room.net.doc.content) then FromUtf8(room.net.doc.content) else []]
    case Leave(i) => room.texts[..i] + room.texts[i + 1..]
    case _ => room.texts
  }

  function Then(room: Room, deed: Deed): (r: Room)
    requires room.Sound() && Possible(room, deed)
    ensures r.Sound()
  {
    match deed
    case Type(i, after, position, charsRemoved, charsAdded) =>
      var l := room.net.links[i];
      var ops := ChangeOps(
        room.texts[i], after, position, charsRemoved, charsAdded, l.client.userId, l.client.revision);
      Room(room.net.(links := room.net.links[i := EditLink(l, ops)]), room.texts[i := after])
    case Step(a) => Room(Next(Utf8Text, room.net, a), Shown(room, a))
  }

  predicate AreDeeds(room: Room, deeds: seq<Deed>)
    requires room.Sound()
    decreases |deeds|
  {
    deeds == []
    || (&& Possible(room, deeds[0]) && !(deeds[0].Step? && Misdelivers(room.net, deeds[0].a))
        && AreDeeds(Then(room, deeds[0]), deeds[1..]))
  }

  function AfterAll(room: Room, deeds: seq<Deed>): (r: Room)
    requires room.Sound() && AreDeeds(room, deeds)
    ensures r.Sound()
    decreases |deeds|
  {
    if deeds == [] then room else AfterAll(Then(room, deeds[0]), deeds[1..])
  }

  /** The widget shows the client's document. */
  predicate Shows(units: Units, content: Text) {
    IsUtf16(units) && ToUtf8(units) == content
  }

  predicate RoomInv(room: Room) {
    && room.Sound() && Inv(Utf8Text, room.net)
    && forall i :: 0 <= i < |room.texts| ==> Shows(room.texts[i], room.net.links[i].client.content)
  }

  lemma TypeKept(room: Room, deed: Deed)
    requires RoomInv(room) && Possible(room, deed) && deed.Type?
    ensures RoomInv(Then(room, deed))
  {
    hide Inv, HonestChange, EditLink, ChangeOps, ToUtf8, IsUtf16;
    var (i, l) := (deed.i, room.net.links[deed.i]);
    var ops := ChangeOps(room.texts[i], deed.after, deed.position, deed.charsRemoved, deed.charsAdded,
                         l.client.userId, l.client.revision);
    TypingIsAnEdit(room.net, i, room.texts[i], deed.after, deed.position, deed.charsRemoved, deed.charsAdded);
    StepKeepsInv(Utf8Text, room.net, Edit(i, ops));
    assert Then(room, deed).net == Next(Utf8Text, room.net, Edit(i, ops));
  }

  /** A message makes the widget follow its client. */
  lemma DeliverShows(initial: Text, log: seq<Operation>, l: Link, units: Units)
    requires LogInv(Utf8Text, initial, log) && LinkInv(Utf8Text, initial, log, l) && l.client.Shape()
    requires l.down != [] && Shows(units, l.client.content)
    ensures Shows(FollowedAll(units, HandedOver(l)), DeliverLink(l).client.content)
  {
    hide LinkInv, LogInv, IsUtf16, ToUtf8, Followed, Fits, Receive, Apply;
    match l.down[0]
    case Broadcast(userId, revision, ops) =>
      BroadcastReachesEditor(initial, log, l);
      var handed := HandedOver(l);
      FollowedMirrors(units, handed[0]);
      assert handed[1..] == [];
      assert FollowedAll(units, handed) == FollowedAll(Followed(units, handed[0]), []);
    case _ =>
  }

  lemma StepKept(room: Room, a: Action)
    requires RoomInv(room) && Possible(room, Step(a)) && !Misdelivers(room.net, a)
    ensures RoomInv(Then(room, Step(a)))
  {
    hide Inv, LinkInv, OrphanInv, LogInv, Windowed, Shows, Next, FollowedAll, DeliverLink, IsUtf8, FromUtf8;
    InvIsSound(Utf8Text, room.net);
    StepKeepsInv(Utf8Text, room.net, a);
    var (net, t) := (room.net, Next(Utf8Text, room.net, a));
    var texts := Shown(room, a);
    forall i | 0 <= i < |t.links|
      ensures Shows(texts[i], t.links[i].client.content)
    {
      if a.Deliver? {
        DeliveredContents(net, a.i, i);
        if i == a.i {
          DeliverShows(net.initial, net.log, net.links[i], room.texts[i]);
        }
      } else if a.Join? {
        JoinedContents(net, a.userId, i);
        if i == |net.links| {
          NewcomerShows(net);
        }
      } else if a.Leave? {
        LeftContents(net, a.i, i);
      } else {
        OtherContents(net, a, i);
      }
    }
  }

  lemma DeliveredContents(s: System, k: nat, i: nat)
    requires s.Sound() && Enabled(Utf8Text, s, Deliver(k)) && i < |s.links|
    ensures var t := Next(Utf8Text, s, Deliver(k));
            |t.links| == |s.links| && t.links[i] == if i == k then DeliverLink(s.links[k]) else s.links[i]
  {
    hide DeliverLink;
  }

  lemma JoinedContents(s: System, userId: nat, i: nat)
    requires s.Sound() && Enabled(Utf8Text, s, Join(userId)) && i <= |s.links|
    ensures var t := Next(Utf8Text, s, Join(userId));
            && |t.links| == |s.links| + 1
            && t.links[i].client.content == if i < |s.links| then s.links[i].client.content else s.doc.content
  {
  }

  lemma LeftContents(s: System, k: nat, i: nat)
    requires s.Sound() && Enabled(Utf8Text, s, Leave(k)) && i < |s.links| - 1
    ensures var t := Next(Utf8Text, s, Leave(k));
            && |t.links| == |s.links| - 1
            && t.links[i].client.content == s.links[if i < k then i else i + 1].client.content
  {
  }

  lemma OtherContents(s: System, a: Action, i: nat)
    requires s.Sound() && Enabled(Utf8Text, s, a) && i < |s.links|
    requires a.ServerTakes? || a.TakeOrphan? || a.DropOrphan? || a.SetHistoryLimit?
    ensures var t := Next(Utf8Text, s, a);
            |t.links| == |s.links| && t.links[i].client == s.links[i].client
  {
    hide Serve, MessageFor;
  }

  lemma NewcomerShows(s: System)
    requires Inv(Utf8Text, s)
    ensures IsUtf8(s.doc.content) && Shows(FromUtf8(s.doc.content), s.doc.content)
  {
    hide Inv, IsUtf8, FromUtf8, IsUtf16, ToUtf8, LogInv;
    InvIsSound(Utf8Text, s);
    LogIsUtf8(s.initial, s.log);
    WindowBounds(s.doc, s.initial, s.log);
    FromUtf8RoundTrip(s.doc.content);
  }

  lemma {:induction false} DeedsKept(room: Room, deeds: seq<Deed>)
    requires RoomInv(room) && AreDeeds(room, deeds)
    ensures RoomInv(AfterAll(room, deeds))
    decreases |deeds|
  {
    hide RoomInv, Then, Possible, Misdelivers;
    if deeds != [] {
      if deeds[0].Type? {
        TypeKept(room, deeds[0]);
      } else {
        StepKept(room, deeds[0].a);
      }
      RoomIsSound(room);
      DeedsKept(Then(room, deeds[0]), deeds[1..]);
    }
  }

  lemma RoomIsSound(room: Room)
    requires RoomInv(room)
    ensures room.Sound()
  {
  }

  lemma ShownIsDecoded(units: Units, content: Text)
    requires Shows(units, content)
    ensures IsUtf8(content) && units == FromUtf8(content)
  {
    hide IsUtf16, ToUtf8, IsUtf8, FromUtf8;
    ToUtf8RoundTrip(units);
  }

  /** End to end: whatever the users type, in whatever order the network works, every widget shows the UTF-16
      form of its client's document; and when nothing is under way, everyone whose submissions were not
      refused sees the server's document, so all of them see one text. */
  lemma EveryoneSeesOneText(content: Text, limit: nat, deeds: seq<Deed>)
    requires IsUtf8(content) && AreDeeds(Opened(content, limit), deeds)
    ensures var room := AfterAll(Opened(content, limit), deeds);
            && (forall i :: 0 <= i < |room.texts| ==>
                  && IsUtf8(room.net.links[i].client.content)
                  && room.texts[i] == FromUtf8(room.net.links[i].client.content))
            && (Silent(room.net) ==>
                  && IsUtf8(room.net.doc.content)
                  && forall i :: 0 <= i < |room.texts| && !Refused(room.net, i) ==>
                       room.texts[i] == FromUtf8(room.net.doc.content))
  {
    hide Inv, LinkInv, Silent, Refused, Shows, IsUtf8, FromUtf8, Next, Then;
    StartEncoded(content, limit);
    DeedsKept(Opened(content, limit), deeds);
    var room := AfterAll(Opened(content, limit), deeds);
    NewcomerShows(room.net);
    forall i | 0 <= i < |room.texts|
      ensures IsUtf8(room.net.links[i].client.content)
      ensures room.texts[i] == FromUtf8(room.net.links[i].client.content)
      ensures Silent(room.net) && !Refused(room.net, i) ==>
                room.net.links[i].client.content == room.net.doc.content
    {
      ShownIsDecoded(room.texts[i], room.net.links[i].client.content);
      if Silent(room.net) {
        SilentAgrees(Utf8Text, room.net, i);
      }
    }
  }
}
