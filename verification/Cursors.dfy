/** Cursors moved along by operations (client/src/cursor_translator.cpp, client/src/remote_cursors_model.cpp). */
module Cursors {
  import opened Operations
  import opened Transformation
  import opened Alignment
  import opened Rebase

  /** A position is unsigned wherever it is used. */
  predicate Stored(op: Operation) {
    op.IsNoop() || op.position >= 0
  }

  function Translate(pos: nat, op: Operation): nat
    requires Stored(op)
  {
    if op.IsNoop() then pos
    else if op.kind.Insert? then (if op.position <= pos then pos + |op.text| else pos)
    else if op.position + op.length <= pos then pos - op.length
    else if op.position >= pos then pos
    else op.position
  }

  lemma TranslateStaysInside(doc: Text, op: Operation, pos: nat)
    requires Valid(doc, op) && pos <= |doc|
    ensures Translate(pos, op) <= |Apply(doc, op)|
  {
    if !op.IsNoop() {
      ApplyInBounds(doc, op);
    }
  }

  function TranslateAll(doc: Text, ops: seq<Operation>, pos: nat): (r: nat)
    requires FitsAll(AnyBytes, doc, ops) && pos <= |doc|
    ensures r <= |ApplyAll(doc, ops)|
    decreases |ops|
  {
    if ops == [] then pos
    else
      TranslateStaysInside(doc, ops[0], pos);
      TranslateAll(Apply(doc, ops[0]), ops[1..], Translate(pos, ops[0]))
  }

  lemma TranslateKeepsOrder(op: Operation, p: nat, q: nat)
    requires p <= q && Stored(op)
    ensures Translate(p, op) <= Translate(q, op)
  {
  }

  /** Two cursors, or the two ends of a selection, never change places. */
  lemma {:induction false} SelectionStaysOrdered(doc: Text, ops: seq<Operation>, start: nat, end: nat)
    requires FitsAll(AnyBytes, doc, ops) && start <= end <= |doc|
    ensures TranslateAll(doc, ops, start) <= TranslateAll(doc, ops, end)
    decreases |ops|
  {
    hide Apply;
    if ops != [] {
      TranslateStaysInside(doc, ops[0], start);
      TranslateStaysInside(doc, ops[0], end);
      TranslateKeepsOrder(ops[0], start, end);
      SelectionStaysOrdered(
        Apply(doc, ops[0]), ops[1..], Translate(start, ops[0]), Translate(end, ops[0]));
    }
  }

  predicate Deletes(op: Operation, i: nat) {
    op.kind.Delete? && op.position <= i < op.position + op.length
  }

  /** Where an operation puts byte i: behind an insert in front of it, closer by a delete in front of it. */
  function Shifted(op: Operation, i: int): int {
    if op.IsNoop() || i < op.position then i
    else if op.kind.Insert? then i + |op.text|
    else i - op.length
  }

  /** Byte i survives the operations, followed from place to place. */
  predicate Survives(doc: Text, ops: seq<Operation>, i: nat)
    requires FitsAll(AnyBytes, doc, ops) && i < |doc|
    decreases |ops|
  {
    ops == []
    || (!Deletes(ops[0], i)
        && 0 <= Shifted(ops[0], i) < |Apply(doc, ops[0])|
        && Survives(Apply(doc, ops[0]), ops[1..], Shifted(ops[0], i)))
  }

  /** Where it is in the end. */
  function Place(doc: Text, ops: seq<Operation>, i: nat): nat
    requires FitsAll(AnyBytes, doc, ops) && i < |doc| && Survives(doc, ops, i)
    decreases |ops|
  {
    if ops == [] then i else Place(Apply(doc, ops[0]), ops[1..], Shifted(ops[0], i))
  }

  lemma TranslateFollowsByte(doc: Text, op: Operation, i: nat)
    requires Valid(doc, op) && i < |doc| && !Deletes(op, i)
    ensures Translate(i, op) == Shifted(op, i)
    ensures Translate(i, op) < |Apply(doc, op)| && Apply(doc, op)[Translate(i, op)] == doc[i]
  {
    hide Apply;
    if op.IsNoop() {
      ApplyNoop(doc, op);
    } else {
      ApplyInBounds(doc, op);
    }
  }

  /** A cursor whose following byte is never deleted still sits just before that byte. */
  lemma {:induction false} CursorStaysAnchored(doc: Text, ops: seq<Operation>, i: nat)
    requires FitsAll(AnyBytes, doc, ops) && i < |doc| && Survives(doc, ops, i)
    ensures TranslateAll(doc, ops, i) == Place(doc, ops, i) < |ApplyAll(doc, ops)|
    ensures ApplyAll(doc, ops)[TranslateAll(doc, ops, i)] == doc[i]
    decreases |ops|
  {
    hide Apply;
    if ops != [] {
      TranslateFollowsByte(doc, ops[0], i);
      CursorStaysAnchored(Apply(doc, ops[0]), ops[1..], Translate(i, ops[0]));
    }
  }

  /** A cursor at the end of the text stays at the end. */
  lemma {:induction false} CursorStaysAtEnd(doc: Text, ops: seq<Operation>)
    requires FitsAll(AnyBytes, doc, ops)
    ensures TranslateAll(doc, ops, |doc|) == |ApplyAll(doc, ops)|
    decreases |ops|
  {
    hide Apply;
    if ops != [] {
      EndStaysEnd(doc, ops[0]);
      CursorStaysAtEnd(Apply(doc, ops[0]), ops[1..]);
    }
  }

  lemma EndStaysEnd(doc: Text, op: Operation)
    requires Valid(doc, op)
    ensures Translate(|doc|, op) == |Apply(doc, op)|
  {
    hide Apply;
    if op.IsNoop() {
      ApplyNoop(doc, op);
    } else {
      ApplyInBounds(doc, op);
    }
  }

  /** A cursor whose following byte is deleted lands where the deleted range was. */
  lemma CursorFallsToStart(doc: Text, op: Operation, i: nat)
    requires Valid(doc, op) && i < |doc| && Deletes(op, i)
    ensures Translate(i, op) == op.position && Apply(doc, op) == doc[..op.position] + doc[op.position + op.length..]
  {
    hide Apply;
    ApplyInBounds(doc, op);
  }

  /** Cursors before different surviving bytes stay apart, in the same order. */
  lemma {:induction false} AnchorsStayApart(doc: Text, ops: seq<Operation>, i: nat, j: nat)
    requires FitsAll(AnyBytes, doc, ops) && i < j < |doc|
    requires Survives(doc, ops, i) && Survives(doc, ops, j)
    ensures TranslateAll(doc, ops, i) < TranslateAll(doc, ops, j)
    decreases |ops|
  {
    hide Apply;
    if ops != [] {
      TranslateFollowsByte(doc, ops[0], i);
      TranslateFollowsByte(doc, ops[0], j);
      AnchorsStayApart(Apply(doc, ops[0]), ops[1..], Translate(i, ops[0]), Translate(j, ops[0]));
    }
  }

  // ---- the model of the other users' cursors

  datatype RemoteCursor = RemoteCursor(
    userId: nat, position: nat, selectionStart: Option<nat>, selectionEnd: Option<nat>)

  predicate CursorInside(doc: Text, c: RemoteCursor) {
    && c.position <= |doc|
    && (c.selectionStart.Some? ==> c.selectionStart.value <= |doc|)
    && (c.selectionEnd.Some? ==> c.selectionEnd.value <= |doc|)
    && (c.selectionStart.Some? && c.selectionEnd.Some? ==> c.selectionStart.value <= c.selectionEnd.value)
  }

  function MovedEnd(end: Option<nat>, op: Operation): Option<nat>
    requires Stored(op)
  {
    if end.Some? then Some(Translate(end.value, op)) else None
  }

  function Moved(c: RemoteCursor, op: Operation): RemoteCursor
    requires Stored(op)
  {
    RemoteCursor(c.userId, Translate(c.position, op), MovedEnd(c.selectionStart, op), MovedEnd(c.selectionEnd, op))
  }

  /** A cursor after a whole sequence of operations. */
  function MovedAll(doc: Text, ops: seq<Operation>, c: RemoteCursor): RemoteCursor
    requires FitsAll(AnyBytes, doc, ops)
    decreases |ops|
  {
    if ops == [] then c else MovedAll(Apply(doc, ops[0]), ops[1..], Moved(c, ops[0]))
  }

  /** A place in the text and what has become of it: the same byte follows, if it survives, or the end does. */
  predicate SamePlace(doc: Text, ops: seq<Operation>, before: nat, after: nat)
    requires FitsAll(AnyBytes, doc, ops) && before <= |doc|
  {
    && (before == |doc| ==> after == |ApplyAll(doc, ops)|)
    && (before < |doc| && Survives(doc, ops, before) ==>
          && after == Place(doc, ops, before) < |ApplyAll(doc, ops)|
          && ApplyAll(doc, ops)[after] == doc[before])
  }

  predicate SameEnd(doc: Text, ops: seq<Operation>, before: Option<nat>, after: Option<nat>)
    requires FitsAll(AnyBytes, doc, ops) && (before.Some? ==> before.value <= |doc|)
  {
    match (before, after)
    case (None, None) => true
    case (Some(x), Some(y)) => SamePlace(doc, ops, x, y)
    case _ => false
  }

  /** A remote cursor keeps its user, its place in the text, and both ends of its selection, over any sequence of
      operations; what is inside a deleted range falls to the start of it, by `CursorFallsToStart`. */
  lemma RemoteCursorFollows(doc: Text, ops: seq<Operation>, c: RemoteCursor)
    requires FitsAll(AnyBytes, doc, ops) && CursorInside(doc, c)
    ensures var c' := MovedAll(doc, ops, c);
            && c'.userId == c.userId
            && SamePlace(doc, ops, c.position, c'.position)
            && SameEnd(doc, ops, c.selectionStart, c'.selectionStart)
            && SameEnd(doc, ops, c.selectionEnd, c'.selectionEnd)
  {
    hide Apply, FitsAll, Survives, Place, ApplyAll, TranslateAll, MovedAll, SamePlace;
    MovedAllCoordinates(doc, ops, c);
    TranslateKeepsPlace(doc, ops, c.position);
    if c.selectionStart.Some? {
      TranslateKeepsPlace(doc, ops, c.selectionStart.value);
    }
    if c.selectionEnd.Some? {
      TranslateKeepsPlace(doc, ops, c.selectionEnd.value);
    }
  }

  lemma TranslateKeepsPlace(doc: Text, ops: seq<Operation>, pos: nat)
    requires FitsAll(AnyBytes, doc, ops) && pos <= |doc|
    ensures SamePlace(doc, ops, pos, TranslateAll(doc, ops, pos))
  {
    hide Apply, FitsAll, Survives, Place, ApplyAll, TranslateAll;
    if pos == |doc| {
      CursorStaysAtEnd(doc, ops);
    } else if Survives(doc, ops, pos) {
      CursorStaysAnchored(doc, ops, pos);
    }
  }

  /** A cursor that is inside the document is moved coordinate by coordinate. */
  lemma {:induction false} MovedAllCoordinates(doc: Text, ops: seq<Operation>, c: RemoteCursor)
    requires FitsAll(AnyBytes, doc, ops) && CursorInside(doc, c)
    ensures var c' := MovedAll(doc, ops, c);
            && c'.userId == c.userId && c'.position == TranslateAll(doc, ops, c.position)
            && (c'.selectionStart.Some? <==> c.selectionStart.Some?)
            && (c'.selectionEnd.Some? <==> c.selectionEnd.Some?)
            && (c.selectionStart.Some? ==>
                  c'.selectionStart.value == TranslateAll(doc, ops, c.selectionStart.value))
            && (c.selectionEnd.Some? ==> c'.selectionEnd.value == TranslateAll(doc, ops, c.selectionEnd.value))
    decreases |ops|
  {
    hide Apply, Translate;
    if ops != [] {
      MovedStaysInside(doc, ops[0], c);
      MovedAllCoordinates(Apply(doc, ops[0]), ops[1..], Moved(c, ops[0]));
    }
  }

  /** A remote cursor with an ordered selection inside the document stays one. */
  lemma MovedStaysInside(doc: Text, op: Operation, c: RemoteCursor)
    requires Valid(doc, op) && CursorInside(doc, c)
    ensures CursorInside(Apply(doc, op), Moved(c, op))
  {
    hide Apply, Translate;
    TranslateStaysInside(doc, op, c.position);
    if c.selectionStart.Some? {
      TranslateStaysInside(doc, op, c.selectionStart.value);
    }
    if c.selectionEnd.Some? {
      TranslateStaysInside(doc, op, c.selectionEnd.value);
    }
    if c.selectionStart.Some? && c.selectionEnd.Some? {
      TranslateKeepsOrder(op, c.selectionStart.value, c.selectionEnd.value);
    }
  }

  /** The first entry of every other user counts. */
  function FromBroadcast(entries: seq<RemoteCursor>, localUserId: nat): map<nat, RemoteCursor> {
    if entries == [] then map[]
    else
      var c := entries[|entries| - 1];
      var earlier := FromBroadcast(entries[..|entries| - 1], localUserId);
      if c.userId == localUserId || c.userId in earlier then earlier else earlier[c.userId := c]
  }

  class RemoteCursorsModel {
    const localUserId: nat
    var cursors: map<nat, RemoteCursor>

    constructor (localUserId: nat)
      ensures this.localUserId == localUserId && cursors == map[]
    {
      this.localUserId := localUserId;
      cursors := map[];
    }

    method ApplyBroadcast(entries: seq<RemoteCursor>)
      modifies this
      ensures cursors == FromBroadcast(entries, localUserId)
    {
      var next := map[];
      for i := 0 to |entries|
        invariant next == FromBroadcast(entries[..i], localUserId)
      {
        var c := entries[i];
        assert entries[..i + 1][..i] == entries[..i];
        if c.userId == localUserId { continue; }
        if c.userId !in next {
          next := next[c.userId := c];
        }
      }
      assert entries[..|entries|] == entries;
      cursors := next;
    }

    method ApplyRemoteOperation(op: Operation)
      requires Stored(op)
      modifies this
      ensures cursors == map u | u in old(cursors) :: Moved(old(cursors)[u], op)
      ensures forall u :: u in cursors ==>
                && cursors[u].userId == old(cursors)[u].userId
                && cursors[u].position == Translate(old(cursors)[u].position, op)
    {
      if op.IsNoop() || cursors == map[] {
        return;
      }
      var todo := cursors.Keys;
      while todo != {}
        invariant todo <= cursors.Keys && cursors.Keys == old(cursors).Keys
        invariant forall u :: u in todo ==> cursors[u] == old(cursors)[u]
        invariant forall u :: u in cursors && u !in todo ==> cursors[u] == Moved(old(cursors)[u], op)
        decreases todo
      {
        var u :| u in todo;
        cursors := cursors[u := Moved(cursors[u], op)];
        todo := todo - {u};
      }
    }
  }

  /** Entry i is the first one of its user. */
  predicate FirstOfUser(entries: seq<RemoteCursor>, i: nat)
    requires i < |entries|
  {
    forall j :: 0 <= j < i ==> entries[j].userId != entries[i].userId
  }

  /** The model knows every user of the broadcast but the local one, and nobody else. */
  lemma {:induction false} BroadcastUsers(entries: seq<RemoteCursor>, localUserId: nat)
    ensures forall u :: u in FromBroadcast(entries, localUserId) <==>
              u != localUserId && exists i :: 0 <= i < |entries| && entries[i].userId == u
  {
    if entries != [] {
      var n := |entries| - 1;
      BroadcastUsers(entries[..n], localUserId);
      assert entries == entries[..n] + [entries[n]];
    }
  }

  /** Of several entries of one user the first one counts. */
  lemma {:induction false} BroadcastKeepsFirst(entries: seq<RemoteCursor>, localUserId: nat, i: nat)
    requires i < |entries| && FirstOfUser(entries, i) && entries[i].userId != localUserId
    ensures entries[i].userId in FromBroadcast(entries, localUserId)
    ensures FromBroadcast(entries, localUserId)[entries[i].userId] == entries[i]
    decreases |entries|
  {
    var n := |entries| - 1;
    BroadcastUsers(entries[..n], localUserId);
    if i < n {
      assert FirstOfUser(entries[..n], i);
      BroadcastKeepsFirst(entries[..n], localUserId, i);
    }
  }
}
