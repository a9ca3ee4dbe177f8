/** The editor widget's copy of the text, in UTF-16, and the document's copy, in UTF-8, say the same
    (client/src/editor_widget.cpp). */
module Editor {
  import opened Operations
  import opened Transformation
  import opened Utf8
  import opened Alignment
  import opened Rebase
  import opened Unicode

  /** The widget reports the change it made: it replaced the units from position on, between characters. */
  predicate HonestChange(before: Units, after: Units, position: nat, charsRemoved: nat, charsAdded: nat) {
    && position + charsRemoved <= |before| && position + charsAdded <= |after|
    && IsUtf16(before) && UnitBoundary(before, position) && UnitBoundary(before, position + charsRemoved)
    && IsUtf16(after[position..position + charsAdded])
    && after == before[..position] + after[position..position + charsAdded] + before[position + charsRemoved..]
  }

  /** The operations onContentsChange sends out: a delete if something went, then an insert if something came. */
  function ChangeOps(
      before: Units, after: Units, position: nat, charsRemoved: nat, charsAdded: nat, userId: nat, revision: nat)
    : seq<Operation>
    requires HonestChange(before, after, position, charsRemoved, charsAdded)
  {
    var at := Utf16ToUtf8Offset(before, position);
    UnitsBetween(before, position, position + charsRemoved);
    var removed := ToUtf8(before[position..position + charsRemoved]);
    var added := ToUtf8(after[position..position + charsAdded]);
    (if charsRemoved > 0 then [MakeDelete(at, |removed|, removed, userId, revision)] else [])
    + (if charsAdded > 0 then [MakeInsert(at, added, userId, revision)] else [])
  }

  /** The operations touch what the user changed and nothing else: they all lie where the change began, delete
      exactly the bytes that went, if any did, and insert exactly those that came, if any did. */
  predicate OnlyTheChange(
      ops: seq<Operation>, before: Units, after: Units, position: nat, charsRemoved: nat, charsAdded: nat)
    requires HonestChange(before, after, position, charsRemoved, charsAdded)
  {
    UnitsBetween(before, position, position + charsRemoved);
    var removed := ToUtf8(before[position..position + charsRemoved]);
    var added := ToUtf8(after[position..position + charsAdded]);
    && (forall i :: 0 <= i < |ops| ==> ops[i].position == |ToUtf8(before[..position])|)
    && |ops| == (if charsRemoved == 0 then 0 else 1) + (if charsAdded == 0 then 0 else 1)
    && (charsRemoved > 0 ==> ops[0].kind.Delete? && ops[0].length == |removed| && ops[0].text == removed)
    && (charsAdded > 0 ==>
          var ins := ops[|ops| - 1];
          ins.kind.Insert? && ins.text == added && ins.length == |added|)
  }

  lemma ChangeOpsAreLocal(
      before: Units, after: Units, position: nat, charsRemoved: nat, charsAdded: nat, userId: nat, revision: nat)
    requires HonestChange(before, after, position, charsRemoved, charsAdded)
    ensures var ops := ChangeOps(before, after, position, charsRemoved, charsAdded, userId, revision);
            && OnlyTheChange(ops, before, after, position, charsRemoved, charsAdded)
            && forall i :: 0 <= i < |ops| ==> ops[i].userId == userId && ops[i].revision == revision
  {
    hide IsUtf16, ToUtf8, Utf16ToUtf8Offset;
    PartsOfChange(before, after, position, charsRemoved, charsAdded);
  }

  lemma RemoveBytes(a: Text, removed: Text, b: Text, del: Operation)
    requires IsUtf8(a) && IsUtf8(removed) && IsUtf8(b)
    requires del.kind.Delete? && del.position == |a| && del.length == |removed|
    ensures Fits(Utf8Text, a + removed + b, del) && Apply(a + removed + b, del) == a + b
  {
    hide IsUtf8;
    var doc := a + removed + b;
    assert doc[..|a|] == a && doc[|a|..] == removed + b;
    assert doc[..|a| + |removed|] == a + removed && doc[|a| + |removed|..] == b;
    Concat(removed, b);
    Concat(a, removed);
    if del.length == 0 {
      assert removed == [] && doc == a + b;
    }
  }

  lemma PutBytes(a: Text, added: Text, b: Text, ins: Operation)
    requires IsUtf8(a) && IsUtf8(b) && IsUtf8(added)
    requires ins.kind.Insert? && ins.position == |a| && ins.text == added && ins.length == |added|
    ensures Fits(Utf8Text, a + b, ins) && Apply(a + b, ins) == a + added + b
  {
    hide IsUtf8;
    assert (a + b)[..|a|] == a && (a + b)[|a|..] == b;
    if ins.IsNoop() {
      assert a + added + b == a + b;
    }
  }

  lemma PartsOfChange(before: Units, after: Units, position: nat, charsRemoved: nat, charsAdded: nat)
    requires HonestChange(before, after, position, charsRemoved, charsAdded)
    ensures IsUtf16(before[position..position + charsRemoved]) && IsUtf16(after)
    ensures Utf16ToUtf8Offset(before, position) == |ToUtf8(before[..position])|
    ensures ToUtf8(before)
            == ToUtf8(before[..position]) + ToUtf8(before[position..position + charsRemoved])
               + ToUtf8(before[position + charsRemoved..])
    ensures ToUtf8(after)
            == ToUtf8(before[..position]) + ToUtf8(after[position..position + charsAdded])
               + ToUtf8(before[position + charsRemoved..])
  {
    hide IsUtf16, ToUtf8, Utf16ToUtf8Offset;
    var end := position + charsRemoved;
    var added := after[position..position + charsAdded];
    UnitPrefix(before, position);
    UnitsBetween(before, position, end);
    assert before == before[..end] + before[end..];
    ToUtf8Concat(before[..end], before[end..]);
    ToUtf8Concat(before[..position], added);
    ToUtf8Concat(before[..position] + added, before[end..]);
  }

  /** The operations sent out fit the document, between characters, and turn the UTF-8 form of the old text
      into that of the new text. */
  lemma ChangeOpsMirrorText(
      before: Units, after: Units, position: nat, charsRemoved: nat, charsAdded: nat, userId: nat, revision: nat)
    requires HonestChange(before, after, position, charsRemoved, charsAdded)
    ensures var ops := ChangeOps(before, after, position, charsRemoved, charsAdded, userId, revision);
            && FitsAll(Utf8Text, ToUtf8(before), ops)
            && IsUtf16(after) && ApplyAll(ToUtf8(before), ops) == ToUtf8(after)
  {
    hide IsUtf16, IsUtf8, ToUtf8, Utf16ToUtf8Offset, Fits, Apply, FitsAll, ApplyAll;
    var end := position + charsRemoved;
    PartsOfChange(before, after, position, charsRemoved, charsAdded);
    var (l, m, r) := (before[..position], before[position..end], before[end..]);
    var added := after[position..position + charsAdded];
    var at := Utf16ToUtf8Offset(before, position);
    ToUtf8RoundTrip(l);
    ToUtf8RoundTrip(m);
    ToUtf8RoundTrip(r);
    ToUtf8RoundTrip(added);
    EmptyEncodes();
    assert (charsRemoved == 0 ==> m == []) && (charsAdded == 0 ==> added == []);
    var del := MakeDelete(at, |ToUtf8(m)|, ToUtf8(m), userId, revision);
    var ins := MakeInsert(at, ToUtf8(added), userId, revision);
    RemoveBytes(ToUtf8(l), ToUtf8(m), ToUtf8(r), del);
    PutBytes(ToUtf8(l), ToUtf8(added), ToUtf8(r), ins);
    NothingBetween(ToUtf8(l), ToUtf8(r));
    DeleteThenInsert(
      ToUtf8(before), ToUtf8(l) + ToUtf8(r), ToUtf8(after), del, ins, charsRemoved > 0, charsAdded > 0);
  }

  lemma NothingBetween(a: Text, b: Text)
    ensures a + [] + b == a + b
  {
  }

  /** A delete and an insert one after the other; either may be missing when it would change nothing. */
  lemma DeleteThenInsert(
      doc: Text, middle: Text, result: Text, del: Operation, ins: Operation, first: bool, second: bool)
    requires Fits(Utf8Text, doc, del) && Apply(doc, del) == middle
    requires Fits(Utf8Text, middle, ins) && Apply(middle, ins) == result
    requires (!first ==> doc == middle) && (!second ==> middle == result)
    ensures var ops := (if first then [del] else []) + (if second then [ins] else []);
            FitsAll(Utf8Text, doc, ops) && ApplyAll(doc, ops) == result
  {
    hide Fits, Apply, FitsAll, ApplyAll;
    FewOps(doc, del, ins);
    FewOps(middle, ins, del);
    PickOps(first, second, del, ins);
  }

  lemma PickOps(first: bool, second: bool, a: Operation, b: Operation)
    ensures (if first then [a] else []) + (if second then [b] else [])
            == if first then (if second then [a, b] else [a]) else if second then [b] else []
  {
  }

  lemma FewOps(doc: Text, a: Operation, b: Operation)
    ensures FitsAll(Utf8Text, doc, []) && ApplyAll(doc, []) == doc
    ensures FitsAll(Utf8Text, doc, [a]) <==> Fits(Utf8Text, doc, a)
    ensures ApplyAll(doc, [a]) == Apply(doc, a)
    ensures FitsAll(Utf8Text, doc, [a, b]) <==> Fits(Utf8Text, doc, a) && Fits(Utf8Text, Apply(doc, a), b)
    ensures ApplyAll(doc, [a, b]) == Apply(Apply(doc, a), b)
  {
    hide Fits, Apply;
    assert [a, b][1..] == [b];
    assert FitsAll(Utf8Text, Apply(doc, a), [b]) <==> Fits(Utf8Text, Apply(doc, a), b);
    assert ApplyAll(Apply(doc, a), [b]) == Apply(Apply(doc, a), b);
  }

  /** Where an aligned operation lies in the UTF-16 form of the document, and what it does to that form. */
  lemma RemoteOffsets(doc: Text, op: Operation)
    requires IsUtf8(doc) && Fits(Utf8Text, doc, op) && !op.IsNoop()
    ensures var (units, content) := (FromUtf8(doc), Apply(doc, op));
            && 0 <= op.position <= |doc| && Boundary(doc, op.position)
            && IsUtf8(content) && IsUtf16(FromUtf8(content)) && ToUtf8(FromUtf8(content)) == content
            && var at := Utf8ToUtf16Offset(doc, op.position);
            && at <= |units|
            && (op.kind.Insert? ==>
                  IsUtf8(op.text) && FromUtf8(content) == units[..at] + FromUtf8(op.text) + units[at..])
            && (op.kind.Delete? ==>
                  && op.position + op.length <= |doc| && Boundary(doc, op.position + op.length)
                  && var end := Utf8ToUtf16Offset(doc, op.position + op.length);
                  && at <= end <= |units|
                  && FromUtf8(content) == units[..at] + units[end..])
  {
    hide IsUtf8, IsUtf16, ToUtf8, FromUtf8, Apply, InsertAt, EraseAt, Boundary, UnitBoundary, Utf8ToUtf16Offset;
    hide Fits;
    RemoteBounds(doc, op);
    if op.kind.Insert? {
      InsertInUnits(doc, op.position, op.text);
    } else {
      EraseInUnits(doc, op.position, op.length);
    }
    FromUtf8RoundTrip(Apply(doc, op));
  }

  lemma RemoteBounds(doc: Text, op: Operation)
    requires IsUtf8(doc) && Fits(Utf8Text, doc, op) && !op.IsNoop()
    ensures 0 <= op.position <= |doc| && Boundary(doc, op.position)
    ensures op.kind.Insert? ==> IsUtf8(op.text) && Apply(doc, op) == InsertAt(doc, op.position, op.text)
    ensures op.kind.Delete? ==>
              && op.position + op.length <= |doc| && Boundary(doc, op.position + op.length)
              && Apply(doc, op) == EraseAt(doc, op.position, op.length)
  {
    hide IsUtf8, Apply, InsertAt, EraseAt, Boundary;
    ApplyInBounds(doc, op);
  }

  lemma InsertInUnits(doc: Text, p: nat, text: Text)
    requires IsUtf8(doc) && IsUtf8(text) && Boundary(doc, p)
    ensures var (units, at) := (FromUtf8(doc), Utf8ToUtf16Offset(doc, p));
            && at <= |units| && IsUtf8(InsertAt(doc, p, text))
            && FromUtf8(InsertAt(doc, p, text)) == units[..at] + FromUtf8(text) + units[at..]
  {
    hide IsUtf8, IsUtf16, FromUtf8, Utf8ToUtf16Offset;
    BytePrefix(doc, p);
    FromUtf8Concat(doc[..p], text);
    FromUtf8Concat(doc[..p] + text, doc[p..]);
  }

  lemma EraseInUnits(doc: Text, p: nat, n: nat)
    requires IsUtf8(doc) && p + n <= |doc| && Boundary(doc, p) && Boundary(doc, p + n)
    ensures var (units, at, end) := (FromUtf8(doc), Utf8ToUtf16Offset(doc, p), Utf8ToUtf16Offset(doc, p + n));
            && at <= end <= |units| && IsUtf8(EraseAt(doc, p, n))
            && FromUtf8(EraseAt(doc, p, n)) == units[..at] + units[end..]
  {
    hide IsUtf8, IsUtf16, FromUtf8, Utf8ToUtf16Offset;
    BytePrefix(doc, p);
    BytePrefix(doc, p + n);
    Between(doc, p, p + n);
    assert doc[..p + n] == doc[..p] + doc[p..p + n];
    FromUtf8Concat(doc[..p], doc[p..p + n]);
    FromUtf8Concat(doc[..p], doc[p + n..]);
  }

  /** The widget's text after a remote operation. */
  function Followed(units: Units, op: Operation): Units
    requires IsUtf16(units) && Fits(Utf8Text, ToUtf8(units), op)
  {
    hide IsUtf16, IsUtf8, ToUtf8, FromUtf8, Apply, Fits, Boundary;
    if op.IsNoop() then units
    else
      var doc := ToUtf8(units);
      ToUtf8RoundTrip(units);
      RemoteOffsets(doc, op);
      var at := Utf8ToUtf16Offset(doc, op.position);
      if op.kind.Insert? then units[..at] + FromUtf8(op.text) + units[at..]
      else units[..at] + units[Utf8ToUtf16Offset(doc, op.position + op.length)..]
  }

  /** It stays the UTF-16 form of the document. */
  lemma FollowedMirrors(units: Units, op: Operation)
    requires IsUtf16(units) && Fits(Utf8Text, ToUtf8(units), op)
    ensures IsUtf16(Followed(units, op)) && ToUtf8(Followed(units, op)) == Apply(ToUtf8(units), op)
  {
    hide IsUtf16, IsUtf8, ToUtf8, FromUtf8, Apply, Utf8ToUtf16Offset, Fits;
    ToUtf8RoundTrip(units);
    if op.IsNoop() {
      ApplyNoop(ToUtf8(units), op);
    } else {
      RemoteOffsets(ToUtf8(units), op);
    }
  }

  class EditorWidget {
    /** The text of the underlying QTextDocument. */
    var plainText: Units
    var lastKnownText: Units
    var applyingRemote: bool
    var userId: nat
    var currentRevision: nat

    constructor (content: Units, userId: nat, revision: nat)
      ensures plainText == lastKnownText == content && !applyingRemote
    {
      plainText, lastKnownText, applyingRemote := content, content, false;
      this.userId, currentRevision := userId, revision;
    }

    /** The document has changed: local changes become operations, remote ones are only noted. */
    method OnContentsChange(position: nat, charsRemoved: nat, charsAdded: nat) returns (ops: seq<Operation>)
      requires !applyingRemote ==> HonestChange(lastKnownText, plainText, position, charsRemoved, charsAdded)
      modifies this`lastKnownText
      ensures lastKnownText == plainText
      ensures applyingRemote ==> ops == []
      ensures !applyingRemote ==>
                && OnlyTheChange(ops, old(lastKnownText), plainText, position, charsRemoved, charsAdded)
                && (forall i :: 0 <= i < |ops| ==> ops[i].userId == userId && ops[i].revision == currentRevision)
                && FitsAll(Utf8Text, ToUtf8(old(lastKnownText)), ops)
                && IsUtf16(plainText) && ApplyAll(ToUtf8(old(lastKnownText)), ops) == ToUtf8(plainText)
    {
      hide FitsAll, ApplyAll, OnlyTheChange;
      if applyingRemote {
        lastKnownText := plainText;
        return [];
      }
      PartsOfChange(lastKnownText, plainText, position, charsRemoved, charsAdded);
      ChangeOpsMirrorText(lastKnownText, plainText, position, charsRemoved, charsAdded, userId, currentRevision);
      ChangeOpsAreLocal(lastKnownText, plainText, position, charsRemoved, charsAdded, userId, currentRevision);
      var utf8Pos := Utf16ToUtf8Offset(lastKnownText, position);
      ops := [];
      if charsRemoved > 0 {
        var removed := ToUtf8(lastKnownText[position..position + charsRemoved]);
        ops := ops + [MakeDelete(utf8Pos, |removed|, removed, userId, currentRevision)];
      }
      if charsAdded > 0 {
        var added := ToUtf8(plainText[position..position + charsAdded]);
        ops := ops + [MakeInsert(utf8Pos, added, userId, currentRevision)];
      }
      assert ops == ChangeOps(lastKnownText, plainText, position, charsRemoved, charsAdded, userId, currentRevision);
      lastKnownText := plainText;
    }

    /** An operation the document has just received: the widget follows, and stays its UTF-16 form. */
    method ApplyRemoteOperation(op: Operation)
      requires !applyingRemote && plainText == lastKnownText && IsUtf16(lastKnownText)
      requires Fits(Utf8Text, ToUtf8(lastKnownText), op)
      modifies this`plainText, this`lastKnownText, this`applyingRemote
      ensures !applyingRemote && plainText == lastKnownText && IsUtf16(lastKnownText)
      ensures lastKnownText == Followed(old(lastKnownText), op)
      ensures ToUtf8(lastKnownText) == Apply(ToUtf8(old(lastKnownText)), op)
      ensures var content := Apply(ToUtf8(old(lastKnownText)), op);
              IsUtf8(content) && lastKnownText == FromUtf8(content)
    {
      hide IsUtf16, IsUtf8, ToUtf8, FromUtf8, Apply, Utf8ToUtf16Offset;
      var utf8Before := ToUtf8(lastKnownText);
      ToUtf8RoundTrip(lastKnownText);
      if op.IsNoop() {
        ApplyNoop(utf8Before, op);
        return;
      }
      RemoteOffsets(utf8Before, op);
      applyingRemote := true;
      var utf16Pos := Utf8ToUtf16Offset(utf8Before, op.position);
      if op.kind.Insert? {
        plainText := plainText[..utf16Pos] + FromUtf8(op.text) + plainText[utf16Pos..];
        var _ := OnContentsChange(utf16Pos, 0, |FromUtf8(op.text)|);
      } else {
        var utf16End := Utf8ToUtf16Offset(utf8Before, op.position + op.length);
        plainText := plainText[..utf16Pos] + plainText[utf16End..];
        var _ := OnContentsChange(utf16Pos, utf16End - utf16Pos, 0);
      }
      lastKnownText := plainText;
      applyingRemote := false;
    }
  }
}
