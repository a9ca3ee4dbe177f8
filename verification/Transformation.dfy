/** Pairwise transformation and application of operations (core/src/ot.cpp). */
module Transformation {
  import opened Operations

  function Min(x: int, y: int): int { if x <= y then x else y }

  function Max(x: int, y: int): int { if x >= y then x else y }

  function TransformInsertInsert(a: Operation, b: Operation): (Operation, Operation)
    requires a.kind.Insert? && b.kind.Insert?
  {
    if a.position < b.position then (a, b.(position := b.position + a.length))
    else if a.position > b.position then (a.(position := a.position + b.length), b)
    else if a.userId < b.userId then (a, b.(position := b.position + a.length))
    else if a.userId > b.userId then (a.(position := a.position + b.length), b)
    else (a, b)
  }

  function TransformInsertDelete(ins: Operation, del: Operation): (Operation, Operation)
    requires ins.kind.Insert? && del.kind.Delete?
  {
    if ins.position <= del.position then
      (ins, del.(position := del.position + ins.length))
    else if ins.position >= del.position + del.length then
      (ins.(position := ins.position - del.length), del)
    else
      (ins.(position := del.position, text := [], length := 0), del.(length := del.length + ins.length))
  }

  function Overlap(a: Operation, b: Operation): nat {
    Max(0, Min(a.position + a.length, b.position + b.length) - Max(a.position, b.position))
  }

  function TransformDeleteDelete(a: Operation, b: Operation): (Operation, Operation)
    requires a.kind.Delete? && b.kind.Delete?
  {
    var overlap := Overlap(a, b);
    if overlap == 0 then
      if a.position < b.position then (a, b.(position := b.position - a.length))
      else if a.position > b.position then (a.(position := a.position - b.length), b)
      else (a, b)
    else
      var minPos := Min(a.position, b.position);
      (a.(position := minPos, length := a.length - overlap), b.(position := minPos, length := b.length - overlap))
  }

  function Transform(a: Operation, b: Operation): (Operation, Operation) {
    match (a.kind, b.kind)
    case (Insert, Insert) => TransformInsertInsert(a, b)
    case (Insert, Delete) => TransformInsertDelete(a, b)
    case (Delete, Insert) => var (ins, del) := TransformInsertDelete(b, a); (del, ins)
    case (Delete, Delete) => TransformDeleteDelete(a, b)
  }

  /** std::min(value, size) on unsigned values; only a no-op, which is never applied, goes below 0. */
  function Clamp(value: int, size: nat): (r: nat)
    ensures r <= size
  {
    Max(0, Min(value, size))
  }

  function InsertAt(doc: Text, at: nat, text: Text): Text
    requires at <= |doc|
  {
    doc[..at] + text + doc[at..]
  }

  function EraseAt(doc: Text, at: nat, count: nat): Text
    requires at + count <= |doc|
  {
    doc[..at] + doc[at + count..]
  }

  /** The document that collab::apply leaves behind. */
  function Apply(doc: Text, op: Operation): Text {
    if op.IsNoop() then doc
    else
      var pos := Clamp(op.position, |doc|);
      if op.kind.Insert? then InsertAt(doc, pos, op.text) else EraseAt(doc, pos, Min(op.length, |doc| - pos))
  }

  /** The operation fits the document it is meant for: it is a no-op or lies within bounds. */
  predicate Valid(doc: Text, op: Operation) {
    && op.WellFormed()
    && (op.IsNoop() || (0 <= op.position && op.position + (if op.kind.Delete? then op.length else 0) <= |doc|))
  }

  /** The two results are the same whichever operation comes first. */
  lemma TransformSwaps(a: Operation, b: Operation)
    ensures Transform(b, a) == (Transform(a, b).1, Transform(a, b).0)
  {
  }

  /** A no-op never moves or resizes the other operation, and stays a no-op, wherever it points. */
  lemma NoopIsNeutral(a: Operation, b: Operation)
    requires a.WellFormed() && b.WellFormed() && b.IsNoop()
    ensures Transform(a, b).0 == a
    ensures Transform(a, b).1.IsNoop()
  {
  }

  lemma TransformKeepsShape(a: Operation, b: Operation)
    requires a.WellFormed() && b.WellFormed()
    ensures var (a', b') := Transform(a, b);
            && a'.WellFormed() && a'.kind == a.kind && a'.userId == a.userId && a'.revision == a.revision
            && b'.WellFormed() && b'.kind == b.kind && b'.userId == b.userId && b'.revision == b.revision
  {
  }

  lemma TransformRespectsEdit(a: Operation, a1: Operation, b: Operation, b1: Operation)
    requires a.WellFormed() && a1.WellFormed() && b.WellFormed() && b1.WellFormed()
    requires SameEdit(a, a1) && SameEdit(b, b1)
    ensures SameEdit(Transform(a, b).0, Transform(a1, b1).0)
    ensures SameEdit(Transform(a, b).1, Transform(a1, b1).1)
  {
  }

  lemma TransformSeesEdit(a: Operation, b: Operation, b1: Operation)
    requires b.WellFormed() && b1.WellFormed() && SameEdit(b, b1)
    ensures Transform(a, b).0 == Transform(a, b1).0
    ensures SameEdit(Transform(a, b).1, Transform(a, b1).1)
  {
  }

  lemma ApplyRespectsEdit(doc: Text, a: Operation, b: Operation)
    requires SameEdit(a, b)
    ensures Apply(doc, a) == Apply(doc, b)
  {
  }

  // Splices of one document commute once the later one is moved by the size of the earlier one.

  lemma InsertsCommute(doc: Text, p: nat, s: Text, q: nat, t: Text)
    requires p <= q <= |doc|
    ensures InsertAt(InsertAt(doc, p, s), q + |s|, t) == InsertAt(InsertAt(doc, q, t), p, s)
  {
    assert InsertAt(doc, p, s) == doc[..p] + s + doc[p..q] + doc[q..];
    assert InsertAt(doc, q, t) == doc[..p] + doc[p..q] + t + doc[q..];
  }

  lemma InsertBeforeErase(doc: Text, p: nat, s: Text, q: nat, n: nat)
    requires p <= q && q + n <= |doc|
    ensures EraseAt(InsertAt(doc, p, s), q + |s|, n) == InsertAt(EraseAt(doc, q, n), p, s)
  {
    assert InsertAt(doc, p, s) == doc[..p] + s + doc[p..q] + doc[q..q + n] + doc[q + n..];
    assert EraseAt(doc, q, n) == doc[..p] + doc[p..q] + doc[q + n..];
  }

  lemma InsertAfterErase(doc: Text, p: nat, s: Text, q: nat, n: nat)
    requires q + n <= p <= |doc|
    ensures EraseAt(InsertAt(doc, p, s), q, n) == InsertAt(EraseAt(doc, q, n), p - n, s)
  {
    assert InsertAt(doc, p, s) == doc[..q] + doc[q..q + n] + doc[q + n..p] + s + doc[p..];
    assert EraseAt(doc, q, n) == doc[..q] + doc[q + n..p] + doc[p..];
  }

  lemma InsertInsideErase(doc: Text, p: nat, s: Text, q: nat, n: nat)
    requires q < p < q + n <= |doc|
    ensures EraseAt(InsertAt(doc, p, s), q, n + |s|) == EraseAt(doc, q, n)
  {
    assert InsertAt(doc, p, s) == doc[..q] + (doc[q..p] + s + doc[p..q + n]) + doc[q + n..];
  }

  lemma ErasesCommute(doc: Text, p: nat, m: nat, q: nat, n: nat)
    requires p + m <= q && q + n <= |doc|
    ensures EraseAt(EraseAt(doc, p, m), q - m, n) == EraseAt(EraseAt(doc, q, n), p, m)
  {
    assert EraseAt(doc, p, m) == doc[..p] + doc[p + m..q] + doc[q..q + n] + doc[q + n..];
    assert EraseAt(doc, q, n) == doc[..p] + doc[p..p + m] + doc[p + m..q] + doc[q + n..];
  }

  /** Removing [p, p+m) and then what is left of an overlapping [q, q+n) removes their union. */
  lemma ErasesMerge(doc: Text, p: nat, m: nat, q: nat, n: nat)
    requires p + m <= |doc| && q + n <= |doc|
    requires Max(p, q) < Min(p + m, q + n)
    ensures var rest := n - (Min(p + m, q + n) - Max(p, q));
            && (rest == 0 ==> EraseAt(doc, p, m) == doc[..Min(p, q)] + doc[Max(p + m, q + n)..])
            && rest >= 0 && Min(p, q) + rest <= |doc| - m
            && EraseAt(EraseAt(doc, p, m), Min(p, q), rest) == doc[..Min(p, q)] + doc[Max(p + m, q + n)..]
  {
    var rest := n - (Min(p + m, q + n) - Max(p, q));
    var once := EraseAt(doc, p, m);
    assert once[..Min(p, q)] == doc[..Min(p, q)];
    assert once[Min(p, q) + rest..] == doc[Max(p + m, q + n)..];
  }

  lemma ApplyInBounds(doc: Text, op: Operation)
    requires Valid(doc, op) && !op.IsNoop()
    ensures op.kind.Insert? ==> Apply(doc, op) == InsertAt(doc, op.position, op.text)
    ensures op.kind.Delete? ==> Apply(doc, op) == EraseAt(doc, op.position, op.length)
    ensures |Apply(doc, op)| == if op.kind.Insert? then |doc| + op.length else |doc| - op.length
  {
  }

  lemma ApplyNoop(doc: Text, op: Operation)
    requires op.IsNoop()
    ensures Apply(doc, op) == doc
  {
  }

  /** Both orders of a and b, each rewritten against the other, fit and lead to one document. */
  predicate DiamondCloses(doc: Text, a: Operation, b: Operation) {
    Meets(doc, a, b, Transform(a, b).0, Transform(a, b).1)
  }

  predicate Meets(doc: Text, a: Operation, b: Operation, a': Operation, b': Operation) {
    && Valid(Apply(doc, a), b') && Valid(Apply(doc, b), a')
    && Apply(Apply(doc, a), b') == Apply(Apply(doc, b), a')
  }

  lemma DiamondNoop(doc: Text, a: Operation, b: Operation)
    requires Valid(doc, a) && Valid(doc, b) && (a.IsNoop() || b.IsNoop())
    ensures DiamondCloses(doc, a, b)
  {
    hide InsertAt, EraseAt;
    TransformSwaps(a, b);
    if b.IsNoop() {
      NoopIsNeutral(a, b);
      TransformKeepsShape(a, b);
    } else {
      NoopIsNeutral(b, a);
      TransformKeepsShape(b, a);
    }
  }

  lemma DiamondInsertInsert(doc: Text, a: Operation, b: Operation)
    requires a.kind.Insert? && b.kind.Insert? && a.userId != b.userId
    requires Valid(doc, a) && Valid(doc, b) && !a.IsNoop() && !b.IsNoop()
    ensures DiamondCloses(doc, a, b)
  {
    hide Apply, InsertAt, EraseAt;
    var (a', b') := TransformInsertInsert(a, b);
    ApplyInBounds(doc, a);
    ApplyInBounds(doc, b);
    ApplyInBounds(Apply(doc, a), b');
    ApplyInBounds(Apply(doc, b), a');
    if a.position < b.position || (a.position == b.position && a.userId < b.userId) {
      InsertsCommute(doc, a.position, a.text, b.position, b.text);
    } else {
      InsertsCommute(doc, b.position, b.text, a.position, a.text);
    }
    assert Meets(doc, a, b, a', b');
  }

  lemma DiamondInsertDelete(doc: Text, ins: Operation, del: Operation)
    requires ins.kind.Insert? && del.kind.Delete?
    requires Valid(doc, ins) && Valid(doc, del) && !ins.IsNoop() && !del.IsNoop()
    ensures DiamondCloses(doc, ins, del)
  {
    hide Apply, InsertAt, EraseAt;
    var (ins', del') := TransformInsertDelete(ins, del);
    ApplyInBounds(doc, ins);
    ApplyInBounds(doc, del);
    ApplyInBounds(Apply(doc, ins), del');
    if ins.position <= del.position {
      ApplyInBounds(Apply(doc, del), ins');
      InsertBeforeErase(doc, ins.position, ins.text, del.position, del.length);
    } else if ins.position >= del.position + del.length {
      ApplyInBounds(Apply(doc, del), ins');
      InsertAfterErase(doc, ins.position, ins.text, del.position, del.length);
    } else {
      ApplyNoop(Apply(doc, del), ins');
      InsertInsideErase(doc, ins.position, ins.text, del.position, del.length);
    }
    assert Meets(doc, ins, del, ins', del');
  }

  lemma DiamondDeleteDelete(doc: Text, a: Operation, b: Operation)
    requires a.kind.Delete? && b.kind.Delete?
    requires Valid(doc, a) && Valid(doc, b) && !a.IsNoop() && !b.IsNoop()
    ensures DiamondCloses(doc, a, b)
  {
    hide Apply, InsertAt, EraseAt;
    var (a', b') := TransformDeleteDelete(a, b);
    ApplyInBounds(doc, a);
    ApplyInBounds(doc, b);
    if Overlap(a, b) == 0 {
      ApplyInBounds(Apply(doc, a), b');
      ApplyInBounds(Apply(doc, b), a');
      if a.position < b.position {
        ErasesCommute(doc, a.position, a.length, b.position, b.length);
      } else {
        ErasesCommute(doc, b.position, b.length, a.position, a.length);
      }
    } else {
      DeleteRest(doc, a, b);
      DeleteRest(doc, b, a);
    }
    assert Meets(doc, a, b, a', b');
  }

  lemma DeleteRest(doc: Text, a: Operation, b: Operation)
    requires a.kind.Delete? && b.kind.Delete? && Overlap(a, b) > 0
    requires Valid(doc, a) && Valid(doc, b)
    ensures var b' := Transform(a, b).1;
            && Valid(Apply(doc, a), b')
            && Apply(Apply(doc, a), b')
               == doc[..Min(a.position, b.position)] + doc[Max(a.position + a.length, b.position + b.length)..]
  {
    hide Apply, InsertAt, EraseAt;
    var b' := TransformDeleteDelete(a, b).1;
    ApplyInBounds(doc, a);
    ErasesMerge(doc, a.position, a.length, b.position, b.length);
    if b'.IsNoop() {
      ApplyNoop(Apply(doc, a), b');
    } else {
      ApplyInBounds(Apply(doc, a), b');
    }
  }

  /** The diamond: two concurrent operations of different users, each rewritten against the other,
      fit where they are applied and lead to one document. */
  lemma Diamond(doc: Text, a: Operation, b: Operation)
    requires Valid(doc, a) && Valid(doc, b) && a.userId != b.userId
    ensures DiamondCloses(doc, a, b)
  {
    hide Apply, InsertAt, EraseAt;
    if a.IsNoop() || b.IsNoop() {
      DiamondNoop(doc, a, b);
    } else {
      match (a.kind, b.kind)
      case (Insert, Insert) => DiamondInsertInsert(doc, a, b);
      case (Insert, Delete) => DiamondInsertDelete(doc, a, b);
      case (Delete, Insert) => DiamondInsertDelete(doc, b, a); TransformSwaps(b, a);
      case (Delete, Delete) => DiamondDeleteDelete(doc, a, b);
    }
  }

  /** Two inserts at one place that nothing tells apart: neither moves for the other. */
  predicate Tied(a: Operation, b: Operation) {
    a.kind.Insert? && b.kind.Insert? && a.position == b.position && a.userId == b.userId
  }

  lemma TiedDiamond(doc: Text, a: Operation, b: Operation)
    requires Valid(doc, a) && Valid(doc, b) && !a.IsNoop() && !b.IsNoop() && Tied(a, b)
    ensures DiamondCloses(doc, a, b) <==> a.text + b.text == b.text + a.text
  {
    hide Apply;
    var p := a.position;
    ApplyInBounds(doc, a);
    ApplyInBounds(doc, b);
    ApplyInBounds(Apply(doc, a), b);
    ApplyInBounds(Apply(doc, b), a);
    var first := Apply(Apply(doc, a), b);
    var second := Apply(Apply(doc, b), a);
    var n := |a.text| + |b.text|;
    assert first == doc[..p] + (b.text + a.text) + doc[p..];
    assert second == doc[..p] + (a.text + b.text) + doc[p..];
    assert first[p..p + n] == b.text + a.text && second[p..p + n] == a.text + b.text;
    assert DiamondCloses(doc, a, b) <==> first == second;
  }

  /** Exactly when the diamond closes, users distinct or not: unless a user has two inserts at one place
      whose texts do not commute. */
  lemma DiamondExactly(doc: Text, a: Operation, b: Operation)
    requires Valid(doc, a) && Valid(doc, b)
    ensures DiamondCloses(doc, a, b) <==> (Tied(a, b) ==> a.text + b.text == b.text + a.text)
  {
    hide Apply, InsertAt, EraseAt, DiamondCloses;
    if a.IsNoop() || b.IsNoop() {
      DiamondNoop(doc, a, b);
      assert a.text == [] ==> a.text + b.text == b.text == b.text + a.text;
      assert b.text == [] ==> a.text + b.text == a.text == b.text + a.text;
    } else if Tied(a, b) {
      TiedDiamond(doc, a, b);
    } else if a.userId != b.userId {
      Diamond(doc, a, b);
    } else {
      UntiedDiamond(doc, a, b);
    }
  }

  /** User ids matter only to inserts at one place. */
  lemma UntiedDiamond(doc: Text, a: Operation, b: Operation)
    requires Valid(doc, a) && Valid(doc, b) && !Tied(a, b) && a.userId == b.userId
    ensures DiamondCloses(doc, a, b)
  {
    hide Apply, InsertAt, EraseAt, Valid;
    var b1 := b.(userId := b.userId + 1);
    ValidForAnyUser(doc, b, b1.userId);
    Diamond(doc, a, b1);
    var (a', b') := Transform(a, b);
    assert Transform(a, b1) == (a', b'.(userId := b1.userId));
    ValidForAnyUser(Apply(doc, a), b', b1.userId);
    ApplyForAnyUser(doc, b, b1.userId);
    ApplyForAnyUser(Apply(doc, a), b', b1.userId);
  }

  lemma ValidForAnyUser(doc: Text, op: Operation, userId: nat)
    ensures Valid(doc, op) <==> Valid(doc, op.(userId := userId))
  {
  }

  lemma ApplyForAnyUser(doc: Text, op: Operation, userId: nat)
    ensures Apply(doc, op.(userId := userId)) == Apply(doc, op)
  {
  }

  // ---- what two concurrent operations lead to, written out

  /** apply keeps to the document whatever the operation says: positions and lengths beyond its end are cut. */
  lemma ApplyCuts(doc: Text, op: Operation)
    requires op.WellFormed() && op.position >= 0
    ensures op.kind.Insert? ==>
              Apply(doc, op) == doc[..Min(op.position, |doc|)] + op.text + doc[Min(op.position, |doc|)..]
    ensures op.kind.Delete? ==>
              Apply(doc, op) == doc[..Min(op.position, |doc|)] + doc[Min(op.position + op.length, |doc|)..]
  {
    var p := Min(op.position, |doc|);
    assert doc == doc[..p] + doc[p..];
  }

  /** Two inserts both survive, the one further in front first, and at one place that of the smaller user id. */
  lemma InsertsSurvive(doc: Text, a: Operation, b: Operation)
    requires a.kind.Insert? && b.kind.Insert? && a.text != [] && b.text != [] && Valid(doc, a) && Valid(doc, b)
    requires a.position < b.position || (a.position == b.position && a.userId < b.userId)
    ensures var (p, q, (a', b')) := (a.position, b.position, Transform(a, b));
            && Apply(Apply(doc, a), b') == doc[..p] + a.text + doc[p..q] + b.text + doc[q..]
            && Apply(Apply(doc, b), a') == doc[..p] + a.text + doc[p..q] + b.text + doc[q..]
  {
    hide Apply;
    var (p, q, (a', b')) := (a.position, b.position, Transform(a, b));
    var once := doc[..p] + a.text + doc[p..];
    DiamondExactly(doc, a, b);
    ApplyInBounds(doc, a);
    ApplyInBounds(Apply(doc, a), b');
    assert Apply(doc, a) == once;
    assert once[..q + |a.text|] == doc[..p] + a.text + doc[p..q] && once[q + |a.text|..] == doc[q..];
  }

  /** An insert survives a concurrent delete unless it lies strictly inside it; the delete removes its own range
      and nothing else. */
  lemma InsertSurvivesDelete(doc: Text, ins: Operation, del: Operation)
    requires ins.kind.Insert? && del.kind.Delete? && ins.text != [] && del.length > 0
    requires Valid(doc, ins) && Valid(doc, del)
    ensures var (p, q, end) := (ins.position, del.position, del.position + del.length);
            var (ins', del') := Transform(ins, del);
            var both := if p <= q then doc[..p] + ins.text + doc[p..q] + doc[end..]
                        else if p >= end then doc[..q] + doc[end..p] + ins.text + doc[p..]
                        else doc[..q] + doc[end..];
            Apply(Apply(doc, ins), del') == both && Apply(Apply(doc, del), ins') == both
  {
    hide Apply;
    var (p, q, end) := (ins.position, del.position, del.position + del.length);
    var (ins', del') := Transform(ins, del);
    var once := doc[..q] + doc[end..];
    DiamondInsertDelete(doc, ins, del);
    ApplyInBounds(doc, del);
    assert Apply(doc, del) == once;
    if q < p < end {
      ApplyNoop(once, ins');
    } else {
      ApplyInBounds(once, ins');
      if p <= q {
        assert once[..p] == doc[..p] && once[p..] == doc[p..q] + doc[end..];
      } else {
        assert once[..p - del.length] == doc[..q] + doc[end..p] && once[p - del.length..] == doc[p..];
      }
    }
  }

  /** Two deletes remove their two ranges, and what both of them cover only once. */
  lemma DeletesMerge(doc: Text, a: Operation, b: Operation)
    requires a.kind.Delete? && b.kind.Delete? && a.length > 0 && b.length > 0 && a.position <= b.position
    requires Valid(doc, a) && Valid(doc, b)
    ensures var (endA, endB, (a', b')) := (a.position + a.length, b.position + b.length, Transform(a, b));
            var both := if endA <= b.position then doc[..a.position] + doc[endA..b.position] + doc[endB..]
                        else doc[..a.position] + doc[Max(endA, endB)..];
            Apply(Apply(doc, a), b') == both && Apply(Apply(doc, b), a') == both
  {
    hide Apply;
    var (endA, endB, (a', b')) := (a.position + a.length, b.position + b.length, Transform(a, b));
    DiamondDeleteDelete(doc, a, b);
    if endA <= b.position {
      var once := doc[..a.position] + doc[endA..];
      ApplyInBounds(doc, a);
      ApplyInBounds(once, b');
      assert Apply(doc, a) == once;
      assert once[..b.position - a.length] == doc[..a.position] + doc[endA..b.position];
      assert once[endB - a.length..] == doc[endB..];
    } else {
      DeleteRest(doc, a, b);
    }
  }
}
