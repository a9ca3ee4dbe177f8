/** Operations that start and end on character boundaries, and the transformation that keeps them there
    (core/src/ot.cpp). */
module Alignment {
  import opened Operations
  import opened Transformation
  import opened Utf8

  /** The two readings of "fits": every valid edit of bytes, or edits of UTF-8 text on character boundaries. */
  datatype Reading = AnyBytes | Utf8Text

  predicate Encoded(reading: Reading, doc: Text) {
    reading.Utf8Text? ==> IsUtf8(doc)
  }

  predicate Aligned(doc: Text, op: Operation) {
    || op.IsNoop()
    || (op.kind.Insert? && IsUtf8(op.text) && Boundary(doc, op.position))
    || (op.kind.Delete? && Boundary(doc, op.position) && Boundary(doc, op.position + op.length))
  }

  predicate Fits(reading: Reading, doc: Text, op: Operation) {
    Valid(doc, op) && (reading.Utf8Text? ==> Aligned(doc, op))
  }

  lemma BoundaryAfterInsert(doc: Text, p: nat, text: Text, i: nat)
    requires p <= |doc| && IsUtf8(doc) && IsUtf8(text) && Boundary(doc, p) && Boundary(doc, i)
    ensures IsUtf8(InsertAt(doc, p, text))
    ensures i <= p ==> Boundary(InsertAt(doc, p, text), i)
    ensures i >= p ==> Boundary(InsertAt(doc, p, text), i + |text|)
  {
    hide IsUtf8, Boundary;
    var doc' := InsertAt(doc, p, text);
    BoundaryParts(doc, p);
    BoundaryParts(doc, i);
    Concat(doc[..p], text);
    Concat(doc[..p] + text, doc[p..]);
    if i <= p {
      assert doc'[..i] == doc[..i];
      PrefixGivesBoundary(doc', i);
    }
    if i >= p {
      Between(doc, p, i);
      Concat(doc[..p] + text, doc[p..i]);
      assert doc'[..i + |text|] == doc[..p] + text + doc[p..i];
      PrefixGivesBoundary(doc', i + |text|);
    }
  }

  lemma ErasedIsUtf8(doc: Text, p: nat, n: nat)
    requires p + n <= |doc| && Boundary(doc, p) && Boundary(doc, p + n)
    ensures IsUtf8(EraseAt(doc, p, n))
  {
    Concat(doc[..p], doc[p + n..]);
  }

  lemma BoundaryBehindErased(doc: Text, p: nat, n: nat, i: nat)
    requires p + n <= i <= |doc| && Boundary(doc, p) && Boundary(doc, p + n) && Boundary(doc, i)
    ensures Boundary(EraseAt(doc, p, n), i - n)
  {
    hide IsUtf8, Boundary;
    ErasedIsUtf8(doc, p, n);
    BoundaryParts(doc, p);
    Between(doc, p + n, i);
    var front := doc[..p] + doc[p + n..i];
    Concat(doc[..p], doc[p + n..i]);
    assert EraseAt(doc, p, n) == front + doc[i..];
    assert |front| == i - n && (front + doc[i..])[..|front|] == front;
    PrefixGivesBoundary(EraseAt(doc, p, n), i - n);
  }

  lemma BoundaryAfterErase(doc: Text, p: nat, n: nat, i: nat)
    requires p + n <= |doc| && Boundary(doc, p) && Boundary(doc, p + n) && Boundary(doc, i)
    ensures IsUtf8(EraseAt(doc, p, n))
    ensures i <= p ==> Boundary(EraseAt(doc, p, n), i)
    ensures i >= p + n ==> Boundary(EraseAt(doc, p, n), i - n)
  {
    hide IsUtf8;
    var doc' := EraseAt(doc, p, n);
    ErasedIsUtf8(doc, p, n);
    if i <= p {
      assert doc'[..i] == doc[..i];
      PrefixGivesBoundary(doc', i);
    }
    if i >= p + n {
      BoundaryBehindErased(doc, p, n, i);
    }
  }

  /** A boundary the operation does not swallow is a boundary of the new document, moved along. */
  lemma BoundaryAfter(doc: Text, op: Operation, i: nat)
    requires IsUtf8(doc) && Valid(doc, op) && Aligned(doc, op) && !op.IsNoop() && Boundary(doc, i)
    ensures IsUtf8(Apply(doc, op))
    ensures i <= op.position ==> Boundary(Apply(doc, op), i)
    ensures op.kind.Insert? && i >= op.position ==> Boundary(Apply(doc, op), i + op.length)
    ensures op.kind.Delete? && i >= op.position + op.length ==> Boundary(Apply(doc, op), i - op.length)
  {
    hide Boundary, InsertAt, EraseAt;
    ApplyInBounds(doc, op);
    if op.kind.Insert? {
      BoundaryAfterInsert(doc, op.position, op.text, i);
    } else {
      BoundaryAfterErase(doc, op.position, op.length, i);
    }
  }

  lemma ApplyKeepsEncoding(reading: Reading, doc: Text, op: Operation)
    requires Encoded(reading, doc) && Fits(reading, doc, op)
    ensures Encoded(reading, Apply(doc, op))
  {
    if reading.Utf8Text? && !op.IsNoop() {
      BoundaryAfter(doc, op, op.position);
    }
  }

  /** Rewriting b against a keeps b on the character boundaries of the document after a. */
  lemma AlignedAfter(doc: Text, a: Operation, b: Operation)
    requires IsUtf8(doc) && Valid(doc, a) && Valid(doc, b) && Aligned(doc, a) && Aligned(doc, b)
    ensures Aligned(Apply(doc, a), Transform(a, b).1)
  {
    hide Boundary, Apply, IsUtf8;
    if a.IsNoop() {
      ApplyNoop(doc, a);
      TransformSwaps(a, b);
      NoopIsNeutral(b, a);
    } else if b.IsNoop() {
      NoopIsNeutral(a, b);
    } else {
      BoundaryAfter(doc, a, a.position);
      BoundaryAfter(doc, a, b.position);
      if a.kind.Delete? {
        BoundaryAfter(doc, a, a.position + a.length);
      }
      if b.kind.Delete? {
        BoundaryAfter(doc, a, b.position + b.length);
      }
    }
  }

  /** The diamond for operations that fit, in either reading. */
  lemma FittingDiamond(reading: Reading, doc: Text, a: Operation, b: Operation)
    requires Encoded(reading, doc) && Fits(reading, doc, a) && Fits(reading, doc, b) && a.userId != b.userId
    ensures var (a', b') := Transform(a, b);
            && Fits(reading, Apply(doc, a), b') && Fits(reading, Apply(doc, b), a')
            && Apply(Apply(doc, a), b') == Apply(Apply(doc, b), a')
  {
    hide Apply, Aligned, Valid;
    Diamond(doc, a, b);
    if reading.Utf8Text? {
      AlignedAfter(doc, a, b);
      AlignedAfter(doc, b, a);
      TransformSwaps(a, b);
    }
  }

  /** A rewritten operation fits even where the diamond does not close, between operations of one user. */
  lemma RewrittenFits(reading: Reading, doc: Text, a: Operation, b: Operation)
    requires Encoded(reading, doc) && Fits(reading, doc, a) && Fits(reading, doc, b)
    ensures Fits(reading, Apply(doc, b), Transform(a, b).0)
  {
    hide Aligned;
    RewrittenIsValid(doc, a, b);
    if reading.Utf8Text? {
      AlignedAfter(doc, b, a);
      TransformSwaps(b, a);
    }
  }

  lemma RewrittenIsValid(doc: Text, a: Operation, b: Operation)
    requires Valid(doc, a) && Valid(doc, b)
    ensures Valid(Apply(doc, b), Transform(a, b).0)
  {
    hide Apply, Transform;
    if Tied(a, b) && !a.IsNoop() && !b.IsNoop() {
      ApplyInBounds(doc, b);
      TiedUnmoved(a, b);
    } else if a.IsNoop() || b.IsNoop() {
      DiamondNoop(doc, a, b);
    } else {
      DiamondExactly(doc, a, b);
    }
  }

  lemma TiedUnmoved(a: Operation, b: Operation)
    requires Tied(a, b)
    ensures Transform(a, b) == (a, b)
  {
  }
}
