/** The two rewriting loops: the server's, over its log (core/src/document.cpp), and the client's, over its
    own unacknowledged operations (client/src/ot_controller.cpp). */
module Rebase {
  import opened Operations
  import opened Transformation
  import opened Alignment

  /** The server's loop: op rewritten against every logged operation in turn. */
  function RewriteAgainst(op: Operation, log: seq<Operation>): Operation
    decreases |log|
  {
    if log == [] then op else RewriteAgainst(Transform(op, log[0]).0, log[1..])
  }

  lemma RewriteNothing(op: Operation)
    ensures RewriteAgainst(op, []) == op
  {
  }

  lemma RewriteStep(op: Operation, first: Operation, rest: seq<Operation>)
    ensures RewriteAgainst(op, [first] + rest) == RewriteAgainst(Transform(op, first).0, rest)
  {
    assert ([first] + rest)[1..] == rest;
  }

  /** The client's loop: a remote operation passes through the local ones, and each rewrites the other. */
  function RebaseLocal(local: seq<Operation>, remote: Operation): (r: (seq<Operation>, Operation))
    ensures |r.0| == |local|
  {
    if local == [] then ([], remote)
    else
      var (first, next) := Transform(local[0], remote);
      var (rest, evolved) := RebaseLocal(local[1..], next);
      ([first] + rest, evolved)
  }

  lemma RebaseNothing(remote: Operation)
    ensures RebaseLocal([], remote) == ([], remote)
  {
  }

  lemma RebaseStep(op: Operation, rest: seq<Operation>, remote: Operation)
    ensures var (op', next) := Transform(op, remote);
            var (rest', evolved) := RebaseLocal(rest, next);
            RebaseLocal([op] + rest, remote) == ([op'] + rest', evolved)
  {
    assert ([op] + rest)[1..] == rest;
  }

  function ApplyAll(doc: Text, ops: seq<Operation>): Text
    decreases |ops|
  {
    if ops == [] then doc else ApplyAll(Apply(doc, ops[0]), ops[1..])
  }

  predicate FitsAll(reading: Reading, doc: Text, ops: seq<Operation>)
    decreases |ops|
  {
    ops == [] || (Fits(reading, doc, ops[0]) && FitsAll(reading, Apply(doc, ops[0]), ops[1..]))
  }

  predicate NoneBy(ops: seq<Operation>, userId: nat) {
    forall i :: 0 <= i < |ops| ==> ops[i].userId != userId
  }

  predicate AllBy(ops: seq<Operation>, userId: nat) {
    forall i :: 0 <= i < |ops| ==> ops[i].userId == userId
  }

  lemma {:induction false} ApplyAllAppend(doc: Text, ops: seq<Operation>, op: Operation)
    ensures ApplyAll(doc, ops + [op]) == Apply(ApplyAll(doc, ops), op)
    decreases |ops|
  {
    hide Apply;
    if ops == [] {
      assert ops + [op] == [op];
    } else {
      assert (ops + [op])[1..] == ops[1..] + [op];
      ApplyAllAppend(Apply(doc, ops[0]), ops[1..], op);
    }
  }

  lemma {:induction false} ApplyAllSplit(doc: Text, ops: seq<Operation>, more: seq<Operation>)
    ensures ApplyAll(doc, ops + more) == ApplyAll(ApplyAll(doc, ops), more)
    decreases |ops|
  {
    hide Apply;
    if ops == [] {
      assert ops + more == more;
    } else {
      assert (ops + more)[1..] == ops[1..] + more;
      ApplyAllSplit(Apply(doc, ops[0]), ops[1..], more);
    }
  }

  lemma {:induction false} FitsAllAppend(reading: Reading, doc: Text, ops: seq<Operation>, op: Operation)
    ensures FitsAll(reading, doc, ops + [op])
            <==> FitsAll(reading, doc, ops) && Fits(reading, ApplyAll(doc, ops), op)
    decreases |ops|
  {
    hide Apply, Fits;
    if ops == [] {
      assert ops + [op] == [op];
    } else {
      assert (ops + [op])[1..] == ops[1..] + [op];
      FitsAllAppend(reading, Apply(doc, ops[0]), ops[1..], op);
    }
  }

  lemma {:induction false} FitsAllSplit(reading: Reading, doc: Text, ops: seq<Operation>, more: seq<Operation>)
    ensures FitsAll(reading, doc, ops + more)
            <==> FitsAll(reading, doc, ops) && FitsAll(reading, ApplyAll(doc, ops), more)
    decreases |ops|
  {
    hide Apply, Fits;
    if ops == [] {
      assert ops + more == more;
    } else {
      assert (ops + more)[1..] == ops[1..] + more;
      FitsAllSplit(reading, Apply(doc, ops[0]), ops[1..], more);
    }
  }

  lemma {:induction false} ApplyAllKeepsEncoding(reading: Reading, doc: Text, ops: seq<Operation>)
    requires Encoded(reading, doc) && FitsAll(reading, doc, ops)
    ensures Encoded(reading, ApplyAll(doc, ops))
    decreases |ops|
  {
    hide Apply, Fits, Encoded;
    if ops != [] {
      ApplyKeepsEncoding(reading, doc, ops[0]);
      ApplyAllKeepsEncoding(reading, Apply(doc, ops[0]), ops[1..]);
    }
  }

  lemma {:induction false} RewriteAppend(op: Operation, log: seq<Operation>, last: Operation)
    ensures RewriteAgainst(op, log + [last]) == Transform(RewriteAgainst(op, log), last).0
    decreases |log|
  {
    hide Transform;
    if log == [] {
      assert log + [last] == [last];
    } else {
      assert (log + [last])[1..] == log[1..] + [last];
      RewriteAppend(Transform(op, log[0]).0, log[1..], last);
    }
  }

  predicate AllWellFormed(ops: seq<Operation>) {
    forall i :: 0 <= i < |ops| ==> ops[i].WellFormed()
  }

  lemma {:induction false} FitsAllWellFormed(reading: Reading, doc: Text, ops: seq<Operation>)
    requires FitsAll(reading, doc, ops)
    ensures AllWellFormed(ops)
    decreases |ops|
  {
    hide Apply;
    if ops != [] {
      FitsAllWellFormed(reading, Apply(doc, ops[0]), ops[1..]);
      assert ops == [ops[0]] + ops[1..];
    }
  }

  lemma {:induction false} RewriteKeepsShape(op: Operation, log: seq<Operation>)
    requires op.WellFormed() && AllWellFormed(log)
    ensures var op' := RewriteAgainst(op, log);
            && op'.WellFormed() && op'.kind == op.kind && op'.userId == op.userId && op'.revision == op.revision
    decreases |log|
  {
    hide Transform;
    if log != [] {
      TransformKeepsShape(op, log[0]);
      RewriteKeepsShape(Transform(op, log[0]).0, log[1..]);
    }
  }

  /** The server's loop sees edits only: revision stamps and the text of deletes play no part. */
  lemma {:induction false} RewriteRespectsEdit(op: Operation, op1: Operation, log: seq<Operation>)
    requires op.WellFormed() && op1.WellFormed() && SameEdit(op, op1) && AllWellFormed(log)
    ensures SameEdit(RewriteAgainst(op, log), RewriteAgainst(op1, log))
    decreases |log|
  {
    hide Transform, SameEdit;
    if log != [] {
      SameEditReflexive(log[0]);
      TransformRespectsEdit(op, op1, log[0], log[0]);
      TransformKeepsShape(op, log[0]);
      TransformKeepsShape(op1, log[0]);
      RewriteRespectsEdit(Transform(op, log[0]).0, Transform(op1, log[0]).0, log[1..]);
    }
  }

  /** One operation against a list: rewritten against everything logged since, it fits the document
      those operations lead to. */
  lemma {:induction false} RewriteFits(reading: Reading, doc: Text, op: Operation, log: seq<Operation>)
    requires Encoded(reading, doc) && Fits(reading, doc, op) && FitsAll(reading, doc, log)
    requires NoneBy(log, op.userId)
    ensures Fits(reading, ApplyAll(doc, log), RewriteAgainst(op, log))
    decreases |log|
  {
    hide Apply, Fits, Encoded, Transform;
    if log != [] {
      var op' := Transform(op, log[0]).0;
      FittingDiamond(reading, doc, op, log[0]);
      FitsIsWellFormed(reading, doc, op);
      FitsIsWellFormed(reading, doc, log[0]);
      TransformKeepsShape(op, log[0]);
      ApplyKeepsEncoding(reading, doc, log[0]);
      RewriteFits(reading, Apply(doc, log[0]), op', log[1..]);
    }
  }

  lemma FitsIsWellFormed(reading: Reading, doc: Text, op: Operation)
    requires Fits(reading, doc, op)
    ensures op.WellFormed()
  {
  }

  /** The list diamond: the client's loop closes the square between a local sequence and a remote
      operation, and everything it rewrites fits where it is used. */
  lemma {:induction false} ListDiamond(reading: Reading, doc: Text, local: seq<Operation>, remote: Operation)
    requires Encoded(reading, doc) && FitsAll(reading, doc, local) && Fits(reading, doc, remote)
    requires NoneBy(local, remote.userId)
    ensures var (local', evolved) := RebaseLocal(local, remote);
            && FitsAll(reading, Apply(doc, remote), local')
            && Fits(reading, ApplyAll(doc, local), evolved)
            && Apply(ApplyAll(doc, local), evolved) == ApplyAll(Apply(doc, remote), local')
    decreases |local|
  {
    hide Apply, Fits, Encoded, Transform;
    if local != [] {
      var (first, next) := Transform(local[0], remote);
      FittingDiamond(reading, doc, local[0], remote);
      FitsIsWellFormed(reading, doc, local[0]);
      FitsIsWellFormed(reading, doc, remote);
      TransformKeepsShape(local[0], remote);
      ApplyKeepsEncoding(reading, doc, local[0]);
      ListDiamond(reading, Apply(doc, local[0]), local[1..], next);
      var rest := RebaseLocal(local[1..], next).0;
      assert ([first] + rest)[1..] == rest;
    }
  }

  lemma {:induction false} RebaseKeepsUsers(local: seq<Operation>, remote: Operation, userId: nat)
    requires AllBy(local, userId) && AllWellFormed(local) && remote.WellFormed()
    ensures AllBy(RebaseLocal(local, remote).0, userId)
    decreases |local|
  {
    hide Transform;
    if local != [] {
      TransformKeepsShape(local[0], remote);
      RebaseKeepsUsers(local[1..], Transform(local[0], remote).1, userId);
    }
  }
}
