/** The same transformation on the program's 32-bit fields (core/src/ot.cpp): where it is the transformation
    over unbounded integers, and the one case in which it is not. */
module Uint32 {
  import opened Operations
  import opened Transformation
  import opened Rebase

  const SIZE := 0x1_0000_0000
  const HALF := 0x8000_0000

  /** A result stored in a uint32_t. */
  function Wrap(x: int): nat { x % SIZE }

  /** static_cast<int32_t> of a uint32_t. */
  function AsInt32(x: nat): int
    requires x < SIZE
  {
    if x < HALF then x else x - SIZE
  }

  function TransformInsertInsert32(a: Operation, b: Operation): (Operation, Operation) {
    if a.position < b.position then (a, b.(position := Wrap(b.position + a.length)))
    else if a.position > b.position then (a.(position := Wrap(a.position + b.length)), b)
    else if a.userId < b.userId then (a, b.(position := Wrap(b.position + a.length)))
    else if a.userId > b.userId then (a.(position := Wrap(a.position + b.length)), b)
    else (a, b)
  }

  function TransformInsertDelete32(ins: Operation, del: Operation): (Operation, Operation) {
    if ins.position <= del.position then
      (ins, del.(position := Wrap(del.position + ins.length)))
    else if ins.position >= Wrap(del.position + del.length) then
      (ins.(position := Wrap(ins.position - del.length)), del)
    else
      (ins.(position := del.position, text := [], length := 0), del.(length := Wrap(del.length + ins.length)))
  }

  function Overlap32(a: Operation, b: Operation): nat
    requires 0 <= a.position < SIZE && 0 <= b.position < SIZE
  {
    var endA := Wrap(a.position + a.length);
    var endB := Wrap(b.position + b.length);
    Max(0, AsInt32(Min(endA, endB)) - AsInt32(Max(a.position, b.position)))
  }

  function TransformDeleteDelete32(a: Operation, b: Operation): (Operation, Operation)
    requires 0 <= a.position < SIZE && 0 <= b.position < SIZE
  {
    var overlap := Overlap32(a, b);
    if overlap == 0 then
      if a.position < b.position then (a, b.(position := Wrap(b.position - a.length)))
      else if a.position > b.position then (a.(position := Wrap(a.position - b.length)), b)
      else (a, b)
    else
      var minPos := Min(a.position, b.position);
      (a.(position := minPos, length := Wrap(a.length - overlap)),
       b.(position := minPos, length := Wrap(b.length - overlap)))
  }

  function Transform32(a: Operation, b: Operation): (Operation, Operation)
    requires 0 <= a.position < SIZE && 0 <= b.position < SIZE
  {
    match (a.kind, b.kind)
    case (Insert, Insert) => TransformInsertInsert32(a, b)
    case (Insert, Delete) => TransformInsertDelete32(a, b)
    case (Delete, Insert) => var (ins, del) := TransformInsertDelete32(b, a); (del, ins)
    case (Delete, Delete) => TransformDeleteDelete32(a, b)
  }

  /** The operation ends below 2^31. */
  predicate Small(op: Operation) {
    0 <= op.position && op.position + op.length < HALF
  }

  /** An empty delete that lies behind the start of the other delete, but nearer to the start of the
      document than that delete is long. */
  predicate Stranded(empty: Operation, del: Operation) {
    empty.kind.Delete? && del.kind.Delete? && empty.length == 0 && del.position < empty.position < del.length
  }

  lemma WrapOf(x: int)
    requires -SIZE <= x < SIZE
    ensures Wrap(x) == if x >= 0 then x else x + SIZE
  {
  }

  lemma InsertInsertFits(a: Operation, b: Operation)
    requires Small(a) && Small(b) && a.kind.Insert? && b.kind.Insert?
    ensures Transform32(a, b) == Transform(a, b)
  {
    hide Wrap;
    WrapOf(b.position + a.length);
    WrapOf(a.position + b.length);
  }

  lemma InsertDeleteFits(ins: Operation, del: Operation)
    requires Small(ins) && Small(del) && ins.kind.Insert? && del.kind.Delete?
    ensures TransformInsertDelete32(ins, del) == TransformInsertDelete(ins, del)
  {
    hide Wrap;
    WrapOf(del.position + ins.length);
    WrapOf(del.position + del.length);
    WrapOf(ins.position - del.length);
    WrapOf(del.length + ins.length);
  }

  lemma OverlapIsExact(a: Operation, b: Operation)
    requires Small(a) && Small(b)
    ensures Overlap32(a, b) == Overlap(a, b) <= Min(a.length, b.length)
  {
    hide Wrap;
    WrapOf(a.position + a.length);
    WrapOf(b.position + b.length);
  }

  lemma DeleteDeleteFits(a: Operation, b: Operation)
    requires Small(a) && Small(b) && a.kind.Delete? && b.kind.Delete?
    ensures TransformDeleteDelete32(a, b).0 == TransformDeleteDelete(a, b).0 <==> !Stranded(a, b)
    ensures TransformDeleteDelete32(a, b).1 == TransformDeleteDelete(a, b).1 <==> !Stranded(b, a)
  {
    hide Wrap, Overlap32;
    OverlapIsExact(a, b);
    WrapOf(b.position - a.length);
    WrapOf(a.position - b.length);
    WrapOf(a.length - Overlap(a, b));
    WrapOf(b.length - Overlap(a, b));
    if Stranded(a, b) {
      assert TransformDeleteDelete32(a, b).0.position >= 0 > TransformDeleteDelete(a, b).0.position;
    } else if Stranded(b, a) {
      assert TransformDeleteDelete32(a, b).1.position >= 0 > TransformDeleteDelete(a, b).1.position;
    }
  }

  /** Below 2^31 the program computes the unbounded transformation of an operation exactly when it is not a
      stranded empty delete: otherwise no sum wraps and the signed overlap is exact. */
  lemma TransformFitsUint32(a: Operation, b: Operation)
    requires Small(a) && Small(b)
    ensures Transform32(a, b).0 == Transform(a, b).0 <==> !Stranded(a, b)
    ensures Transform32(a, b).1 == Transform(a, b).1 <==> !Stranded(b, a)
  {
    hide TransformDeleteDelete, TransformDeleteDelete32, TransformInsertDelete, TransformInsertDelete32;
    match (a.kind, b.kind)
    case (Insert, Insert) => InsertInsertFits(a, b);
    case (Insert, Delete) => InsertDeleteFits(a, b);
    case (Delete, Insert) => InsertDeleteFits(b, a);
    case (Delete, Delete) => DeleteDeleteFits(a, b);
  }

  // ---- whole chains

  /** Within bounds, no-op or not. */
  predicate Placed(doc: Text, op: Operation) {
    op.WellFormed() && 0 <= op.position && op.position + (if op.kind.Delete? then op.length else 0) <= |doc|
  }

  predicate AllPlaced(doc: Text, ops: seq<Operation>)
    decreases |ops|
  {
    ops == [] || (Placed(doc, ops[0]) && AllPlaced(Apply(doc, ops[0]), ops[1..]))
  }

  /** The document and `more` further bytes stay below 2^31 while the operations are applied. */
  predicate StaysSmall(doc: Text, more: nat, ops: seq<Operation>)
    decreases |ops|
  {
    |doc| + more < HALF && (ops == [] || StaysSmall(Apply(doc, ops[0]), more, ops[1..]))
  }

  lemma PlacedLength(doc: Text, op: Operation)
    requires Placed(doc, op)
    ensures |Apply(doc, op)| == if op.kind.Insert? then |doc| + op.length else |doc| - op.length
  {
  }

  /** Rewriting keeps an operation within bounds unless it is a stranded empty delete. */
  lemma RewrittenIsPlaced(doc: Text, a: Operation, b: Operation)
    requires Placed(doc, a) && Placed(doc, b)
    ensures !Stranded(a, b) ==> Placed(Apply(doc, b), Transform(a, b).0)
    ensures !Stranded(b, a) ==> Placed(Apply(doc, a), Transform(a, b).1)
    ensures |Transform(a, b).0.text| <= |a.text| && |Transform(a, b).1.text| <= |b.text|
  {
    hide Apply;
    PlacedLength(doc, a);
    PlacedLength(doc, b);
  }

  lemma PlacedIsSmall(doc: Text, op: Operation, more: nat)
    requires Placed(doc, op) && |doc| + more < HALF
    requires op.kind.Insert? ==> |op.text| <= more || |Apply(doc, op)| < HALF
    ensures Small(op)
  {
    PlacedLength(doc, op);
  }

  /** Positions as they are stored. */
  function InUint32(op: Operation): (r: Operation)
    ensures 0 <= r.position < SIZE
  {
    op.(position := Wrap(op.position))
  }

  /** An empty delete in front of the document, where the unbounded transformation puts a stranded one. */
  predicate Lost(op: Operation) {
    op.kind.Delete? && op.length == 0 && op.position < 0
  }

  lemma StrandedIsLost(a: Operation, b: Operation)
    requires Stranded(a, b)
    ensures Lost(Transform(a, b).0) && Lost(Transform(b, a).1)
  {
  }

  lemma LostStaysLost(op: Operation, x: Operation)
    requires Lost(op) && x.position >= 0
    ensures Transform(op, x).0 == op && Transform(x, op).1 == op
  {
  }

  lemma StoredIsNotNegative(a: Operation, b: Operation)
    requires 0 <= a.position < SIZE && 0 <= b.position < SIZE
    ensures Transform32(a, b).0.position >= 0 && Transform32(a, b).1.position >= 0
  {
    hide Overlap32;
  }

  // ---- the server's loop

  function RewriteAgainst32(op: Operation, log: seq<Operation>): Operation
    decreases |log|
  {
    if log == [] then op
    else RewriteAgainst32(Transform32(InUint32(op), InUint32(log[0])).0, log[1..])
  }

  /** No logged operation meets the incoming one as a stranded empty delete. */
  predicate NeverStranded(op: Operation, log: seq<Operation>)
    decreases |log|
  {
    log == [] || (!Stranded(op, log[0]) && NeverStranded(Transform(op, log[0]).0, log[1..]))
  }

  lemma {:induction false} LostThroughLog(doc: Text, op: Operation, log: seq<Operation>)
    requires Lost(op) && AllPlaced(doc, log)
    ensures RewriteAgainst(op, log) == op
    decreases |log|
  {
    hide Apply, Transform;
    if log != [] {
      LostStaysLost(op, log[0]);
      LostThroughLog(Apply(doc, log[0]), op, log[1..]);
    }
  }

  lemma {:induction false} StoredThroughLog(op: Operation, log: seq<Operation>)
    requires op.position >= 0
    ensures RewriteAgainst32(op, log).position >= 0
    decreases |log|
  {
    hide Transform32, InUint32;
    if log != [] {
      var (a, b) := (InUint32(op), InUint32(log[0]));
      StoredIsNotNegative(a, b);
      StoredThroughLog(Transform32(a, b).0, log[1..]);
    }
  }

  lemma SmallIsStored(op: Operation)
    requires Small(op)
    ensures InUint32(op) == op
  {
  }

  /** For documents below 2^31 bytes the server's loop computes over uint32_t what it computes over the
      integers if and only if the incoming operation never becomes a stranded empty delete on the way. */
  lemma {:induction false} RewriteFitsUint32(doc: Text, op: Operation, log: seq<Operation>, more: nat)
    requires Placed(doc, op) && AllPlaced(doc, log) && |op.text| <= more && StaysSmall(doc, more, log)
    ensures RewriteAgainst32(op, log) == RewriteAgainst(op, log) <==> NeverStranded(op, log)
    decreases |log|
  {
    hide Apply, Placed, Transform32, Transform, Stranded, InUint32;
    if log != [] {
      var x := log[0];
      PlacedIsSmall(doc, op, more);
      PlacedIsSmall(doc, x, more);
      SmallIsStored(op);
      SmallIsStored(x);
      TransformFitsUint32(op, x);
      if Stranded(op, x) {
        StrandedIsLost(op, x);
        LostThroughLog(Apply(doc, x), Transform(op, x).0, log[1..]);
        StoredIsNotNegative(op, x);
        StoredThroughLog(Transform32(op, x).0, log[1..]);
      } else {
        RewrittenIsPlaced(doc, op, x);
        RewriteFitsUint32(Apply(doc, x), Transform(op, x).0, log[1..], more);
      }
    }
  }

  // ---- the client's loop

  function RebaseLocal32(local: seq<Operation>, remote: Operation): (seq<Operation>, Operation)
    decreases |local|
  {
    if local == [] then ([], remote)
    else
      var (first, next) := Transform32(InUint32(local[0]), InUint32(remote));
      var (rest, evolved) := RebaseLocal32(local[1..], next);
      ([first] + rest, evolved)
  }

  /** Neither the remote operation nor a local one meets the other as a stranded empty delete. */
  predicate NeverStrandedLocally(local: seq<Operation>, remote: Operation)
    decreases |local|
  {
    local == []
    || (!Stranded(local[0], remote) && !Stranded(remote, local[0])
        && NeverStrandedLocally(local[1..], Transform(local[0], remote).1))
  }

  lemma {:induction false} LostThroughLocal(doc: Text, local: seq<Operation>, remote: Operation)
    requires Lost(remote) && AllPlaced(doc, local)
    ensures RebaseLocal(local, remote).1 == remote
    decreases |local|
  {
    hide Apply, Transform;
    if local != [] {
      LostStaysLost(remote, local[0]);
      LostThroughLocal(Apply(doc, local[0]), local[1..], remote);
    }
  }

  lemma {:induction false} StoredThroughLocal(local: seq<Operation>, remote: Operation)
    requires remote.position >= 0
    ensures RebaseLocal32(local, remote).1.position >= 0
    decreases |local|
  {
    hide Transform32, InUint32;
    if local != [] {
      var (a, b) := (InUint32(local[0]), InUint32(remote));
      StoredIsNotNegative(a, b);
      StoredThroughLocal(local[1..], Transform32(a, b).1);
    }
  }

  /** The client's loop, whose whole result counts, is exact in 32 bits if and only if no operation of
      either side is stranded by the other on the way. */
  lemma {:induction false} RebaseFitsUint32(doc: Text, local: seq<Operation>, remote: Operation, more: nat)
    requires Placed(doc, remote) && AllPlaced(doc, local) && |remote.text| <= more && StaysSmall(doc, more, local)
    ensures RebaseLocal32(local, remote) == RebaseLocal(local, remote) <==> NeverStrandedLocally(local, remote)
    decreases |local|
  {
    hide Apply, Placed, Transform32, Transform, Stranded, InUint32;
    if local != [] {
      var x := local[0];
      PlacedIsSmall(doc, remote, more);
      PlacedIsSmall(doc, x, more);
      SmallIsStored(remote);
      SmallIsStored(x);
      TransformFitsUint32(x, remote);
      if Stranded(remote, x) {
        StrandedIsLost(remote, x);
        LostThroughLocal(Apply(doc, x), local[1..], Transform(x, remote).1);
        StoredIsNotNegative(x, remote);
        StoredThroughLocal(local[1..], Transform32(x, remote).1);
      } else {
        RewrittenIsPlaced(doc, x, remote);
        RebaseFitsUint32(Apply(doc, x), local[1..], Transform(x, remote).1, more);
        var (rest32, rest) := (RebaseLocal32(local[1..], Transform32(x, remote).1).0,
                               RebaseLocal(local[1..], Transform(x, remote).1).0);
        assert ([Transform32(x, remote).0] + rest32)[1..] == rest32 && ([Transform(x, remote).0] + rest)[1..] == rest;
        assert ([Transform32(x, remote).0] + rest32)[0] == Transform32(x, remote).0;
        assert ([Transform(x, remote).0] + rest)[0] == Transform(x, remote).0;
      }
    }
  }

  lemma RewriteOne(op: Operation, x: Operation, rest: seq<Operation>)
    ensures RewriteAgainst(op, [x] + rest) == RewriteAgainst(Transform(op, x).0, rest)
    ensures RewriteAgainst32(op, [x] + rest) == RewriteAgainst32(Transform32(InUint32(op), InUint32(x)).0, rest)
  {
    hide Transform, Transform32, InUint32;
    assert ([x] + rest)[1..] == rest;
  }

  function CutOfTwelve(k: nat): Operation {
    if k == 0 then MakeDelete(3, 2, [], 2, 0)
    else if k == 1 then MakeDelete(0, 8, [], 2, 1)
    else MakeDelete(0, 2, [], 2, 2)
  }

  lemma StrandedStep(op: Operation)
    requires op == MakeDelete(3, 2, [], 1, 0)
    ensures var empty := op.(length := 0);
            && Transform(op, CutOfTwelve(0)).0 == Transform32(InUint32(op), InUint32(CutOfTwelve(0))).0 == empty
            && Transform(empty, CutOfTwelve(1)).0 == empty.(position := -5)
            && Transform32(InUint32(empty), InUint32(CutOfTwelve(1))).0 == empty.(position := SIZE - 5)
  {
  }

  lemma MisreadStep(empty: Operation)
    requires empty.kind.Delete? && empty.length == 0
    ensures Transform(empty.(position := -5), CutOfTwelve(2)).0 == empty.(position := -5)
    ensures Transform32(InUint32(empty.(position := SIZE - 5)), InUint32(CutOfTwelve(2))).0
            == empty.(position := 0, length := SIZE - 7)
  {
    hide Wrap;
    WrapOf(SIZE - 5);
    WrapOf(0);
    WrapOf(2);
    WrapOf(-7);
    var (a, b) := (empty.(position := SIZE - 5), CutOfTwelve(2));
    assert InUint32(a) == a && InUint32(b) == b;
    assert Overlap32(a, b) == 7;
  }

  lemma TwelveAreCut(doc: Text, log: seq<Operation>)
    requires |doc| >= 12 && log == [CutOfTwelve(0), CutOfTwelve(1), CutOfTwelve(2)]
    ensures AllPlaced(doc, log) && ApplyAll(doc, log) == doc[12..]
  {
    hide AllPlaced, ApplyAll;
    var (x, y, z) := (CutOfTwelve(0), CutOfTwelve(1), CutOfTwelve(2));
    var doc1 := doc[..3] + doc[5..];
    assert Apply(doc, x) == doc1;
    assert Apply(doc1, y) == doc[10..];
    assert Apply(doc[10..], z) == doc[12..];
    assert log[1..] == [y, z] && [y, z][1..] == [z] && [z][1..] == [];
    StepThroughLog(doc, log);
    StepThroughLog(doc1, [y, z]);
    StepThroughLog(doc[10..], [z]);
    NothingToLog(doc[12..]);
  }

  lemma StepThroughLog(doc: Text, log: seq<Operation>)
    requires log != []
    ensures AllPlaced(doc, log) <==> Placed(doc, log[0]) && AllPlaced(Apply(doc, log[0]), log[1..])
    ensures ApplyAll(doc, log) == ApplyAll(Apply(doc, log[0]), log[1..])
  {
  }

  lemma NothingToLog(doc: Text)
    ensures AllPlaced(doc, []) && ApplyAll(doc, []) == doc
  {
  }

  /** The boundary, and what it does to a document: three logged deletes, each within bounds when its turn
      comes. The first empties the incoming delete, the second strands it, and the third then turns it into
      a delete of almost 2^32 bytes from the start of the document. The unbounded transformation leaves the
      rest of the document alone; the 32-bit one erases all of it. */
  lemma EmptyDeleteGrows(doc: Text, op: Operation, log: seq<Operation>)
    requires 12 <= |doc| < HALF && op == MakeDelete(3, 2, [], 1, 0)
    requires log == [MakeDelete(3, 2, [], 2, 0), MakeDelete(0, 8, [], 2, 1), MakeDelete(0, 2, [], 2, 2)]
    ensures Placed(doc, op) && AllPlaced(doc, log) && !NeverStranded(op, log)
    ensures ApplyAll(doc, log) == doc[12..]
    ensures RewriteAgainst(op, log).IsNoop() && Apply(doc[12..], RewriteAgainst(op, log)) == doc[12..]
    ensures RewriteAgainst32(op, log) == op.(position := 0, length := SIZE - 7)
    ensures Apply(doc[12..], RewriteAgainst32(op, log)) == []
  {
    hide RewriteAgainst, RewriteAgainst32, Apply, ApplyAll, AllPlaced, Transform, Transform32, InUint32;
    var (x, y, z) := (CutOfTwelve(0), CutOfTwelve(1), CutOfTwelve(2));
    var empty := op.(length := 0);
    StrandedStep(op);
    MisreadStep(empty);
    RewriteOne(op, x, [y, z]);
    RewriteOne(empty, y, [z]);
    RewriteOne(empty.(position := -5), z, []);
    RewriteOne(empty.(position := SIZE - 5), z, []);
    RewriteNone(empty.(position := -5));
    RewriteNone(empty.(position := 0, length := SIZE - 7));
    assert log == [x] + [y, z] && [y, z] == [y] + [z] && [z] == [z] + [];
    assert log[1..] == [y, z] && [y, z][1..] == [z];
    TwelveAreCut(doc, log);
    assert Stranded(empty, y) && !NeverStranded(empty, [y, z]);
    ApplyNoop(doc[12..], empty.(position := -5));
    EverythingErased(doc[12..], empty.(position := 0, length := SIZE - 7));
  }

  lemma EverythingErased(doc: Text, op: Operation)
    requires op.kind.Delete? && op.position == 0 && op.length >= |doc|
    ensures Apply(doc, op) == []
  {
  }

  lemma RewriteNone(op: Operation)
    ensures RewriteAgainst(op, []) == op && RewriteAgainst32(op, []) == op
  {
  }
}
