/** Concurrent deletes: the server removes exactly the union of their ranges, in whatever order they
    arrive (core/src/ot.cpp, core/src/document.cpp). */
module ConcurrentDeletes {
  import opened Operations
  import opened Transformation
  import opened Rebase
  import opened Documents

  predicate InRange(op: Operation, x: int) {
    op.position <= x < op.position + op.length
  }

  predicate Covered(dels: seq<Operation>, x: int) {
    exists j :: 0 <= j < |dels| && InRange(dels[j], x)
  }

  /** The first n bytes of the document without those that lie in one of the ranges. */
  function Surviving(doc: Text, dels: seq<Operation>, n: nat): Text
    requires n <= |doc|
  {
    if n == 0 then [] else Surviving(doc, dels, n - 1) + (if Covered(dels, n - 1) then [] else [doc[n - 1]])
  }

  /** Where position n of the document ends up once the ranges are gone. */
  function Rank(dels: seq<Operation>, n: nat): nat {
    if n == 0 then 0 else Rank(dels, n - 1) + (if Covered(dels, n - 1) then 0 else 1)
  }

  predicate AreDeletes(doc: Text, dels: seq<Operation>) {
    forall j :: 0 <= j < |dels| ==> dels[j].kind.Delete? && Valid(doc, dels[j])
  }

  /** The entries the server logs for concurrent operations that arrive in the given order. */
  function Logged(ops: seq<Operation>): (log: seq<Operation>)
    ensures |log| == |ops|
    decreases |ops|
  {
    if ops == [] then []
    else
      var before := Logged(ops[..|ops| - 1]);
      before + [RewriteAgainst(ops[|ops| - 1], before)]
  }

  lemma {:induction false} SurvivingLength(doc: Text, dels: seq<Operation>, n: nat)
    requires n <= |doc|
    ensures |Surviving(doc, dels, n)| == Rank(dels, n)
  {
    if n > 0 {
      SurvivingLength(doc, dels, n - 1);
    }
  }

  lemma {:induction false} SurvivingPrefix(doc: Text, dels: seq<Operation>, m: nat, n: nat)
    requires m <= n <= |doc|
    ensures Surviving(doc, dels, m) <= Surviving(doc, dels, n)
  {
    if m < n {
      SurvivingPrefix(doc, dels, m, n - 1);
    }
  }

  lemma {:induction false} RankIsMonotone(dels: seq<Operation>, m: nat, n: nat)
    requires m <= n
    ensures Rank(dels, m) <= Rank(dels, n)
  {
    if m < n {
      RankIsMonotone(dels, m, n - 1);
    }
  }

  lemma CoveredByOneMore(dels: seq<Operation>, d: Operation, x: int)
    ensures Covered(dels + [d], x) <==> Covered(dels, x) || InRange(d, x)
  {
    if Covered(dels, x) {
      var j :| 0 <= j < |dels| && InRange(dels[j], x);
      assert (dels + [d])[j] == dels[j];
    }
    if InRange(d, x) {
      assert (dels + [d])[|dels|] == d;
    }
  }

  /** One range more: what survives loses the stretch between the two ends of the range. */
  lemma {:induction false} SurvivingOneMore(doc: Text, dels: seq<Operation>, d: Operation, n: nat)
    requires n <= |doc| && 0 <= d.position && d.position + d.length <= |doc|
    ensures n <= d.position ==> Surviving(doc, dels + [d], n) == Surviving(doc, dels, n)
    ensures d.position <= n <= d.position + d.length
            ==> Surviving(doc, dels + [d], n) == Surviving(doc, dels, d.position)
    ensures n >= d.position + d.length
            ==> Rank(dels, d.position + d.length) <= |Surviving(doc, dels, n)|
                && Surviving(doc, dels + [d], n)
                   == Surviving(doc, dels, d.position) + Surviving(doc, dels, n)[Rank(dels, d.position + d.length)..]
    decreases n
  {
    hide Covered;
    var e := d.position + d.length;
    if n > 0 {
      SurvivingOneMore(doc, dels, d, n - 1);
      CoveredByOneMore(dels, d, n - 1);
    }
    if n >= e {
      SurvivingLength(doc, dels, e);
      SurvivingPrefix(doc, dels, e, n);
    }
  }

  lemma {:induction false} RankOneMore(dels: seq<Operation>, d: Operation, n: nat)
    requires 0 <= d.position
    ensures n <= d.position ==> Rank(dels + [d], n) == Rank(dels, n)
    ensures d.position <= n <= d.position + d.length ==> Rank(dels + [d], n) == Rank(dels, d.position)
    ensures n >= d.position + d.length
            ==> Rank(dels + [d], n) == Rank(dels, d.position) + Rank(dels, n) - Rank(dels, d.position + d.length)
    decreases n
  {
    hide Covered;
    if n > 0 {
      RankOneMore(dels, d, n - 1);
      CoveredByOneMore(dels, d, n - 1);
    }
  }

  lemma {:induction false} RankWithEmpty(dels: seq<Operation>, d: Operation, n: nat)
    requires d.length == 0
    ensures Rank(dels + [d], n) == Rank(dels, n)
  {
    hide Covered;
    if n > 0 {
      RankWithEmpty(dels, d, n - 1);
      CoveredByOneMore(dels, d, n - 1);
    }
  }

  /** r is the stretch of the surviving text between positions p and e of the document. */
  predicate IsStretch(r: Operation, dels: seq<Operation>, p: nat, e: nat) {
    && r.kind.Delete? && r.length == Rank(dels, e) - Rank(dels, p)
    && (r.length > 0 ==> r.position == Rank(dels, p))
  }

  /** One step of the server's loop: a stretch rewritten against the logged stretch of d is the stretch
      of what survives d as well. */
  lemma StretchAfter(dels: seq<Operation>, r: Operation, p: nat, e: nat, l: Operation, d: Operation)
    requires p <= e && 0 <= d.position && d.length > 0
    requires IsStretch(r, dels, p, e) && IsStretch(l, dels, d.position, d.position + d.length)
    ensures IsStretch(Transform(r, l).0, dels + [d], p, e)
  {
    hide Rank;
    var (q, f) := (d.position, d.position + d.length);
    RankOneMore(dels, d, p);
    RankOneMore(dels, d, e);
    RankIsMonotone(dels, p, e);
    RankIsMonotone(dels, q, f);
    if p <= q { RankIsMonotone(dels, p, q); } else { RankIsMonotone(dels, q, p); }
    if p <= f { RankIsMonotone(dels, p, f); } else { RankIsMonotone(dels, f, p); }
    if e <= q { RankIsMonotone(dels, e, q); } else { RankIsMonotone(dels, q, e); }
    if e <= f { RankIsMonotone(dels, e, f); } else { RankIsMonotone(dels, f, e); }
    if l.length == 0 {
      NoopIsNeutral(r, l);
    } else if r.length == 0 {
      TransformSwaps(r, l);
      NoopIsNeutral(l, r);
    }
  }

  /** A valid delete, as a range of the document. */
  function From(doc: Text, d: Operation): (p: nat)
    requires Valid(doc, d) && d.kind.Delete?
    ensures p <= |doc|
  {
    if d.length == 0 then 0 else d.position
  }

  /** A concurrent delete, rewritten against the deletes logged before it, removes what they left of its
      own range. */
  lemma {:induction false} RewrittenIsStretch(doc: Text, dels: seq<Operation>, d: Operation)
    requires AreDeletes(doc, dels) && d.kind.Delete? && Valid(doc, d)
    ensures IsStretch(RewriteAgainst(d, Logged(dels)), dels, From(doc, d), From(doc, d) + d.length)
    decreases |dels|
  {
    hide Rank, Transform, Valid;
    var (p, e) := (From(doc, d), From(doc, d) + d.length);
    if dels == [] {
      RankOfNone(p);
      RankOfNone(e);
    } else {
      var init := dels[..|dels| - 1];
      var last := dels[|dels| - 1];
      assert dels == init + [last];
      var r := RewriteAgainst(d, Logged(init));
      var l := RewriteAgainst(last, Logged(init));
      RewrittenIsStretch(doc, init, d);
      RewrittenIsStretch(doc, init, last);
      RewriteAppend(d, Logged(init), l);
      if last.length == 0 {
        RankWithEmpty(init, last, p);
        RankWithEmpty(init, last, e);
        NoopIsNeutral(r, l);
      } else {
        ValidDelete(doc, last);
        StretchAfter(init, r, p, e, l, last);
      }
    }
  }

  lemma ValidDelete(doc: Text, d: Operation)
    requires d.kind.Delete? && Valid(doc, d) && d.length > 0
    ensures 0 <= d.position && d.position + d.length <= |doc|
  {
  }

  lemma {:induction false} RankOfNone(n: nat)
    ensures Rank([], n) == n
  {
    if n > 0 {
      RankOfNone(n - 1);
    }
  }

  lemma {:induction false} SurvivingOfNone(doc: Text, n: nat)
    requires n <= |doc|
    ensures Surviving(doc, [], n) == doc[..n]
  {
    if n > 0 {
      SurvivingOfNone(doc, n - 1);
    }
  }

  lemma {:induction false} SurvivingWithEmpty(doc: Text, dels: seq<Operation>, d: Operation, n: nat)
    requires d.length == 0 && n <= |doc|
    ensures Surviving(doc, dels + [d], n) == Surviving(doc, dels, n)
  {
    hide Covered;
    if n > 0 {
      SurvivingWithEmpty(doc, dels, d, n - 1);
      CoveredByOneMore(dels, d, n - 1);
    }
  }

  /** The logged deletes, applied in turn, remove exactly the union of the submitted ranges. */
  lemma {:induction false} LoggedRemovesUnion(doc: Text, dels: seq<Operation>)
    requires AreDeletes(doc, dels)
    ensures ApplyAll(doc, Logged(dels)) == Surviving(doc, dels, |doc|)
    decreases |dels|
  {
    hide Rank, Surviving, RewriteAgainst, Valid, Covered;
    if dels == [] {
      SurvivingOfNone(doc, |doc|);
    } else {
      var init := dels[..|dels| - 1];
      var last := dels[|dels| - 1];
      assert dels == init + [last];
      var l := RewriteAgainst(last, Logged(init));
      LoggedRemovesUnion(doc, init);
      ApplyAllAppend(doc, Logged(init), l);
      RewrittenIsStretch(doc, init, last);
      if last.length == 0 {
        SurvivingWithEmpty(doc, init, last, |doc|);
      } else {
        ValidDelete(doc, last);
        EraseStretch(doc, init, last, l);
      }
    }
  }

  lemma EraseStretch(doc: Text, dels: seq<Operation>, d: Operation, l: Operation)
    requires 0 <= d.position && d.length > 0 && d.position + d.length <= |doc|
    requires IsStretch(l, dels, d.position, d.position + d.length)
    ensures Apply(Surviving(doc, dels, |doc|), l) == Surviving(doc, dels + [d], |doc|)
  {
    hide Rank, Surviving, Apply;
    var (p, e) := (d.position, d.position + d.length);
    var text := Surviving(doc, dels, |doc|);
    SurvivingOneMore(doc, dels, d, |doc|);
    CutAtRanks(doc, dels, p, e);
    if l.length == 0 {
      ApplyNoop(text, l);
      assert text == text[..Rank(dels, p)] + text[Rank(dels, p)..];
    } else {
      ApplyInBounds(text, l);
    }
  }

  lemma CutAtRanks(doc: Text, dels: seq<Operation>, p: nat, e: nat)
    requires p <= e <= |doc|
    ensures Rank(dels, p) <= Rank(dels, e) <= |Surviving(doc, dels, |doc|)|
    ensures Surviving(doc, dels, |doc|)[..Rank(dels, p)] == Surviving(doc, dels, p)
  {
    hide Rank, Surviving;
    SurvivingPrefix(doc, dels, p, |doc|);
    SurvivingLength(doc, dels, p);
    SurvivingLength(doc, dels, |doc|);
    RankIsMonotone(dels, p, e);
    RankIsMonotone(dels, e, |doc|);
  }

  // ---- through the server

  lemma {:induction false} ServeAllAppend(s: DocState, ops: seq<Operation>, op: Operation)
    requires s.oldestRevision + |s.history| == s.revision
    ensures var t := ServeAll(s, ops);
            && t.oldestRevision + |t.history| == t.revision
            && ServeAll(s, ops + [op]) == Serve(t, op).0
    decreases |ops|
  {
    hide Apply, RewriteAgainst;
    if ops == [] {
      assert ops + [op] == [op];
    } else {
      assert (ops + [op])[1..] == ops[1..] + [op];
      ServeAllAppend(Serve(s, ops[0]).0, ops[1..], op);
    }
  }

  /** Concurrent operations stamped with the server's revision: none is refused as long as the window can
      hold all but the last of them, and the log grows by their rewritten forms. */
  lemma {:induction false} ConcurrentOpsAreLogged(s: DocState, initial: Text, log: seq<Operation>, ops: seq<Operation>)
    requires Windowed(s, initial, log)
    requires forall j :: 0 <= j < |ops| ==> ops[j].revision == s.revision
    requires |ops| <= s.historyLimit + 1
    ensures var t := ServeAll(s, ops);
            && Windowed(t, initial, log + Logged(ops)) && t.historyLimit == s.historyLimit
            && t.oldestRevision <= Max(s.oldestRevision, |log| + |ops| - s.historyLimit)
    decreases |ops|
  {
    hide Apply, ApplyAll, RewriteAgainst, Serve;
    if ops == [] {
      assert log + Logged(ops) == log;
    } else {
      var init := ops[..|ops| - 1];
      var last := ops[|ops| - 1];
      assert ops == init + [last];
      ConcurrentOpsAreLogged(s, initial, log, init);
      ServeAllAppend(s, init, last);
      var t := ServeAll(s, init);
      WindowRefinesLog(t, initial, log + Logged(init), last);
      assert (log + Logged(init))[|log|..] == Logged(init);
      assert log + Logged(ops) == (log + Logged(init)) + [RewriteAgainst(last, Logged(init))];
    }
  }

  /** Deletes submitted concurrently: the document that results is the one they all started from without
      the union of their ranges. */
  lemma ServerRemovesUnion(s: DocState, initial: Text, log: seq<Operation>, dels: seq<Operation>)
    requires Windowed(s, initial, log) && AreDeletes(s.content, dels)
    requires forall j :: 0 <= j < |dels| ==> dels[j].revision == s.revision
    requires |dels| <= s.historyLimit + 1
    ensures ServeAll(s, dels).content == Surviving(s.content, dels, |s.content|)
  {
    hide ServeAll, Surviving, RewriteAgainst, Apply;
    ConcurrentOpsAreLogged(s, initial, log, dels);
    ApplyAllSplit(initial, log, Logged(dels));
    LoggedRemovesUnion(s.content, dels);
  }

  lemma {:induction false} SameRangesSurvive(doc: Text, dels: seq<Operation>, other: seq<Operation>, n: nat)
    requires n <= |doc| && forall d :: d in dels <==> d in other
    ensures Surviving(doc, dels, n) == Surviving(doc, other, n)
  {
    if n > 0 {
      SameRangesSurvive(doc, dels, other, n - 1);
      SameRangesCover(dels, other, n - 1);
      SameRangesCover(other, dels, n - 1);
    }
  }

  lemma SameRangesCover(dels: seq<Operation>, other: seq<Operation>, x: int)
    requires forall d :: d in dels ==> d in other
    ensures Covered(dels, x) ==> Covered(other, x)
  {
    if Covered(dels, x) {
      var j :| 0 <= j < |dels| && InRange(dels[j], x);
      assert dels[j] in other;
      var k :| 0 <= k < |other| && other[k] == dels[j];
    }
  }

  /** The order of arrival does not matter. */
  lemma ArrivalOrderIrrelevant(
      s: DocState, initial: Text, log: seq<Operation>, dels: seq<Operation>, reordered: seq<Operation>)
    requires Windowed(s, initial, log) && AreDeletes(s.content, dels)
    requires forall j :: 0 <= j < |dels| ==> dels[j].revision == s.revision
    requires |dels| <= s.historyLimit + 1
    requires multiset(dels) == multiset(reordered)
    ensures ServeAll(s, dels).content == ServeAll(s, reordered).content
  {
    hide ServeAll, Surviving, Windowed, Valid;
    assert |multiset(dels)| == |dels| && |multiset(reordered)| == |reordered|;
    forall d | d in reordered
      ensures d in dels
    {
      assert d in multiset(reordered);
    }
    forall d | d in dels
      ensures d in reordered
    {
      assert d in multiset(dels);
    }
    forall j | 0 <= j < |reordered|
      ensures reordered[j].revision == s.revision && reordered[j].kind.Delete? && Valid(s.content, reordered[j])
    {
      assert reordered[j] in dels;
    }
    ServerRemovesUnion(s, initial, log, dels);
    ServerRemovesUnion(s, initial, log, reordered);
    SameRangesSurvive(s.content, dels, reordered, |s.content|);
  }
}
