/** The server's copy of a document: it rewrites incoming operations against a bounded history window
    (core/src/document.cpp). */
module Documents {
  import opened Operations
  import opened Transformation
  import opened Rebase

  /** The fields of a Document as a value. */
  datatype DocState = DocState(
    content: Text, revision: nat, history: seq<Operation>, oldestRevision: nat, historyLimit: nat)

  datatype OTResult = Accepted(op: Operation) | RevisionTooOld

  predicate TooOld(s: DocState, op: Operation) {
    s.revision > 0 && op.revision < s.oldestRevision
  }

  /** The kept operations that op has not seen. */
  function Unseen(s: DocState, op: Operation): seq<Operation>
    requires s.oldestRevision + |s.history| == s.revision && !TooOld(s, op)
  {
    if s.oldestRevision <= op.revision < s.revision then s.history[op.revision - s.oldestRevision..] else []
  }

  function Trimmed(s: DocState): DocState {
    var excess := Max(0, |s.history| - s.historyLimit);
    s.(history := s.history[excess..], oldestRevision := s.oldestRevision + excess)
  }

  /** What apply_with_ot does to a document. */
  function Serve(s: DocState, op: Operation): (DocState, OTResult)
    requires s.oldestRevision + |s.history| == s.revision
  {
    if TooOld(s, op) then (s, RevisionTooOld)
    else
      var op' := RewriteAgainst(op, Unseen(s, op));
      (Trimmed(s.(content := Apply(s.content, op'), history := s.history + [op'], revision := s.revision + 1)),
       Accepted(op'))
  }

  /** The steps of an accepted operation, one field after the other. */
  lemma ServeInSteps(s: DocState, op: Operation, op': Operation, extended: DocState, trimmed: DocState)
    requires s.oldestRevision + |s.history| == s.revision && !TooOld(s, op) && op' == RewriteAgainst(op, Unseen(s, op))
    requires extended == s.(content := Apply(s.content, op'), history := s.history + [op'])
    requires trimmed == Trimmed(extended)
    ensures Serve(s, op) == (trimmed.(revision := s.revision + 1), Accepted(op'))
  {
    hide Apply, RewriteAgainst;
  }

  function ServeAll(s: DocState, ops: seq<Operation>): DocState
    requires s.oldestRevision + |s.history| == s.revision
    decreases |ops|
  {
    if ops == [] then s else ServeAll(Serve(s, ops[0]).0, ops[1..])
  }

  /** The window as seen from the full log: s keeps the last operations of a log whose replay is the content. */
  predicate Windowed(s: DocState, initial: Text, log: seq<Operation>) {
    && s.revision == |log| && s.oldestRevision + |s.history| == s.revision
    && s.history == log[s.oldestRevision..]
    && s.content == ApplyAll(initial, log)
  }

  lemma WindowParts(s: DocState, initial: Text, log: seq<Operation>)
    requires Windowed(s, initial, log)
    ensures s.revision == |log| && s.oldestRevision + |s.history| == s.revision
  {
  }

  /** The window loses nothing: an operation is refused exactly when it predates the window, and an
      accepted one is rewritten as against the full log. */
  lemma WindowRefinesLog(s: DocState, initial: Text, log: seq<Operation>, op: Operation)
    requires Windowed(s, initial, log)
    ensures var (s', result) := Serve(s, op);
            if op.revision < s.oldestRevision then s' == s && result == RevisionTooOld
            else
              var seen := Min(op.revision, |log|);
              && result == Accepted(RewriteAgainst(op, log[seen..]))
              && Windowed(s', initial, log + [result.op])
              && s'.historyLimit == s.historyLimit
              && s'.oldestRevision == Max(s.oldestRevision, |log| + 1 - s.historyLimit)
  {
    hide Apply;
    if op.revision >= s.oldestRevision {
      var seen := Min(op.revision, |log|);
      assert log[|log|..] == [];
      assert op.revision < s.revision ==> s.history[op.revision - s.oldestRevision..] == log[seen..];
      var op' := RewriteAgainst(op, log[seen..]);
      assert op' == RewriteAgainst(op, Unseen(s, op));
      ApplyAllAppend(initial, log, op');
      assert s.history + [op'] == (log + [op'])[s.oldestRevision..];
    }
  }

  class Document {
    var content: Text
    var revision: nat
    var history: seq<Operation>
    var historyLimit: nat
    var oldestRevision: nat
    var incoming: seq<Operation>
    var dirty: bool

    /** The text the document started from and every operation it has ever accepted. */
    ghost const initial: Text
    ghost var log: seq<Operation>

    ghost predicate Valid()
      reads this
    {
      Windowed(State(), initial, log)
    }

    function State(): DocState
      reads this
    {
      DocState(content, revision, history, oldestRevision, historyLimit)
    }

    constructor (loaded: Text)
      ensures Valid() && initial == loaded && log == []
      ensures State() == DocState(loaded, 0, [], 0, 10000) && incoming == [] && !dirty
    {
      content, revision, history, historyLimit, oldestRevision := loaded, 0, [], 10000, 0;
      incoming, dirty := [], false;
      initial, log := loaded, [];
    }

    method SetHistoryLimit(limit: nat)
      requires Valid()
      modifies this`historyLimit
      ensures Valid() && State() == old(State()).(historyLimit := limit)
    {
      historyLimit := limit;
    }

    method ApplyWithOt(op: Operation) returns (result: OTResult)
      requires Valid()
      modifies this`content, this`revision, this`history, this`oldestRevision, this`dirty, this`log
      ensures Valid()
      ensures (State(), result) == Serve(old(State()), op)
      ensures result.RevisionTooOld? <==> op.revision < old(oldestRevision)
      ensures result.RevisionTooOld? ==> log == old(log) && dirty == old(dirty)
      ensures result.Accepted? ==> log == old(log) + [result.op] && dirty
      ensures result.Accepted? ==> result.op == RewriteAgainst(op, old(log)[Min(op.revision, old(revision))..])
    {
      hide Apply, ApplyAll, Windowed, RewriteAgainst, Serve, Trimmed, Unseen;
      ghost var before := State();
      WindowParts(before, initial, log);
      WindowRefinesLog(before, initial, log, op);
      if revision > 0 && op.revision < oldestRevision {
        return RevisionTooOld;
      }
      var op' := RewriteThroughWindow(op);
      content := Apply(content, op');
      history := history + [op'];
      ghost var extended := State();
      Trim();
      ghost var trimmed := State();
      ServeInSteps(before, op, op', extended, trimmed);
      revision := revision + 1;
      dirty := true;
      log := log + [op'];
      result := Accepted(op');
      assert State() == trimmed.(revision := before.revision + 1);
    }

    /** The opening loop of apply_with_ot, with its guarded index into the window. */
    method RewriteThroughWindow(op: Operation) returns (op': Operation)
      requires oldestRevision + |history| == revision && !TooOld(State(), op)
      ensures op' == RewriteAgainst(op, Unseen(State(), op))
    {
      hide Transform, RewriteAgainst;
      op' := op;
      RewriteNothing(op);
      var i := op.revision;
      while i < revision
        invariant op.revision <= i && (i <= revision || i == op.revision)
        invariant i < revision
                  ==> RewriteAgainst(op', history[i - oldestRevision..]) == RewriteAgainst(op, Unseen(State(), op))
        invariant i >= revision ==> op' == RewriteAgainst(op, Unseen(State(), op))
        decreases revision - i
      {
        var historyIndex := i - oldestRevision;
        ghost var rest := history[historyIndex + 1..];
        assert history[historyIndex..] == [history[historyIndex]] + rest;
        RewriteStep(op', history[historyIndex], rest);
        if historyIndex < |history| {
          op' := Transform(op', history[historyIndex]).0;
        }
        i := i + 1;
        RewriteNothing(op');
      }
    }

    /** The closing loop of apply_with_ot: forget the oldest operations. */
    method Trim()
      modifies this`history, this`oldestRevision
      ensures State() == Trimmed(old(State()))
    {
      ghost var all := history;
      while |history| > historyLimit
        invariant oldestRevision == old(oldestRevision) + |all| - |history|
        invariant |history| <= |all| && history == all[|all| - |history|..]
        invariant |history| >= Min(|all|, historyLimit)
      {
        history := history[1..];
        oldestRevision := oldestRevision + 1;
      }
    }

    method EnqueueOperation(op: Operation)
      modifies this`incoming
      ensures incoming == old(incoming) + [op]
    {
      incoming := incoming + [op];
    }

    method ProcessQueue() returns (count: nat)
      requires Valid()
      modifies this
      ensures Valid() && incoming == [] && count == |old(incoming)|
      ensures State() == ServeAll(old(State()), old(incoming))
    {
      count := 0;
      while incoming != []
        invariant Valid()
        invariant ServeAll(State(), incoming) == ServeAll(old(State()), old(incoming))
        invariant count + |incoming| == |old(incoming)|
        decreases |incoming|
      {
        var op := incoming[0];
        incoming := incoming[1..];
        var _ := ApplyWithOt(op);
        count := count + 1;
      }
    }
  }
}
