/** The edit operation that clients and server exchange, and its wire entry
    (core/src/operation.cpp, client/src/ot_controller.cpp). */
module Operations {

  /** Document text is a std::string: positions and lengths count bytes. */
  type byte = b: int | 0 <= b < 256

  type Text = seq<byte>

  datatype Option<+T> = None | Some(value: T)

  datatype Kind = Insert | Delete

  /** Positions are unbounded here; Uint32.dfy relates them to the 32-bit fields of the program. */
  datatype Operation = Operation(
    kind: Kind, position: int, text: Text, length: nat, userId: nat, revision: nat)
  {
    predicate IsNoop() {
      (kind.Insert? && text == []) || (kind.Delete? && length == 0)
    }

    /** What make_insert establishes and transform keeps: an insert counts its own bytes. */
    predicate WellFormed() {
      kind.Insert? ==> length == |text|
    }
  }

  function MakeInsert(position: int, text: Text, userId: nat, revision: nat): Operation {
    Operation(Insert, position, text, |text|, userId, revision)
  }

  function MakeDelete(position: int, length: nat, text: Text, userId: nat, revision: nat): Operation {
    Operation(Delete, position, text, length, userId, revision)
  }

  /** One element of the "ops" array of a message: only the fields that are serialised. */
  datatype OpEntry = InsertEntry(pos: int, text: Text) | DeleteEntry(pos: int, len: nat)

  function ToEntry(op: Operation): OpEntry {
    if op.kind.Insert? then InsertEntry(op.position, op.text) else DeleteEntry(op.position, op.length)
  }

  function FromEntry(entry: OpEntry, userId: nat, revision: nat): Operation {
    match entry
    case InsertEntry(pos, text) => MakeInsert(pos, text, userId, revision)
    case DeleteEntry(pos, len) => MakeDelete(pos, len, [], userId, revision)
  }

  /** Two operations make the same edit: they differ at most in the revision stamp and in the
      text a delete carries along, the two things that do not survive the wire. */
  predicate SameEdit(a: Operation, b: Operation) {
    && a.kind == b.kind && a.position == b.position && a.length == b.length && a.userId == b.userId
    && (a.kind.Insert? ==> a.text == b.text)
  }

  lemma SameEditReflexive(op: Operation)
    ensures SameEdit(op, op)
  {
  }

  /** Sending an operation and decoding it at the other end keeps the edit. */
  lemma EntryRoundTrip(op: Operation, revision: nat)
    requires op.WellFormed()
    ensures SameEdit(op, FromEntry(ToEntry(op), op.userId, revision))
    ensures FromEntry(ToEntry(op), op.userId, revision).WellFormed()
    ensures ToEntry(FromEntry(ToEntry(op), op.userId, revision)) == ToEntry(op)
  {
  }
}
