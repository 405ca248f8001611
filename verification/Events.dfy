/** Transaction ids, rows and the events carried by the relay log. */
module Events {

  /** The conventional optional value; `None` plays the part of Python's None. */
  datatype Option<+T> = None | Some(value: T)

  /** A binlog position (file, position); the file is named by its number. */
  datatype Transaction = Transaction(fileNum: nat, pos: nat)

  /** Sign of the result orders two transactions, as in the three-way comparison of the source. */
  function CompareTransactions(left: Transaction, right: Transaction): int {
    if left.fileNum != right.fileNum then left.fileNum - right.fileNum else left.pos - right.pos
  }

  predicate Before(left: Transaction, right: Transaction) {
    CompareTransactions(left, right) < 0
  }

  /** The test of the apply engine: a None position lies before every transaction. */
  predicate Covers(position: Option<Transaction>, tx: Transaction) {
    position.Some? && !Before(position.value, tx)
  }

  /** A transaction comes before another one if it is in an earlier file, or earlier in the same file. */
  lemma BeforeIff(a: Transaction, b: Transaction)
    ensures Before(a, b) <==> a.fileNum < b.fileNum || (a.fileNum == b.fileNum && a.pos < b.pos)
  {
  }

  /** A position covers what is in earlier files, and what is at or before it in its own. */
  lemma CoversIff(position: Transaction, tx: Transaction)
    ensures Covers(Some(position), tx) <==>
            tx.fileNum < position.fileNum || (tx.fileNum == position.fileNum && tx.pos <= position.pos)
    ensures !Covers(None, tx)
  {
  }

  datatype Value = Null | Int(i: int) | Text(s: string)

  type Row = seq<Value>
  type Key = seq<Value>

  /** A row change, or a statement that empties a table. */
  datatype Change =
    | Insert(table: string, rows: seq<Row>)
    | Erase(table: string, rows: seq<Row>)
    | Truncate(table: string)

  /** `recordsLen` is the length of the pickled `records` field, which drives file rotation. */
  datatype LogEvent = LogEvent(transactionId: Transaction, dbName: string, recordsLen: nat, change: Change)

  predicate StrictlyIncreasing(log: seq<LogEvent>) {
    forall i, j :: 0 <= i < j < |log| ==> Before(log[i].transactionId, log[j].transactionId)
  }

  /** A log is increasing if and only if its file numbers never fall and its positions rise within a file. */
  lemma IncreasingIff(log: seq<LogEvent>)
    ensures StrictlyIncreasing(log) <==>
            && (forall i, j :: 0 <= i < j < |log| ==> log[i].transactionId.fileNum <= log[j].transactionId.fileNum)
            && (forall i, j :: 0 <= i < j < |log| && log[i].transactionId.fileNum == log[j].transactionId.fileNum ==>
                  log[i].transactionId.pos < log[j].transactionId.pos)
  {
    forall i, j | 0 <= i < j < |log|
      ensures Before(log[i].transactionId, log[j].transactionId) <==>
              || log[i].transactionId.fileNum < log[j].transactionId.fileNum
              || (log[i].transactionId.fileNum == log[j].transactionId.fileNum
                  && log[i].transactionId.pos < log[j].transactionId.pos)
    {
      BeforeIff(log[i].transactionId, log[j].transactionId);
    }
  }
}
