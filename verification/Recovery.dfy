/** Finding work that was approved and never claimed. */
module Recovery {
  import opened Prelude
  import opened Database

  /** A row of the recovery query. */
  datatype Row = Row(operation: Id, audit: Id, syscall: Id)

  datatype RecoverableOperation = RecoverableOperation(operation: Id, audit: Id, syscalls: seq<Id>)

  /** The operation is running, not yet started, and the syscall is still permitted. */
  predicate Recoverable(db: Db, syscall: Id) {
    && syscall in db.syscalls && db.syscalls[syscall].status == Permitted
    && var op := db.syscalls[syscall].operation;
       && op in db.operations && db.operations[op].state == Running
       && db.operations[op].reason == Some(PendingExecution)
       && db.operations[op].audit in db.audits
  }

  function RowFor(db: Db, syscall: Id): Row
    requires Recoverable(db, syscall)
  {
    var op := db.syscalls[syscall].operation;
    Row(op, db.operations[op].audit, syscall)
  }

  /** By `updated_at` of the operation, then `created_at` of the syscall; ties stand in any order. */
  predicate InOrder(db: Db, s: Id, t: Id)
    requires Recoverable(db, s) && Recoverable(db, t)
  {
    var a, b := db.operations[db.syscalls[s].operation].updatedAt, db.operations[db.syscalls[t].operation].updatedAt;
    a < b || (a == b && db.syscalls[s].createdAt <= db.syscalls[t].createdAt)
  }

  /** What the query may answer. */
  ghost predicate IsQueryResult(db: Db, rows: seq<Row>) {
    && (forall i | 0 <= i < |rows| :: Recoverable(db, rows[i].syscall) && rows[i] == RowFor(db, rows[i].syscall))
    && (forall s | Recoverable(db, s) :: RowFor(db, s) in rows)
    && (forall i, j | 0 <= i < j < |rows| :: rows[i].syscall != rows[j].syscall)
    && forall i, j | 0 <= i < j < |rows| :: InOrder(db, rows[i].syscall, rows[j].syscall)
  }

  /** Stands for the database engine; callers rely on the contract alone. */
  method SelectRecoverable(db: Db) returns (rows: seq<Row>)
    ensures IsQueryResult(db, rows)
  {
    rows := [];
    var left := db.syscalls.Keys;
    while left != {}
      invariant left <= db.syscalls.Keys
      invariant forall i | 0 <= i < |rows| ::
                  && Recoverable(db, rows[i].syscall) && rows[i] == RowFor(db, rows[i].syscall)
                  && rows[i].syscall !in left
      invariant forall s | Recoverable(db, s) && s !in left :: RowFor(db, s) in rows
      invariant forall i, j | 0 <= i < j < |rows| :: rows[i].syscall != rows[j].syscall
      invariant forall i, j | 0 <= i < j < |rows| :: InOrder(db, rows[i].syscall, rows[j].syscall)
      decreases left
    {
      var s :| s in left;
      left := left - {s};
      if Recoverable(db, s) {
        rows := Insert(db, rows, s);
        assert forall i | 0 <= i < |rows| :: rows[i] in rows;
      }
    }
  }

  method Insert(db: Db, rows: seq<Row>, s: Id) returns (r: seq<Row>)
    requires Recoverable(db, s)
    requires forall i | 0 <= i < |rows| ::
               Recoverable(db, rows[i].syscall) && rows[i] == RowFor(db, rows[i].syscall) && rows[i].syscall != s
    requires forall i, j | 0 <= i < j < |rows| :: rows[i].syscall != rows[j].syscall
    requires forall i, j | 0 <= i < j < |rows| :: InOrder(db, rows[i].syscall, rows[j].syscall)
    ensures forall row :: row in r <==> row == RowFor(db, s) || row in rows
    ensures forall i | 0 <= i < |r| :: Recoverable(db, r[i].syscall)
    ensures forall i, j | 0 <= i < j < |r| :: r[i].syscall != r[j].syscall
    ensures forall i, j | 0 <= i < j < |r| :: InOrder(db, r[i].syscall, r[j].syscall)
  {
    var k := 0;
    while k < |rows| && InOrder(db, rows[k].syscall, s)
      invariant k <= |rows|
      invariant forall i | 0 <= i < k :: InOrder(db, rows[i].syscall, s)
    {
      k := k + 1;
    }
    r := rows[..k] + [RowFor(db, s)] + rows[k..];
    assert rows == rows[..k] + rows[k..];
  }

  function SyscallsOf(rows: seq<Row>, op: Id): seq<Id> {
    if rows == [] then []
    else
      var last := rows[|rows| - 1];
      SyscallsOf(rows[..|rows| - 1], op) + if last.operation == op then [last.syscall] else []
  }

  ghost predicate HasGroup(grouped: seq<RecoverableOperation>, op: Id) {
    exists g :: 0 <= g < |grouped| && grouped[g].operation == op
  }

  /** The first row of an operation, or the number of rows. */
  function FirstRow(rows: seq<Row>, op: Id): (i: nat)
    ensures i <= |rows| && (i < |rows| ==> rows[i].operation == op)
    ensures forall k | 0 <= k < i :: rows[k].operation != op
  {
    if rows == [] then 0
    else
      var n := |rows| - 1;
      var i := FirstRow(rows[..n], op);
      if i < n || rows[n].operation == op then i else n + 1
  }

  /** Groups stand in the order in which their operations first occur, with the trace of that row. */
  ghost predicate GroupsInOrder(rows: seq<Row>, grouped: seq<RecoverableOperation>) {
    && (forall g | 0 <= g < |grouped| :: OpenedBy(rows, grouped[g]))
    && forall g, h | 0 <= g < h < |grouped| :: FirstRow(rows, grouped[g].operation) < FirstRow(rows, grouped[h].operation)
  }

  predicate OpenedBy(rows: seq<Row>, item: RecoverableOperation) {
    var i := FirstRow(rows, item.operation);
    i < |rows| && item.audit == rows[i].audit
  }

  lemma FirstRowStays(before: seq<Row>, row: Row, op: Id)
    requires FirstRow(before, op) < |before|
    ensures FirstRow(before + [row], op) == FirstRow(before, op)
  {
    assert (before + [row])[..|before|] == before;
  }

  lemma OrderStays(before: seq<Row>, row: Row, grouped: seq<RecoverableOperation>, after: seq<RecoverableOperation>)
    requires GroupsInOrder(before, grouped) && |after| == |grouped|
    requires forall g | 0 <= g < |grouped| ::
               after[g].operation == grouped[g].operation && after[g].audit == grouped[g].audit
    ensures GroupsInOrder(before + [row], after)
  {
    forall g | 0 <= g < |grouped|
      ensures OpenedBy(before + [row], after[g])
      ensures FirstRow(before + [row], after[g].operation) == FirstRow(before, grouped[g].operation)
    {
      assert OpenedBy(before, grouped[g]);
      FirstRowStays(before, row, grouped[g].operation);
    }
  }

  lemma OrderGrows(before: seq<Row>, row: Row, grouped: seq<RecoverableOperation>)
    requires GroupsInOrder(before, grouped) && forall i | 0 <= i < |before| :: before[i].operation != row.operation
    ensures GroupsInOrder(before + [row], grouped + [RecoverableOperation(row.operation, row.audit, [row.syscall])])
  {
    var rows, opened_ := before + [row], RecoverableOperation(row.operation, row.audit, [row.syscall]);
    OrderStays(before, row, grouped, grouped);
    assert forall k | 0 <= k < |before| :: rows[k] == before[k];
    assert FirstRow(rows, row.operation) == |before| by {
      assert rows[|before|].operation == row.operation;
    }
    assert OpenedBy(rows, opened_);
    forall g | 0 <= g < |grouped| ensures FirstRow(rows, grouped[g].operation) < |before| {
      assert OpenedBy(before, grouped[g]);
      FirstRowStays(before, row, grouped[g].operation);
    }
  }

  /** One group per operation, holding that operation's syscalls in row order. */
  ghost predicate IsGrouping(rows: seq<Row>, grouped: seq<RecoverableOperation>) {
    && (forall g | 0 <= g < |grouped| ::
          && grouped[g].syscalls == SyscallsOf(rows, grouped[g].operation)
          && grouped[g].syscalls != [])
    && (forall g, h | 0 <= g < h < |grouped| :: grouped[g].operation != grouped[h].operation)
    && (forall i | 0 <= i < |rows| :: HasGroup(grouped, rows[i].operation))
    && GroupsInOrder(rows, grouped)
  }

  lemma {:induction false} NoRowsNoSyscalls(rows: seq<Row>, op: Id)
    requires forall i | 0 <= i < |rows| :: rows[i].operation != op
    ensures SyscallsOf(rows, op) == []
  {
    if rows != [] {
      NoRowsNoSyscalls(rows[..|rows| - 1], op);
    }
  }

  lemma SyscallsOfSnoc(before: seq<Row>, row: Row, op: Id)
    ensures SyscallsOf(before + [row], op) == SyscallsOf(before, op) + if row.operation == op then [row.syscall] else []
  {
    assert (before + [row])[..|before|] == before;
  }

  lemma JoinsGroup(before: seq<Row>, grouped: seq<RecoverableOperation>, row: Row, found: nat)
    requires IsGrouping(before, grouped) && found < |grouped| && grouped[found].operation == row.operation
    ensures IsGrouping(before + [row],
                       grouped[found := grouped[found].(syscalls := grouped[found].syscalls + [row.syscall])])
  {
    var after := grouped[found := grouped[found].(syscalls := grouped[found].syscalls + [row.syscall])];
    forall g | 0 <= g < |after| ensures after[g].syscalls == SyscallsOf(before + [row], after[g].operation) {
      SyscallsOfSnoc(before, row, after[g].operation);
    }
    GroupsCover(before, grouped, after, row, found);
    OrderStays(before, row, grouped, after);
  }

  lemma OpensGroup(before: seq<Row>, grouped: seq<RecoverableOperation>, row: Row)
    requires IsGrouping(before, grouped) && !HasGroup(grouped, row.operation)
    ensures IsGrouping(before + [row], grouped + [RecoverableOperation(row.operation, row.audit, [row.syscall])])
  {
    var fresh_ := RecoverableOperation(row.operation, row.audit, [row.syscall]);
    var after := grouped + [fresh_];
    assert IsGrouping(before, grouped);
    OpenedSyscalls(before, grouped, row);
    GroupsCover(before, grouped, after, row, |grouped|);
    forall i | 0 <= i < |before| ensures before[i].operation != row.operation {
      assert HasGroup(grouped, before[i].operation);
    }
    OrderGrows(before, row, grouped);
  }

  lemma OpenedSyscalls(before: seq<Row>, grouped: seq<RecoverableOperation>, row: Row)
    requires IsGrouping(before, grouped) && !HasGroup(grouped, row.operation)
    ensures forall g | 0 <= g < |grouped| ::
              grouped[g].operation != row.operation
              && grouped[g].syscalls == SyscallsOf(before + [row], grouped[g].operation)
    ensures SyscallsOf(before + [row], row.operation) == [row.syscall]
  {
    forall g | 0 <= g < |grouped|
      ensures grouped[g].operation != row.operation
              && grouped[g].syscalls == SyscallsOf(before + [row], grouped[g].operation)
    {
      SyscallsOfSnoc(before, row, grouped[g].operation);
    }
    NoRowsNoSyscalls(before, row.operation);
    SyscallsOfSnoc(before, row, row.operation);
  }

  lemma GroupsCover(before: seq<Row>, grouped: seq<RecoverableOperation>, after: seq<RecoverableOperation>,
                    row: Row, at: nat)
    requires forall i | 0 <= i < |before| :: HasGroup(grouped, before[i].operation)
    requires |grouped| <= |after| && forall g | 0 <= g < |grouped| :: after[g].operation == grouped[g].operation
    requires at < |after| && after[at].operation == row.operation
    ensures forall i | 0 <= i < |before + [row]| :: HasGroup(after, (before + [row])[i].operation)
  {
    var rows := before + [row];
    forall i | 0 <= i < |rows| ensures HasGroup(after, rows[i].operation) {
      if i < |before| {
        assert HasGroup(grouped, before[i].operation);
        var g :| 0 <= g < |grouped| && grouped[g].operation == before[i].operation;
        assert after[g].operation == rows[i].operation;
      }
    }
  }

  /** The group of the operation, or the end. */
  method FindGroup(grouped: seq<RecoverableOperation>, op: Id) returns (found: nat)
    ensures found <= |grouped|
    ensures if found < |grouped| then grouped[found].operation == op else !HasGroup(grouped, op)
  {
    found := 0;
    while found < |grouped| && grouped[found].operation != op
      invariant found <= |grouped|
      invariant forall g | 0 <= g < found :: grouped[g].operation != op
    {
      found := found + 1;
    }
  }

  method GroupRows(rows: seq<Row>) returns (grouped: seq<RecoverableOperation>)
    ensures IsGrouping(rows, grouped)
  {
    grouped := [];
    for i := 0 to |rows|
      invariant IsGrouping(rows[..i], grouped)
    {
      var row := rows[i];
      assert rows[..i + 1] == rows[..i] + [row];
      var found := FindGroup(grouped, row.operation);
      if found < |grouped| {
        JoinsGroup(rows[..i], grouped, row, found);
        grouped := grouped[found := grouped[found].(syscalls := grouped[found].syscalls + [row.syscall])];
        continue;
      }
      OpensGroup(rows[..i], grouped, row);
      grouped := grouped + [RecoverableOperation(row.operation, row.audit, [row.syscall])];
    }
    assert rows[..|rows|] == rows;
  }

  lemma {:induction false} SyscallsOfMembers(rows: seq<Row>, op: Id, s: Id)
    ensures s in SyscallsOf(rows, op) <==> exists i :: 0 <= i < |rows| && rows[i].operation == op && rows[i].syscall == s
  {
    if rows != [] {
      var n := |rows| - 1;
      SyscallsOfMembers(rows[..n], op, s);
      assert forall i | 0 <= i < n :: rows[..n][i] == rows[i];
    }
  }

  /** A permitted syscall of a running operation that waits for execution and whose audit trace is there. */
  predicate Waits(db: Db, s: Id) {
    && s in db.syscalls && db.syscalls[s].status == Permitted && db.syscalls[s].operation in db.operations
    && var row := db.operations[db.syscalls[s].operation];
       row.state == Running && row.reason == Some(PendingExecution) && row.audit in db.audits
  }

  /** The rows come by the time their operation was last changed, and then by the time their syscall was made. */
  lemma RowsByAge(db: Db, rows: seq<Row>, i: nat, j: nat)
    requires IsQueryResult(db, rows) && i < j < |rows|
    ensures rows[i].syscall in db.syscalls && rows[j].syscall in db.syscalls
    ensures rows[i].operation == db.syscalls[rows[i].syscall].operation && rows[i].operation in db.operations
    ensures rows[j].operation == db.syscalls[rows[j].syscall].operation && rows[j].operation in db.operations
    ensures rows[i].audit == db.operations[rows[i].operation].audit
    ensures db.operations[rows[i].operation].updatedAt <= db.operations[rows[j].operation].updatedAt
    ensures db.operations[rows[i].operation].updatedAt == db.operations[rows[j].operation].updatedAt ==>
              db.syscalls[rows[i].syscall].createdAt <= db.syscalls[rows[j].syscall].createdAt
  {
    assert InOrder(db, rows[i].syscall, rows[j].syscall);
  }

  lemma GroupsCarryTraces(db: Db, rows: seq<Row>, grouped: seq<RecoverableOperation>)
    requires IsQueryResult(db, rows) && IsGrouping(rows, grouped)
    ensures forall g | 0 <= g < |grouped| ::
              grouped[g].operation in db.operations && grouped[g].audit == db.operations[grouped[g].operation].audit
  {
    forall g | 0 <= g < |grouped|
      ensures grouped[g].operation in db.operations && grouped[g].audit == db.operations[grouped[g].operation].audit
    {
      assert OpenedBy(rows, grouped[g]);
    }
  }

  /** The grouped answer holds exactly the recoverable syscalls, each under its own operation. */
  lemma GroupedIsExact(db: Db, rows: seq<Row>, grouped: seq<RecoverableOperation>, s: Id)
    requires IsQueryResult(db, rows) && IsGrouping(rows, grouped)
    ensures Recoverable(db, s) <==> exists g :: 0 <= g < |grouped| && s in grouped[g].syscalls
    ensures forall g | 0 <= g < |grouped| && s in grouped[g].syscalls ::
              s in db.syscalls && db.syscalls[s].operation == grouped[g].operation
  {
    forall g | 0 <= g < |grouped| && s in grouped[g].syscalls
      ensures Recoverable(db, s) && db.syscalls[s].operation == grouped[g].operation
    {
      SyscallsOfMembers(rows, grouped[g].operation, s);
    }
    if Recoverable(db, s) {
      var i :| 0 <= i < |rows| && rows[i] == RowFor(db, s);
      assert HasGroup(grouped, rows[i].operation);
      var g :| 0 <= g < |grouped| && grouped[g].operation == rows[i].operation;
      SyscallsOfMembers(rows, grouped[g].operation, s);
    }
  }

  lemma RecoverableExactly(db: Db, s: Id)
    ensures Recoverable(db, s) <==> Waits(db, s)
  {
  }

  /** A syscall is in the answer exactly when it waits for execution. */
  lemma GroupedWait(db: Db, rows: seq<Row>, grouped: seq<RecoverableOperation>, s: Id)
    requires IsQueryResult(db, rows) && IsGrouping(rows, grouped)
    ensures (exists g :: 0 <= g < |grouped| && s in grouped[g].syscalls) <==> Waits(db, s)
  {
    GroupedIsExact(db, rows, grouped, s);
    RecoverableExactly(db, s);
  }

  /** `s` is the only work of its operation that is left. */
  predicate OnlyWork(db: Db, s: Id) {
    Recoverable(db, s) &&
    forall t | t in db.syscalls && db.syscalls[t].operation == db.syscalls[s].operation && Recoverable(db, t) :: t == s
  }

  ghost predicate HasGroupOf(grouped: seq<RecoverableOperation>, op: Id, syscalls: seq<Id>) {
    exists g :: 0 <= g < |grouped| && grouped[g].operation == op && grouped[g].syscalls == syscalls
  }

  /** Whatever rows the query answers with, recovery executes just these syscalls for the operation. */
  ghost predicate Offers(db: Db, op: Id, syscalls: seq<Id>) {
    forall rows: seq<Row>, grouped: seq<RecoverableOperation> | IsQueryResult(db, rows) && IsGrouping(rows, grouped) ::
      HasGroupOf(grouped, op, syscalls)
  }

  lemma {:induction false} OneRowOneSyscall(rows: seq<Row>, op: Id, i: nat)
    requires i < |rows| && rows[i].operation == op
    requires forall j | 0 <= j < |rows| && rows[j].operation == op :: j == i
    ensures SyscallsOf(rows, op) == [rows[i].syscall]
  {
    var n := |rows| - 1;
    if i == n {
      NoRowsNoSyscalls(rows[..n], op);
    } else {
      OneRowOneSyscall(rows[..n], op, i);
    }
  }

  lemma OnlyWorkIsOffered(db: Db, s: Id)
    requires OnlyWork(db, s)
    ensures Offers(db, db.syscalls[s].operation, [s])
  {
    var op := db.syscalls[s].operation;
    forall rows: seq<Row>, grouped: seq<RecoverableOperation> | IsQueryResult(db, rows) && IsGrouping(rows, grouped)
      ensures HasGroupOf(grouped, op, [s])
    {
      var i :| 0 <= i < |rows| && rows[i] == RowFor(db, s);
      assert HasGroup(grouped, op);
      var g :| 0 <= g < |grouped| && grouped[g].operation == op;
      OneRowOneSyscall(rows, op, i);
    }
  }
}
