/** A table handle of server/src/db/table.py. A table never connects by itself: it uses the
    links its owning database had when the table was created, and every operation sends
    one statement (two for `size`) to the server and reads the reply. The server is an
    oracle from statement text to reply. */
module Tables {
  import opened Wrappers
  import opened Py
  import opened Connection
  import opened Strings
  import opened Sql
  import Schema

  /** A table object: its identity, its name, and whether the owner's synchronous link and
      asynchronous pool existed when it was built (the constructor copies those references). */
  datatype TableRef = TableRef(id: nat, name: string, sync: bool, async: bool)

  /** What the server answers to one statement. */
  datatype Reply = Rows(rows: seq<seq<Value>>) | Refused(code: nat)

  type Server = string -> Reply

  /** The connection state a table operates with: never a root, holding the owner's link
      objects on exactly the surfaces that existed at construction. Since a link object is
      never replaced, closing it through the owner closes it for the table too. */
  function View(t: TableRef, owner: Guard): (g: Guard)
    ensures !g.isRoot
    ensures Slot(g, Sync) == (if t.sync then owner.sync else None)
    ensures Slot(g, Async) == (if t.async then owner.async else None)
  {
    Guard(false, owner.config, map[], if t.sync then owner.sync else None, if t.async then owner.async else None)
  }

  predicate Has(t: TableRef, s: Surface) {
    match s
    case Sync => t.sync
    case Async => t.async
  }

  /** The statements an operation sent, and how it ended. */
  datatype Outcome<T> = Outcome(sent: seq<string>, result: Result<T, DbError>)

  /** `execute(sql)` (or `execute_async`) after the decorator's `connect`, which does nothing
      for a table: the server sees the statement as the driver's formatting leaves it. */
  function Exec(t: TableRef, owner: Guard, s: Surface, server: Server, sql: string): (o: Outcome<seq<seq<Value>>>)
    ensures o.sent == (if Usable(View(t, owner), s) && Format(sql).Some? then [Format(sql).value] else [])
    ensures o.result.Ok? <==> Has(t, s) && Usable(owner, s) && Format(sql).Some? && server(Format(sql).value).Rows?
    ensures o.result.Ok? ==> o.result.value == server(Format(sql).value).rows
    ensures Slot(View(t, owner), s).Some? && Format(sql).None? && (s.Sync? || Usable(owner, s)) ==>
      o.result == Err(FormatError)
  {
    var g := Guarded(View(t, owner), s).0;
    PrepareOrder(g, s, sql);
    match Prepare(g, s, sql)
    case Err(e) => Outcome([], Err(e))
    case Ok(q) =>
      match server(q)
      case Rows(rows) => Outcome([q], Ok(rows))
      case Refused(code) => Outcome([q], Err(ServerError(code)))
  }

  /** A table's view of its links is not changed by its own operations, and it reaches the
      server exactly when the owner had a link on that surface at construction and that link
      is still open; a table built before the owner connected on a surface can never use it. */
  lemma TableBorrows(t: TableRef, owner: Guard, s: Surface)
    ensures Guarded(View(t, owner), s).0 == View(t, owner)
    ensures Usable(View(t, owner), s) <==> Has(t, s) && Usable(owner, s)
    ensures !Has(t, s) ==> forall server: Server, sql :: Exec(t, owner, s, server, sql) == Outcome([], Err(NoLink))
    ensures Has(t, s) && Slot(owner, s).Some? && !Slot(owner, s).value.open ==>
      forall server: Server, sql :: Exec(t, owner, s, server, sql) ==
        Outcome([], Err(if s.Sync? && Format(sql).None? then FormatError else LinkClosed))
  {
    forall server: Server, sql | Has(t, s) && Slot(owner, s).Some? && !Slot(owner, s).value.open
      ensures Exec(t, owner, s, server, sql) ==
        Outcome([], Err(if s.Sync? && Format(sql).None? then FormatError else LinkClosed))
    {
      PrepareOrder(View(t, owner), s, sql);
    }
  }

  /** Whatever an operation sends is the statement it was given, as the driver's
      formatting leaves it. */
  lemma SentIs(t: TableRef, owner: Guard, s: Surface, server: Server, sql: string)
    ensures forall q :: q in Exec(t, owner, s, server, sql).sent ==> Format(sql) == Some(q)
  {
  }

  /** An operation that ends after one statement and returns nothing. */
  function Run(t: TableRef, owner: Guard, s: Surface, server: Server, sql: string): (o: Outcome<()>)
    ensures o.sent == Exec(t, owner, s, server, sql).sent
    ensures o.result.Ok? <==> Exec(t, owner, s, server, sql).result.Ok?
  {
    var e := Exec(t, owner, s, server, sql);
    match e.result
    case Err(err) => Outcome(e.sent, Err(err))
    case Ok(_) => Outcome(e.sent, Ok(()))
  }

  // ---------------------------------------------------------------------------
  // Operations

  /** `nrow`: the first cell of the first row of `SELECT COUNT(*)`; an empty reply raises
      IndexError. */
  function NRow(t: TableRef, owner: Guard, s: Surface, server: Server): Outcome<Value> {
    var e := Exec(t, owner, s, server, Schema.CountRowsSql(t.name));
    match e.result
    case Err(err) => Outcome(e.sent, Err(err))
    case Ok(rows) =>
      if |rows| == 0 || |rows[0]| == 0 then Outcome(e.sent, Err(IndexError))
      else Outcome(e.sent, Ok(rows[0][0]))
  }

  /** `ncol`: the number of rows `SHOW COLUMNS` lists. */
  function NCol(t: TableRef, owner: Guard, s: Surface, server: Server): Outcome<nat> {
    var e := Exec(t, owner, s, server, Schema.ShowColumnsSql(t.name));
    match e.result
    case Err(err) => Outcome(e.sent, Err(err))
    case Ok(rows) => Outcome(e.sent, Ok(|rows|))
  }

  /** `size`: `nrow`, then `ncol`; a failing `nrow` stops it. */
  function Size(t: TableRef, owner: Guard, s: Surface, server: Server): Outcome<(Value, nat)> {
    var r := NRow(t, owner, s, server);
    match r.result
    case Err(err) => Outcome(r.sent, Err(err))
    case Ok(n) =>
      var c := NCol(t, owner, s, server);
      match c.result
      case Err(err) => Outcome(r.sent + c.sent, Err(err))
      case Ok(m) => Outcome(r.sent + c.sent, Ok((n, m)))
  }

  /** `nrow` counts with one statement and succeeds exactly when the reply has a first cell,
      which it returns; for a table name without `%` the statement is sent as it was built. */
  lemma NRowReadsFirstCell(t: TableRef, owner: Guard, s: Surface, server: Server)
    ensures var o := NRow(t, owner, s, server); var c := Format(Schema.CountRowsSql(t.name));
      && (o.result.Ok? <==>
            Has(t, s) && Usable(owner, s) && c.Some? && server(c.value).Rows?
            && |server(c.value).rows| > 0 && |server(c.value).rows[0]| > 0)
      && (o.result.Ok? ==> o.sent == [c.value] && o.result.value == server(c.value).rows[0][0])
      && (o.result == Err(IndexError) <==>
            Has(t, s) && Usable(owner, s) && c.Some? && server(c.value).Rows?
            && (|server(c.value).rows| == 0 || |server(c.value).rows[0]| == 0))
      && (IsName(t.name) ==> c == Some(Schema.CountRowsSql(t.name)))
  {
    if IsName(t.name) {
      assert '%' !in "SELECT COUNT(*) FROM ";
      Schema.NamedRoundTrip("SELECT COUNT(*) FROM ", t.name);
    }
  }

  /** `size` is `nrow` followed by `ncol`: it succeeds exactly when both do, with both
      values, and it sends the count before the column listing. */
  lemma SizeIsRowsThenColumns(t: TableRef, owner: Guard, s: Surface, server: Server)
    ensures var o := Size(t, owner, s, server);
      && (o.result.Ok? <==> NRow(t, owner, s, server).result.Ok? && NCol(t, owner, s, server).result.Ok?)
      && (o.result.Ok? ==> o.result.value == (NRow(t, owner, s, server).result.value, NCol(t, owner, s, server).result.value)
                           && o.sent == [Format(Schema.CountRowsSql(t.name)).value, Format(Schema.ShowColumnsSql(t.name)).value])
      && (NRow(t, owner, s, server).result.Err? ==> o.sent == NRow(t, owner, s, server).sent)
  {
  }

  /** `drop`. */
  function Drop(t: TableRef, owner: Guard, s: Surface, server: Server): Outcome<()> {
    Run(t, owner, s, server, Schema.DropTableSql(t.name))
  }

  /** `truncate`. */
  function Truncate(t: TableRef, owner: Guard, s: Surface, server: Server): Outcome<()> {
    Run(t, owner, s, server, Schema.TruncateSql(t.name))
  }

  /** `select(*column, distinct=, where=, limit=, offset=)`: the reply's rows. */
  function Select(t: TableRef, owner: Guard, s: Surface, server: Server, cols: seq<string>, distinct: bool,
                  where: Option<string>, limit: Option<int>, offset: Option<int>): Outcome<seq<seq<Value>>> {
    Exec(t, owner, s, server, SelectSql(t.name, cols, distinct, where, limit, offset))
  }

  /** `insert(**column)`. */
  function Insert(t: TableRef, owner: Guard, s: Surface, server: Server, record: Record): Outcome<()> {
    Run(t, owner, s, server, InsertSql(t.name, record))
  }

  /** `update(where, **column)`. */
  function Update(t: TableRef, owner: Guard, s: Surface, server: Server, where: Option<string>, record: Record): Outcome<()> {
    Run(t, owner, s, server, UpdateSql(t.name, where, record))
  }

  /** `delete(where)`. */
  function Delete(t: TableRef, owner: Guard, s: Surface, server: Server, where: Option<string>): Outcome<()> {
    Run(t, owner, s, server, DeleteSql(t.name, where))
  }

  /** `add_columns(**column)`. */
  function AddColumns(t: TableRef, owner: Guard, s: Surface, server: Server, fields: seq<Schema.Field>): Outcome<()> {
    Run(t, owner, s, server, Schema.AddColumnsSql(t.name, fields))
  }

  /** `modify_columns(**column)`. */
  function ModifyColumns(t: TableRef, owner: Guard, s: Surface, server: Server, fields: seq<Schema.Field>): Outcome<()> {
    Run(t, owner, s, server, Schema.ModifyColumnsSql(t.name, fields))
  }

  /** `drop_columns(*column)`. */
  function DropColumns(t: TableRef, owner: Guard, s: Surface, server: Server, cols: seq<string>): Outcome<()> {
    Run(t, owner, s, server, Schema.DropColumnsSql(t.name, cols))
  }

  /** Each one-statement operation sends a statement that reads back as exactly its request
      after the driver's formatting: the table, the columns, the clauses, the record in order,
      with every `%%` of a condition or a value text read as one `%`. A statement that does
      not format is not sent. */
  lemma SelectSends(t: TableRef, owner: Guard, s: Surface, server: Server, cols: seq<string>, distinct: bool,
                    where: Option<string>, limit: Option<int>, offset: Option<int>)
    requires IsName(t.name) && PlainColumns(cols)
    requires FormatOpt(where).Some? && FormatOpt(where).value.Some? ==> Unstopped(FormatOpt(where).value.value, SelectStops)
    ensures var o := Select(t, owner, s, server, cols, distinct, where, limit, offset);
      forall q :: q in o.sent ==>
        FormatOpt(where).Some? && DecodeSelect(q) == Some(Query(t.name, cols, distinct, FormatOpt(where).value, limit, offset))
  {
    FormatSelect(t.name, cols, distinct, where, limit, offset);
    if FormatOpt(where).Some? {
      SelectRoundTrip(t.name, cols, distinct, FormatOpt(where).value, limit, offset);
    }
    SentIs(t, owner, s, server, SelectSql(t.name, cols, distinct, where, limit, offset));
  }

  /** Column names a reader can split apart, and values that, once formatted, it can read. */
  predicate Insertable(record: Record) {
    PlainList(RecordKeys(record)) && (FormatRecord(record).Some? ==> PlainRecord(FormatRecord(record).value))
  }

  lemma InsertSends(t: TableRef, owner: Guard, s: Surface, server: Server, record: Record)
    requires IsName(t.name) && Insertable(record)
    ensures var o := Insert(t, owner, s, server, record);
      forall q :: q in o.sent ==>
        FormatRecord(record).Some? &&
        DecodeInsert(q) == Some(Insertion(t.name, RecordKeys(record), RecordTexts(FormatRecord(record).value)))
  {
    FormatInsert(t.name, record);
    if FormatRecord(record).Some? {
      InsertRoundTrip(t.name, FormatRecord(record).value);
    }
    SentIs(t, owner, s, server, InsertSql(t.name, record));
  }

  lemma UpdateSends(t: TableRef, owner: Guard, s: Surface, server: Server, where: Option<string>, record: Record)
    requires IsName(t.name)
    requires forall i :: 0 <= i < |record| ==> AssignableKey(record[i].0)
    requires FormatRecord(record).Some? ==> PlainAssignments(FormatRecord(record).value)
    ensures var o := Update(t, owner, s, server, where, record);
      forall q :: q in o.sent ==>
        FormatRecord(record).Some? && FormatOpt(where).Some? &&
        DecodeUpdate(q) == Some(Change(t.name, AssignedPairs(FormatRecord(record).value), FormatOpt(where).value))
  {
    FormatUpdate(t.name, where, record);
    if FormatRecord(record).Some? && FormatOpt(where).Some? {
      UpdateRoundTrip(t.name, FormatOpt(where).value, FormatRecord(record).value);
    }
    SentIs(t, owner, s, server, UpdateSql(t.name, where, record));
  }

  lemma DeleteSends(t: TableRef, owner: Guard, s: Surface, server: Server, where: Option<string>)
    requires IsName(t.name)
    ensures var o := Delete(t, owner, s, server, where);
      forall q :: q in o.sent ==> FormatOpt(where).Some? && DecodeDelete(q) == Some((t.name, FormatOpt(where).value))
  {
    FormatDelete(t.name, where);
    if FormatOpt(where).Some? {
      DeleteRoundTrip(t.name, FormatOpt(where).value);
    }
    SentIs(t, owner, s, server, DeleteSql(t.name, where));
  }

  lemma AddColumnsSends(t: TableRef, owner: Guard, s: Surface, server: Server, fields: seq<Schema.Field>)
    requires IsName(t.name)
    requires forall i :: 0 <= i < |fields| ==> Schema.PlainField(fields[i])
    ensures forall q :: q in AddColumns(t, owner, s, server, fields).sent ==>
      Schema.DecodeAlter(q) == Some(Schema.AddColumns(t.name, fields))
  {
    Schema.AddColumnsRoundTrip(t.name, fields);
    Schema.AlterUnformatted(t.name, fields);
    SentIs(t, owner, s, server, Schema.AddColumnsSql(t.name, fields));
  }

  lemma ModifyColumnsSends(t: TableRef, owner: Guard, s: Surface, server: Server, fields: seq<Schema.Field>)
    requires IsName(t.name)
    requires forall i :: 0 <= i < |fields| ==> Schema.PlainField(fields[i])
    ensures forall q :: q in ModifyColumns(t, owner, s, server, fields).sent ==>
      Schema.DecodeAlter(q) == Some(Schema.ModifyColumns(t.name, fields))
  {
    Schema.ModifyColumnsRoundTrip(t.name, fields);
    Schema.AlterUnformatted(t.name, fields);
    SentIs(t, owner, s, server, Schema.ModifyColumnsSql(t.name, fields));
  }

  lemma DropColumnsSends(t: TableRef, owner: Guard, s: Surface, server: Server, cols: seq<string>)
    requires IsName(t.name) && PlainList(cols)
    ensures forall q :: q in DropColumns(t, owner, s, server, cols).sent ==>
      Schema.DecodeAlter(q) == Some(Schema.DropColumns(t.name, cols))
  {
    Schema.DropColumnsRoundTrip(t.name, cols);
    Schema.DropColumnsUnformatted(t.name, cols);
    SentIs(t, owner, s, server, Schema.DropColumnsSql(t.name, cols));
  }

  /** `drop` sends a DROP TABLE of this table's name. */
  lemma DropSends(t: TableRef, owner: Guard, s: Surface, server: Server)
    requires IsName(t.name)
    ensures forall q :: q in Drop(t, owner, s, server).sent ==> Schema.Classify(q) == Schema.DropTable(t.name)
  {
    Schema.ClassifyDropTable(t.name);
    SentIs(t, owner, s, server, Schema.DropTableSql(t.name));
  }

  /** `truncate` sends a TRUNCATE TABLE of this table's name, and no other statement. */
  lemma TruncateSends(t: TableRef, owner: Guard, s: Surface, server: Server)
    requires IsName(t.name)
    ensures forall q :: q in Truncate(t, owner, s, server).sent ==>
      Schema.DecodeNamed("TRUNCATE TABLE ", q) == Some(t.name)
  {
    assert '%' !in "TRUNCATE TABLE ";
    Schema.NamedRoundTrip("TRUNCATE TABLE ", t.name);
    SentIs(t, owner, s, server, Schema.TruncateSql(t.name));
  }

  // ---------------------------------------------------------------------------
  // insert_many

  /** An insert sends its one formatted statement, or nothing when the link is missing or
      closed or the statement does not format; a successful one has sent it. */
  lemma InsertSendsOne(t: TableRef, owner: Guard, s: Surface, server: Server, r: Record)
    ensures SendsAtMost(Insert(t, owner, s, server, r), Format(InsertSql(t.name, r)))
  {
    TableBorrows(t, owner, s);
  }

  /** `insert_many(*columns)`: one `insert` per record, in order, with no batching; the first
      failure propagates and the later records are not sent. */
  method InsertMany(t: TableRef, owner: Guard, s: Surface, server: Server, records: seq<Record>)
    returns (sent: seq<string>, result: Result<(), DbError>)
    ensures |sent| <= |records|
    ensures forall j :: 0 <= j < |sent| ==> Format(InsertSql(t.name, records[j])) == Some(sent[j])
    ensures result.Ok? <==> forall j :: 0 <= j < |records| ==> Insert(t, owner, s, server, records[j]).result.Ok?
    ensures result.Ok? ==> |sent| == |records|
    ensures result.Err? ==> exists j :: (
      && 0 <= j < |records| && Insert(t, owner, s, server, records[j]).result == Err(result.error)
      && (forall i :: 0 <= i < j ==> Insert(t, owner, s, server, records[i]).result.Ok?)
      && j <= |sent| && sent[j..] == Insert(t, owner, s, server, records[j]).sent)
  {
    var stmts := seq(|records|, j requires 0 <= j < |records| => Format(InsertSql(t.name, records[j])));
    var outs := seq(|records|, j requires 0 <= j < |records| => Insert(t, owner, s, server, records[j]));
    InsertsSendAtMost(t, owner, s, server, records);
    sent, result := SendEach(stmts, outs);
  }

  lemma InsertsSendAtMost(t: TableRef, owner: Guard, s: Surface, server: Server, records: seq<Record>)
    ensures forall j :: 0 <= j < |records| ==>
      SendsAtMost(Insert(t, owner, s, server, records[j]), Format(InsertSql(t.name, records[j])))
  {
    forall j | 0 <= j < |records|
      ensures SendsAtMost(Insert(t, owner, s, server, records[j]), Format(InsertSql(t.name, records[j])))
    {
      InsertSendsOne(t, owner, s, server, records[j]);
    }
  }

  /** An outcome that sent the statement `q`, if there is one, or nothing, and sent it when it
      succeeded. */
  predicate SendsAtMost(o: Outcome<()>, q: Option<string>) {
    && (o.sent == [] || (q.Some? && o.sent == [q.value]))
    && (o.result.Ok? ==> q.Some? && o.sent == [q.value])
  }

  /** The loop of `insert_many` over the outcomes of its single statements: each is run in
      order until the first failure. */
  method SendEach(stmts: seq<Option<string>>, outs: seq<Outcome<()>>) returns (sent: seq<string>, result: Result<(), DbError>)
    requires |stmts| == |outs|
    requires forall j :: 0 <= j < |outs| ==> SendsAtMost(outs[j], stmts[j])
    ensures |sent| <= |outs|
    ensures forall j :: 0 <= j < |sent| ==> stmts[j] == Some(sent[j])
    ensures result.Ok? <==> forall j :: 0 <= j < |outs| ==> outs[j].result.Ok?
    ensures result.Ok? ==> |sent| == |outs|
    ensures result.Err? ==> exists j :: (
      && 0 <= j < |outs| && outs[j].result == Err(result.error)
      && (forall i :: 0 <= i < j ==> outs[i].result.Ok?)
      && j <= |sent| && sent[j..] == outs[j].sent)
  {
    sent := [];
    result := Ok(());
    var i := 0;
    while i < |outs|
      invariant 0 <= i <= |outs|
      invariant |sent| == i
      invariant forall j :: 0 <= j < i ==> stmts[j] == Some(sent[j])
      invariant forall j :: 0 <= j < i ==> outs[j].result.Ok?
    {
      var o := outs[i];
      if o.result.Err? {
        assert (sent + o.sent)[i..] == o.sent;
        sent := sent + o.sent;
        result := Err(o.result.error);
        return;
      }
      sent := sent + o.sent;
      i := i + 1;
    }
  }

  // ---------------------------------------------------------------------------
  // The mapping protocol

  /** `t[k]`: `select(k)`, so the key is a column name. */
  function GetItem(t: TableRef, owner: Guard, s: Surface, server: Server, key: string): Outcome<seq<seq<Value>>> {
    Select(t, owner, s, server, [key], false, None, None, None)
  }

  /** `t[w] = cols`: `update(w, **cols)`, so the key is a WHERE condition (`None` means every row). */
  function SetItem(t: TableRef, owner: Guard, s: Surface, server: Server, key: Option<string>, value: Record): Outcome<()> {
    Update(t, owner, s, server, key, value)
  }

  /** `del t[w]`: `delete(w)`. */
  function DelItem(t: TableRef, owner: Guard, s: Surface, server: Server, key: Option<string>): Outcome<()> {
    Delete(t, owner, s, server, key)
  }

  /** `len(t)`: `nrow`. */
  function Len(t: TableRef, owner: Guard, server: Server): Outcome<Value> {
    NRow(t, owner, Sync, server)
  }

  /** `iter(t)`: the rows of `select()`. */
  function Iter(t: TableRef, owner: Guard, server: Server): Outcome<seq<seq<Value>>> {
    Select(t, owner, Sync, server, [], false, None, None, None)
  }

  /** Indexing reads the key as a column of an unconditioned select, never as a condition. */
  lemma GetItemIsColumn(t: TableRef, owner: Guard, s: Surface, server: Server, key: string)
    requires IsName(t.name) && PlainColumns([key])
    ensures forall q :: q in GetItem(t, owner, s, server, key).sent ==>
      DecodeSelect(q) == Some(Query(t.name, [key], false, None, None, None))
  {
    SelectSends(t, owner, s, server, [key], false, None, None, None);
  }

  /** Assigning and deleting read the key as the WHERE condition, as the driver's formatting
      leaves it; a `None` key reaches every row. */
  lemma KeyIsCondition(t: TableRef, owner: Guard, s: Surface, server: Server, key: Option<string>, value: Record)
    requires IsName(t.name)
    requires forall i :: 0 <= i < |value| ==> AssignableKey(value[i].0)
    requires FormatRecord(value).Some? ==> PlainAssignments(FormatRecord(value).value)
    ensures forall q :: q in SetItem(t, owner, s, server, key, value).sent ==>
      FormatRecord(value).Some? && FormatOpt(key).Some? &&
      DecodeUpdate(q) == Some(Change(t.name, AssignedPairs(FormatRecord(value).value), FormatOpt(key).value))
    ensures forall q :: q in DelItem(t, owner, s, server, key).sent ==>
      FormatOpt(key).Some? && DecodeDelete(q) == Some((t.name, FormatOpt(key).value))
    ensures key.None? ==> forall q :: q in DelItem(t, owner, s, server, key).sent ==> DecodeDelete(q) == Some((t.name, None))
  {
    UpdateSends(t, owner, s, server, key, value);
    DeleteSends(t, owner, s, server, key);
  }

  /** Iterating selects every column of every row. */
  lemma IterSelectsAll(t: TableRef, owner: Guard, server: Server)
    requires IsName(t.name)
    ensures forall q :: q in Iter(t, owner, server).sent ==>
      DecodeSelect(q) == Some(Query(t.name, [], false, None, None, None))
  {
    SelectSends(t, owner, Sync, server, [], false, None, None, None);
  }

  /** `len` counts with the count statement and is the count's first cell. */
  lemma LenCounts(t: TableRef, owner: Guard, server: Server)
    ensures var o := Len(t, owner, server); var c := Format(Schema.CountRowsSql(t.name));
      o.result.Ok? ==> c.Some? && o.sent == [c.value] && server(c.value).Rows? && o.result.value == server(c.value).rows[0][0]
  {
    NRowReadsFirstCell(t, owner, Sync, server);
  }
}
