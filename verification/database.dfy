/** A database handle of server/src/db/database.py. It is a root connection of its own,
    bound to `db=name`, and keeps a cache from table name to either a placeholder or a
    materialised table. The server is the list of table names of that database; it is read
    through the statements the handle sends. */
module Databases {
  import opened Wrappers
  import opened Py
  import opened OrderedDict
  import opened Connection
  import opened Catalog
  import Tables
  import Schema
  import Sql
  import Strings

  datatype DataBase = DataBase(name: string, guard: Guard, cache: Cache<Tables.TableRef>, nextId: nat)

  /** The cache is a well-formed dict, every table in it is filed under its own name, and
      every table id is below the next one to hand out. */
  predicate Inv(d: DataBase) {
    && Valid(d.cache)
    && (forall k :: k in d.cache.items && d.cache.items[k].Handle? ==>
          d.cache.items[k].handle.name == k && d.cache.items[k].handle.id < d.nextId)
  }

  /** `DataBase(name, config)`: a root whose `connect` is partially applied to `db=name`. */
  function Open(name: string, config: Config): (d: DataBase)
    ensures Inv(d) && d.cache.keys == [] && d.name == name
    ensures d.guard.isRoot && d.guard.sync.None? && d.guard.async.None?
    ensures d.guard.config == config && d.guard.bound == map["db" := PyStr(name)]
  {
    DataBase(name, Root(config, map["db" := PyStr(name)]), Empty(), 0)
  }

  /** The first operation on a fresh handle opens a link to its own database, with the
      configuration's credentials. */
  lemma OpenConnectsToItself(name: string, config: Config, s: Surface)
    ensures var g := Connect(Open(name, config).guard, s, map[]);
      && Slot(g, s).Some? && Slot(g, s).value.open
      && Slot(g, s).value.args["db"] == PyStr(name)
      && Slot(g, s).value.args == map["db" := PyStr(name)] + Dump(config)
  {
    DriverArgsMerge(map["db" := PyStr(name)], config);
  }

  // ---------------------------------------------------------------------------
  // The server

  /** How the server treats the statements a database handle sends, over its table names.
      An empty column list is a syntax error in MySQL's CREATE TABLE grammar. */
  function Serve(tables: seq<string>, sql: string): (r: (seq<string>, Result<seq<string>, DbError>))
    requires Distinct(tables)
    ensures Distinct(r.0)
  {
    match Schema.Classify(sql)
    case ShowTables => (tables, Ok(tables))
    case CreateTable(n, fields) =>
      if |fields| == 0 then (tables, Err(ServerError(1064))) else (AddName(tables, n), Ok([]))
    case DropTable(n) =>
      if n in tables then (RemoveName(tables, n), Ok([])) else (tables, Err(ServerError(1051)))
    case _ => (tables, Err(ServerError(1064)))
  }

  /** The state after an operation, the server's table names, the statements sent, and how
      the operation ended. */
  datatype Step<T> = Step(db: DataBase, tables: seq<string>, sent: seq<string>, result: Result<T, DbError>)

  /** `@_sync_opr` / `@_async_opr`. */
  function Enter(d: DataBase, s: Surface): (r: DataBase)
    ensures r.cache == d.cache && r.nextId == d.nextId && r.name == d.name
  {
    d.(guard := Connect(d.guard, s, map[]))
  }

  /** `execute(sql)`: one statement, if the link is there and open, as the driver's
      formatting leaves it. */
  function Exec(d: DataBase, tables: seq<string>, s: Surface, sql: string): (r: Step<seq<string>>)
    requires Distinct(tables)
    ensures r.db == d && Distinct(r.tables)
    ensures r.sent == (if Usable(d.guard, s) && Strings.Format(sql).Some? then [Strings.Format(sql).value] else [])
    ensures !(Usable(d.guard, s) && Strings.Format(sql).Some?) ==> r.tables == tables && r.result.Err?
    ensures Usable(d.guard, s) && Strings.Format(sql).None? ==> r.result == Err(FormatError)
  {
    PrepareOrder(d.guard, s, sql);
    match Prepare(d.guard, s, sql)
    case Err(e) => Step(d, tables, [], Err(e))
    case Ok(q) =>
      var (t, res) := Serve(tables, q);
      Step(d, t, [q], res)
  }

  /** `_update_table`: list the tables and `setdefault` each name. */
  function UpdateTable(d: DataBase, tables: seq<string>, s: Surface): (r: Step<()>)
    requires Inv(d) && Distinct(tables)
    ensures Inv(r.db) && Distinct(r.tables) && r.tables == tables
    ensures r.db.guard == Connect(d.guard, s, map[]) && r.db.nextId == d.nextId
    ensures r.result.Err? ==> r.db.cache == d.cache
    ensures r.result.Ok? ==> r.db.cache == Refresh(d.cache, tables)
  {
    var d1 := Enter(d, s);
    var e := Exec(d1, tables, s, Schema.ShowTablesSql);
    Schema.ClassifyShowTables();
    match e.result
    case Err(err) => Step(d1, e.tables, e.sent, Err(err))
    case Ok(names) =>
      RefreshOnlyAdds(d1.cache, names);
      Step(d1.(cache := Refresh(d1.cache, names)), e.tables, e.sent, Ok(()))
  }

  /** A refresh keeps every entry as it was, adds each server name that was missing as a
      placeholder, adds nothing else, and leaves every known name where it was; after it,
      every table on the server is in the cache. */
  lemma UpdateTableOnlyAdds(d: DataBase, tables: seq<string>, s: Surface)
    requires Inv(d) && Distinct(tables)
    ensures var r := UpdateTable(d, tables, s);
      && (forall k :: k in d.cache.items ==> k in r.db.cache.items && r.db.cache.items[k] == d.cache.items[k])
      && (r.result.Ok? ==> forall i :: 0 <= i < |tables| ==> tables[i] in r.db.cache.items)
      && (forall k :: k in r.db.cache.items && k !in d.cache.items ==> k in tables && r.db.cache.items[k] == Placeholder)
      && (forall i :: 0 <= i < |d.cache.keys| ==> i < |r.db.cache.keys| && r.db.cache.keys[i] == d.cache.keys[i])
  {
    RefreshOnlyAdds(d.cache, tables);
    var r := UpdateTable(d, tables, s);
    if r.result.Ok? {
      forall i | 0 <= i < |d.cache.keys|
        ensures i < |r.db.cache.keys| && r.db.cache.keys[i] == d.cache.keys[i]
      {
        assert r.db.cache.keys[..|d.cache.keys|][i] == d.cache.keys[i];
      }
    }
  }

  /** `_create_value`: a new table, built on the links this handle holds now, filed under
      its name whatever was there before. */
  function CreateValue(d: DataBase, name: string): (r: (DataBase, Tables.TableRef))
    requires Inv(d)
    ensures Inv(r.0)
    ensures r.1 == Tables.TableRef(d.nextId, name, d.guard.sync.Some?, d.guard.async.Some?)
    ensures r.0.cache.items == d.cache.items[name := Handle(r.1)]
    ensures r.0.guard == d.guard && r.0.nextId == d.nextId + 1
  {
    var t := Tables.TableRef(d.nextId, name, d.guard.sync.Some?, d.guard.async.Some?);
    (d.(cache := Put(d.cache, name, Handle(t)), nextId := d.nextId + 1), t)
  }

  /** `create(name, **field)`: CREATE TABLE IF NOT EXISTS, refresh, then a new table. */
  function Create(d: DataBase, tables: seq<string>, s: Surface, name: string, fields: seq<Schema.Field>): (r: Step<Tables.TableRef>)
    requires Inv(d) && Distinct(tables)
    ensures Inv(r.db) && Distinct(r.tables)
  {
    var d1 := Enter(d, s);
    var e := Exec(d1, tables, s, Schema.CreateTableSql(name, fields));
    match e.result
    case Err(err) => Step(d1, e.tables, e.sent, Err(err))
    case Ok(_) =>
      var u := UpdateTable(d1, e.tables, s);
      match u.result
      case Err(err) => Step(u.db, u.tables, e.sent + u.sent, Err(err))
      case Ok(_) =>
        var (d2, t) := CreateValue(u.db, name);
        Step(d2, u.tables, e.sent + u.sent, Ok(t))
  }

  /** With a usable link and a column list the server accepts, `create` succeeds and leaves
      the table on the server; creating a table that exists leaves the server as it was. */
  lemma CreateSucceeds(d: DataBase, tables: seq<string>, s: Surface, name: string, fields: seq<Schema.Field>)
    requires Inv(d) && Distinct(tables)
    requires Sql.IsName(name) && |fields| > 0
    requires forall i :: 0 <= i < |fields| ==> Schema.PlainField(fields[i])
    ensures var r := Create(d, tables, s, name, fields);
      && (r.result.Ok? <==> Usable(Connect(d.guard, s, map[]), s))
      && (r.result.Ok? ==> r.tables == AddName(tables, name))
      && (name in tables ==> r.tables == tables)
  {
    Schema.ClassifyCreateTable(name, fields);
    Schema.ClassifyShowTables();
  }

  /** A successful `create` files a table object that never existed before under its name,
      replacing any earlier entry, and the object holds the link of the surface it was
      created on. */
  lemma CreateReplaces(d: DataBase, tables: seq<string>, s: Surface, name: string, fields: seq<Schema.Field>)
    requires Inv(d) && Distinct(tables)
    ensures var r := Create(d, tables, s, name, fields);
      r.result.Ok? ==>
        && name in r.db.cache.items && r.db.cache.items[name] == Handle(r.result.value)
        && r.result.value.name == name && Tables.Has(r.result.value, s)
        && (forall k :: k in d.cache.items && d.cache.items[k].Handle? ==> d.cache.items[k].handle != r.result.value)
  {
    var r := Create(d, tables, s, name, fields);
    if r.result.Ok? {
      var d1 := Enter(d, s);
      assert Usable(d1.guard, s);
    }
  }

  /** `d[name] = value` creates the table with no columns, which the server refuses; the cache
      is left as it was. */
  lemma SetItemRefused(d: DataBase, tables: seq<string>, name: string)
    requires Inv(d) && Distinct(tables) && Sql.IsName(name)
    ensures var r := Create(d, tables, Sync, name, []);
      && r.result.Err? && r.db.cache == d.cache && r.tables == tables
      && (Usable(Connect(d.guard, Sync, map[]), Sync) ==> r.result == Err(ServerError(1064)))
  {
    Schema.ClassifyCreateTable(name, []);
  }

  /** `drop(name)`: DROP TABLE, refresh, then forget the name. */
  function Drop(d: DataBase, tables: seq<string>, s: Surface, name: string): (r: Step<()>)
    requires Inv(d) && Distinct(tables)
    ensures Inv(r.db) && Distinct(r.tables)
  {
    var d1 := Enter(d, s);
    var e := Exec(d1, tables, s, Schema.DropTableSql(name));
    match e.result
    case Err(err) => Step(d1, e.tables, e.sent, Err(err))
    case Ok(_) =>
      var u := UpdateTable(d1, e.tables, s);
      match u.result
      case Err(err) => Step(u.db, u.tables, e.sent + u.sent, Err(err))
      case Ok(_) =>
        Step(u.db.(cache := Evict(u.db.cache, name)), u.tables, e.sent + u.sent, Ok(()))
  }

  /** `drop` succeeds exactly when the link is usable and the server has the table. */
  lemma DropSucceeds(d: DataBase, tables: seq<string>, s: Surface, name: string)
    requires Inv(d) && Distinct(tables) && Sql.IsName(name)
    ensures Drop(d, tables, s, name).result.Ok? <==> Usable(Connect(d.guard, s, map[]), s) && name in tables
  {
    Schema.ClassifyDropTable(name);
    Schema.ClassifyShowTables();
  }

  /** A successful `drop` removes the name from both the server and the cache and touches no
      other entry. */
  lemma DropEvicts(d: DataBase, tables: seq<string>, s: Surface, name: string)
    requires Inv(d) && Distinct(tables) && Sql.IsName(name)
    ensures var r := Drop(d, tables, s, name);
      r.result.Ok? ==>
        && name !in r.tables && name !in r.db.cache.items
        && (forall k :: k in d.cache.items && k != name ==> k in r.db.cache.items && r.db.cache.items[k] == d.cache.items[k])
  {
    var r := Drop(d, tables, s, name);
    if r.result.Ok? {
      var d1 := Enter(d, s);
      var e := Exec(d1, tables, s, Schema.DropTableSql(name));
      var u := UpdateTable(d1, e.tables, s);
      assert r == Step(u.db.(cache := Evict(u.db.cache, name)), u.tables, e.sent + u.sent, Ok(()));
      ExecDrop(d1, tables, s, name);
      RefreshOnlyAdds(d.cache, e.tables);
    }
  }

  /** A DROP the server accepts named one of its tables, and that name is gone afterwards. */
  lemma ExecDrop(d: DataBase, tables: seq<string>, s: Surface, name: string)
    requires Distinct(tables) && Sql.IsName(name)
    ensures var e := Exec(d, tables, s, Schema.DropTableSql(name));
      e.result.Ok? ==> name in tables && name !in e.tables && forall x :: x in e.tables ==> x in tables
  {
    Schema.ClassifyDropTable(name);
  }

  /** A failed `drop` leaves the cache and the server as they were; dropping a table the
      server does not have fails with 1051. */
  lemma DropFailsCleanly(d: DataBase, tables: seq<string>, s: Surface, name: string)
    requires Inv(d) && Distinct(tables) && Sql.IsName(name)
    ensures var r := Drop(d, tables, s, name);
      && (r.result.Err? ==> r.db.cache == d.cache && r.tables == tables)
      && (Usable(Connect(d.guard, s, map[]), s) && name !in tables ==> r.result == Err(ServerError(1051)))
  {
    Schema.ClassifyDropTable(name);
    Schema.ClassifyShowTables();
  }

  /** `exists(name)`: refresh, then look in the cache. */
  function Exists(d: DataBase, tables: seq<string>, s: Surface, name: string): (r: Step<bool>)
    requires Inv(d) && Distinct(tables)
    ensures Inv(r.db) && r.tables == tables
  {
    var u := UpdateTable(d, tables, s);
    match u.result
    case Err(err) => Step(u.db, u.tables, u.sent, Err(err))
    case Ok(_) => Step(u.db, u.tables, u.sent, Ok(name in u.db.cache.items))
  }

  /** `exists` answers whether the name was cached before or is on the server now, so a name
      once cached stays "existing" after the table is dropped behind the handle's back (by
      the table object itself, say). */
  lemma ExistsRemembers(d: DataBase, tables: seq<string>, s: Surface, name: string)
    requires Inv(d) && Distinct(tables)
    ensures var r := Exists(d, tables, s, name);
      && (r.result.Ok? <==> Usable(Connect(d.guard, s, map[]), s))
      && (r.result.Ok? ==> r.result.value == (name in d.cache.items || name in tables))
  {
    RefreshOnlyAdds(d.cache, tables);
    Schema.ClassifyShowTables();
  }

  /** The table object's own `drop` takes the name off the server, yet the handle that made
      it still reports the table as existing. */
  lemma ExistsAfterTableDrop(d: DataBase, tables: seq<string>, owner: Guard, server: Tables.Server, name: string)
    requires Inv(d) && Distinct(tables) && Sql.IsName(name)
    requires name in d.cache.items && d.cache.items[name].Handle?
    ensures var t := d.cache.items[name].handle;
      var sent := Tables.Drop(t, d.guard, Sync, server).sent;
      var after := if |sent| == 1 then Serve(tables, sent[0]).0 else tables;
      && (|sent| == 1 ==> name !in after)
      && (Exists(d, after, Sync, name).result.Ok? ==> Exists(d, after, Sync, name).result.value)
  {
    var t := d.cache.items[name].handle;
    Tables.DropSends(t, d.guard, Sync, server);
    Schema.ClassifyDropTable(name);
    var sent := Tables.Drop(t, d.guard, Sync, server).sent;
    var after := if |sent| == 1 then Serve(tables, sent[0]).0 else tables;
    ExistsRemembers(d, after, Sync, name);
    if |sent| == 1 {
      assert sent[0] in sent;
    }
  }

  // ---------------------------------------------------------------------------
  // The mapping protocol

  /** `d[name]`: the cached table, without refreshing; a placeholder or an unknown name gives `None`. */
  function GetItem(d: DataBase, name: string): Option<Tables.TableRef> {
    match Get(d.cache, name)
    case Some(e) => if e.Handle? then Some(e.handle) else None
    case None => None
  }

  lemma GetItemReadsCache(d: DataBase, name: string, t: Tables.TableRef)
    ensures GetItem(d, name) == Some(t) <==> name in d.cache.items && d.cache.items[name] == Handle(t)
    ensures GetItem(d, name) == None <==> name !in d.cache.items || d.cache.items[name] == Placeholder
  {
  }

  /** `iter(d)`: refresh, then the cache's keys in insertion order. */
  function Iter(d: DataBase, tables: seq<string>): (r: Step<seq<string>>)
    requires Inv(d) && Distinct(tables)
    ensures Inv(r.db)
  {
    var u := UpdateTable(d, tables, Sync);
    match u.result
    case Err(err) => Step(u.db, u.tables, u.sent, Err(err))
    case Ok(_) => Step(u.db, u.tables, u.sent, Ok(u.db.cache.keys))
  }

  /** `len(d)`: refresh, then the number of cached names. */
  function Len(d: DataBase, tables: seq<string>): (r: Step<nat>)
    requires Inv(d) && Distinct(tables)
    ensures Inv(r.db)
  {
    var u := UpdateTable(d, tables, Sync);
    match u.result
    case Err(err) => Step(u.db, u.tables, u.sent, Err(err))
    case Ok(_) => Step(u.db, u.tables, u.sent, Ok(|u.db.cache.keys|))
  }

  /** Iteration lists every table on the server and every name cached before, the latter
      first and in their order, without repetition; `len` is the length of that listing and
      so at least the number of tables on the server. */
  lemma IterCoversServer(d: DataBase, tables: seq<string>)
    requires Inv(d) && Distinct(tables)
    ensures var r := Iter(d, tables);
      r.result.Ok? ==>
        && Distinct(r.result.value)
        && (forall i :: 0 <= i < |tables| ==> tables[i] in r.result.value)
        && |d.cache.keys| <= |r.result.value| && r.result.value[..|d.cache.keys|] == d.cache.keys
        && Len(d, tables).result == Ok(|r.result.value|)
        && |tables| <= |r.result.value|
  {
    var r := Iter(d, tables);
    if r.result.Ok? {
      RefreshOnlyAdds(d.cache, tables);
      var keys := r.result.value;
      forall i | 0 <= i < |tables|
        ensures tables[i] in keys
      {
        assert tables[i] in r.db.cache.items;
      }
      DistinctSubset(tables, keys);
    }
  }

  /** A list without repetition whose elements all occur in another such list is no longer. */
  lemma DistinctSubset(a: seq<string>, b: seq<string>)
    requires Distinct(a) && Distinct(b)
    requires forall i :: 0 <= i < |a| ==> a[i] in b
    ensures |a| <= |b|
  {
    DistinctCard(a);
    DistinctCard(b);
    var sa, sb := set x | x in a, set x | x in b;
    assert sa <= sb;
    SubsetCard(sa, sb);
  }

  lemma {:induction false} DistinctCard(a: seq<string>)
    requires Distinct(a)
    ensures |set x | x in a| == |a|
    decreases |a|
  {
    if |a| > 0 {
      DistinctCard(a[1..]);
      assert (set x | x in a) == (set x | x in a[1..]) + {a[0]};
      assert a[0] !in a[1..];
    }
  }

  lemma SubsetCard(x: set<string>, y: set<string>)
    requires x <= y
    ensures |x| <= |y|
  {
    assert y == x + (y - x);
  }

  /** `d[name] = value`: `create(name)` with no columns; the value is ignored. */
  function SetItem(d: DataBase, tables: seq<string>, name: string, value: Value): (r: Step<()>)
    requires Inv(d) && Distinct(tables)
    ensures Inv(r.db)
  {
    var c := Create(d, tables, Sync, name, []);
    Step(c.db, c.tables, c.sent, if c.result.Ok? then Ok(()) else Err(c.result.error))
  }

  /** `del d[name]`: `drop(name)`. */
  function DelItem(d: DataBase, tables: seq<string>, name: string): (r: Step<()>)
    requires Inv(d) && Distinct(tables)
    ensures Inv(r.db)
  {
    Drop(d, tables, Sync, name)
  }

  /** Assigning through the mapping never succeeds and never changes the cache, whatever the
      value; deleting through it is `drop` on the synchronous link. */
  lemma MappingWrites(d: DataBase, tables: seq<string>, name: string, v1: Value, v2: Value)
    requires Inv(d) && Distinct(tables) && Sql.IsName(name)
    ensures SetItem(d, tables, name, v1) == SetItem(d, tables, name, v2)
    ensures SetItem(d, tables, name, v1).result.Err? && SetItem(d, tables, name, v1).db.cache == d.cache
    ensures DelItem(d, tables, name).result.Ok? ==> name !in DelItem(d, tables, name).db.cache.items
  {
    SetItemRefused(d, tables, name);
    DropEvicts(d, tables, Sync, name);
  }
}
