/** The server handle of server/src/db/mysql.py: a root connection with a cache from database
    name to either a placeholder or a database object. Each database object is built as a
    root connection of its own. The server is the list of database names. */
module MySql {
  import opened Wrappers
  import opened Py
  import opened OrderedDict
  import opened Connection
  import opened Catalog
  import Databases
  import Schema
  import Sql
  import Strings

  /** A database object the cache hands out: its identity and the object as it was built. */
  datatype DbHandle = DbHandle(id: nat, db: Databases.DataBase)

  datatype Server = Server(guard: Guard, cache: Cache<DbHandle>, nextId: nat)

  /** The cache is a well-formed dict, every object in it is filed under its own name, and
      every id is below the next one to hand out. */
  predicate Inv(m: Server) {
    && Valid(m.cache)
    && (forall k :: k in m.cache.items && m.cache.items[k].Handle? ==>
          m.cache.items[k].handle.db.name == k && m.cache.items[k].handle.id < m.nextId)
  }

  /** pydantic rejects a configuration with a missing field. */
  datatype InitError = ValidationError

  /** `MySQL(config, host, port, user, password)`: a given configuration is used as it is;
      otherwise one is built from the four fields, all of which must be given. */
  function Init(config: Option<Config>, host: Option<string>, port: Option<int>,
                user: Option<string>, password: Option<string>): Result<Server, InitError> {
    match config
    case Some(c) => Ok(Server(Root(c, map[]), Empty(), 0))
    case None =>
      if host.Some? && port.Some? && user.Some? && password.Some? then
        Ok(Server(Root(MakeConfig(host.value, port.value, user.value, password.value), map[]), Empty(), 0))
      else Err(ValidationError)
  }

  /** A given configuration takes precedence over the separate fields, which are then ignored;
      without one, the fields make a configuration with autocommit on, or construction fails
      if any is missing. Either way the handle starts unconnected with an empty cache. */
  lemma InitPrefersConfig(config: Option<Config>, host: Option<string>, port: Option<int>,
                          user: Option<string>, password: Option<string>)
    ensures var r := Init(config, host, port, user, password);
      && (config.Some? ==> r.Ok? && r.value.guard.config == config.value)
      && (config.None? ==> (r.Ok? <==> host.Some? && port.Some? && user.Some? && password.Some?))
      && (config.None? && r.Ok? ==>
            r.value.guard.config == Config(host.value, port.value, user.value, password.value, true))
      && (r.Ok? ==> Inv(r.value) && r.value.guard.isRoot && r.value.guard.sync.None? && r.value.cache.keys == [])
  {
  }

  // ---------------------------------------------------------------------------
  // The server

  /** How the server treats the statements the handle sends, over its database names. */
  function Serve(dbs: seq<string>, sql: string): (r: (seq<string>, Result<seq<string>, DbError>))
    requires Distinct(dbs)
    ensures Distinct(r.0)
  {
    match Schema.Classify(sql)
    case ShowDatabases => (dbs, Ok(dbs))
    case CreateDatabase(n) => (AddName(dbs, n), Ok([]))
    case DropDatabase(n) =>
      if n in dbs then (RemoveName(dbs, n), Ok([])) else (dbs, Err(ServerError(1008)))
    case _ => (dbs, Err(ServerError(1064)))
  }

  datatype Step<T> = Step(m: Server, dbs: seq<string>, sent: seq<string>, result: Result<T, DbError>)

  /** `@_sync_opr` / `@_async_opr`. */
  function Enter(m: Server, s: Surface): (r: Server)
    ensures r.cache == m.cache && r.nextId == m.nextId
  {
    m.(guard := Connect(m.guard, s, map[]))
  }

  /** `execute(sql)`: one statement, if the link is there and open, as the driver's
      formatting leaves it. */
  function Exec(m: Server, dbs: seq<string>, s: Surface, sql: string): (r: Step<seq<string>>)
    requires Distinct(dbs)
    ensures r.m == m && Distinct(r.dbs)
    ensures r.sent == (if Usable(m.guard, s) && Strings.Format(sql).Some? then [Strings.Format(sql).value] else [])
    ensures !(Usable(m.guard, s) && Strings.Format(sql).Some?) ==> r.dbs == dbs && r.result.Err?
    ensures Usable(m.guard, s) && Strings.Format(sql).None? ==> r.result == Err(FormatError)
  {
    PrepareOrder(m.guard, s, sql);
    match Prepare(m.guard, s, sql)
    case Err(e) => Step(m, dbs, [], Err(e))
    case Ok(q) =>
      var (t, res) := Serve(dbs, q);
      Step(m, t, [q], res)
  }

  /** `_update_database`: list the databases and `setdefault` each name. */
  function UpdateDatabase(m: Server, dbs: seq<string>, s: Surface): (r: Step<()>)
    requires Inv(m) && Distinct(dbs)
    ensures Inv(r.m) && r.dbs == dbs
    ensures r.m.guard == Connect(m.guard, s, map[]) && r.m.nextId == m.nextId
    ensures r.sent == (if Usable(r.m.guard, s) then [Schema.ShowDatabasesSql] else [])
    ensures r.result.Ok? <==> Usable(r.m.guard, s)
    ensures r.result.Err? ==> r.m.cache == m.cache
    ensures r.result.Ok? ==> r.m.cache == Refresh(m.cache, dbs)
  {
    var m1 := Enter(m, s);
    var e := Exec(m1, dbs, s, Schema.ShowDatabasesSql);
    Schema.ClassifyShowDatabases();
    match e.result
    case Err(err) => Step(m1, e.dbs, e.sent, Err(err))
    case Ok(names) =>
      RefreshOnlyAdds(m1.cache, names);
      Step(m1.(cache := Refresh(m1.cache, names)), e.dbs, e.sent, Ok(()))
  }

  /** `_create_value`: a new database object, a root of its own with this handle's
      configuration, filed under its name whatever was there before. */
  function CreateValue(m: Server, name: string): (r: (Server, DbHandle))
    requires Inv(m)
    ensures Inv(r.0)
    ensures r.1 == DbHandle(m.nextId, Databases.Open(name, m.guard.config))
    ensures r.0.cache.items == m.cache.items[name := Handle(r.1)]
    ensures r.0.cache.keys == Put(m.cache, name, Handle(r.1)).keys
    ensures r.0.guard == m.guard && r.0.nextId == m.nextId + 1
  {
    var h := DbHandle(m.nextId, Databases.Open(name, m.guard.config));
    (m.(cache := Put(m.cache, name, Handle(h)), nextId := m.nextId + 1), h)
  }

  /** A database object shares nothing with the server handle that made it: it is a root of
      its own, holds no link yet, and has an empty cache, so closing the server handle's link
      does not close the database's. */
  lemma DatabaseIsOwnRoot(m: Server, name: string)
    requires Inv(m)
    ensures var h := CreateValue(m, name).1;
      && h.db.guard.isRoot && h.db.guard.sync.None? && h.db.guard.async.None?
      && h.db.guard.config == m.guard.config && h.db.name == name
      && Databases.Inv(h.db) && h.db.cache.keys == []
  {
  }

  // ---------------------------------------------------------------------------
  // use

  /** `use(name)`. */
  function Use(m: Server, dbs: seq<string>, s: Surface, name: string): (r: Step<DbHandle>)
    requires Inv(m) && Distinct(dbs)
    ensures Inv(r.m) && r.dbs == dbs
  {
    var m1 := Enter(m, s);
    if name in m1.cache.items then
      match m1.cache.items[name]
      case Placeholder =>
        var (m2, h) := CreateValue(m1, name);
        Step(m2, dbs, [], Ok(h))
      case Handle(h) => Step(m1, dbs, [], Ok(h))
    else
      var u := UpdateDatabase(m1, dbs, s);
      match u.result
      case Err(err) => Step(u.m, u.dbs, u.sent, Err(err))
      case Ok(_) =>
        if name !in u.m.cache.items then Step(u.m, u.dbs, u.sent, Err(UnknownDatabase(name)))
        else
          var (m2, h) := CreateValue(u.m, name);
          Step(m2, u.dbs, u.sent, Ok(h))
  }

  /** A name already materialised gives back the very object cached, without a statement
      and without touching the cache. */
  lemma UseCached(m: Server, dbs: seq<string>, s: Surface, name: string)
    requires Inv(m) && Distinct(dbs)
    requires name in m.cache.items && m.cache.items[name].Handle?
    ensures var r := Use(m, dbs, s, name);
      r.sent == [] && r.result == Ok(m.cache.items[name].handle) && r.m.cache == m.cache
  {
  }

  /** A placeholder is materialised without a statement: a new object, now cached. */
  lemma UsePlaceholder(m: Server, dbs: seq<string>, s: Surface, name: string)
    requires Inv(m) && Distinct(dbs)
    requires name in m.cache.items && m.cache.items[name] == Placeholder
    ensures var r := Use(m, dbs, s, name);
      && r.sent == [] && r.result.Ok? && r.result.value.id == m.nextId
      && r.m.cache.items == m.cache.items[name := Handle(r.result.value)]
  {
  }

  /** An unknown name costs one listing: if the server has it the name is materialised,
      otherwise `use` raises, having still cached every name the listing brought. */
  lemma UseUnknown(m: Server, dbs: seq<string>, s: Surface, name: string)
    requires Inv(m) && Distinct(dbs)
    requires name !in m.cache.items
    ensures var r := Use(m, dbs, s, name); var usable := Usable(Connect(m.guard, s, map[]), s);
      && r.sent == (if usable then [Schema.ShowDatabasesSql] else [])
      && (r.result.Ok? <==> usable && name in dbs)
      && (r.result == Err(UnknownDatabase(name)) <==> usable && name !in dbs)
      && (r.result.Ok? ==> r.result.value.id == m.nextId && r.m.cache.items[name] == Handle(r.result.value))
  {
    RefreshOnlyAdds(m.cache, dbs);
  }

  // ---------------------------------------------------------------------------
  // create, drop, exists, database_names

  /** `create(name)`: CREATE DATABASE IF NOT EXISTS, refresh, then a new object. */
  function Create(m: Server, dbs: seq<string>, s: Surface, name: string): (r: Step<DbHandle>)
    requires Inv(m) && Distinct(dbs)
    ensures Inv(r.m) && Distinct(r.dbs)
  {
    var m1 := Enter(m, s);
    var e := Exec(m1, dbs, s, Schema.CreateDatabaseSql(name));
    match e.result
    case Err(err) => Step(m1, e.dbs, e.sent, Err(err))
    case Ok(_) =>
      var u := UpdateDatabase(m1, e.dbs, s);
      match u.result
      case Err(err) => Step(u.m, u.dbs, e.sent + u.sent, Err(err))
      case Ok(_) =>
        var (m2, h) := CreateValue(u.m, name);
        Step(m2, u.dbs, e.sent + u.sent, Ok(h))
  }

  /** `create` succeeds whenever the link is usable; the server then has the name, and
      creating it again leaves the server as it was. */
  lemma CreateIdempotentOnServer(m: Server, dbs: seq<string>, s: Surface, name: string)
    requires Inv(m) && Distinct(dbs) && Sql.IsName(name)
    ensures var r := Create(m, dbs, s, name);
      && (r.result.Ok? <==> Usable(Connect(m.guard, s, map[]), s))
      && (r.result.Ok? ==> r.dbs == AddName(dbs, name))
      && (name in dbs ==> r.dbs == dbs)
  {
    Schema.ClassifyCreateDatabase(name);
    Schema.ClassifyShowDatabases();
  }

  /** A successful `create` always files a new object under the name, replacing any object
      cached before, even one `use` handed out. */
  lemma CreateReplaces(m: Server, dbs: seq<string>, s: Surface, name: string)
    requires Inv(m) && Distinct(dbs)
    ensures var r := Create(m, dbs, s, name);
      r.result.Ok? ==>
        && name in r.m.cache.items && r.m.cache.items[name] == Handle(r.result.value)
        && r.result.value.db == Databases.Open(name, m.guard.config)
        && (forall k :: k in m.cache.items && m.cache.items[k].Handle? ==> m.cache.items[k].handle != r.result.value)
  {
  }

  /** `drop(name)`: DROP DATABASE, refresh, then forget the name. */
  function Drop(m: Server, dbs: seq<string>, s: Surface, name: string): (r: Step<()>)
    requires Inv(m) && Distinct(dbs)
    ensures Inv(r.m) && Distinct(r.dbs)
  {
    var m1 := Enter(m, s);
    var e := Exec(m1, dbs, s, Schema.DropDatabaseSql(name));
    match e.result
    case Err(err) => Step(m1, e.dbs, e.sent, Err(err))
    case Ok(_) =>
      var u := UpdateDatabase(m1, e.dbs, s);
      match u.result
      case Err(err) => Step(u.m, u.dbs, e.sent + u.sent, Err(err))
      case Ok(_) => Step(u.m.(cache := Evict(u.m.cache, name)), u.dbs, e.sent + u.sent, Ok(()))
  }

  /** `drop` succeeds exactly when the link is usable and the server has the database. */
  lemma DropSucceeds(m: Server, dbs: seq<string>, s: Surface, name: string)
    requires Inv(m) && Distinct(dbs) && Sql.IsName(name)
    ensures Drop(m, dbs, s, name).result.Ok? <==> Usable(Connect(m.guard, s, map[]), s) && name in dbs
  {
    Schema.ClassifyDropDatabase(name);
    Schema.ClassifyShowDatabases();
  }

  /** A successful `drop` evicts the name from the server and the cache and touches no other
      entry. */
  lemma DropEvicts(m: Server, dbs: seq<string>, s: Surface, name: string)
    requires Inv(m) && Distinct(dbs) && Sql.IsName(name)
    ensures var r := Drop(m, dbs, s, name);
      r.result.Ok? ==>
        && name !in r.dbs && name !in r.m.cache.items
        && (forall k :: k in m.cache.items && k != name ==> k in r.m.cache.items && r.m.cache.items[k] == m.cache.items[k])
  {
    var r := Drop(m, dbs, s, name);
    if r.result.Ok? {
      var m1 := Enter(m, s);
      var e := Exec(m1, dbs, s, Schema.DropDatabaseSql(name));
      var u := UpdateDatabase(m1, e.dbs, s);
      assert r == Step(u.m.(cache := Evict(u.m.cache, name)), u.dbs, e.sent + u.sent, Ok(()));
      ExecDrop(m1, dbs, s, name);
      RefreshOnlyAdds(m.cache, e.dbs);
    }
  }

  /** A DROP the server accepts named one of its databases, and that name is gone afterwards. */
  lemma ExecDrop(m: Server, dbs: seq<string>, s: Surface, name: string)
    requires Distinct(dbs) && Sql.IsName(name)
    ensures var e := Exec(m, dbs, s, Schema.DropDatabaseSql(name));
      e.result.Ok? ==> name in dbs && name !in e.dbs && forall x :: x in e.dbs ==> x in dbs
  {
    Schema.ClassifyDropDatabase(name);
  }

  /** A failed `drop` leaves the cache and the server as they were; dropping a database the
      server does not have fails with 1008. */
  lemma DropFailsCleanly(m: Server, dbs: seq<string>, s: Surface, name: string)
    requires Inv(m) && Distinct(dbs) && Sql.IsName(name)
    ensures var r := Drop(m, dbs, s, name);
      && (r.result.Err? ==> r.m.cache == m.cache && r.dbs == dbs)
      && (Usable(Connect(m.guard, s, map[]), s) && name !in dbs ==> r.result == Err(ServerError(1008)))
  {
    Schema.ClassifyDropDatabase(name);
    Schema.ClassifyShowDatabases();
  }

  /** `exists(name)`: refresh, then look in the cache. */
  function Exists(m: Server, dbs: seq<string>, s: Surface, name: string): (r: Step<bool>)
    requires Inv(m) && Distinct(dbs)
    ensures Inv(r.m) && r.dbs == dbs
  {
    var u := UpdateDatabase(m, dbs, s);
    match u.result
    case Err(err) => Step(u.m, u.dbs, u.sent, Err(err))
    case Ok(_) => Step(u.m, u.dbs, u.sent, Ok(name in u.m.cache.items))
  }

  /** `exists` answers whether the name was cached before or is on the server now: a name
      once seen keeps existing after it is dropped by anyone else. */
  lemma ExistsRemembers(m: Server, dbs: seq<string>, s: Surface, name: string)
    requires Inv(m) && Distinct(dbs)
    ensures var r := Exists(m, dbs, s, name);
      && (r.result.Ok? <==> Usable(Connect(m.guard, s, map[]), s))
      && (r.result.Ok? ==> r.result.value == (name in m.cache.items || name in dbs))
  {
    RefreshOnlyAdds(m.cache, dbs);
  }

  /** `database_names`: refresh, then the cache's keys in insertion order. */
  function DatabaseNames(m: Server, dbs: seq<string>): (r: Step<seq<string>>)
    requires Inv(m) && Distinct(dbs)
    ensures Inv(r.m) && r.dbs == dbs
  {
    var u := UpdateDatabase(m, dbs, Sync);
    match u.result
    case Err(err) => Step(u.m, u.dbs, u.sent, Err(err))
    case Ok(_) => Step(u.m, u.dbs, u.sent, Ok(u.m.cache.keys))
  }

  /** The names listed are every name cached before, first and in their order, followed by
      the server's other names, each once. */
  lemma DatabaseNamesListing(m: Server, dbs: seq<string>)
    requires Inv(m) && Distinct(dbs)
    ensures var r := DatabaseNames(m, dbs);
      r.result.Ok? ==>
        && Distinct(r.result.value)
        && (forall i :: 0 <= i < |dbs| ==> dbs[i] in r.result.value)
        && (forall x :: x in r.result.value <==> x in m.cache.items || x in dbs)
        && |m.cache.keys| <= |r.result.value| && r.result.value[..|m.cache.keys|] == m.cache.keys
  {
    RefreshOnlyAdds(m.cache, dbs);
    var r := DatabaseNames(m, dbs);
    if r.result.Ok? {
      var c := r.m.cache;
      forall x
        ensures x in r.result.value <==> x in m.cache.items || x in dbs
      {
        if x in r.result.value {
          var i :| 0 <= i < |c.keys| && c.keys[i] == x;
        }
      }
    }
  }

  // ---------------------------------------------------------------------------
  // The mapping protocol

  /** `len(m)`: the number of names `database_names` lists. */
  function Len(m: Server, dbs: seq<string>): (r: Step<nat>)
    requires Inv(m) && Distinct(dbs)
    ensures Inv(r.m)
  {
    var n := DatabaseNames(m, dbs);
    match n.result
    case Err(err) => Step(n.m, n.dbs, n.sent, Err(err))
    case Ok(names) => Step(n.m, n.dbs, n.sent, Ok(|names|))
  }

  /** `iter(m)`: iterates `database_names`. */
  function Iter(m: Server, dbs: seq<string>): (r: Step<seq<string>>)
    requires Inv(m) && Distinct(dbs)
    ensures Inv(r.m)
  {
    DatabaseNames(m, dbs)
  }

  /** `m[name]` as written: `use(name)`, whose result is dropped for want of a `return`, so
      the value is always `None`. */
  function GetItemAsWritten(m: Server, dbs: seq<string>, name: string): (r: Step<Option<DbHandle>>)
    requires Inv(m) && Distinct(dbs)
    ensures Inv(r.m)
  {
    var u := Use(m, dbs, Sync, name);
    match u.result
    case Err(err) => Step(u.m, u.dbs, u.sent, Err(err))
    case Ok(_) => Step(u.m, u.dbs, u.sent, Ok(None))
  }

  /** Indexing as written has every effect of `use` (it materialises the name, or raises for
      an unknown one) but never yields the database object, not even for a name the server
      has. */
  lemma GetItemYieldsNothing(m: Server, dbs: seq<string>, name: string)
    requires Inv(m) && Distinct(dbs)
    ensures var g := GetItemAsWritten(m, dbs, name); var u := Use(m, dbs, Sync, name);
      && g.m == u.m && g.sent == u.sent
      && (g.result.Ok? <==> u.result.Ok?)
      && (g.result.Ok? ==> g.result.value == None)
      && (u.result.Err? ==> g.result == Err(u.result.error))
  {
  }

  /** `m[name]` as the class documentation describes it: `return self.use(name)`. */
  function GetItem(m: Server, dbs: seq<string>, name: string): (r: Step<Option<DbHandle>>)
    requires Inv(m) && Distinct(dbs)
    ensures Inv(r.m)
  {
    var u := Use(m, dbs, Sync, name);
    match u.result
    case Err(err) => Step(u.m, u.dbs, u.sent, Err(err))
    case Ok(h) => Step(u.m, u.dbs, u.sent, Ok(Some(h)))
  }

  /** A successful `use` hands out the object it leaves filed under the name. */
  lemma UseFiles(m: Server, dbs: seq<string>, s: Surface, name: string)
    requires Inv(m) && Distinct(dbs)
    ensures var r := Use(m, dbs, s, name);
      r.result.Ok? ==> name in r.m.cache.items && r.m.cache.items[name] == Handle(r.result.value)
  {
    if name in m.cache.items {
      if m.cache.items[name].Handle? {
        UseCached(m, dbs, s, name);
      } else {
        UsePlaceholder(m, dbs, s, name);
      }
    } else {
      UseUnknown(m, dbs, s, name);
    }
  }

  /** Corrected indexing has the effects of `use` and yields the database object exactly when
      `use` succeeds: the one now cached under the name. */
  lemma GetItemReturnsDatabase(m: Server, dbs: seq<string>, name: string)
    requires Inv(m) && Distinct(dbs)
    ensures var g := GetItem(m, dbs, name); var u := Use(m, dbs, Sync, name);
      && g.m == u.m && g.sent == u.sent
      && (g.result.Ok? <==> u.result.Ok?)
      && (g.result.Ok? ==> g.result.value.Some? && g.result.value.value == u.result.value
                           && g.m.cache.items[name] == Handle(g.result.value.value))
      && (u.result.Err? ==> g.result == Err(u.result.error))
  {
    UseFiles(m, dbs, Sync, name);
  }

  /** `m[name] = value`: `create(name)`; the value is ignored. */
  function SetItem(m: Server, dbs: seq<string>, name: string, value: Value): (r: Step<()>)
    requires Inv(m) && Distinct(dbs)
    ensures Inv(r.m)
  {
    var c := Create(m, dbs, Sync, name);
    Step(c.m, c.dbs, c.sent, if c.result.Ok? then Ok(()) else Err(c.result.error))
  }

  /** `del m[name]`: `drop(name)`. */
  function DelItem(m: Server, dbs: seq<string>, name: string): (r: Step<()>)
    requires Inv(m) && Distinct(dbs)
    ensures Inv(r.m)
  {
    Drop(m, dbs, Sync, name)
  }

  /** Assignment is `create` whatever the value, and `len` is the length of the listing. */
  lemma MappingIsCatalog(m: Server, dbs: seq<string>, name: string, v1: Value, v2: Value)
    requires Inv(m) && Distinct(dbs)
    ensures SetItem(m, dbs, name, v1) == SetItem(m, dbs, name, v2)
    ensures SetItem(m, dbs, name, v1).m == Create(m, dbs, Sync, name).m
    ensures Len(m, dbs).result.Ok? <==> DatabaseNames(m, dbs).result.Ok?
    ensures Len(m, dbs).result.Ok? ==> Len(m, dbs).result.value == |DatabaseNames(m, dbs).result.value|
  {
  }
}
