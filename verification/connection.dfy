/** The connection guard every handle of server/src/db/_base.py carries: a root handle owns
    one synchronous link and one asynchronous pool, opens each lazily before an operation,
    and closes it on request or at teardown; a non-root handle only borrows its owner's. */
module Connection {
  import opened Wrappers
  import opened Py
  import Strings

  /** `BaseDBConfig`. */
  datatype Config = Config(host: string, port: int, user: string, password: string, autocommit: bool)

  /** `BaseDBConfig(host=, port=, user=, password=)`: autocommit defaults to true. */
  function MakeConfig(host: string, port: int, user: string, password: string): (c: Config)
    ensures c.autocommit
    ensures c.host == host && c.port == port && c.user == user && c.password == password
  {
    Config(host, port, user, password, true)
  }

  /** Keyword arguments; the driver reads them as a mapping, so their order does not matter. */
  type KwArgs = map<string, Value>

  const ConfigKeys: set<string> := {"host", "port", "user", "password", "autocommit"}

  /** `config.model_dump()`. */
  function Dump(c: Config): (m: KwArgs)
    ensures m.Keys == ConfigKeys
  {
    map["host" := PyStr(c.host), "port" := PyInt(c.port), "user" := PyStr(c.user),
        "password" := PyStr(c.password), "autocommit" := PyBool(c.autocommit)]
  }

  /** The arguments `connect(**kwargs)` hands to the driver: the caller's, overwritten by the
      configuration's, with `autocommit=True` added when it is still missing. */
  function DriverArgs(kwargs: KwArgs, c: Config): KwArgs {
    var merged := kwargs + Dump(c);
    if "autocommit" !in merged then merged["autocommit" := PyBool(true)] else merged
  }

  /** The configuration wins every shared key, the caller keeps every other key, and no key
      is invented; autocommit is always the configuration's, so the branch that would add
      `autocommit=True` never fires. */
  lemma DriverArgsMerge(kwargs: KwArgs, c: Config)
    ensures DriverArgs(kwargs, c).Keys == kwargs.Keys + ConfigKeys
    ensures forall k :: k in ConfigKeys ==> DriverArgs(kwargs, c)[k] == Dump(c)[k]
    ensures forall k :: k in kwargs && k !in ConfigKeys ==> DriverArgs(kwargs, c)[k] == kwargs[k]
    ensures DriverArgs(kwargs, c)["autocommit"] == PyBool(c.autocommit)
    ensures DriverArgs(kwargs, c) == kwargs + Dump(c)
  {
    assert "autocommit" in Dump(c);
  }

  datatype Surface = Sync | Async

  /** A driver connection (or pool) and whether it is still open. */
  datatype Link = Link(args: KwArgs, open: bool)

  /** The connection state of one handle. `bound` holds the keyword arguments its `connect`
      is partially applied to (database.py binds `db=name`). */
  datatype Guard = Guard(isRoot: bool, config: Config, bound: KwArgs, sync: Option<Link>, async: Option<Link>)

  function Slot(g: Guard, s: Surface): Option<Link> {
    match s
    case Sync => g.sync
    case Async => g.async
  }

  function WithSlot(g: Guard, s: Surface, l: Option<Link>): (r: Guard)
    ensures Slot(r, s) == l
    ensures r.isRoot == g.isRoot && r.config == g.config && r.bound == g.bound
  {
    match s
    case Sync => g.(sync := l)
    case Async => g.(async := l)
  }

  /** A fresh root handle: nothing is open until the first operation. */
  function Root(config: Config, bound: KwArgs): (g: Guard)
    ensures g.isRoot && g.sync.None? && g.async.None?
  {
    Guard(true, config, bound, None, None)
  }

  /** A non-root handle sharing its owner's links as they are at creation. */
  function Borrowed(owner: Guard): (g: Guard)
    ensures !g.isRoot && g.sync == owner.sync && g.async == owner.async
  {
    Guard(false, owner.config, map[], owner.sync, owner.async)
  }

  /** `connect(**kwargs)` / `connect_async(**kwargs)`. */
  function Connect(g: Guard, s: Surface, kwargs: KwArgs): Guard {
    if g.isRoot && Slot(g, s).None? then
      WithSlot(g, s, Some(Link(DriverArgs(g.bound + kwargs, g.config), true)))
    else g
  }

  /** `connect` opens a link exactly when the handle is a root with none on that surface,
      using the bound arguments, the caller's, and the configuration, in rising precedence;
      the other surface is untouched. */
  lemma ConnectOpens(g: Guard, s: Surface, kwargs: KwArgs)
    ensures var r := Connect(g, s, kwargs);
      && (Slot(r, s) != Slot(g, s) <==> g.isRoot && Slot(g, s).None?)
      && (g.isRoot && Slot(g, s).None? ==> Slot(r, s) == Some(Link(DriverArgs(g.bound + kwargs, g.config), true)))
      && Slot(r, if s.Sync? then Async else Sync) == Slot(g, if s.Sync? then Async else Sync)
      && r.isRoot == g.isRoot && r.config == g.config && r.bound == g.bound
  {
  }

  /** A second `connect` does nothing, whatever its arguments. */
  lemma ConnectIdempotent(g: Guard, s: Surface, k1: KwArgs, k2: KwArgs)
    ensures Connect(Connect(g, s, k1), s, k2) == Connect(g, s, k1)
  {
  }

  /** `close()` / `close_async()` / `terminate_async()`: the driver is told to close when
      the handle is a root holding a link on that surface; the reference itself is kept.
      The second component says whether the driver was called. */
  function Close(g: Guard, s: Surface): (Guard, bool) {
    if g.isRoot && Slot(g, s).Some? then (WithSlot(g, s, Some(Slot(g, s).value.(open := false))), true)
    else (g, false)
  }

  /** `terminate` is `close`. */
  function Terminate(g: Guard): (Guard, bool) {
    Close(g, Sync)
  }

  /** `__del__`: a root terminates its synchronous link; a non-root does nothing. */
  function Teardown(g: Guard): (Guard, bool) {
    if g.isRoot then Terminate(g) else (g, false)
  }

  /** Whether an operation on this surface can reach the server. */
  predicate Usable(g: Guard, s: Surface) {
    Slot(g, s).Some? && Slot(g, s).value.open
  }

  /** `close` keeps the link in its slot, so a later `connect` is a no-op and the handle
      can never reach the server on that surface again. */
  lemma CloseIsFinal(g: Guard, s: Surface, kwargs: KwArgs)
    requires g.isRoot && Slot(g, s).Some?
    ensures var c := Close(g, s).0;
      && Slot(c, s).Some? && !Usable(c, s)
      && Connect(c, s, kwargs) == c
      && !Usable(Connect(c, s, kwargs), s)
  {
  }

  /** Closing acts only on a root with a link; teardown of a non-root never calls the driver. */
  lemma CloseOnlyRoot(g: Guard, s: Surface)
    ensures Close(g, s).1 <==> g.isRoot && Slot(g, s).Some?
    ensures !Close(g, s).1 ==> Close(g, s).0 == g
    ensures Teardown(g).1 <==> g.isRoot && g.sync.Some?
    ensures Teardown(g).0.async == g.async
  {
  }

  /** The errors an operation can end with. */
  datatype DbError =
    | NoLink                    // the slot is empty: `None.cursor()` raises
    | LinkClosed                // the driver refuses a closed connection
    | ServerError(code: nat)    // the server refused the statement
    | IndexError                // `[0][0]` of an empty result
    | UnknownDatabase(name: string)  // `use`'s UserWarning
    | FormatError               // the driver's `query % ()` raises on a lone `%`

  /** The check an operation's `execute` makes before talking to the server. */
  function Reach(g: Guard, s: Surface): Result<(), DbError> {
    match Slot(g, s)
    case None => Err(NoLink)
    case Some(l) => if l.open then Ok(()) else Err(LinkClosed)
  }

  /** What `execute(query)` hands to the server, or the error it ends with first. Both
      surfaces need the link object (`None.cursor()` and `None.acquire()` raise). The
      driver then formats the statement, since `execute` passes an empty argument tuple
      and the drivers apply `query % args` to any tuple; the synchronous driver notices a
      closed connection only when it sends, after formatting, while a closed pool refuses
      `acquire` before anything is formatted. */
  function Prepare(g: Guard, s: Surface, sql: string): Result<string, DbError> {
    match Slot(g, s)
    case None => Err(NoLink)
    case Some(l) =>
      if s.Async? && !l.open then Err(LinkClosed)
      else
        match Strings.Format(sql)
        case None => Err(FormatError)
        case Some(q) => if l.open then Ok(q) else Err(LinkClosed)
  }

  /** A statement reaches the server, formatted, exactly when the link is usable and the
      statement formats; which error a failing `execute` raises depends on the surface only
      when the link is closed and the statement does not format. */
  lemma PrepareOrder(g: Guard, s: Surface, sql: string)
    ensures Prepare(g, s, sql).Ok? <==> Usable(g, s) && Strings.Format(sql).Some?
    ensures Prepare(g, s, sql).Ok? ==> Prepare(g, s, sql).value == Strings.Format(sql).value
    ensures Prepare(g, s, sql) == Err(NoLink) <==> Slot(g, s).None?
    ensures Prepare(g, s, sql) == Err(FormatError) <==>
      Slot(g, s).Some? && Strings.Format(sql).None? && (s.Sync? || Slot(g, s).value.open)
    ensures Prepare(g, s, sql) == Err(LinkClosed) <==>
      Slot(g, s).Some? && !Slot(g, s).value.open && (s.Async? || Strings.Format(sql).Some?)
  {
  }

  /** `@_sync_opr` / `@_async_opr`: connect first, then check the link. */
  function Guarded(g: Guard, s: Surface): (Guard, Result<(), DbError>) {
    var c := Connect(g, s, map[]);
    (c, Reach(c, s))
  }

  /** A root's guarded operation reaches the server unless its link was closed; a non-root's
      only if its borrowed link is there and open. */
  lemma GuardedReach(g: Guard, s: Surface)
    ensures Guarded(g, s).1.Ok? <==> (if g.isRoot then Slot(g, s).None? || Slot(g, s).value.open else Usable(g, s))
    ensures Guarded(g, s).1.Ok? <==> Usable(Guarded(g, s).0, s)
    ensures !g.isRoot ==> Guarded(g, s).0 == g
  {
  }
}
