/**
 * The service's database handles (`alDBHandlers.py`): a handle keeps a
 * connection and a cursor, reconnects when a cursor is asked for and the
 * connection is missing or closed, and closes the connection with the
 * cursor unless it was made persistent.
 *
 * Connections and cursors are tracked by state only; a connection is
 * named by the number of connections the handle had made before it, so
 * that a cursor can be told apart from one of an earlier connection.
 */
module DbHandle {
  import opened Fallible
  import opened GlueTypes
  import opened Sql

  /** The busy timeout, in seconds, every connection is opened with. */
  const ConnectTimeout: real := 45.0

  const AbstractBaseMessage: string := "Use of Abstract Base Class for ALDBHandle"

  /** The configuration entries a handle reads: `DatabaseURL` and `DatabaseMode`. */
  datatype DbConfig = DbConfig(url: string, mode: int)

  datatype Conn = NoConn | Open(url: string, timeout: real, serial: nat) | Closed(serial: nat)

  datatype Cursor = NoCursor | CursorOpen(serial: nat) | CursorClosed(serial: nat)

  /** The class a handle was built from: the abstract base raises on every operation. */
  datatype Backend = AbstractBase | SQLite

  datatype Handle = Handle(backend: Backend, url: string, persistent: bool, conn: Conn, cursor: Cursor, connects: nat)

  /** A statement as handed to the driver: without arguments, or with a tuple of them. */
  datatype Statement = Plain(sql: string) | WithArgs(query: Query)

  /** `ALDBHandle.__init__`: no connection and no cursor yet. */
  function NewHandle(backend: Backend, cfg: DbConfig, persistent: bool): (h: Handle)
    ensures h.conn == NoConn && h.cursor == NoCursor && h.connects == 0
    ensures h.url == cfg.url && h.persistent == persistent && h.backend == backend
  {
    Handle(backend, cfg.url, persistent, NoConn, NoCursor, 0)
  }

  /** `getDBHandle`: only SQLite is supported; MySQL and anything else raise. */
  function GetDbHandle(cfg: DbConfig, persistent: bool): (r: Result<Handle>)
    ensures r.Ok? <==> cfg.mode == DatabaseModeCode(Sqlite)
    ensures r.Ok? ==> r.value == NewHandle(SQLite, cfg, persistent)
  {
    if cfg.mode == DatabaseModeCode(Sqlite) then Ok(NewHandle(SQLite, cfg, persistent))
    else if cfg.mode == DatabaseModeCode(MySql) then Err("Using Unsupported Database Type")
    else Err("Using Unsupported Database Type")
  }

  /** Whether the handle holds a usable cursor: open, and on the connection that is open now. */
  predicate Usable(h: Handle)
  {
    h.cursor.CursorOpen? && h.conn.Open? && h.cursor.serial == h.conn.serial
  }

  /**
   * `openCursor`: asking the connection for a cursor fails when there is
   * no connection or it was closed, and the handler then connects anew
   * with the 45-second timeout.
   */
  function OpenCursor(h: Handle): (r: Result<Handle>)
    ensures h.backend.AbstractBase? ==> r == Err(AbstractBaseMessage)
    ensures r.Ok? <==> h.backend.SQLite?
    ensures r.Ok? ==> Usable(r.value)
    ensures r.Ok? && !h.conn.Open? ==> r.value.conn == Open(h.url, ConnectTimeout, h.connects)
    ensures r.Ok? ==> r.value.connects == if h.conn.Open? then h.connects else h.connects + 1
    ensures r.Ok? && h.conn.Open? ==> r.value.conn == h.conn
    ensures r.Ok? ==> r.value.persistent == h.persistent && r.value.url == h.url && r.value.backend == h.backend
  {
    if h.backend.AbstractBase? then Err(AbstractBaseMessage)
    else if h.conn.Open? then Ok(h.(cursor := CursorOpen(h.conn.serial)))
    else
      var c := Open(h.url, ConnectTimeout, h.connects);
      Ok(h.(conn := c, cursor := CursorOpen(c.serial), connects := h.connects + 1))
  }

  /**
   * `execute`: without arguments the statement text goes alone, with
   * arguments (even an empty tuple) it goes with them; it fails without
   * a usable cursor.
   */
  function Execute(h: Handle, sql: string, args: Option<seq<SqlValue>>): (r: Result<Statement>)
    ensures h.backend.AbstractBase? ==> r == Err(AbstractBaseMessage)
    ensures r.Ok? <==> h.backend.SQLite? && Usable(h)
    ensures r.Ok? && args.None? ==> r.value == Plain(sql)
    ensures r.Ok? && args.Some? ==> r.value == WithArgs(Query(sql, args.value))
  {
    if h.backend.AbstractBase? then Err(AbstractBaseMessage)
    else if !Usable(h) then Err("no usable cursor")
    else if args.None? then Ok(Plain(sql))
    else Ok(WithArgs(Query(sql, args.value)))
  }

  /** `closeCursor`: closes the cursor, and the connection too unless the handle is persistent. */
  function CloseCursor(h: Handle): (r: Result<Handle>)
    ensures h.backend.AbstractBase? ==> r == Err(AbstractBaseMessage)
    ensures r.Ok? <==> h.backend.SQLite? && !h.cursor.NoCursor? && (h.persistent || !h.conn.NoConn?)
    ensures r.Ok? ==> !Usable(r.value) && r.value.connects == h.connects
    ensures r.Ok? ==> (r.value.conn.Open? <==> h.persistent && h.conn.Open?)
    ensures r.Ok? ==> r.value.persistent == h.persistent && r.value.url == h.url && r.value.backend == h.backend
  {
    if h.backend.AbstractBase? then Err(AbstractBaseMessage)
    else if h.cursor.NoCursor? then Err("no cursor to close")
    else
      var closed := h.(cursor := CursorClosed(h.cursor.serial));
      if h.persistent then Ok(closed)
      else if h.conn.NoConn? then Err("no connection to close")
      else Ok(closed.(conn := Closed(h.conn.serial)))
  }

  /** `commit`: needs an open connection. */
  function Commit(h: Handle): (r: Result<Handle>)
    ensures h.backend.AbstractBase? ==> r == Err(AbstractBaseMessage)
    ensures r.Ok? <==> h.backend.SQLite? && h.conn.Open?
    ensures r.Ok? ==> r.value == h
  {
    if h.backend.AbstractBase? then Err(AbstractBaseMessage)
    else if !h.conn.Open? then Err("commit without an open connection")
    else Ok(h)
  }

  /** `closeDB`: closes the connection; closing one already closed changes nothing. */
  function CloseDb(h: Handle): (r: Result<Handle>)
    ensures h.backend.AbstractBase? ==> r == Err(AbstractBaseMessage)
    ensures r.Ok? <==> h.backend.SQLite? && !h.conn.NoConn?
    ensures r.Ok? ==> !r.value.conn.Open? && r.value.connects == h.connects
  {
    if h.backend.AbstractBase? then Err(AbstractBaseMessage)
    else match h.conn
      case NoConn => Err("no connection to close")
      case Open(_, _, serial) => Ok(h.(conn := Closed(serial)))
      case Closed(_) => Ok(h)
  }

  /** The service's access pattern: open a cursor, run a statement, close the cursor. */
  function Session(h: Handle, sql: string, args: Option<seq<SqlValue>>): (r: Result<(Handle, Statement)>)
    ensures h.backend.SQLite? ==> r.Ok?
  {
    match OpenCursor(h)
    case Err(e) => Err(e)
    case Ok(h1) =>
      match Execute(h1, sql, args)
      case Err(e) => Err(e)
      case Ok(st) =>
        match CloseCursor(h1)
        case Err(e) => Err(e)
        case Ok(h2) => Ok((h2, st))
  }

  /** `n` sessions in a row with the same statement. */
  function Sessions(h: Handle, n: nat, sql: string): Result<Handle>
    decreases n
  {
    if n == 0 then Ok(h)
    else match Session(h, sql, None)
      case Err(e) => Err(e)
      case Ok(p) => Sessions(p.0, n - 1, sql)
  }

  /**
   * Over `n` sessions a persistent handle connects once and keeps that
   * connection open; a non-persistent one connects once per session and
   * ends with its connection closed.
   */
  lemma {:induction false} SessionsConnect(h: Handle, n: nat, sql: string)
    requires h.backend.SQLite? && n > 0
    requires h.conn.Open? ==> h.persistent
    ensures Sessions(h, n, sql).Ok?
    ensures h.persistent ==> Sessions(h, n, sql).value.connects == h.connects + (if h.conn.Open? then 0 else 1)
    ensures h.persistent ==> Sessions(h, n, sql).value.conn.Open?
    ensures !h.persistent ==> Sessions(h, n, sql).value.connects == h.connects + n
    ensures !h.persistent ==> !Sessions(h, n, sql).value.conn.Open?
    decreases n
  {
    var h2 := Session(h, sql, None).value.0;
    assert h2.backend.SQLite? && h2.persistent == h.persistent;
    if n > 1 {
      SessionsConnect(h2, n - 1, sql);
    }
  }

  /** A persistent handle opened by `getDBHandle` connects exactly once however many sessions it serves. */
  lemma PersistentConnectsOnce(cfg: DbConfig, n: nat, sql: string)
    requires cfg.mode == DatabaseModeCode(Sqlite) && n > 0
    ensures Sessions(GetDbHandle(cfg, true).value, n, sql).Ok?
    ensures Sessions(GetDbHandle(cfg, true).value, n, sql).value.connects == 1
  {
    SessionsConnect(GetDbHandle(cfg, true).value, n, sql);
  }
}
