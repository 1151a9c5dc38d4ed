/** database/core.py: the SQLite file shared by every cog, its users table,
    and the failure behaviour of a connection. */
module Core {
  import opened Text

  /** The three tables the bot's database file may hold. */
  datatype Table = Users | Balances | CommandUsage

  /** What happens to one connection opened by a database function:
      it could not be opened (get_db_connection returned None), or it opened
      and the statement with index failAt raised a storage error. Statements
      are counted from 0 in the order the function executes them, the commit
      included; an index past the function's last statement means that the
      call ran clean. A statement on a table that does not exist raises too. */
  datatype Conn = Unreachable | Open(failAt: nat)

  /** The first n statements of a call on connection c all ran. */
  predicate Reaches(c: Conn, n: nat) {
    c.Open? && n <= c.failAt
  }

  /** A snapshot of the database file: which tables exist and their rows.
      balances maps (user id, currency) to the amount; usage maps a command
      name to its usage count. */
  datatype Db = Db(
    tables: set<Table>,
    users: set<int>,
    balances: map<(int, string), int>,
    usage: map<string, int>)

  /** What every function of the bot keeps true of the file: each balance row
      belongs to a known user and is keyed by a lower-cased currency, and every
      command_usage row has been counted at least once (rows are inserted at 1
      and deleted on reset, never set to 0). */
  ghost predicate Consistent(d: Db) {
    && (forall k | k in d.balances :: k.0 in d.users && Lower(k.1) == k.1)
    && (forall n | n in d.usage :: d.usage[n] >= 1)
  }

  /** The database file. Each database function of the bot is one atomic step
      on these fields: a transaction's writes are kept pending and become the
      new field values only when its commit runs. */
  class Store {
    var tables: set<Table>
    var users: set<int>
    var balances: map<(int, string), int>
    var usage: map<string, int>

    function State(): Db
      reads this
    {
      Db(tables, users, balances, usage)
    }

    ghost predicate Valid()
      reads this
    {
      Consistent(State())
    }

    /** A new, empty database file. */
    constructor ()
      ensures State() == Db({}, {}, map[], map[])
      ensures Valid()
    {
      tables, users, balances, usage := {}, {}, map[], map[];
    }
  }

  /** _ensure_user_exists: INSERT OR IGNORE into users, applied to a
      transaction's pending users. Afterwards the id is present and no other
      id was added or removed. */
  function EnsureUserExists(users: set<int>, userId: int): (r: set<int>)
    ensures userId in r
    ensures users <= r && r - users <= {userId}
  {
    users + {userId}
  }

  /** Inserting a user that is already present changes nothing. */
  lemma EnsureUserIdempotent(users: set<int>, userId: int)
    ensures EnsureUserExists(EnsureUserExists(users, userId), userId) == EnsureUserExists(users, userId)
    ensures userId in users ==> EnsureUserExists(users, userId) == users
  {
  }

  /** initialize_database: CREATE TABLE IF NOT EXISTS users (statement 0),
      then commit (1). Python's sqlite3 opens a transaction only before
      INSERT/UPDATE/DELETE, so the CREATE takes effect as soon as it runs. */
  function InitializeDatabaseSpec(d: Db, c: Conn): (r: Db)
    ensures r.users == d.users && r.balances == d.balances && r.usage == d.usage
    ensures r.tables - d.tables <= {Users} && d.tables <= r.tables
    ensures Users in r.tables <==> Users in d.tables || Reaches(c, 1)
  {
    if Reaches(c, 1) then d.(tables := d.tables + {Users}) else d
  }

  method InitializeDatabase(db: Store, c: Conn)
    requires db.Valid()
    modifies db
    ensures db.Valid()
    ensures db.State() == InitializeDatabaseSpec(old(db.State()), c)
  {
    if c.Unreachable? { return; }   // logged as critical
    if c.failAt == 0 { return; }    // the CREATE raised
    db.tables := db.tables + {Users};
  }

  /** Running initialize_database again does not change what the first run
      did (CREATE TABLE IF NOT EXISTS). */
  lemma InitializeDatabaseIdempotent(d: Db, c1: Conn, c2: Conn)
    requires Reaches(c1, 1)
    ensures InitializeDatabaseSpec(InitializeDatabaseSpec(d, c1), c2) == InitializeDatabaseSpec(d, c1)
  {
  }

  /** get_total_users: SELECT COUNT(user_id) (statement 0); 0 when the
      connection cannot be opened or the query raises. */
  method GetTotalUsers(db: Store, c: Conn) returns (n: int)
    ensures Reaches(c, 1) && Users in db.tables ==> n == |db.users|
    ensures !(Reaches(c, 1) && Users in db.tables) ==> n == 0
  {
    if c.Unreachable? { return 0; }
    if c.failAt == 0 || Users !in db.tables { return 0; }
    n := |db.users|;
  }
}
