/** database.py: the single-file database layer that predates the database/
    package. It works on the same file and the same tables. Every function
    but transfer_currency behaves exactly as its counterpart in the live
    modules, which the contracts below state by reusing their specifications;
    transfer_currency reads the payer's balance through a nested get_balance
    call on a second connection, which the first connection's write lock
    keeps from reading. */
module Legacy {
  import opened Text
  import opened Core
  import Ledger
  import Usage

  /** initialize_database: CREATE TABLE IF NOT EXISTS users (statement 0),
      balances (1) and command_usage (2), then commit (3). Each CREATE takes
      effect as soon as it runs, so a failure part-way keeps the tables
      created before it. */
  function InitializeDatabaseSpec(d: Db, c: Conn): (r: Db)
    ensures r.users == d.users && r.balances == d.balances && r.usage == d.usage
    ensures d.tables <= r.tables && r.tables <= d.tables + {Users, Balances, CommandUsage}
    ensures Reaches(c, 3) ==> {Users, Balances, CommandUsage} <= r.tables
    ensures Users in r.tables <==> Users in d.tables || Reaches(c, 1)
    ensures !Reaches(c, 1) ==> r == d
  {
    if !Reaches(c, 1) then d
    else if !Reaches(c, 2) then d.(tables := d.tables + {Users})
    else if !Reaches(c, 3) then d.(tables := d.tables + {Users, Balances})
    else d.(tables := d.tables + {Users, Balances, CommandUsage})
  }

  method InitializeDatabase(db: Store, c: Conn)
    requires db.Valid()
    modifies db
    ensures db.Valid()
    ensures db.State() == InitializeDatabaseSpec(old(db.State()), c)
  {
    if c.Unreachable? { return; }
    if c.failAt == 0 { return; }
    db.tables := db.tables + {Users};
    if c.failAt == 1 { return; }
    db.tables := db.tables + {Balances};
    if c.failAt == 2 { return; }
    db.tables := db.tables + {CommandUsage};
  }

  /** get_balance: the same statements as the live ledger's. */
  method GetBalance(db: Store, userId: int, currency: string, c: Conn) returns (balance: int)
    requires db.Valid()
    modifies db
    ensures db.Valid()
    ensures (db.State(), balance) == Ledger.GetBalanceSpec(old(db.State()), userId, currency, c)
  {
    balance := 0;
    if c.Unreachable? { return; }
    var users, balances := db.users, db.balances;
    if c.failAt == 0 || Users !in db.tables { return; }
    users := users + {userId};
    if c.failAt == 1 || Balances !in db.tables { return; }
    var key := (userId, Lower(currency));
    var commitAt := 2;
    if key in balances {
      balance := balances[key];
    } else {
      if c.failAt == 2 { return; }
      balances := balances[key := 0];
      commitAt := 3;
    }
    if c.failAt == commitAt { return; }
    LowerIdempotent(currency);
    db.users, db.balances := users, balances;
  }

  /** update_balance: the same statements as the live ledger's. */
  method UpdateBalance(db: Store, userId: int, currency: string, change: int, c: Conn)
    requires db.Valid()
    modifies db
    ensures db.Valid()
    ensures db.State() == Ledger.UpdateBalanceSpec(old(db.State()), userId, currency, change, c)
  {
    if c.Unreachable? { return; }
    if c.failAt == 0 || Users !in db.tables { return; }
    var key := (userId, Lower(currency));
    if c.failAt == 1 || Balances !in db.tables { return; }
    var balances := db.balances;
    if key !in balances { balances := balances[key := 0]; }
    if c.failAt == 2 { return; }
    balances := balances[key := balances[key] + change];
    if c.failAt == 3 { return; }
    ghost var d' := Ledger.UpdateBalanceSpec(db.State(), userId, currency, change, c);
    var users := db.users + {userId};
    assert d'.balances == balances && d'.users == users;
    LowerIdempotent(currency);
    db.users, db.balances := users, balances;
    assert db.State() == d'.(users := users, balances := balances);
  }

  /** The connection the nested get_balance of transfer_currency gets.
      Python's sqlite3 opens a transaction before the outer connection's
      first INSERT, and that INSERT takes the file's write lock whether or
      not it inserts a row. The nested call's own first INSERT then waits
      for the lock, gives up with "database is locked", rolls back and
      returns 0: its statement 0 fails. */
  const LockedOut: Conn := Open(0)

  /** transfer_currency of database.py. Outer statements: insert the payer
      (0) and the recipient (1); then the nested get_balance call on its own
      connection, which meets the outer connection's lock; then the three
      writes of Ledger.Move (2-4) and the commit (5). */
  function TransferSpec(d: Db, payerId: int, recipientId: int, amount: int, currency: string, c: Conn)
    : (Db, Ledger.TransferResult)
  {
    var cur := Lower(currency);
    if amount <= 0 then (d, Ledger.NotPositive)
    else if c.Unreachable? then (d, Ledger.NoConnection)
    else if !(Reaches(c, 2) && Users in d.tables) then (d, Ledger.StorageError)
    else
      var read := Ledger.GetBalanceSpec(d, payerId, cur, LockedOut);
      AfterRead(read.0, payerId, recipientId, amount, cur, read.1, c)
  }

  /** The rest of the legacy transfer once the nested call has returned
      `current` and left the file d1 behind. */
  function AfterRead(d1: Db, payerId: int, recipientId: int, amount: int, cur: string, current: int, c: Conn)
    : (Db, Ledger.TransferResult)
  {
    if current < amount then (d1, Ledger.Insufficient)
    else if !(Reaches(c, 6) && Balances in d1.tables) then (d1, Ledger.StorageError)
    else
      (d1.(users := EnsureUserExists(EnsureUserExists(d1.users, payerId), recipientId),
           balances := Ledger.Move(d1.balances, (payerId, cur), (recipientId, cur), amount)),
       Ledger.Transferred)
  }

  method TransferCurrency(db: Store, payerId: int, recipientId: int, amount: int, currency: string, c: Conn)
    returns (success: bool)
    requires db.Valid()
    modifies db
    ensures db.Valid()
    ensures db.State() == TransferSpec(old(db.State()), payerId, recipientId, amount, currency, c).0
    ensures success == TransferSpec(old(db.State()), payerId, recipientId, amount, currency, c).1.Transferred?
  {
    if amount <= 0 { return false; }
    if c.Unreachable? { return false; }
    success := false;
    var cur := Lower(currency);
    LowerIdempotent(currency);
    if c.failAt == 0 || Users !in db.tables { return; }
    if c.failAt == 1 { return; }
    var current := GetBalance(db, payerId, cur, LockedOut);
    success := Finish(db, payerId, recipientId, amount, cur, current, c);
  }

  /** The outer connection's statements after the nested read. */
  method Finish(db: Store, payerId: int, recipientId: int, amount: int, cur: string, current: int, c: Conn)
    returns (success: bool)
    requires db.Valid() && Lower(cur) == cur
    requires Reaches(c, 2)   // the payer and the recipient were inserted
    modifies db
    ensures db.Valid()
    ensures db.State() == AfterRead(old(db.State()), payerId, recipientId, amount, cur, current, c).0
    ensures success == AfterRead(old(db.State()), payerId, recipientId, amount, cur, current, c).1.Transferred?
  {
    success := false;
    if current < amount { return; }
    if c.failAt == 2 || Balances !in db.tables { return; }
    var pk, rk := (payerId, cur), (recipientId, cur);
    var balances := db.balances;
    if pk in balances { balances := balances[pk := balances[pk] - amount]; }
    if c.failAt == 3 { return; }
    if rk !in balances { balances := balances[rk := 0]; }
    if c.failAt == 4 { return; }
    balances := balances[rk := balances[rk] + amount];
    if c.failAt == 5 { return; }
    assert balances == Ledger.Move(old(db.balances), pk, rk, amount);
    db.users, db.balances := db.users + {payerId} + {recipientId}, balances;
    success := true;
  }

  /** Non-positive amounts are refused before any connection is opened. */
  lemma LegacyRejectsNonPositive(d: Db, payerId: int, recipientId: int, amount: int, currency: string, c: Conn)
    requires amount <= 0
    ensures TransferSpec(d, payerId, recipientId, amount, currency, c) == (d, Ledger.NotPositive)
  {
  }

  /** The nested read meets the lock: it writes nothing and returns 0,
      whatever the file holds. */
  lemma NestedReadLockedOut(d: Db, userId: int, currency: string)
    ensures Ledger.GetBalanceSpec(d, userId, currency, LockedOut) == (d, 0)
  {
  }

  /** So no legacy transfer ever goes through or changes the file: every
      positive amount that gets past the outer inserts is refused as
      insufficient, whatever the payer holds. */
  lemma LegacyRefusesEveryTransfer(d: Db, payerId: int, recipientId: int, amount: int, currency: string, c: Conn)
    ensures var (d', r) := TransferSpec(d, payerId, recipientId, amount, currency, c);
      && d' == d && !r.Transferred?
      && (amount > 0 && Reaches(c, 2) && Users in d.tables ==> r == Ledger.Insufficient)
  {
    NestedReadLockedOut(d, payerId, Lower(currency));
  }

  /** A payer holding 10 "x" who sends 5 over clean connections: the live
      transfer moves the amount, the legacy one refuses it. */
  lemma LegacyRefusesFundedPayer()
    ensures var d := Db({Users, Balances, CommandUsage}, {1}, map[(1, "x") := 10], map[]);
      && TransferSpec(d, 1, 2, 5, "x", Open(10)) == (d, Ledger.Insufficient)
      && Ledger.TransferSpec(d, 1, 2, 5, "x", Open(10)).1 == Ledger.Transferred
  {
    var d := Db({Users, Balances, CommandUsage}, {1}, map[(1, "x") := 10], map[]);
    assert Lower("x") == "x";
    LegacyRefusesEveryTransfer(d, 1, 2, 5, "x", Open(10));
  }

  /** track_command_usage: the same upsert as the stats cog's. */
  method TrackCommandUsage(db: Store, name: string, c: Conn)
    requires db.Valid()
    modifies db
    ensures db.Valid()
    ensures db.State() == Usage.TrackSpec(old(db.State()), name, c)
  {
    if c.Unreachable? { return; }
    if c.failAt == 0 || CommandUsage !in db.tables { return; }
    if c.failAt == 1 { return; }
    db.usage := db.usage[name := if name in db.usage then db.usage[name] + 1 else 1];
  }

  /** get_total_users: the same count as database/core.py's. */
  method GetTotalUsers(db: Store, c: Conn) returns (n: int)
    ensures Reaches(c, 1) && Users in db.tables ==> n == |db.users|
    ensures !(Reaches(c, 1) && Users in db.tables) ==> n == 0
  {
    n := 0;
    if c.Open? && c.failAt != 0 && Users in db.tables { n := |db.users|; }
  }

  /** get_all_command_usage: the stored map, or {} on any failure. */
  method GetAllCommandUsage(db: Store, c: Conn) returns (counts: map<string, int>)
    ensures counts == Usage.AllUsage(db.State(), c)
  {
    counts := map[];
    if c.Open? && c.failAt != 0 && CommandUsage in db.tables { counts := db.usage; }
  }

  /** reset_all_command_usage: deletes every row rather than zeroing it. */
  method ResetAllCommandUsage(db: Store, c: Conn)
    requires db.Valid()
    modifies db
    ensures db.Valid()
    ensures db.State() == Usage.ResetSpec(old(db.State()), c)
  {
    if c.Open? && c.failAt >= 2 && CommandUsage in db.tables { db.usage := map[]; }
  }
}
