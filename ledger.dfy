/** cogs/central_bank/cog_db_functions.py: the currency ledger. Balances are
    keyed by (user id, lower-cased currency); every function is one
    transaction that commits all of its writes or none of them. */
module Ledger {
  import opened Text
  import opened Core

  // ---------------------------------------------------------------- sums

  /** The amount stored under key k, 0 when there is no row (the
      `result['amount'] if result else 0` reading). */
  function Amount(m: map<(int, string), int>, k: (int, string)): int {
    if k in m then m[k] else 0
  }

  ghost function Pick(s: set<(int, string)>): (k: (int, string))
    requires s != {}
    ensures k in s
  {
    var k :| k in s; k
  }

  /** What the row under k contributes to the total of `currency`. */
  function Share(m: map<(int, string), int>, k: (int, string), currency: string): int
    requires k in m
  {
    if k.1 == currency then m[k] else 0
  }

  /** The sum of every balance held in `currency`. */
  ghost function Total(m: map<(int, string), int>, currency: string): int
    decreases |m|
  {
    if m == map[] then 0
    else
      var k := Pick(m.Keys);
      assert |(m - {k}).Keys| == |m.Keys - {k}| == |m.Keys| - 1;
      Share(m, k, currency) + Total(m - {k}, currency)
  }

  /** The total may be computed by taking out any row first. */
  lemma {:induction false} TotalRemove(m: map<(int, string), int>, k: (int, string), currency: string)
    requires k in m
    ensures Total(m, currency) == Share(m, k, currency) + Total(m - {k}, currency)
    decreases |m|
  {
    var j := Pick(m.Keys);
    if j != k {
      assert |(m - {j}).Keys| == |m.Keys - {j}| == |m.Keys| - 1;
      TotalRemove(m - {j}, k, currency);
      TotalRemove(m - {k}, j, currency);
      assert m - {j} - {k} == m - {k} - {j};
    }
  }

  /** Writing one row changes the total of its currency by the difference
      between the new and the old amount, and no other total. */
  lemma TotalUpdate(m: map<(int, string), int>, k: (int, string), v: int, currency: string)
    ensures Total(m[k := v], currency)
         == Total(m, currency) + (if k.1 == currency then v - Amount(m, k) else 0)
  {
    var m' := m[k := v];
    TotalRemove(m', k, currency);
    if k in m {
      TotalRemove(m, k, currency);
      assert m' - {k} == m - {k};
    } else {
      assert m' - {k} == m;
    }
  }

  // ---------------------------------------------------------------- get_balance

  /** get_balance(user_id, currency) from the file d: the new file and the
      returned balance. Statements: insert the user (0), SELECT (1), insert
      the missing row at 0 (2, only when there is none), commit. */
  function GetBalanceSpec(d: Db, userId: int, currency: string, c: Conn): (Db, int)
  {
    var key := (userId, Lower(currency));
    var found := key in d.balances;
    if !(Reaches(c, 2) && Users in d.tables && Balances in d.tables) then (d, 0)
    else if !Reaches(c, if found then 3 else 4) then (d, Amount(d.balances, key))
    else
      (d.(users := EnsureUserExists(d.users, userId),
          balances := if found then d.balances else d.balances[key := 0]),
       Amount(d.balances, key))
  }

  method GetBalance(db: Store, userId: int, currency: string, c: Conn) returns (balance: int)
    requires db.Valid()
    modifies db
    ensures db.Valid()
    ensures (db.State(), balance) == GetBalanceSpec(old(db.State()), userId, currency, c)
  {
    balance := 0;
    if c.Unreachable? { return; }
    var users, balances := db.users, db.balances;   // the transaction's pending rows
    if c.failAt == 0 || Users !in db.tables { return; }
    users := EnsureUserExists(users, userId);
    var key := (userId, Lower(currency));
    if c.failAt == 1 || Balances !in db.tables { return; }
    var commitAt := 2;
    if key in balances {
      balance := balances[key];
    } else {
      if c.failAt == 2 { return; }
      balances := balances[key := 0];
      commitAt := 3;
    }
    if c.failAt == commitAt { return; }   // rollback; the amount read is still returned
    LowerIdempotent(currency);
    db.users, db.balances := users, balances;
  }

  /** get_balance returns the stored amount of (user, lower-cased currency),
      and 0 when there is no such row or the read did not happen; when it
      commits, the user is recorded and the row exists. */
  lemma GetBalanceReads(d: Db, userId: int, currency: string, c: Conn)
    ensures var (d', b) := GetBalanceSpec(d, userId, currency, c);
      && (Reaches(c, 2) && {Users, Balances} <= d.tables ==> b == Amount(d.balances, (userId, Lower(currency))))
      && (!(Reaches(c, 2) && {Users, Balances} <= d.tables) ==> b == 0 && d' == d)
      && (d' == d || (d'.users == d.users + {userId}
                      && d'.balances == d.balances[(userId, Lower(currency)) := Amount(d.balances, (userId, Lower(currency)))]))
      && d'.usage == d.usage && d'.tables == d.tables
  {
  }

  /** A balance nobody has written reads as 0, and reads as 0 again on the
      next call: the first call's inserted row holds 0. */
  lemma GetBalanceZeroTwice(d: Db, userId: int, currency: string, c1: Conn, c2: Conn)
    requires (userId, Lower(currency)) !in d.balances
    ensures GetBalanceSpec(d, userId, currency, c1).1 == 0
    ensures GetBalanceSpec(GetBalanceSpec(d, userId, currency, c1).0, userId, currency, c2).1 == 0
  {
  }

  /** "Tokens" and "tokens" name the same balance. */
  lemma CurrencyCaseInsensitive(d: Db, userId: int, c: Conn)
    ensures GetBalanceSpec(d, userId, "Tokens", c) == GetBalanceSpec(d, userId, "tokens", c)
  {
    assert Lower("Tokens") == "tokens";
    assert Lower("tokens") == "tokens";
  }

  // ---------------------------------------------------------------- update_balance

  /** update_balance(user_id, currency, amount_change). Statements: insert
      the user (0), INSERT OR IGNORE the row at 0 (1), add the change (2),
      commit (3). */
  function UpdateBalanceSpec(d: Db, userId: int, currency: string, change: int, c: Conn): Db
  {
    var key := (userId, Lower(currency));
    if Reaches(c, 4) && Users in d.tables && Balances in d.tables then
      d.(users := EnsureUserExists(d.users, userId),
         balances := d.balances[key := Amount(d.balances, key) + change])
    else d
  }

  method UpdateBalance(db: Store, userId: int, currency: string, change: int, c: Conn)
    requires db.Valid()
    modifies db
    ensures db.Valid()
    ensures db.State() == UpdateBalanceSpec(old(db.State()), userId, currency, change, c)
  {
    if c.Unreachable? { return; }
    var users, balances := db.users, db.balances;
    if c.failAt == 0 || Users !in db.tables { return; }
    users := EnsureUserExists(users, userId);
    var key := (userId, Lower(currency));
    if c.failAt == 1 || Balances !in db.tables { return; }
    if key !in balances { balances := balances[key := 0]; }
    if c.failAt == 2 { return; }
    balances := balances[key := balances[key] + change];
    if c.failAt == 3 { return; }
    ghost var d' := UpdateBalanceSpec(db.State(), userId, currency, change, c);
    assert d'.balances == balances && d'.users == users;
    LowerIdempotent(currency);
    db.users, db.balances := users, balances;
    assert db.State() == d'.(users := users, balances := balances);
  }

  /** A committed update_balance moves the (user, currency) balance by
      exactly the change, with no lower bound, records the user, and leaves
      every other balance as it was; an uncommitted one changes nothing. */
  lemma UpdateBalanceEffect(d: Db, userId: int, currency: string, change: int, c: Conn)
    ensures var d' := UpdateBalanceSpec(d, userId, currency, change, c);
      var key := (userId, Lower(currency));
      && (Reaches(c, 4) && {Users, Balances} <= d.tables ==>
            d'.balances[key] == Amount(d.balances, key) + change && userId in d'.users)
      && (!(Reaches(c, 4) && {Users, Balances} <= d.tables) ==> d' == d)
      && (forall k | k != key :: Amount(d'.balances, k) == Amount(d.balances, k))
      && d'.usage == d.usage && d'.tables == d.tables
  {
  }

  /** update_balance then get_balance, with the currency spelled in either
      case: the read sees the previous amount plus the change. */
  lemma UpdateThenRead(d: Db, userId: int, cur1: string, cur2: string, change: int, c1: Conn, c2: Conn)
    requires Lower(cur1) == Lower(cur2)
    requires Reaches(c1, 4) && Reaches(c2, 2) && {Users, Balances} <= d.tables
    ensures GetBalanceSpec(UpdateBalanceSpec(d, userId, cur1, change, c1), userId, cur2, c2).1
         == Amount(d.balances, (userId, Lower(cur1))) + change
  {
  }

  /** A committed award changes its currency's total by the change and no
      other currency's total. */
  lemma UpdateBalanceTotal(d: Db, userId: int, currency: string, change: int, c: Conn, other: string)
    requires Reaches(c, 4) && {Users, Balances} <= d.tables
    ensures Total(UpdateBalanceSpec(d, userId, currency, change, c).balances, other)
         == Total(d.balances, other) + (if other == Lower(currency) then change else 0)
  {
    var key := (userId, Lower(currency));
    TotalUpdate(d.balances, key, Amount(d.balances, key) + change, other);
  }

  // ---------------------------------------------------------------- transfer_currency

  /** Which `return` of transfer_currency was taken. Only Transferred
      returns True; the rest all return False. */
  datatype TransferResult = Transferred | NotPositive | NoConnection | Insufficient | StorageError

  /** The three writes of a transfer, in order: UPDATE the payer's row down
      by the amount (a missing row is left alone), INSERT OR IGNORE the
      recipient's row at 0, UPDATE the recipient's row up by the amount. */
  function Move(m: map<(int, string), int>, payer: (int, string), recipient: (int, string), amount: int): map<(int, string), int>
  {
    var debited := if payer in m then m[payer := m[payer] - amount] else m;
    debited[recipient := Amount(debited, recipient) + amount]
  }

  /** The writes of a transfer from a payer who has a row move money
      between two rows of one currency: no currency's total changes. */
  lemma MoveConserves(m: map<(int, string), int>, cur: string, payerId: int, recipientId: int, amount: int, other: string)
    requires (payerId, cur) in m
    ensures Total(Move(m, (payerId, cur), (recipientId, cur), amount), other) == Total(m, other)
  {
    var pk, rk := (payerId, cur), (recipientId, cur);
    var debited := m[pk := m[pk] - amount];
    TotalUpdate(m, pk, m[pk] - amount, other);
    TotalUpdate(debited, rk, Amount(debited, rk) + amount, other);
  }

  /** transfer_currency(payer_id, recipient_id, amount, currency).
      Statements: insert the payer (0) and the recipient (1), SELECT the
      payer's amount (2), the three writes of Move (3-5), commit (6). */
  function TransferSpec(d: Db, payerId: int, recipientId: int, amount: int, currency: string, c: Conn)
    : (Db, TransferResult)
  {
    var cur := Lower(currency);
    if amount <= 0 then (d, NotPositive)
    else if c.Unreachable? then (d, NoConnection)
    else if !(Reaches(c, 3) && Users in d.tables && Balances in d.tables) then (d, StorageError)
    else if Amount(d.balances, (payerId, cur)) < amount then (d, Insufficient)   // returns before commit
    else if !Reaches(c, 7) then (d, StorageError)
    else
      (d.(users := EnsureUserExists(EnsureUserExists(d.users, payerId), recipientId),
          balances := Move(d.balances, (payerId, cur), (recipientId, cur), amount)),
       Transferred)
  }

  method TransferCurrency(db: Store, payerId: int, recipientId: int, amount: int, currency: string, c: Conn)
    returns (success: bool)
    requires db.Valid()
    modifies db
    ensures db.Valid()
    ensures var (d', result) := TransferSpec(old(db.State()), payerId, recipientId, amount, currency, c);
      db.State() == d' && success == result.Transferred?
  {
    if amount <= 0 { return false; }
    if c.Unreachable? { return false; }
    success := false;
    var cur := Lower(currency);
    var users, balances := db.users, db.balances;
    if c.failAt == 0 || Users !in db.tables { return; }
    users := EnsureUserExists(users, payerId);
    if c.failAt == 1 { return; }
    users := EnsureUserExists(users, recipientId);
    if c.failAt == 2 || Balances !in db.tables { return; }
    var pk, rk := (payerId, cur), (recipientId, cur);
    var current := if pk in balances then balances[pk] else 0;
    if current < amount { return; }   // no commit: the user inserts are discarded too
    if c.failAt == 3 { return; }
    if pk in balances { balances := balances[pk := balances[pk] - amount]; }
    if c.failAt == 4 { return; }
    if rk !in balances { balances := balances[rk := 0]; }
    if c.failAt == 5 { return; }
    balances := balances[rk := balances[rk] + amount];
    if c.failAt == 6 { return; }
    ghost var d' := TransferSpec(db.State(), payerId, recipientId, amount, currency, c).0;
    assert balances == Move(db.balances, pk, rk, amount);
    assert d'.balances == balances && d'.users == users;
    LowerIdempotent(currency);
    db.users, db.balances := users, balances;
    assert db.State() == d'.(users := users, balances := balances);
    success := true;
  }

  /** A transfer succeeds exactly when the amount is positive, the payer
      holds at least the amount, and every statement through the commit
      runs; every other outcome leaves the file exactly as it was. */
  lemma TransferOutcome(d: Db, payerId: int, recipientId: int, amount: int, currency: string, c: Conn)
    ensures var (d', result) := TransferSpec(d, payerId, recipientId, amount, currency, c);
      && (result.Transferred? <==>
            amount > 0 && Reaches(c, 7) && {Users, Balances} <= d.tables
            && Amount(d.balances, (payerId, Lower(currency))) >= amount)
      && (!result.Transferred? ==> d' == d)
      && (amount <= 0 ==> result == NotPositive)
  {
  }

  /** A successful transfer between two different users debits the payer,
      credits the recipient (creating the recipient's row), records both
      users and leaves every other balance unchanged. */
  lemma TransferMovesFunds(d: Db, payerId: int, recipientId: int, amount: int, currency: string, c: Conn)
    requires payerId != recipientId
    requires TransferSpec(d, payerId, recipientId, amount, currency, c).1.Transferred?
    ensures var d' := TransferSpec(d, payerId, recipientId, amount, currency, c).0;
      var cur := Lower(currency);
      && d'.balances[(payerId, cur)] == d.balances[(payerId, cur)] - amount
      && d'.balances[(recipientId, cur)] == Amount(d.balances, (recipientId, cur)) + amount
      && d'.balances[(payerId, cur)] >= 0
      && (forall k | k != (payerId, cur) && k != (recipientId, cur) :: Amount(d'.balances, k) == Amount(d.balances, k))
      && d'.users == d.users + {payerId, recipientId}
  {
  }

  /** Paying oneself, with enough funds, succeeds and leaves the file as it
      was: the debit and the credit hit the same row. */
  lemma SelfTransferNoNet(d: Db, userId: int, amount: int, currency: string, c: Conn)
    requires Consistent(d)
    ensures TransferSpec(d, userId, userId, amount, currency, c).0 == d
    ensures TransferSpec(d, userId, userId, amount, currency, c).1.Transferred?
        <==> amount > 0 && Reaches(c, 7) && {Users, Balances} <= d.tables
             && Amount(d.balances, (userId, Lower(currency))) >= amount
  {
    var cur := Lower(currency);
    var k := (userId, cur);
    if TransferSpec(d, userId, userId, amount, currency, c).1.Transferred? {
      assert k in d.balances;
      assert Move(d.balances, k, k, amount) == d.balances;
      assert EnsureUserExists(EnsureUserExists(d.users, userId), userId) == d.users;
    }
  }

  /** Conservation: no transfer, successful or not, changes the sum of the
      balances held in any currency. */
  lemma TransferConserves(d: Db, payerId: int, recipientId: int, amount: int, currency: string, c: Conn, other: string)
    ensures Total(TransferSpec(d, payerId, recipientId, amount, currency, c).0.balances, other)
         == Total(d.balances, other)
  {
    var (d', result) := TransferSpec(d, payerId, recipientId, amount, currency, c);
    if result.Transferred? {
      MoveConserves(d.balances, Lower(currency), payerId, recipientId, amount, other);
    }
  }

  /** One call of transfer_currency, with the fate of its connection. */
  datatype Payment = Payment(payerId: int, recipientId: int, amount: int, currency: string, conn: Conn)

  /** The file after a sequence of transfer_currency calls. */
  function RunPayments(d: Db, ps: seq<Payment>): Db
    decreases |ps|
  {
    if ps == [] then d
    else
      var p := ps[0];
      RunPayments(TransferSpec(d, p.payerId, p.recipientId, p.amount, p.currency, p.conn).0, ps[1..])
  }

  /** Conservation over any sequence of transfers. */
  lemma {:induction false} RunPaymentsConserve(d: Db, ps: seq<Payment>, currency: string)
    ensures Total(RunPayments(d, ps).balances, currency) == Total(d.balances, currency)
    decreases |ps|
  {
    if ps != [] {
      var p := ps[0];
      TransferConserves(d, p.payerId, p.recipientId, p.amount, p.currency, p.conn, currency);
      RunPaymentsConserve(TransferSpec(d, p.payerId, p.recipientId, p.amount, p.currency, p.conn).0, ps[1..], currency);
    }
  }

  /** initialize_tables of the central bank: CREATE TABLE IF NOT EXISTS
      balances (statement 0), commit (1); the CREATE takes effect as soon as
      it runs and existing rows stay. */
  function InitializeTablesSpec(d: Db, c: Conn): (r: Db)
    ensures r.users == d.users && r.balances == d.balances && r.usage == d.usage
    ensures d.tables <= r.tables && r.tables - d.tables <= {Balances}
    ensures Balances in r.tables <==> Balances in d.tables || Reaches(c, 1)
  {
    if Reaches(c, 1) then d.(tables := d.tables + {Balances}) else d
  }

  method InitializeTables(db: Store, c: Conn)
    requires db.Valid()
    modifies db
    ensures db.Valid()
    ensures db.State() == InitializeTablesSpec(old(db.State()), c)
  {
    if c.Unreachable? { return; }
    if c.failAt == 0 { return; }
    db.tables := db.tables + {Balances};
  }
}
