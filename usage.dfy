/** cogs/stats/cog_db_functions.py: the per-command usage counter kept in
    the command_usage table. */
module Usage {
  import opened Core

  /** track_command_usage(command_name): the upsert "insert at 1, or add 1
      on conflict" (statement 0), then commit (1). Names are used as given,
      without case folding. */
  function TrackSpec(d: Db, name: string, c: Conn): Db
  {
    if Reaches(c, 2) && CommandUsage in d.tables then
      d.(usage := d.usage[name := if name in d.usage then d.usage[name] + 1 else 1])
    else d
  }

  /** A storage error is logged and rolled back; the caller never sees it. */
  method TrackCommandUsage(db: Store, name: string, c: Conn)
    requires db.Valid()
    modifies db
    ensures db.Valid()
    ensures db.State() == TrackSpec(old(db.State()), name, c)
  {
    if c.Unreachable? { return; }
    if c.failAt == 0 || CommandUsage !in db.tables { return; }
    var usage := db.usage[name := if name in db.usage then db.usage[name] + 1 else 1];
    if c.failAt == 1 { return; }
    db.usage := usage;
  }

  /** A committed call inserts an unseen name at 1 or adds exactly 1 to a
      known one, and touches no other count (so "Pay" and "pay" are
      counted apart); an uncommitted call changes nothing. */
  lemma TrackEffect(d: Db, name: string, c: Conn)
    ensures var d' := TrackSpec(d, name, c);
      && (Reaches(c, 2) && CommandUsage in d.tables ==>
            name in d'.usage && d'.usage[name] == (if name in d.usage then d.usage[name] else 0) + 1)
      && (!(Reaches(c, 2) && CommandUsage in d.tables) ==> d' == d)
      && d'.usage.Keys - {name} == d.usage.Keys - {name}
      && (forall n | n in d.usage && n != name :: d'.usage[n] == d.usage[n])
      && d'.users == d.users && d'.balances == d.balances && d'.tables == d.tables
  {
  }

  /** What get_all_command_usage returns: every stored name with its count,
      or {} when the connection cannot be opened or the SELECT raises. */
  function AllUsage(d: Db, c: Conn): map<string, int>
  {
    if Reaches(c, 1) && CommandUsage in d.tables then d.usage else map[]
  }

  method GetAllCommandUsage(db: Store, c: Conn) returns (counts: map<string, int>)
    ensures Reaches(c, 1) && CommandUsage in db.tables ==> counts == db.usage
    ensures !(Reaches(c, 1) && CommandUsage in db.tables) ==> counts == map[]
  {
    if c.Unreachable? { return map[]; }
    if c.failAt == 0 || CommandUsage !in db.tables { return map[]; }
    counts := map name | name in db.usage :: db.usage[name];
  }

  /** reset_all_command_usage: DELETE FROM command_usage (statement 0),
      commit (1). */
  function ResetSpec(d: Db, c: Conn): Db
  {
    if Reaches(c, 2) && CommandUsage in d.tables then d.(usage := map[]) else d
  }

  method ResetAllCommandUsage(db: Store, c: Conn)
    requires db.Valid()
    modifies db
    ensures db.Valid()
    ensures db.State() == ResetSpec(old(db.State()), c)
  {
    if c.Unreachable? { return; }
    if c.failAt == 0 || CommandUsage !in db.tables { return; }
    if c.failAt == 1 { return; }
    db.usage := map[];
  }

  /** After a committed reset the counter is empty: the rows are deleted,
      so a command used before the reset is absent afterwards, not 0. */
  lemma ResetEmpties(d: Db, c: Conn, c2: Conn, name: string)
    requires Reaches(c, 2) && CommandUsage in d.tables
    ensures AllUsage(ResetSpec(d, c), c2) == map[]
    ensures name !in ResetSpec(d, c).usage
    ensures ResetSpec(d, c).users == d.users && ResetSpec(d, c).balances == d.balances
  {
  }

  /** The counter after a series of track_command_usage calls for one name. */
  function TrackAll(d: Db, name: string, conns: seq<Conn>): Db
    decreases |conns|
  {
    if conns == [] then d else TrackAll(TrackSpec(d, name, conns[0]), name, conns[1..])
  }

  /** Counting: n committed calls for a name raise its count by n, starting
      from 0 for an unseen name, and leave the other names alone. */
  lemma {:induction false} TrackAllCounts(d: Db, name: string, conns: seq<Conn>)
    requires CommandUsage in d.tables
    requires forall i | 0 <= i < |conns| :: Reaches(conns[i], 2)
    ensures var d' := TrackAll(d, name, conns);
      && (conns != [] ==> name in d'.usage && d'.usage[name] == (if name in d.usage then d.usage[name] else 0) + |conns|)
      && (forall n | n in d.usage && n != name :: n in d'.usage && d'.usage[n] == d.usage[n])
      && CommandUsage in d'.tables
    decreases |conns|
  {
    if conns != [] {
      var d1 := TrackSpec(d, name, conns[0]);
      TrackAllCounts(d1, name, conns[1..]);
    }
  }

  /** initialize_tables of the stats cog: CREATE TABLE IF NOT EXISTS
      command_usage (statement 0), commit (1). Existing counts stay. */
  function InitializeTablesSpec(d: Db, c: Conn): (r: Db)
    ensures r.users == d.users && r.balances == d.balances && r.usage == d.usage
    ensures d.tables <= r.tables && r.tables - d.tables <= {CommandUsage}
    ensures CommandUsage in r.tables <==> CommandUsage in d.tables || Reaches(c, 1)
  {
    if Reaches(c, 1) then d.(tables := d.tables + {CommandUsage}) else d
  }

  method InitializeTables(db: Store, c: Conn)
    requires db.Valid()
    modifies db
    ensures db.Valid()
    ensures db.State() == InitializeTablesSpec(old(db.State()), c)
  {
    if c.Unreachable? { return; }
    if c.failAt == 0 { return; }
    db.tables := db.tables + {CommandUsage};
  }
}
