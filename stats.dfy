/** cogs/stats/stats.py: the /stats usage report and /reset-stats. Both
    call the database through the `database` package, which exports only
    some functions (database/__init__.py); calling one it does not export
    raises AttributeError inside the command's try block. */
module Stats {
  import opened Text
  import opened Core
  import Usage
  import Base
  import Roles

  // ---------------------------------------------------------------- configuration

  /** The configuration used when config.json is missing or invalid. */
  function Fallback(env: Base.Env): Base.Config {
    Base.FallbackConfig("Bot Statistics", "0xE67E22", env)
  }

  lemma HexDigitsE67E22()
    ensures ParseHex("0xE67E22") == Some(0xE67E22)
  {
    ParseHexSix("0xE67E22", 14, 6, 7, 14, 2, 2);
  }

  /** Without a readable file the cog is orange 0xE67E22 and takes its log
      level from LOG_LEVEL_COGS. */
  lemma FallbackBehaviour(env: Base.Env)
    ensures Base.EmbedColor(Base.StandaloneConfig(None, env, Fallback(env))) == Some(0xE67E22)
    ensures Base.ResolveLogLevel(Base.StandaloneConfig(None, env, Fallback(env)), env)
         == Some(Base.LevelOf(Base.GetEnv(env, "LOG_LEVEL_COGS", "INFO")))
  {
    HexDigitsE67E22();
    var config := Base.StandaloneConfig(None, env, Fallback(env));
    assert config["color"] == Base.JStr("0xE67E22");
    assert "log_level" !in config;
  }

  // ---------------------------------------------------------------- ordering

  /** One (command name, count) pair of command_counts.items(). */
  type Item = (string, int)

  /** The sort key (-count, name): higher counts first, ties by name. */
  predicate Before(a: Item, b: Item) {
    a.1 > b.1 || (a.1 == b.1 && LexLess(a.0, b.0))
  }

  lemma BeforeTransitive(a: Item, b: Item, c: Item)
    requires Before(a, b) && Before(b, c)
    ensures Before(a, c)
  {
    if a.1 == b.1 == c.1 { LexTransitive(a.0, b.0, c.0); }
  }

  lemma BeforeTotal(a: Item, b: Item)
    requires a.0 != b.0
    ensures Before(a, b) || Before(b, a)
  {
    LexTotal(a.0, b.0);
  }

  lemma BeforeAsymmetric(a: Item, b: Item)
    ensures !(Before(a, b) && Before(b, a))
  {
    LexAsymmetric(a.0, b.0);
  }

  predicate Sorted(s: seq<Item>) {
    forall i, j | 0 <= i < j < |s| :: Before(s[i], s[j])
  }

  predicate NameAbsent(name: string, s: seq<Item>) {
    forall i | 0 <= i < |s| :: s[i].0 != name
  }

  predicate DistinctNames(s: seq<Item>) {
    forall i, j | 0 <= i < j < |s| :: s[i].0 != s[j].0
  }

  /** s lists the entries of m, each once. */
  predicate ListsMap(s: seq<Item>, m: map<string, int>) {
    && DistinctNames(s)
    && (forall i | 0 <= i < |s| :: s[i].0 in m && m[s[i].0] == s[i].1)
    && (forall k | k in m :: (k, m[k]) in s)
  }

  lemma HeadBeforeAll(h: Item, rest: seq<Item>, tail: seq<Item>, x: Item)
    requires forall j | 0 <= j < |tail| :: Before(h, tail[j])
    requires Before(h, x)
    requires multiset(rest) == multiset(tail) + multiset{x}
    ensures forall k | 0 <= k < |rest| :: Before(h, rest[k])
  {
    forall k | 0 <= k < |rest|
      ensures Before(h, rest[k])
    {
      assert rest[k] in multiset(rest);
      if rest[k] != x {
        assert rest[k] in multiset(tail);
        var j :| 0 <= j < |tail| && tail[j] == rest[k];
      }
    }
  }

  lemma SortedCons(h: Item, rest: seq<Item>)
    requires Sorted(rest)
    requires forall k | 0 <= k < |rest| :: Before(h, rest[k])
    ensures Sorted([h] + rest)
  {
    var s := [h] + rest;
    forall i, j | 0 <= i < j < |s|
      ensures Before(s[i], s[j])
    {
      if i > 0 { assert s[i] == rest[i - 1] && s[j] == rest[j - 1]; }
      else { assert s[j] == rest[j - 1]; }
    }
  }

  /** One step of the sort: x placed among the sorted items. */
  function Insert(x: Item, s: seq<Item>): (r: seq<Item>)
    requires Sorted(s) && NameAbsent(x.0, s)
    ensures Sorted(r)
    ensures multiset(r) == multiset(s) + multiset{x}
    decreases |s|
  {
    if s == [] then [x]
    else if Before(x, s[0]) then
      assert forall j | 0 <= j < |s| :: Before(x, s[j]) by {
        forall j | 0 <= j < |s| ensures Before(x, s[j]) {
          if j > 0 { BeforeTransitive(x, s[0], s[j]); }
        }
      }
      SortedCons(x, s);
      [x] + s
    else
      BeforeTotal(x, s[0]);
      var rest := Insert(x, s[1..]);
      assert s == [s[0]] + s[1..];
      HeadBeforeAll(s[0], rest, s[1..], x);
      SortedCons(s[0], rest);
      [s[0]] + rest
  }

  /** sorted(items, key=lambda item: (-item[1], item[0])) for items with
      distinct names, as the items of a dict have: ordered and a
      permutation of the items. */
  function SortUsage(items: seq<Item>): (r: seq<Item>)
    requires DistinctNames(items)
    ensures Sorted(r)
    ensures multiset(r) == multiset(items)
    decreases |items|
  {
    if items == [] then []
    else
      var rest := SortUsage(items[1..]);
      HeadAbsentFromRest(items, rest);
      assert items == [items[0]] + items[1..];
      Insert(items[0], rest)
  }

  lemma HeadAbsentFromRest(items: seq<Item>, rest: seq<Item>)
    requires items != [] && DistinctNames(items)
    requires multiset(rest) == multiset(items[1..])
    ensures NameAbsent(items[0].0, rest)
  {
    forall i | 0 <= i < |rest| ensures rest[i].0 != items[0].0 {
      assert rest[i] in multiset(items[1..]);
      var j :| 0 <= j < |items[1..]| && items[1..][j] == rest[i];
      assert items[j + 1] == rest[i];
    }
  }

  /** Sorting a listing of a map gives a listing of the same map. */
  lemma SortListsMap(items: seq<Item>, m: map<string, int>)
    requires ListsMap(items, m)
    ensures ListsMap(SortUsage(items), m)
  {
    var r := SortUsage(items);
    forall i | 0 <= i < |r| ensures r[i] in items {
      assert r[i] in multiset(items);
    }
    forall k | k in m ensures (k, m[k]) in r {
      assert (k, m[k]) in multiset(r);
    }
    forall i, j | 0 <= i < j < |r| ensures r[i].0 != r[j].0 {
      if r[i].0 == r[j].0 {
        assert r[i] in items && r[j] in items;
        assert r[i] == r[j];
        BeforeAsymmetric(r[i], r[j]);
      }
    }
  }

  /** The first item of a sorted listing of m is the least entry of m: two
      sorted listings of the same map start alike. */
  lemma SortedListingsHead(a: seq<Item>, b: seq<Item>, m: map<string, int>)
    requires Sorted(a) && Sorted(b) && ListsMap(a, m) && ListsMap(b, m)
    requires a != []
    ensures b != [] && a[0] == b[0]
  {
    assert (a[0].0, m[a[0].0]) in b;
    assert (b[0].0, m[b[0].0]) in a;
    if a[0] != b[0] {
      var j :| 0 <= j < |b| && b[j] == a[0];
      var i :| 0 <= i < |a| && a[i] == b[0];
      BeforeAsymmetric(a[0], b[0]);
    }
  }

  /** Dropping the head of a listing lists the map without the head's key. */
  lemma ListsMapTail(a: seq<Item>, m: map<string, int>)
    requires ListsMap(a, m) && a != []
    ensures ListsMap(a[1..], m - {a[0].0})
  {
    var m' := m - {a[0].0};
    forall k | k in m' ensures (k, m'[k]) in a[1..] {
      var i :| 0 <= i < |a| && a[i] == (k, m[k]);
      assert i != 0;
      assert a[1..][i - 1] == a[i];
    }
    forall i | 0 <= i < |a[1..]| ensures a[1..][i].0 in m' {
      assert a[1..][i] == a[i + 1];
    }
  }

  /** The report's order is fully determined by the counts: two sorted
      listings of the same map are equal, whatever order the dict's items
      came in. */
  lemma {:induction false} SortedListingUnique(a: seq<Item>, b: seq<Item>, m: map<string, int>)
    requires Sorted(a) && Sorted(b) && ListsMap(a, m) && ListsMap(b, m)
    ensures a == b
    decreases |a|
  {
    if a == [] {
      if b != [] { SortedListingsHead(b, a, m); }
    } else {
      SortedListingsHead(a, b, m);
      ListsMapTail(a, m);
      ListsMapTail(b, m);
      SortedListingUnique(a[1..], b[1..], m - {a[0].0});
      assert a == [a[0]] + a[1..] && b == [b[0]] + b[1..];
    }
  }

  /** Putting the entry for a fresh key in front of a listing of the rest
      of the map lists the whole map. */
  lemma ConsListsMap(k: string, rest: seq<Item>, m: map<string, int>)
    requires k in m && ListsMap(rest, m - {k})
    ensures ListsMap([(k, m[k])] + rest, m)
  {
    var s := [(k, m[k])] + rest;
    forall k' | k' in m ensures (k', m[k']) in s {
      if k' != k { assert k' in m - {k}; }
    }
    forall i | 0 <= i < |s| ensures s[i].0 in m && m[s[i].0] == s[i].1 {
      if i > 0 { assert s[i] == rest[i - 1]; }
    }
    forall i, j | 0 <= i < j < |s| ensures s[i].0 != s[j].0 {
      assert s[j] == rest[j - 1];
      if i > 0 { assert s[i] == rest[i - 1]; }
    }
  }

  /** The items of a map, in some order. */
  ghost function Items(m: map<string, int>): (s: seq<Item>)
    ensures ListsMap(s, m)
    decreases |m|
  {
    if m == map[] then []
    else
      var k :| k in m;
      assert |(m - {k}).Keys| < |m.Keys| by {
        assert (m - {k}).Keys == m.Keys - {k};
      }
      var rest := Items(m - {k});
      ConsListsMap(k, rest, m);
      [(k, m[k])] + rest
  }

  /** The usage report's lines in order. */
  ghost function Listing(m: map<string, int>): seq<Item> {
    SortUsage(Items(m))
  }

  /** Whatever order the dict hands out its items in, sorting them gives
      the same listing. */
  lemma SortAnyOrder(items: seq<Item>, m: map<string, int>)
    requires ListsMap(items, m)
    ensures SortUsage(items) == Listing(m)
  {
    SortListsMap(items, m);
    SortListsMap(Items(m), m);
    SortedListingUnique(SortUsage(items), Listing(m), m);
  }

  // ---------------------------------------------------------------- rendering

  /** One line of the report: "`/<name>`: <count>". */
  function Line(item: Item): string {
    "`/" + item.0 + "`: " + IntToString(item.1)
  }

  function Lines(s: seq<Item>): (lines: seq<string>)
    ensures |lines| == |s|
  {
    if s == [] then [] else [Line(s[0])] + Lines(s[1..])
  }

  const NoCommands := "No commands have been used yet."

  /** The "Command Usage" field: the lines joined with newlines, or the
      empty-map message. */
  function UsageText(sorted: seq<Item>): string {
    if sorted == [] then NoCommands else Join(Lines(sorted), '\n')
  }

  /** The field shows the empty-map message exactly when there is nothing
      to list: every usage line starts with a backquote. */
  lemma UsageTextEmpty(l: seq<Item>)
    ensures UsageText(l) == NoCommands <==> l == []
  {
    if l != [] {
      var lines := Lines(l);
      assert lines[0] == Line(l[0]);
      if |lines| == 1 {
        assert Join(lines, '\n') == Line(l[0]);
      } else {
        assert Join(lines, '\n') == Line(l[0]) + ['\n'] + Join(lines[1..], '\n');
      }
      assert Line(l[0])[0] == '`' && NoCommands[0] == 'N';
    }
  }

  lemma IntToStringNoNewline(n: int)
    ensures '\n' !in IntToString(n)
  {
    var digits := IntToString(n);
    if n >= 0 {
      assert forall j | 0 <= j < |digits| :: digits[j] != '\n';
    } else {
      forall j | 0 <= j < |digits| ensures digits[j] != '\n' {
        if j > 0 { assert digits[j] == digits[1..][j - 1]; }
      }
    }
  }

  lemma LineNoNewline(item: Item)
    requires '\n' !in item.0
    ensures '\n' !in Line(item)
  {
    IntToStringNoNewline(item.1);
  }

  /** No command name holds a newline. */
  predicate NamesOnOneLine(sorted: seq<Item>) {
    forall i | 0 <= i < |sorted| :: '\n' !in sorted[i].0
  }

  predicate LinesFree(lines: seq<string>) {
    forall i | 0 <= i < |lines| :: '\n' !in lines[i]
  }

  lemma {:induction false} LinesNoNewline(sorted: seq<Item>)
    requires NamesOnOneLine(sorted)
    ensures LinesFree(Lines(sorted))
  {
    if sorted != [] {
      LineNoNewline(sorted[0]);
      LinesNoNewline(sorted[1..]);
      var lines := Lines(sorted);
      forall i | 0 <= i < |lines| ensures '\n' !in lines[i] {
        if i > 0 { assert lines[i] == Lines(sorted[1..])[i - 1]; }
      }
    }
  }

  /** With command names free of newlines, the field reads back line by line
      as the sorted items. */
  lemma UsageTextLines(sorted: seq<Item>)
    requires sorted != [] && NamesOnOneLine(sorted)
    ensures Split(UsageText(sorted), '\n') == Lines(sorted)
  {
    LinesNoNewline(sorted);
    ReadBack(UsageText(sorted), Lines(sorted));
  }

  lemma ReadBack(text: string, lines: seq<string>)
    requires |lines| > 0 && text == Join(lines, '\n') && LinesFree(lines)
    ensures Split(text, '\n') == lines
  {
    SplitOfJoin(lines, '\n');
  }

  // ---------------------------------------------------------------- the database facade

  /** The names database/__init__.py exports. */
  const ShippedExports: set<string> := {
    "get_db_connection", "initialize_database", "get_total_users",
    "initialize_currency_tables", "get_balance", "update_balance", "transfer_currency",
    "track_command_usage"}

  /** The exports the stats cog needs. */
  const NeededExports: set<string> := ShippedExports + {"get_all_command_usage", "reset_all_command_usage"}

  // ---------------------------------------------------------------- /stats

  const StatsError := Base.Embed("Error", "Could not retrieve bot statistics.", [])

  function Report(totalUsers: int, sorted: seq<Item>): Base.Reply {
    Base.Embed("Bot Usage Statistics", "",
      [("Total Unique Users", "`" + IntToString(totalUsers) + "`"), ("Command Usage", UsageText(sorted))])
  }

  /** /stats on the file d: count the command, then inside the try block
      read the user count and the usage map; an unexported function raises
      and the error embed is sent instead. */
  ghost function StatsSpec(d: Db, exports: set<string>, cTrack: Conn, cTotal: Conn, cAll: Conn): (Db, Base.Reply)
  {
    var d1 := Usage.TrackSpec(d, "stats", cTrack);
    if "get_all_command_usage" !in exports then (d1, StatsError)
    else
      var total := if Reaches(cTotal, 1) && Users in d1.tables then |d1.users| else 0;
      (d1, Report(total, Listing(Usage.AllUsage(d1, cAll))))
  }

  /** command_counts.items(): each entry once, in the dict's order. */
  method ItemsOf(counts: map<string, int>) returns (items: seq<Item>)
    ensures ListsMap(items, counts)
  {
    items := [];
    var pending := counts.Keys;
    while pending != {}
      invariant pending <= counts.Keys
      invariant DistinctNames(items)
      invariant forall i | 0 <= i < |items| :: items[i].0 in counts && items[i].0 !in pending && counts[items[i].0] == items[i].1
      invariant forall k | k in counts && k !in pending :: (k, counts[k]) in items
      decreases pending
    {
      var name :| name in pending;
      items := items + [(name, counts[name])];
      pending := pending - {name};
    }
  }

  method StatsCommand(store: Store, exports: set<string>, cTrack: Conn, cTotal: Conn, cAll: Conn) returns (reply: Base.Reply)
    requires store.Valid()
    requires "track_command_usage" in exports && "get_total_users" in exports
    modifies store
    ensures store.Valid()
    ensures (store.State(), reply) == StatsSpec(old(store.State()), exports, cTrack, cTotal, cAll)
  {
    Usage.TrackCommandUsage(store, "stats", cTrack);
    var total := GetTotalUsers(store, cTotal);
    if "get_all_command_usage" !in exports {
      return StatsError;   // AttributeError
    }
    var counts := Usage.GetAllCommandUsage(store, cAll);
    var items := ItemsOf(counts);
    var sorted := SortUsage(items);
    SortAnyOrder(items, counts);
    reply := Report(total, sorted);
  }

  /** As shipped, /stats always answers with the error embed, whatever the
      file holds; the command is still counted. */
  lemma ShippedStatsFails(d: Db, cTrack: Conn, cTotal: Conn, cAll: Conn)
    ensures StatsSpec(d, ShippedExports, cTrack, cTotal, cAll) == (Usage.TrackSpec(d, "stats", cTrack), StatsError)
  {
  }

  /** With the missing exports added, /stats reports the user count and the
      usage counts in order (the /stats use just counted included), or the
      empty-map message when nothing has been counted. */
  lemma CorrectedStatsReport(d: Db, cTrack: Conn, cTotal: Conn, cAll: Conn)
    requires Reaches(cTotal, 1) && Reaches(cAll, 1) && {Users, CommandUsage} <= d.tables
    ensures var (d', reply) := StatsSpec(d, NeededExports, cTrack, cTotal, cAll);
      && reply.Embed? && |reply.fields| == 2
      && reply.fields[0].1 == "`" + IntToString(|d.users|) + "`"
      && Sorted(Listing(d'.usage)) && ListsMap(Listing(d'.usage), d'.usage)
      && reply.fields[1].1 == UsageText(Listing(d'.usage))
      && (d'.usage == map[] <==> reply.fields[1].1 == NoCommands)
  {
    var d' := Usage.TrackSpec(d, "stats", cTrack);
    var l := Listing(d'.usage);
    assert "get_all_command_usage" in NeededExports;
    assert StatsSpec(d, NeededExports, cTrack, cTotal, cAll) == (d', Report(|d.users|, l));
    SortListsMap(Items(d'.usage), d'.usage);
    UsageTextEmpty(l);
    if d'.usage != map[] {
      var k :| k in d'.usage;
      assert (k, d'.usage[k]) in l;
    }
  }

  // ---------------------------------------------------------------- /reset-stats

  const ResetDone := Base.Embed("Statistics Reset", "All command usage statistics have been reset to zero.", [])
  const ResetError := Base.Embed("Error", "An error occurred while resetting statistics.", [])

  /** /reset-stats: the admin check first, then the reset inside a try
      block; the command itself is not counted. */
  function ResetStatsSpec(d: Db, env: Base.Env, userRoles: seq<int>, exports: set<string>, c: Conn): (Db, Base.Reply)
  {
    match Roles.CheckRole("admin", env, userRoles)
    case Deny(refusal) => (d, Base.Plain(Roles.Message(refusal)))
    case Allow =>
      if "reset_all_command_usage" !in exports then (d, ResetError)
      else (Usage.ResetSpec(d, c), ResetDone)
  }

  method ResetStats(store: Store, env: Base.Env, userRoles: seq<int>, exports: set<string>, c: Conn) returns (reply: Base.Reply)
    requires store.Valid()
    modifies store
    ensures store.Valid()
    ensures (store.State(), reply) == ResetStatsSpec(old(store.State()), env, userRoles, exports, c)
  {
    var decision := Roles.CheckRole("admin", env, userRoles);
    if decision.Deny? {
      return Base.Plain(Roles.Message(decision.refusal));
    }
    if "reset_all_command_usage" !in exports {
      return ResetError;   // AttributeError
    }
    Usage.ResetAllCommandUsage(store, c);
    reply := ResetDone;
  }

  /** As shipped, an admin's /reset-stats answers with the error embed and
      the counts survive. */
  lemma ShippedResetFails(d: Db, env: Base.Env, userRoles: seq<int>, c: Conn)
    requires Roles.CheckRole("admin", env, userRoles).Allow?
    ensures ResetStatsSpec(d, env, userRoles, ShippedExports, c) == (d, ResetError)
  {
  }

  /** With the export added, a committed reset by an admin empties the
      counter; non-admins are refused and nothing changes. */
  lemma ResetStatsOutcome(d: Db, env: Base.Env, userRoles: seq<int>, c: Conn)
    ensures Roles.CheckRole("admin", env, userRoles).Deny? ==>
      ResetStatsSpec(d, env, userRoles, NeededExports, c).0 == d
    ensures Roles.CheckRole("admin", env, userRoles).Allow? && Reaches(c, 2) && CommandUsage in d.tables ==>
      ResetStatsSpec(d, env, userRoles, NeededExports, c) == (d.(usage := map[]), ResetDone)
  {
  }
}
