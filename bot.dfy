/** main.py: discovering and loading the cogs, syncing the command tree,
    and the start-up order of the process. */
module Bot {
  import opened Text
  import opened Core
  import Base

  /** One entry of the cogs directory listing, in listing order. */
  datatype Entry = Entry(name: string, isDir: bool)

  predicate StartsWithDunder(name: string) {
    |name| >= 2 && name[..2] == "__"
  }

  /** Entries that load_all_cogs tries to load. */
  predicate IsCogDir(e: Entry) {
    e.isDir && !StartsWithDunder(e.name)
  }

  /** The extension path of a cog directory: cogs.<name>.<name>. */
  function ExtensionPath(name: string): string {
    "cogs." + name + "." + name
  }

  /** The extension paths load_all_cogs attempts, in listing order. */
  function Candidates(entries: seq<Entry>): (paths: seq<string>)
    ensures |paths| <= |entries|
  {
    if entries == [] then []
    else
      var rest := Candidates(entries[..|entries| - 1]);
      var e := entries[|entries| - 1];
      if IsCogDir(e) then rest + [ExtensionPath(e.name)] else rest
  }

  /** One iteration: the extension is added when load_extension succeeds,
      i.e. when it can be loaded and is not loaded already; a failure is
      logged and the loop goes on. */
  function Attempt(loaded: seq<string>, e: Entry, loadable: set<string>): seq<string> {
    if IsCogDir(e) && ExtensionPath(e.name) in loadable && ExtensionPath(e.name) !in loaded
    then loaded + [ExtensionPath(e.name)]
    else loaded
  }

  /** The loaded extensions after load_all_cogs has gone through entries. */
  function LoadAll(loaded: seq<string>, entries: seq<Entry>, loadable: set<string>): seq<string> {
    if entries == [] then loaded
    else Attempt(LoadAll(loaded, entries[..|entries| - 1], loadable), entries[|entries| - 1], loadable)
  }

  /** Already-loaded extensions stay, in their order; every extension added
      is an attempted path that can be loaded; every attempted path that can
      be loaded ends up loaded, whatever failed before or after it; nothing
      is loaded twice. */
  lemma {:induction false} LoadAllSpec(loaded: seq<string>, entries: seq<Entry>, loadable: set<string>)
    ensures |loaded| <= |LoadAll(loaded, entries, loadable)|
    ensures LoadAll(loaded, entries, loadable)[..|loaded|] == loaded
    ensures forall i | |loaded| <= i < |LoadAll(loaded, entries, loadable)| ::
      LoadAll(loaded, entries, loadable)[i] in Candidates(entries) && LoadAll(loaded, entries, loadable)[i] in loadable
    ensures forall p | p in Candidates(entries) && p in loadable :: p in LoadAll(loaded, entries, loadable)
    ensures (forall i, j | 0 <= i < j < |loaded| :: loaded[i] != loaded[j]) ==>
      (forall i, j | 0 <= i < j < |LoadAll(loaded, entries, loadable)| ::
         LoadAll(loaded, entries, loadable)[i] != LoadAll(loaded, entries, loadable)[j])
    decreases |entries|
  {
    if entries != [] {
      var init := entries[..|entries| - 1];
      LoadAllSpec(loaded, init, loadable);
      var prev := LoadAll(loaded, init, loadable);
      var r := LoadAll(loaded, entries, loadable);
      assert Candidates(init) <= Candidates(entries);
      if r != prev {
        assert r == prev + [r[|r| - 1]];
        assert r[..|loaded|] == prev[..|loaded|];
      }
    }
  }

  /** Every attempted path comes from a directory of the listing whose name
      does not start with "__". */
  lemma {:induction false} CandidatesSound(entries: seq<Entry>, p: string)
    requires p in Candidates(entries)
    ensures exists e | e in entries :: IsCogDir(e) && p == ExtensionPath(e.name)
    decreases |entries|
  {
    var init := entries[..|entries| - 1];
    var last := entries[|entries| - 1];
    if p in Candidates(init) {
      CandidatesSound(init, p);
      var e :| e in init && IsCogDir(e) && p == ExtensionPath(e.name);
      assert e in entries;
    } else {
      assert IsCogDir(last) && p == ExtensionPath(last.name);
    }
  }

  /** Different directory names give different extension paths. */
  lemma ExtensionPathInjective(a: string, b: string)
    requires ExtensionPath(a) == ExtensionPath(b)
    ensures a == b
  {
    var pa, pb := ExtensionPath(a), ExtensionPath(b);
    assert |a| == |b|;
    assert pa[5..5 + |a|] == a;
    assert pb[5..5 + |b|] == b;
  }

  /** A name that appears in the listing only as a plain file or as a
      directory starting with "__" (such as __pycache__) is never attempted. */
  lemma SkippedEntries(entries: seq<Entry>, name: string)
    requires forall e | e in entries && e.name == name :: !IsCogDir(e)
    ensures ExtensionPath(name) !in Candidates(entries)
  {
    if ExtensionPath(name) in Candidates(entries) {
      CandidatesSound(entries, ExtensionPath(name));
      var e :| e in entries && IsCogDir(e) && ExtensionPath(name) == ExtensionPath(e.name);
      ExtensionPathInjective(name, e.name);
    }
  }

  /** There is no exclusion list: the cog_template directory is attempted
      like any other cog. */
  lemma TemplateAttempted(entries: seq<Entry>)
    requires Entry("cog_template", true) in entries
    ensures ExtensionPath("cog_template") in Candidates(entries)
  {
    assert "cog_template"[1] == 'o';
    CandidatesComplete(entries, "cog_template");
  }

  /** Every directory of the listing whose name does not start with "__" is
      attempted. */
  lemma {:induction false} CandidatesComplete(entries: seq<Entry>, name: string)
    requires Entry(name, true) in entries && !StartsWithDunder(name)
    ensures ExtensionPath(name) in Candidates(entries)
    decreases |entries|
  {
    var init := entries[..|entries| - 1];
    if entries[|entries| - 1] != Entry(name, true) {
      assert entries == init + [entries[|entries| - 1]];
      CandidatesComplete(init, name);
    }
  }

  /** The running bot: the extensions it has loaded, in load order, and the
      extensions whose commands the last tree sync published. */
  class TaskManagerBot {
    var extensions: seq<string>
    var synced: bool
    var syncedExtensions: set<string>

    constructor ()
      ensures extensions == [] && !synced && syncedExtensions == {}
    {
      extensions, synced, syncedExtensions := [], false, {};
    }

    /** load_all_cogs. */
    method LoadAllCogs(entries: seq<Entry>, loadable: set<string>)
      modifies this
      ensures extensions == LoadAll(old(extensions), entries, loadable)
      ensures synced == old(synced) && syncedExtensions == old(syncedExtensions)
    {
      for i := 0 to |entries|
        invariant extensions == LoadAll(old(extensions), entries[..i], loadable)
        invariant synced == old(synced) && syncedExtensions == old(syncedExtensions)
      {
        assert entries[..i + 1][..i] == entries[..i];
        var item := entries[i];
        if item.isDir && !StartsWithDunder(item.name) {
          var path := "cogs." + item.name + "." + item.name;
          if path in loadable && path !in extensions {
            extensions := extensions + [path];
          }   // otherwise load_extension raised: logged, next entry
        }
      }
      assert entries[..|entries|] == entries;
    }

    /** setup_hook: every cog is loaded before the command tree is synced,
        so the sync publishes all of them. */
    method SetupHook(entries: seq<Entry>, loadable: set<string>)
      modifies this
      ensures extensions == LoadAll(old(extensions), entries, loadable)
      ensures synced && syncedExtensions == set p | p in extensions
    {
      LoadAllCogs(entries, loadable);
      synced := true;
      syncedExtensions := set p | p in extensions;
    }
  }

  /** The `__main__` block: without a truthy DISCORD_TOKEN nothing happens;
      otherwise the users table is initialised first and the bot is
      constructed afterwards. Connecting to Discord is not modelled. */
  method Launch(env: Base.Env, store: Store, c: Conn) returns (bot: TaskManagerBot?)
    requires store.Valid()
    modifies store
    ensures store.Valid()
    ensures bot != null <==> Base.GetEnv(env, "DISCORD_TOKEN", "") != ""
    ensures bot == null ==> store.State() == old(store.State())
    ensures bot != null ==>
      fresh(bot) && bot.extensions == [] && !bot.synced
      && store.State() == InitializeDatabaseSpec(old(store.State()), c)
  {
    if "DISCORD_TOKEN" !in env || env["DISCORD_TOKEN"] == "" {
      return null;   // logged as critical
    }
    InitializeDatabase(store, c);
    bot := new TaskManagerBot();
  }
}
