# Task Manager Bot: the persistence layer and command rules, in Dafny

This project models the core of a Discord bot: its per-user currency ledger, its
per-command usage counter, and the shared users table, all kept in one SQLite
file. It also models the rules built on them: how a cog derives its name and
loads its configuration, log level, colour and database module; how `main.py`
discovers and loads cogs; what `/balance`, `/pay`, `/award`, `/stats` and
`/reset-stats` do to the file and what they reply; the role check; and the
twitter.com/x.com link rewrite with its `on_message` gating.

How the model is built:

- **The database file** is the class `Core.Store`. Its fields are the set of
  existing tables, the user ids, the balances and the usage counts.
- **Each database function** is one method on the `Store`. Each is proved
  against a specification function on the value `Core.Db`.
- **Connections** are an oracle, `Core.Conn`. A connection is either
  `Unreachable` (the case where `get_db_connection` returns `None`) or opens
  and fails at a given statement. That statement may be the commit, and a
  statement on a table that does not exist also fails.
- **Transactions:** a transaction's writes stay pending until its commit runs.
  A failure before the commit leaves the file exactly as it was.
- **The legacy `database.py`** works on the same `Store`. Its functions are
  proved against the live specifications wherever they agree. Its
  `transfer_currency` reads the payer's balance on a second connection,
  which the first connection's write lock keeps from reading, so it refuses
  every transfer. The running bot never reaches that code: `import database`
  in the cogs and `from database import core` in main.py load the package
  database/, which Python prefers over the module database.py.
- **Text:** strings are ASCII. `Text` defines the parts of `str.lower`,
  `upper`, `title`, `capitalize`, `isdigit`, `int(s)`, `int(s, 16)`, `str(n)`,
  `split`/`join` and Python's string order that the bot uses.

Modules, one per source file:

- `Text`
- `Core`: database/core.py
- `Ledger`: cogs/central_bank/cog_db_functions.py
- `Usage`: cogs/stats/cog_db_functions.py
- `Legacy`: database.py
- `Base`: cogs/base_cog.py, plus the configuration rule of the cogs that do not derive from it
- `Bot`: main.py
- `CentralBank`, `Stats`, `Fixtter` and `Roles`: the command layer

## Model

| member | source | states |
|---|---|---|
| Core.Store.constructor | database/core.py:21-48 | A new file has no tables, no users, no balances and no counts, and satisfies the invariant every operation keeps: each balance row belongs to a known user and is keyed by a lower-cased currency, and each stored count is at least 1 |
| Core.EnsureUserExists | database/core.py:43-48 | After the insert-or-ignore the id is a user, and no other id was added or removed |
| Core.EnsureUserIdempotent | database/core.py:43-48 | Inserting the same user twice is the same as inserting it once; inserting a known user changes nothing |
| Core.InitializeDatabaseSpec | database/core.py:21-41 | Only the users table can appear, exactly when the CREATE runs; rows and other tables are untouched |
| Core.InitializeDatabase | database/core.py:21-41 | The new file is the one given by InitializeDatabaseSpec; the invariant is kept |
| Core.InitializeDatabaseIdempotent | database/core.py:31-36 | Running the initialisation again after a successful run changes nothing (CREATE TABLE IF NOT EXISTS) |
| Core.GetTotalUsers | database/core.py:50-65 | Returns the number of distinct user ids; returns 0 when there is no connection, the query fails or the table is missing |
| Ledger.TotalRemove | cogs/central_bank/cog_db_functions.py:130-141 | The per-currency sum of balances can be computed by taking out any row first (used by every conservation proof) |
| Ledger.TotalUpdate | cogs/central_bank/cog_db_functions.py:87-90 | Writing one row moves its currency's total by the new amount minus the old one, and leaves every other currency's total unchanged |
| Ledger.GetBalance | cogs/central_bank/cog_db_functions.py:31-66 | The new file and the returned balance are those of GetBalanceSpec; the invariant is kept |
| Ledger.GetBalanceReads | cogs/central_bank/cog_db_functions.py:43-62 | Returns the stored amount of (user, lower-cased currency), or 0 when the row is missing; returns 0 and changes nothing when the read fails; when the call commits, exactly the user is added and the row is created with 0 if it was missing, every other user and row kept; counts and tables are untouched |
| Ledger.GetBalanceZeroTwice | cogs/central_bank/cog_db_functions.py:45-59 | A balance nobody has written reads 0, and reads 0 again on the next call |
| Ledger.CurrencyCaseInsensitive | cogs/central_bank/cog_db_functions.py:47 | "Tokens" and "tokens" read the same balance with the same effect |
| Ledger.UpdateBalance | cogs/central_bank/cog_db_functions.py:68-98 | The new file is the one given by UpdateBalanceSpec; the invariant is kept |
| Ledger.UpdateBalanceEffect | cogs/central_bank/cog_db_functions.py:78-96 | A committed update moves the (user, lower-cased currency) balance by exactly the change, with no floor, and records the user; every other balance is unchanged; an uncommitted update changes nothing |
| Ledger.UpdateThenRead | cogs/central_bank/cog_db_functions.py:80-90 | Reading after an update, with the currency in either case, gives the previous amount plus the change |
| Ledger.UpdateBalanceTotal | cogs/central_bank/cog_db_functions.py:82-92 | A committed update moves its currency's total by the change, and no other currency's total |
| Ledger.MoveConserves | cogs/central_bank/cog_db_functions.py:130-141 | The three writes of a transfer from a payer who has a row leave every currency's total unchanged |
| Ledger.TransferCurrency | cogs/central_bank/cog_db_functions.py:100-152 | The new file and the returned flag are those of TransferSpec, and the flag is true only for a completed transfer; the invariant is kept |
| Ledger.TransferOutcome | cogs/central_bank/cog_db_functions.py:104-148 | A transfer succeeds if and only if the amount is positive, the payer holds at least the amount (0 without a row), and every statement through the commit runs; every refusal and failure leaves the file exactly as it was, including the user rows it inserted; a non-positive amount is refused first |
| Ledger.TransferMovesFunds | cogs/central_bank/cog_db_functions.py:130-144 | A successful transfer between two users debits the payer, credits the recipient (creating the recipient's row), never leaves the payer negative, records both users and changes no other balance |
| Ledger.SelfTransferNoNet | cogs/central_bank/cog_db_functions.py:119-144 | Paying oneself leaves the file as it was, and succeeds exactly when the payer could have paid anyone |
| Ledger.TransferConserves | cogs/central_bank/cog_db_functions.py:100-152 | No transfer, successful or not, changes the sum of the balances of any currency |
| Ledger.RunPaymentsConserve | cogs/central_bank/cog_db_functions.py:100-152 | Any sequence of transfers keeps every currency's total |
| Ledger.InitializeTablesSpec | cogs/central_bank/cog_db_functions.py:6-28 | Only the balances table can appear, exactly when the CREATE runs; rows are untouched |
| Ledger.InitializeTables | cogs/central_bank/cog_db_functions.py:6-28 | The new file is the one given by InitializeTablesSpec; the invariant is kept |
| Usage.TrackCommandUsage | cogs/stats/cog_db_functions.py:28-46 | The new file is the one given by TrackSpec; a storage error is absorbed; the invariant is kept |
| Usage.TrackEffect | cogs/stats/cog_db_functions.py:36-44 | A committed call inserts an unseen name at 1 or adds exactly 1 to a known name; no other name is added, removed or changed; names are not case-folded; an uncommitted call changes nothing |
| Usage.GetAllCommandUsage | cogs/stats/cog_db_functions.py:48-63 | Returns exactly the stored name-to-count map, or an empty map when there is no connection or the query fails |
| Usage.ResetAllCommandUsage | cogs/stats/cog_db_functions.py:65-80 | The new file is the one given by ResetSpec; the invariant is kept |
| Usage.ResetEmpties | cogs/stats/cog_db_functions.py:71-75 | After a committed reset the next snapshot is empty and a previously counted name is absent, not 0; users and balances are untouched |
| Usage.TrackAllCounts | cogs/stats/cog_db_functions.py:36-41 | n committed calls for one name raise its count by n, starting from 0, and leave every other count as it was |
| Usage.InitializeTablesSpec | cogs/stats/cog_db_functions.py:7-26 | Only the command_usage table can appear, exactly when the CREATE runs; existing counts stay |
| Usage.InitializeTables | cogs/stats/cog_db_functions.py:7-26 | The new file is the one given by InitializeTablesSpec; the invariant is kept |
| Legacy.InitializeDatabaseSpec | database.py:24-63 | The three tables are created in order; a failure part-way keeps the tables created before it; rows are untouched |
| Legacy.InitializeDatabase | database.py:24-63 | The new file is the one given by InitializeDatabaseSpec |
| Legacy.GetBalance | database.py:72-107 | Same new file and same returned balance as the live get_balance |
| Legacy.UpdateBalance | database.py:109-139 | Same new file as the live update_balance |
| Legacy.TransferCurrency | database.py:141-188 | The new file and the flag are those of the legacy TransferSpec, in which the payer's balance comes from a nested get_balance whose connection meets the outer connection's write lock |
| Legacy.Finish | database.py:162-180 | After the nested read: refuse below the amount, otherwise perform the three writes and the commit |
| Legacy.LegacyRejectsNonPositive | database.py:146-147 | A non-positive amount is refused and nothing changes |
| Legacy.NestedReadLockedOut | database.py:72-107 | The nested get_balance, failing at its first INSERT on the lock, writes nothing and returns 0 whatever the file holds |
| Legacy.LegacyRefusesEveryTransfer | database.py:141-188 | No legacy transfer goes through or changes the file; every positive amount that gets past the outer inserts is refused as insufficient |
| Legacy.LegacyRefusesFundedPayer | database.py:158-164 | A payer holding 10 who sends 5 over clean connections is refused by the legacy transfer and served by the live one |
| Legacy.TrackCommandUsage | database.py:192-212 | Same new file as the live track_command_usage |
| Legacy.GetTotalUsers | database.py:214-231 | The number of users, or 0 on any failure |
| Legacy.GetAllCommandUsage | database.py:233-250 | The stored map, or an empty map on any failure, as the live function |
| Legacy.ResetAllCommandUsage | database.py:252-269 | Deletes every row, as the live reset does |
| Base.CogName | cogs/base_cog.py:56-65 | A non-empty explicit name wins |
| Base.CogNameFromDirectory | cogs/base_cog.py:59-63 | A cog in cogs/<dir>/<file>.py, with no explicit name, is named after its directory |
| Base.CogNameFromClass | cogs/base_cog.py:64-65 | A class whose module path has no dot is named after the class |
| Base.MergeDefaults | cogs/base_cog.py:122-126 | The loop yields every file entry unchanged, plus each default the file lacks |
| Base.LoadConfigSpec | cogs/base_cog.py:105-136 | Without a readable file the configuration is exactly the defaults; with one, every file key keeps its value, every missing default key is added with its default, and the footer key is present |
| Base.FooterResolution | cogs/base_cog.py:99-129 | The footer icon is the file's value when the file has the key, else ICON_URL_FOOTER, else "" |
| Base.LinkFixerDefaults | cogs/fixtter/fixtter.py:16-21 | The link fixer's defaults have the same keys as the base defaults and differ only in the author name "Link Fixer" and the colour, which parses to 0x1DA1F2 |
| Base.LevelOf | cogs/base_cog.py:147-148 | The resolved level is always one of the five levels of the LOG_LEVELS table (logging_config.py, lines 5-11) |
| Base.ResolveLogLevel | cogs/base_cog.py:138-150 | The level is one of the five; set-up fails exactly when the config holds a truthy log_level that is not a string |
| Base.LevelOfRules | cogs/base_cog.py:147-148 | Level names are case-insensitive, each name of LOG_LEVELS gives its own level, and any other name gives INFO |
| Base.LogLevelFallback | cogs/base_cog.py:143-145 | A falsy log_level defers to LOG_LEVEL_COGS; when that is unset or empty the level is INFO |
| Base.EmbedColor | cogs/base_cog.py:183-191 | A colour that is not a string does not parse |
| Base.EmbedColorRoundTrip | cogs/base_cog.py:183-191 | A colour written as "0x" plus hex digits parses back to itself; a configuration without a colour is 0xCCCCCC |
| Base.DbModulePath | cogs/base_cog.py:160-164 | A module path exists exactly when database_module is truthy, and for a string it is cogs.<cog>.<module> |
| Base.BindDbOutcome | cogs/base_cog.py:152-181 | The module is bound exactly when one is configured and importable, with or without initialize_tables; binding touches no row and adds at most the initializer's table |
| Base.BindDbIdempotent | cogs/base_cog.py:165-169 | Binding again after a successful initialisation changes nothing |
| Base.BaseCog.constructor | cogs/base_cog.py:54-68 | The name is set; the other attributes are still unset |
| Base.BaseCog.LoadConfig | cogs/base_cog.py:105-136 | The configuration becomes the one given by LoadConfigSpec for the cog's defaults; the other attributes are unchanged |
| Base.BaseCog.SetupLogging | cogs/base_cog.py:138-150 | Succeeds exactly when ResolveLogLevel does, and then sets that level |
| Base.BaseCog.LoadDbModule | cogs/base_cog.py:152-181 | The bound module and the file are those of BindDbSpec |
| Base.NewBaseCog | cogs/base_cog.py:46-78 | Name, then configuration, then log level, then module binding; construction fails exactly when the log level cannot be set, and then the file is untouched |
| Base.StandaloneConfig | cogs/central_bank/central_bank.py:25-39 | The fallback without a readable file; otherwise the file verbatim, with no defaults merged, plus the footer key, which is ICON_URL_FOOTER or None when the file lacks it |
| Base.NewStandaloneCog | cogs/stats/stats.py:19-48 | Configuration, then log level by the same rule as BaseCog; construction fails exactly when the log level cannot be set |
| Bot.Candidates | main.py:40-44 | At most one extension path per listing entry |
| Bot.LoadAllSpec | main.py:36-50 | Loaded extensions stay loaded and in order; each newly loaded one is an attempted path that can be loaded; every attempted path that can be loaded ends up loaded, whatever failed around it; nothing is loaded twice |
| Bot.CandidatesSound | main.py:40-44 | Every attempted path is cogs.<name>.<name> for a directory of the listing whose name does not start with "__" |
| Bot.SkippedEntries | main.py:42 | In any listing, a name present only as a plain file or as a directory starting with "__" is never attempted |
| Bot.CandidatesComplete | main.py:40-44 | Every directory whose name does not start with "__" is attempted as cogs.<name>.<name> |
| Bot.TemplateAttempted | main.py:40-44 | There is no exclusion list: cog_template is attempted too |
| Bot.TaskManagerBot.constructor | main.py:20-26 | A new bot has no extensions loaded and has not synced |
| Bot.TaskManagerBot.LoadAllCogs | main.py:36-50 | The loop's per-entry try/except produces the extensions given by LoadAll; the sync state is untouched |
| Bot.TaskManagerBot.SetupHook | main.py:29-34 | Every cog is loaded before the sync, so the sync publishes all loaded extensions |
| Bot.Launch | main.py:58-65 | Without a token nothing happens; with one, the users table is initialised before the bot is constructed |
| CentralBank.FallbackBehaviour | cogs/central_bank/central_bank.py:31-54 | Without a readable file the cog's colour is 0x3498DB, its log level comes from LOG_LEVEL_COGS, and its footer icon from ICON_URL_FOOTER |
| CentralBank.Balance | cogs/central_bank/central_bank.py:62-72 | The file and the reply are those of BalanceSpec: count, read, report |
| CentralBank.BalanceReports | cogs/central_bank/central_bank.py:65-70 | /balance is counted whether or not the read succeeds (no connection, a failure before the SELECT, missing tables); when the read reaches its SELECT it reports the stored amount (0 for a new account) |
| CentralBank.Pay | cogs/central_bank/central_bank.py:74-103 | The file and the reply are those of PaySpec |
| CentralBank.SelfPaymentCounted | cogs/central_bank/central_bank.py:81-88 | Paying oneself is counted, is refused with "You cannot pay yourself.", and never reaches the transfer |
| CentralBank.PayReplies | cogs/central_bank/central_bank.py:90-102 | Between two users, the reply is success if and only if the transfer succeeded; every other outcome gets the same "not enough" reply |
| CentralBank.PayConserves | cogs/central_bank/central_bank.py:80-103 | /pay never changes the total of any currency |
| CentralBank.Award | cogs/central_bank/central_bank.py:105-124 | The file and the reply are those of AwardSpec |
| CentralBank.AwardEffect | cogs/central_bank/central_bank.py:111-124 | A refused award changes nothing; an allowed one always replies success and, when committed, moves the currency's total by exactly the amount, zero and negative amounts included |
| Roles.GetRoleId | roles_config.py:18-34 | An id exists if and only if the lower-cased name is one of the four roles and its variable is set to a non-empty string of digits, and then it is that number |
| Roles.GetRoleIdRules | roles_config.py:23-29 | Role names are case-insensitive; an id written in decimal reads back as itself; an empty value gives no id |
| Roles.CheckRoleDecision | roles_config.py:46-68 | The command runs if and only if the role has a non-zero id that one of the user's roles carries; a missing or zero id blocks with "not configured"; otherwise the refusal names the role |
| Roles.ZeroIdBlocks | roles_config.py:52-57 | A role configured as 0 blocks everybody |
| Roles.BankerCheck | roles_config.py:49-68 | With a non-zero banker id set, the award check allows exactly the holders of that id |
| Roles.BankerRefusalMessage | roles_config.py:64-67 | The refusal names the role capitalised: "(`Banker`)" |
| Stats.FallbackBehaviour | cogs/stats/stats.py:31-52 | Without a readable file the cog's colour is 0xE67E22 and its log level comes from LOG_LEVEL_COGS |
| Stats.BeforeTransitive | cogs/stats/stats.py:74 | The sort key (-count, name) is transitive |
| Stats.BeforeTotal | cogs/stats/stats.py:74 | Any two items with different names are ordered |
| Stats.BeforeAsymmetric | cogs/stats/stats.py:74 | No two items are ordered both ways |
| Stats.Insert | cogs/stats/stats.py:74 | Inserting into a sorted list gives a sorted permutation |
| Stats.SortUsage | cogs/stats/stats.py:74 | The result is sorted by count descending then name ascending, and is a permutation of the items |
| Stats.SortListsMap | cogs/stats/stats.py:74 | Sorting a listing of the usage map lists the same map, each entry once |
| Stats.SortedListingUnique | cogs/stats/stats.py:74 | Two sorted listings of the same map are equal: the order is fully determined by the counts and names |
| Stats.SortAnyOrder | cogs/stats/stats.py:74 | Whatever order the dict yields its items in, the report lists them the same way |
| Stats.Lines | cogs/stats/stats.py:75 | One line per item |
| Stats.UsageTextEmpty | cogs/stats/stats.py:72-78 | The field shows "No commands have been used yet." exactly when there is nothing to list |
| Stats.LinesNoNewline | cogs/stats/stats.py:75 | With command names free of newlines, no line holds a newline |
| Stats.UsageTextLines | cogs/stats/stats.py:75 | The field splits at newlines back into exactly the lines "`/<cmd>`: <count>", in sorted order |
| Stats.ItemsOf | cogs/stats/stats.py:74 | The loop lists every entry of the map exactly once |
| Stats.StatsCommand | cogs/stats/stats.py:60-84 | The file and the reply are those of StatsSpec: count first, then read inside the try block |
| Stats.ShippedStatsFails | cogs/stats/stats.py:63-84 | Because the facade lacks get_all_command_usage, /stats always replies with the error embed, and the use is still counted |
| Stats.CorrectedStatsReport | cogs/stats/stats.py:65-80 | With the missing exports, /stats reports the user count and a sorted listing of every count (the /stats use just counted included), or the empty message exactly when nothing was counted |
| Stats.ResetStats | cogs/stats/stats.py:86-98 | The file and the reply are those of ResetStatsSpec |
| Stats.ShippedResetFails | cogs/stats/stats.py:90-98 | With the facade as shipped, an admin's /reset-stats always gets the error embed and the counts survive |
| Stats.ResetStatsOutcome | cogs/stats/stats.py:86-98 | A non-admin is refused and nothing changes; with the missing export added, an admin's committed reset empties the counter and reports success |
| Fixtter.WordEnd | cogs/fixtter/fixtter.py:26 | The greedy run of [a-zA-Z0-9_] from a position: every character in it qualifies and the next one does not |
| Fixtter.DigitEnd | cogs/fixtter/fixtter.py:26 | The greedy run of \d from a position |
| Fixtter.MatchAt | cogs/fixtter/fixtter.py:26-27 | A match ends after it starts and inside the text |
| Fixtter.SubChangesIffMatch | cogs/fixtter/fixtter.py:41-45 | A rewrite changes the text if and only if the pattern matches somewhere |
| Fixtter.ReplacementDiffers | cogs/fixtter/fixtter.py:41-42 | The replacement of a match always differs from the matched text |
| Fixtter.MatchWholeLink | cogs/fixtter/fixtter.py:26-27 | At the start of a whole link over http or https, with or without "www.", followed by a space or the end, the pattern matches exactly the link, capturing its user and status |
| Fixtter.SubRewritesLink | cogs/fixtter/fixtter.py:41-42 | A link in any of the four forms (http or https, with or without "www.") with colon-free surroundings is replaced by its https vxtwitter.com form and the rest of the text is kept |
| Fixtter.FixTwitterLink | cogs/fixtter/fixtter.py:26-42 | Both passes turn a twitter.com link, in any of the four forms, into its https vxtwitter.com form and keep the rest of the message |
| Fixtter.FixXLink | cogs/fixtter/fixtter.py:27-42 | Both passes turn an x.com link, in any of the four forms, into its https vxtwitter.com form and keep the rest of the message |
| Fixtter.NoColonUnchanged | cogs/fixtter/fixtter.py:41-45 | Text without ":" holds no link and is never changed |
| Fixtter.OnMessage | cogs/fixtter/fixtter.py:30-68 | The file and the effects are those of OnMessageSpec |
| Fixtter.OnMessageEffects | cogs/fixtter/fixtter.py:33-68 | Only the 'fixtter' count can change: either nothing changes or the counter is the old one with 'fixtter' raised by one (from 0 when absent), and only after both the repost and the delete went through; a message from the bot, outside a guild, or left unchanged by the rewrite has no effect |
| Fixtter.FixedDiffers | cogs/fixtter/fixtter.py:45 | A rewritten twitter.com or x.com link, in any form, is different from the original text |
| Fixtter.OnMessageFixesLink | cogs/fixtter/fixtter.py:30-63 | A guild message from another user with a twitter.com or x.com link, in any of the four forms, is reposted as "<mention> posted: <rewritten>", the original deleted and the use counted |
| Fixtter.OnMessageReposts | cogs/fixtter/fixtter.py:45-62 | Any changed message is reposted, deleted and counted when both calls succeed |
| Text.LowerIdempotent | cogs/central_bank/cog_db_functions.py:80 | Lower-casing a lower-cased currency changes nothing |
| Text.UpperIgnoresCase | cogs/base_cog.py:147 | Names that differ only in case upper-case to the same string |
| Text.HexRoundTrip | cogs/base_cog.py:191 | Hex digits written for n read back as n |
| Text.ParseHexRoundTrip | cogs/base_cog.py:191 | int("0x" + hex digits of n, 16) is n |
| Text.ParseHexSix | cogs/base_cog.py:191 | "0x" plus six digits parses to the digits weighted by powers of 16 |
| Text.SplitOfJoin | cogs/stats/stats.py:75 | Splitting newline-free lines joined with newlines gives the lines back |
| Text.SplitSecond | cogs/base_cog.py:61-63 | The second dot-separated part of "cogs.<dir>.<file>" is <dir> |
| Text.LexTransitive | cogs/stats/stats.py:74 | Python's string order is transitive |
| Text.LexTotal | cogs/stats/stats.py:74 | Python's string order is total |
| Text.LexAsymmetric | cogs/stats/stats.py:74 | Python's string order is asymmetric |

## Left out

- Discord I/O is not modelled. This covers embeds, sending, replying, deleting, the command tree sync, `bot.run` and intents. A reply is a `Base.Reply` value, and a send or delete is a `Fixtter.CallResult` input.
- SQLite mechanics are not modelled: timeouts, concurrent writers and connection closing, and locking except where the legacy transfer meets its own lock. Each database function is one atomic step. Its failure is the `Conn` oracle.
- The filesystem, `json.load`, `importlib`, `os.listdir`, `os.path.isdir` and `.env` loading are inputs. The config file is an `Option` of a scalar-valued map, the environment is a map, the importable modules are a map, and the directory listing is a sequence of entries.
- JSON values that are lists or objects are not modelled. Neither is a config file that is valid JSON but not a dict: that error propagates to the loader's per-cog catch.
- Only ASCII text is modelled, for `str.lower`, `upper`, `title`, `capitalize` and `isdigit`. The link pattern's `\d` is taken as the ASCII digits, while Python's `\d` also matches other Unicode decimal digits. Its user-name class is the explicit ASCII `[a-zA-Z0-9_]` and needs no such narrowing.
- `int(s, 16)` is modelled for an optional "0x" prefix and hex digits only. Signs, underscores and whitespace are not modelled.
- Loggers and log messages are not modelled. The log level a cog sets is a field.
- `setup_logging` in logging_config.py only configures handlers and is not modelled. Its LOG_LEVELS table is `Base.LogLevels`.
- cogs/information/information.py is not part of this model: it only renders information and shuts the process down.
- cogs/cog_template is not part of this model: it is template boilerplate with no tables.
- database/__init__.py is a re-export list. Only the names it exports matter here, and they are `Stats.ShippedExports`.
- `_create_embed` and the helper senders of `BaseCog` build Discord objects and are not modelled.
- Fixtter.SubRewritesLink, Fixtter.FixTwitterLink, Fixtter.FixXLink and Fixtter.OnMessageFixesLink: these are proved for a text holding one link, in any of the four forms, whose surroundings contain no ":" and whose following text starts with a space. Texts with several links, and links glued to further word characters, are not covered.
- Fixtter.MatchAt: its own contract states only that a match is non-empty and inside the text. What it matches is stated by Fixtter.MatchWholeLink and Fixtter.SubChangesIffMatch, for any host whose first letter is a lower-case letter other than "w" and "v" and that holds no ":". Both twitter.com and x.com are such hosts.
- Base.EmbedColor: it states only the non-string case. The parse itself is stated by Base.EmbedColorRoundTrip and Text.ParseHexSix.
- Stats.StatsCommand requires that `track_command_usage` and `get_total_users` be exported. Both are exported by database/__init__.py:15-32, and the model treats only the two missing names as possible failures.
- Legacy.TransferCurrency: the nested get_balance is modelled as failing at its first statement, because the outer connection holds the write lock from its first INSERT. The five-second wait before that failure is not modelled.
- The reset deletes rows, following the code. The module's own docstring says it "resets to zero", and the model follows the code instead.
- Cogs are attempted in listing order with no exclusion list, following main.py. A sorted order or an excluded template would not match the code.

## Findings

| source | as written | input that shows it | evidently intended | confidence | as-written member | corrected member |
|---|---|---|---|---|---|---|
| cogs/stats/stats.py:67 | `/stats` calls `database.get_all_command_usage`, which database/__init__.py:29-32 does not export; the AttributeError is caught and the error embed is sent | any file and any connections: `StatsSpec(d, ShippedExports, ...)` is always the error reply | the report of user count and sorted usage counts | not executed | Stats.ShippedStatsFails | Stats.CorrectedStatsReport |
| cogs/stats/stats.py:91 | `/reset-stats` calls `database.reset_all_command_usage`, which the facade does not export; an admin always gets the error embed and the counts survive | an admin's call: `ResetStatsSpec(d, env, roles, ShippedExports, c) == (d, ResetError)` | a committed reset empties the counter | not executed | Stats.ShippedResetFails | Stats.ResetStatsOutcome |
| database.py:161 | the payer's balance is read by a nested `get_balance` on a second connection while the outer connection holds the write transaction opened at lines 158-159; that read's first insert waits for the lock and fails, so it yields 0 | a payer holding 10 "x" who sends 5 over clean connections is refused as insufficient; in general every positive transfer past the outer inserts is | the balance read inside the same transaction, as the live ledger does; the running bot imports the package database/ instead, so this code is unreachable at run time | not executed | Legacy.LegacyRefusesEveryTransfer | Ledger.TransferOutcome |
