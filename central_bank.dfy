/** cogs/central_bank/central_bank.py: the /balance, /pay and /award
    commands, composed over the ledger and the usage counter. Each database
    call opens its own connection, so each has its own Conn. */
module CentralBank {
  import opened Text
  import opened Core
  import Ledger
  import Usage
  import Base
  import Roles

  // ---------------------------------------------------------------- configuration

  /** The configuration used when config.json is missing or invalid. */
  function Fallback(env: Base.Env): Base.Config {
    Base.FallbackConfig("Central Bank", "0x3498DB", env)
  }

  /** Without a readable file the cog is blue 0x3498DB, takes its log level
      from LOG_LEVEL_COGS, and its footer icon from ICON_URL_FOOTER. */
  lemma FallbackBehaviour(env: Base.Env)
    ensures Base.EmbedColor(Base.StandaloneConfig(None, env, Fallback(env))) == Some(0x3498DB)
    ensures Base.ResolveLogLevel(Base.StandaloneConfig(None, env, Fallback(env)), env)
         == Some(Base.LevelOf(Base.GetEnv(env, "LOG_LEVEL_COGS", "INFO")))
    ensures Base.StandaloneConfig(None, env, Fallback(env))[Base.FooterKey]
         == Base.JStr(Base.GetEnv(env, Base.FooterEnv, ""))
  {
    HexDigits3498DB();
    var config := Base.StandaloneConfig(None, env, Fallback(env));
    assert config["color"] == Base.JStr("0x3498DB");
    assert "log_level" !in config;
  }

  lemma HexDigits3498DB()
    ensures ParseHex("0x3498DB") == Some(0x3498DB)
  {
    ParseHexSix("0x3498DB", 3, 4, 9, 8, 13, 11);
  }

  // ---------------------------------------------------------------- /balance

  /** /balance: count the command, read the balance, report it. */
  function BalanceSpec(d: Db, userId: int, currency: string, cTrack: Conn, cRead: Conn): (Db, Base.Reply)
  {
    var d1 := Usage.TrackSpec(d, "balance", cTrack);
    var (d2, balance) := Ledger.GetBalanceSpec(d1, userId, currency, cRead);
    (d2, Base.Embed(Title(currency) + " Balance", "You have `" + IntToString(balance) + "` " + currency + ".", []))
  }

  method Balance(store: Store, userId: int, currency: string, cTrack: Conn, cRead: Conn) returns (reply: Base.Reply)
    requires store.Valid()
    modifies store
    ensures store.Valid()
    ensures (store.State(), reply) == BalanceSpec(old(store.State()), userId, currency, cTrack, cRead)
  {
    Usage.TrackCommandUsage(store, "balance", cTrack);
    var balance := Ledger.GetBalance(store, userId, currency, cRead);
    reply := Base.Embed(Title(currency) + " Balance", "You have `" + IntToString(balance) + "` " + currency + ".", []);
  }

  /** /balance is counted whether or not the read succeeds; when the read
      reaches its SELECT it reports the stored amount (0 for a new account):
      counting never touches balances. */
  lemma BalanceReports(d: Db, userId: int, currency: string, cTrack: Conn, cRead: Conn)
    ensures var (d', reply) := BalanceSpec(d, userId, currency, cTrack, cRead);
      && d'.usage == Usage.TrackSpec(d, "balance", cTrack).usage
      && (Reaches(cRead, 2) && {Users, Balances} <= d.tables ==>
            reply.description == "You have `" + IntToString(Ledger.Amount(d.balances, (userId, Lower(currency)))) + "` " + currency + ".")
  {
    Usage.TrackEffect(d, "balance", cTrack);
    var d1 := Usage.TrackSpec(d, "balance", cTrack);
    Ledger.GetBalanceReads(d1, userId, currency, cRead);
  }

  // ---------------------------------------------------------------- /pay

  const SelfPayment := Base.Embed("Payment Error", "You cannot pay yourself.", [])

  function PaidReply(mention: string, amount: int, currency: string): Base.Reply {
    Base.Embed("Payment Successful", "You have successfully paid " + mention + " `" + IntToString(amount) + "` " + currency + ".", [])
  }

  function FailedReply(currency: string): Base.Reply {
    Base.Embed("Payment Failed", "You do not have enough " + currency + " to complete this transaction.", [])
  }

  /** /pay: count the command, refuse a self-payment, otherwise transfer and
      report. The amount is at least 1 (the command's parameter range). */
  function PaySpec(d: Db, payerId: int, recipientId: int, mention: string, amount: int, currency: string,
                   cTrack: Conn, cTransfer: Conn): (Db, Base.Reply)
    requires amount >= 1
  {
    var d1 := Usage.TrackSpec(d, "pay", cTrack);
    if payerId == recipientId then (d1, SelfPayment)
    else
      var (d2, result) := Ledger.TransferSpec(d1, payerId, recipientId, amount, currency, cTransfer);
      (d2, if result.Transferred? then PaidReply(mention, amount, currency) else FailedReply(currency))
  }

  method Pay(store: Store, payerId: int, recipientId: int, mention: string, amount: int, currency: string,
             cTrack: Conn, cTransfer: Conn) returns (reply: Base.Reply)
    requires amount >= 1
    requires store.Valid()
    modifies store
    ensures store.Valid()
    ensures (store.State(), reply) == PaySpec(old(store.State()), payerId, recipientId, mention, amount, currency, cTrack, cTransfer)
  {
    Usage.TrackCommandUsage(store, "pay", cTrack);
    if payerId == recipientId {
      return SelfPayment;
    }
    var success := Ledger.TransferCurrency(store, payerId, recipientId, amount, currency, cTransfer);
    reply := if success then PaidReply(mention, amount, currency) else FailedReply(currency);
  }

  /** Paying oneself is refused before any transfer, yet still counted. */
  lemma SelfPaymentCounted(d: Db, userId: int, mention: string, amount: int, currency: string, cTrack: Conn, cTransfer: Conn)
    requires amount >= 1
    ensures PaySpec(d, userId, userId, mention, amount, currency, cTrack, cTransfer)
         == (Usage.TrackSpec(d, "pay", cTrack), SelfPayment)
  {
  }

  /** Between two users, /pay reports success exactly when the transfer
      succeeded; every other outcome (insufficient funds, no connection, a
      storage error) gets the same "not enough" reply. */
  lemma PayReplies(d: Db, payerId: int, recipientId: int, mention: string, amount: int, currency: string, cTrack: Conn, cTransfer: Conn)
    requires amount >= 1 && payerId != recipientId
    ensures var d1 := Usage.TrackSpec(d, "pay", cTrack);
      var reply := PaySpec(d, payerId, recipientId, mention, amount, currency, cTrack, cTransfer).1;
      && (reply == PaidReply(mention, amount, currency) <==>
            Reaches(cTransfer, 7) && {Users, Balances} <= d.tables
            && Ledger.Amount(d.balances, (payerId, Lower(currency))) >= amount)
      && (reply != PaidReply(mention, amount, currency) ==> reply == FailedReply(currency))
  {
    var d1 := Usage.TrackSpec(d, "pay", cTrack);
    Ledger.TransferOutcome(d1, payerId, recipientId, amount, currency, cTransfer);
    assert PaidReply(mention, amount, currency).title != FailedReply(currency).title;
  }

  /** /pay never creates or destroys currency. */
  lemma PayConserves(d: Db, payerId: int, recipientId: int, mention: string, amount: int, currency: string,
                     cTrack: Conn, cTransfer: Conn, other: string)
    requires amount >= 1
    ensures Ledger.Total(PaySpec(d, payerId, recipientId, mention, amount, currency, cTrack, cTransfer).0.balances, other)
         == Ledger.Total(d.balances, other)
  {
    var d1 := Usage.TrackSpec(d, "pay", cTrack);
    if payerId != recipientId {
      Ledger.TransferConserves(d1, payerId, recipientId, amount, currency, cTransfer, other);
    }
  }

  // ---------------------------------------------------------------- /award

  function AwardedReply(mention: string, amount: int, currency: string): Base.Reply {
    Base.Embed("Currency Awarded", "Successfully awarded `" + IntToString(amount) + "` " + currency + " to " + mention + ".", [])
  }

  /** /award: the banker check runs first; a refusal is a plain message and
      nothing is counted or written. Otherwise the command is counted and
      the amount, whatever its sign, is added to the recipient's balance. */
  function AwardSpec(d: Db, env: Base.Env, userRoles: seq<int>, recipientId: int, mention: string, amount: int, currency: string,
                     cTrack: Conn, cUpdate: Conn): (Db, Base.Reply)
  {
    match Roles.CheckRole("banker", env, userRoles)
    case Deny(refusal) => (d, Base.Plain(Roles.Message(refusal)))
    case Allow =>
      var d1 := Usage.TrackSpec(d, "award", cTrack);
      (Ledger.UpdateBalanceSpec(d1, recipientId, currency, amount, cUpdate), AwardedReply(mention, amount, currency))
  }

  method Award(store: Store, env: Base.Env, userRoles: seq<int>, recipientId: int, mention: string, amount: int, currency: string,
               cTrack: Conn, cUpdate: Conn) returns (reply: Base.Reply)
    requires store.Valid()
    modifies store
    ensures store.Valid()
    ensures (store.State(), reply) == AwardSpec(old(store.State()), env, userRoles, recipientId, mention, amount, currency, cTrack, cUpdate)
  {
    var decision := Roles.CheckRole("banker", env, userRoles);
    if decision.Deny? {
      return Base.Plain(Roles.Message(decision.refusal));
    }
    Usage.TrackCommandUsage(store, "award", cTrack);
    Ledger.UpdateBalance(store, recipientId, currency, amount, cUpdate);
    reply := AwardedReply(mention, amount, currency);
  }

  /** A refused award changes nothing; an allowed one moves the currency's
      total by exactly the amount, zero and negative amounts included, and
      always reports success, even when the update did not commit. */
  lemma AwardEffect(d: Db, env: Base.Env, userRoles: seq<int>, recipientId: int, mention: string, amount: int, currency: string,
                    cTrack: Conn, cUpdate: Conn, other: string)
    ensures var (d', reply) := AwardSpec(d, env, userRoles, recipientId, mention, amount, currency, cTrack, cUpdate);
      && (Roles.CheckRole("banker", env, userRoles).Deny? ==> d' == d && reply.Plain?)
      && (Roles.CheckRole("banker", env, userRoles).Allow? ==> reply == AwardedReply(mention, amount, currency))
      && (Roles.CheckRole("banker", env, userRoles).Allow? && Reaches(cUpdate, 4) && {Users, Balances} <= d.tables ==>
            Ledger.Total(d'.balances, other) == Ledger.Total(d.balances, other) + (if other == Lower(currency) then amount else 0))
  {
    var decision := Roles.CheckRole("banker", env, userRoles);
    var r := AwardSpec(d, env, userRoles, recipientId, mention, amount, currency, cTrack, cUpdate);
    if decision.Deny? {
      assert r == (d, Base.Plain(Roles.Message(decision.refusal)));
    } else {
      var d1 := Usage.TrackSpec(d, "award", cTrack);
      assert r == (Ledger.UpdateBalanceSpec(d1, recipientId, currency, amount, cUpdate), AwardedReply(mention, amount, currency));
      if Reaches(cUpdate, 4) && {Users, Balances} <= d.tables {
        Ledger.UpdateBalanceTotal(d1, recipientId, currency, amount, cUpdate, other);
      }
    }
  }
}
