/**
 * The transaction switch: validate one payment, route it to a settlement
 * rail by the sender's account prefix, ask the classifier for a category,
 * stamp status and time, and hand the finished record to the store.
 *
 * The clock, the classifier's endpoint and the store's `save` are
 * parameters. A run returns its outcome together with the classifier cache
 * afterwards and its external effects: the request bodies posted to the
 * endpoint and the record handed to the store.
 */
module TransactionSwitch {
  import opened JavaLang
  import opened Decimal
  import opened JsonNode
  import opened CategorizationService
  import opened LedgerModel

  // ---------------------------------------------------------------------
  // Routing

  /** The settlement rails a payment can leave on. */
  datatype Rail = Investec | Absa | StandardBank

  /** The bank name the status line reports. */
  function BankName(rail: Rail): string {
    match rail
    case Investec => "INVESTEC BANK"
    case Absa => "ABSA BANK"
    case StandardBank => "STANDARD BANK"
  }

  /** The pool account that receives payments sent on the rail. */
  function PoolAccount(rail: Rail): string {
    match rail
    case Investec => "INV-POOL-888"
    case Absa => "ABS-MERCHANT-001"
    case StandardBank => "SB-CLEARING-999"
  }

  /**
   * The routing decision: `INV` senders to Investec, otherwise `ABS` senders
   * to Absa, everyone else, the empty account included, to Standard Bank.
   */
  function Route(sender: string): (r: Rail)
    ensures r == Investec <==> StartsWith(sender, "INV")
    ensures r == Absa <==> !StartsWith(sender, "INV") && StartsWith(sender, "ABS")
    ensures r == StandardBank <==> !StartsWith(sender, "INV") && !StartsWith(sender, "ABS")
  {
    if StartsWith(sender, "INV") then Investec
    else if StartsWith(sender, "ABS") then Absa
    else StandardBank
  }

  /** The prefix rules in the order they are tried. */
  const RoutingTable: seq<(string, Rail)> := [("INV", Investec), ("ABS", Absa)]

  /**
   * The first-match rule: the rail of the first rule whose prefix the sender
   * starts with, and the default rail exactly when no rule matches.
   */
  function FirstMatch(rules: seq<(string, Rail)>, sender: string, default: Rail): (r: Rail)
    ensures (exists i :: 0 <= i < |rules| && StartsWith(sender, rules[i].0) && r == rules[i].1
                         && forall j :: 0 <= j < i ==> !StartsWith(sender, rules[j].0))
         || ((forall i :: 0 <= i < |rules| ==> !StartsWith(sender, rules[i].0)) && r == default)
  {
    if |rules| == 0 then default
    else if StartsWith(sender, rules[0].0) then rules[0].1
    else
      var r := FirstMatch(rules[1..], sender, default);
      assert forall i :: 1 <= i < |rules| ==> rules[i] == rules[1..][i - 1];
      r
  }

  /** The if/else chain is the routing table read top to bottom with Standard Bank as default. */
  lemma {:induction false} RouteIsFirstMatch(sender: string)
    ensures Route(sender) == FirstMatch(RoutingTable, sender, StandardBank)
  {
    assert RoutingTable[1..] == [("ABS", Absa)];
    assert RoutingTable[1..][1..] == [];
  }

  /**
   * Routing looks at nothing but the first three characters: two senders
   * that agree there are routed alike.
   */
  lemma {:induction false} RouteReadsPrefixOnly(a: string, b: string)
    requires |a| >= 3 && |b| >= 3 && a[..3] == b[..3]
    ensures Route(a) == Route(b)
  {
  }

  /** A sender shorter than the prefixes, the empty one included, goes to Standard Bank. */
  lemma {:induction false} ShortSendersToStandardBank(sender: string)
    requires |sender| < 3
    ensures Route(sender) == StandardBank
  {
  }

  /** The three rails have distinct bank names and distinct pool accounts. */
  lemma {:induction false} RailsAreDistinguishable(r1: Rail, r2: Rail)
    ensures BankName(r1) == BankName(r2) <==> r1 == r2
    ensures PoolAccount(r1) == PoolAccount(r2) <==> r1 == r2
  {
    if r1 != r2 {
      assert BankName(r1)[0] != BankName(r2)[0];
      assert PoolAccount(r1)[0] != PoolAccount(r2)[0];
    }
  }

  // ---------------------------------------------------------------------
  // Processing one payment

  const FraudMessage: string := "FRAUD ALERT: Cannot send negative money!"
  const StatusPrefix: string := "SUCCESS - Sent to "

  /** The status line of a payment sent on `rail`. */
  function StatusText(rail: Rail): string {
    StatusPrefix + BankName(rail)
  }

  /** The status names the rail's bank, and different rails give different statuses. */
  lemma {:induction false} StatusNamesRail(r1: Rail, r2: Rail)
    ensures Contains(StatusText(r1), BankName(r1))
    ensures StatusText(r1) == StatusText(r2) <==> r1 == r2
  {
    ContainsInfix(StatusPrefix, BankName(r1), "");
    assert StatusPrefix + BankName(r1) + "" == StatusText(r1);
    if StatusText(r1) == StatusText(r2) {
      assert BankName(r1) == StatusText(r1)[|StatusPrefix|..];
      assert BankName(r2) == StatusText(r2)[|StatusPrefix|..];
      RailsAreDistinguishable(r1, r2);
    }
  }

  /** What the store's `save` does with a record: hand back the stored record, or throw. */
  datatype Stored = Stored(txn: Transaction) | SaveFailed(message: string)

  /** What the switch has to work with besides the payment: the clock, the endpoint and the store. */
  datatype Env = Env(now: LocalDateTime, endpoint: Json -> Reply, save: Transaction -> Stored)

  /** How `processAndRoute` ends: with an exception, or with the record the store returned. */
  datatype Outcome = Thrown(message: string) | Returned(txn: Transaction)

  /** The store's answer as the switch passes it on: a failure propagates as the exception. */
  function Passed(s: Stored): (o: Outcome)
    ensures s.Stored? <==> o.Returned?
    ensures s.Stored? ==> o.txn == s.txn
    ensures s.SaveFailed? ==> o.message == s.message
  {
    match s
    case Stored(t) => Returned(t)
    case SaveFailed(m) => Thrown(m)
  }

  /**
   * One run of the switch: its outcome, the classifier cache afterwards, the
   * request bodies posted to the endpoint, and the record handed to the
   * store, if any. The store is called at most once, after every post.
   */
  datatype Run = Run(outcome: Outcome, cache: Cache, posted: seq<Json>, saved: Option<Transaction>)

  /** The key the classifier is called with: the reference and the amount's text. */
  function CategoryKey(txn: Transaction): Key {
    (txn.reference, ToString(txn.amount))
  }

  /**
   * The record as the switch completes it: currency, receiver, category,
   * status and timestamp overwritten, everything else as submitted.
   */
  function Complete(txn: Transaction, rail: Rail, category: string, now: LocalDateTime): (fin: Transaction)
    ensures fin.currency == Some("ZAR")
    ensures fin.receiverAccount == Some(PoolAccount(rail))
    ensures fin.status == Some(StatusText(rail))
    ensures fin.category == Some(category)
    ensures fin.timestamp == Some(now)
    ensures fin.id == txn.id && fin.reference == txn.reference
    ensures fin.amount == txn.amount && fin.senderAccount == txn.senderAccount
  {
    txn.(currency := Some("ZAR"),
         receiverAccount := Some(PoolAccount(rail)),
         category := Some(category),
         status := Some(StatusText(rail)),
         timestamp := Some(now))
  }

  /**
   * `processAndRoute`. A negative amount throws the fraud alert before
   * anything else happens. Otherwise the currency becomes ZAR, the receiver
   * is the pool account of the rail the sender routes to, the category is
   * whatever the cached classifier answers for the reference and the
   * amount's text, the status names the rail, the timestamp is the clock's
   * reading, and the finished record goes to the store once. The store's
   * answer is the result, and an exception from the store propagates after
   * the classifier's post and cache entry have happened.
   */
  function ProcessAndRoute(txn: Transaction, env: Env, cache: Cache): (run: Run)
    ensures RealValue(txn.amount) < 0.0 <==> run.saved.None?
    ensures run.saved.None? ==>
              run.outcome == Thrown(FraudMessage) && run.posted == [] && run.cache == cache
    ensures run.saved.Some? ==> run.outcome == Passed(env.save(run.saved.value))
    ensures run.saved.Some? ==>
              var c := CategorizeCached(cache, txn.reference, ToString(txn.amount), env.endpoint);
              run.cache == c.cache && run.posted == c.posted
              && run.saved.value.category == Some(c.category)
    ensures run.saved.Some? ==>
              var fin := run.saved.value;
              var rail := Route(txn.senderAccount);
              fin.currency == Some("ZAR")
              && fin.receiverAccount == Some(PoolAccount(rail))
              && fin.status == Some(StatusText(rail))
              && fin.timestamp == Some(env.now)
              && fin.id == txn.id && fin.reference == txn.reference
              && fin.amount == txn.amount && fin.senderAccount == txn.senderAccount
  {
    if CompareToZero(txn.amount) < 0 then
      Run(Thrown(FraudMessage), cache, [], None)
    else
      var rail := Route(txn.senderAccount);
      var key := CategoryKey(txn);
      var call := CategorizeCached(cache, key.0, key.1, env.endpoint);
      var fin := Complete(txn, rail, call.category, env.now);
      Run(Passed(env.save(fin)), call.cache, call.posted, Some(fin))
  }

  /**
   * The stored category is the classifier's: on a hit the cached entry, with
   * the cache as it was; on a miss the answer of one uncached call, which the
   * cache then holds under the pair, every other entry kept.
   */
  lemma {:induction false} CategoryIsClassifierAnswer(txn: Transaction, env: Env, cache: Cache)
    requires RealValue(txn.amount) >= 0.0
    ensures var run := ProcessAndRoute(txn, env, cache);
            var key := CategoryKey(txn);
            var answer := Categorize(txn.reference, ToString(txn.amount), env.endpoint);
            run.saved.Some?
            && (key in cache ==> run.saved.value.category == Some(cache[key]) && run.cache == cache)
            && (key !in cache ==> run.saved.value.category == Some(answer) && run.cache == cache[key := answer])
  {
    var key := CategoryKey(txn);
    var c := CategorizeCached(cache, txn.reference, ToString(txn.amount), env.endpoint);
    CachedOnlyAdds(cache, txn.reference, ToString(txn.amount), env.endpoint);
    if key !in cache {
      assert c.cache == cache[key := c.category];
    }
  }

  /**
   * While the endpoint cannot be reached, a payment whose pair is not cached
   * is stored with the AI-error category, and that category stays cached for
   * its pair.
   */
  lemma {:induction false} TransportFailureStoresAiError(txn: Transaction, env: Env, cache: Cache)
    requires RealValue(txn.amount) >= 0.0
    requires CategoryKey(txn) !in cache
    requires forall body :: env.endpoint(body) == TransportFailure
    ensures var run := ProcessAndRoute(txn, env, cache);
            run.saved.Some? && run.saved.value.category == Some(AiErrorLabel)
            && run.cache[CategoryKey(txn)] == AiErrorLabel
  {
  }

  /**
   * A store that throws makes the run throw its exception, but only after
   * the classifier was asked: the request is posted and the category cached
   * all the same.
   */
  lemma {:induction false} StoreFailureKeepsCategory(txn: Transaction, env: Env, cache: Cache, message: string)
    requires RealValue(txn.amount) >= 0.0
    requires CategoryKey(txn) !in cache
    requires forall t :: env.save(t) == SaveFailed(message)
    ensures var run := ProcessAndRoute(txn, env, cache);
            run.outcome == Thrown(message)
            && |run.posted| == 1 && CategoryKey(txn) in run.cache
  {
  }

  /** The test is strictly below zero: a zero amount, at any scale, goes through. */
  lemma {:induction false} ZeroIsAccepted(txn: Transaction, env: Env, cache: Cache)
    requires txn.amount.unscaled == 0
    ensures ProcessAndRoute(txn, env, cache).saved.Some?
  {
  }

  /**
   * Processing the same payment twice calls the endpoint at most once: the
   * second run answers from the cache the first run left, with the same
   * category.
   */
  lemma {:induction false} SecondRunIsCached(txn: Transaction, env1: Env, env2: Env, cache: Cache)
    requires RealValue(txn.amount) >= 0.0
    ensures var r1 := ProcessAndRoute(txn, env1, cache);
            var r2 := ProcessAndRoute(txn, env2, r1.cache);
            r2.posted == [] && r2.cache == r1.cache
            && r2.saved.value.category == r1.saved.value.category
  {
  }

  /**
   * The cache is keyed by the amount's text, not its value: the same
   * reference at 10.00 and at 10.0 rand gives two different keys.
   */
  lemma {:induction false} ScaleSplitsCacheKey(reference: Option<string>, sender: string)
    ensures CategoryKey(Submitted(reference, BigDecimal(1000, 2), sender))
         != CategoryKey(Submitted(reference, BigDecimal(100, 1), sender))
  {
    ToStringInjective(BigDecimal(1000, 2), BigDecimal(100, 1));
  }

  /**
   * The rejected payment of the switch's tests: the amount read from
   * `-500.00`, sent from an Investec account, throws the fraud alert and
   * touches neither the classifier nor the store.
   */
  lemma {:induction false} BlocksNegativeMoney(env: Env, cache: Cache)
    ensures Parse("-500.00") == Some(BigDecimal(-50000, 2))
    ensures ProcessAndRoute(Submitted(None, BigDecimal(-50000, 2), "INV-001"), env, cache)
         == Run(Thrown(FraudMessage), cache, [], None)
  {
    MinusFiveHundred();
  }

  /** The store of the switch's tests hands back the record it was given. */
  function Echo(txn: Transaction): Stored {
    Stored(txn)
  }

  /**
   * With a store that hands back what it is given, a payment that is not
   * negative comes back with the status of the rail its sender routes to,
   * which names that rail's bank.
   */
  lemma {:induction false} EchoShowsRail(txn: Transaction, now: LocalDateTime, endpoint: Json -> Reply,
                                         cache: Cache, rail: Rail)
    requires CompareToZero(txn.amount) >= 0
    requires Route(txn.senderAccount) == rail
    ensures var run := ProcessAndRoute(txn, Env(now, endpoint, Echo), cache);
            run.outcome.Returned? && run.outcome.txn.status == Some(StatusText(rail))
            && Contains(run.outcome.txn.status.value, BankName(rail))
  {
    StatusNamesRail(rail, rail);
  }

  /**
   * 100.00 from `INV-999` comes back with a status naming Investec. The
   * amount is a parameter pinned by the precondition rather than a literal in
   * the statement, so that the verifier does not spell out the amount's text
   * and the prompt built from it, which this fact does not depend on.
   */
  lemma {:induction false} RoutesInvestecToInvestec(amount: BigDecimal, now: LocalDateTime, endpoint: Json -> Reply, cache: Cache)
    requires amount == BigDecimal(10000, 2)
    ensures var run := ProcessAndRoute(Submitted(None, amount, "INV-999"), Env(now, endpoint, Echo), cache);
            run.outcome.Returned? && run.outcome.txn.status.Some?
            && Contains(run.outcome.txn.status.value, "INVESTEC BANK")
  {
    assert CompareToZero(amount) == 1;
    assert Route("INV-999") == Investec;
    EchoShowsRail(Submitted(None, amount, "INV-999"), now, endpoint, cache, Investec);
  }

  /**
   * 50.00 from `ABS-123` comes back with a status naming Absa. The amount is
   * pinned by the precondition for the same reason as above.
   */
  lemma {:induction false} RoutesAbsaToAbsa(amount: BigDecimal, now: LocalDateTime, endpoint: Json -> Reply, cache: Cache)
    requires amount == BigDecimal(5000, 2)
    ensures var run := ProcessAndRoute(Submitted(None, amount, "ABS-123"), Env(now, endpoint, Echo), cache);
            run.outcome.Returned? && run.outcome.txn.status.Some?
            && Contains(run.outcome.txn.status.value, "ABSA BANK")
  {
    assert CompareToZero(amount) == 1;
    assert "ABS-123"[..3][0] != "INV"[0];
    assert Route("ABS-123") == Absa;
    EchoShowsRail(Submitted(None, amount, "ABS-123"), now, endpoint, cache, Absa);
  }

  /**
   * The ride of the classifier's own example: `Uber * 8721`, 45.00 from an
   * Investec account, with an endpoint that answers with one of the menu
   * labels, such as `Transport`. The record goes to the Investec pool with
   * the Investec status, currency ZAR and exactly that label as category,
   * after one request.
   */
  lemma {:induction false} UberRideScenario(now: LocalDateTime, save: Transaction -> Stored,
                                            endpoint: Json -> Reply, k: nat)
    requires k < |Labels|
    requires forall body :: endpoint(body) == Reply(Some(ReplyWith(Labels[k])))
    ensures var txn := Submitted(Some("Uber * 8721"), BigDecimal(4500, 2), "INV-999");
            var run := ProcessAndRoute(txn, Env(now, endpoint, save), map[]);
            run.saved.Some?
            && run.saved.value.receiverAccount == Some(PoolAccount(Investec))
            && run.saved.value.status == Some(StatusText(Investec))
            && run.saved.value.category == Some(Labels[k])
            && run.saved.value.currency == Some("ZAR")
            && run.saved.value.timestamp == Some(now)
            && |run.posted| == 1
  {
    assert Route("INV-999") == Investec;
    LabelsAreClean(k);
    CleanReplyIsAnswer(Some("Uber * 8721"), ToString(BigDecimal(4500, 2)), endpoint, Labels[k]);
  }
}
