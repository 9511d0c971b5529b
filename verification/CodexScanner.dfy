/** The accumulation loop over a Codex session log: cumulative counters turned into
    per-model deltas, priced event by event. */
module CodexScanner {
  import opened Options
  import opened Sequences

  type Model = string

  datatype Counters = Counters(input: int, cached: int, output: int)

  const ZERO := Counters(0, 0, 0)

  /** The log entries the loop reacts to, already decoded; other lines are skipped. */
  datatype Entry =
    | SessionMeta(id: Option<string>)
    | TurnContext(model: Option<Model>)
    | TokenCount(total: Counters, at: int)

  datatype Rates = Rates(inputPerToken: real, cachedReadPerToken: real, outputPerToken: real)

  /** What the scanner looks up: the key a model is accumulated under, and its rates at a time. */
  datatype Catalog = Catalog(keyOf: Option<Model> -> Model, rates: (Model, int) -> Option<Rates>)

  datatype Scan = Scan(sessionId: Option<string>, currentModel: Option<Model>, lastTotal: Option<Counters>,
      prevTotal: Counters,
                       models: seq<Model>,              // the keys of perModel, in insertion order
                       perModel: map<Model, Counters>,
                       costUsd: real, anyUnmeasured: bool)

  const START := Scan(None, None, None, ZERO, [], map[], 0.0, false)

  datatype SessionTotals = SessionTotals(sessionId: string, inputTokens: int, cachedInputTokens: int, outputTokens: int,
                                         costUsd: real, measured: bool)

  function Minus(a: Counters, b: Counters): Counters {
    Counters(a.input - b.input, a.cached - b.cached, a.output - b.output)
  }

  function Plus(a: Counters, b: Counters): Counters {
    Counters(a.input + b.input, a.cached + b.cached, a.output + b.output)
  }

  /** A counter that fell marks a reset: nothing is credited. */
  predicate Credits(d: Counters) {
    d.input >= 0 && d.output >= 0
  }

  /** The cached part of an input delta, clamped into it. */
  function ClampedCached(d: Counters): int {
    var least := if d.cached <= d.input then d.cached else d.input;
    if least >= 0 then least else 0
  }

  function Credit(d: Counters): Counters {
    d.(cached := ClampedCached(d))
  }

  /** Input that did not come from the cache; never below zero. */
  function Uncached(c: Counters): int {
    if c.input >= c.cached then c.input - c.cached else 0
  }

  function Price(c: Counters, r: Rates): real {
    Uncached(c) as real * r.inputPerToken + c.cached as real * r.cachedReadPerToken
        + c.output as real * r.outputPerToken
  }

  function PriceIfKnown(c: Counters, r: Option<Rates>): real {
    if r.Some? then Price(c, r.value) else 0.0
  }

  function Accumulated(perModel: map<Model, Counters>, key: Model): Counters {
    if key in perModel then perModel[key] else ZERO
  }

  /** The accumulators after one entry. */
  function Step(c: Catalog, s: Scan, e: Entry): Scan {
    match e
    case SessionMeta(id) => if s.sessionId.None? then s.(sessionId := id) else s
    case TurnContext(model) => if model.Some? then s.(currentModel := model) else s
    case TokenCount(total, at) =>
      var d := Minus(total, s.prevTotal);
      if Credits(d) then CreditModel(c, s, c.keyOf(s.currentModel), Credit(d), at).(prevTotal := total,
          lastTotal := Some(total))
      else s.(prevTotal := total, lastTotal := Some(total))
  }

  /** A credit is added to its model and priced at its own time. */
  function CreditModel(c: Catalog, s: Scan, key: Model, credit: Counters, at: int): Scan {
    s.(models := if key in s.perModel then s.models else s.models + [key],
       perModel := s.perModel[key := Plus(Accumulated(s.perModel, key), credit)],
       costUsd := s.costUsd + PriceIfKnown(credit, c.rates(key, at)),
       anyUnmeasured := s.anyUnmeasured || (c.rates(key, at).None? && credit.input + credit.output > 0))
  }

  function ScanAll(c: Catalog, entries: seq<Entry>): Scan {
    if entries == [] then START else Step(c, ScanAll(c, entries[..|entries| - 1]), entries[|entries| - 1])
  }

  // ----- Sums over the models -----

  ghost predicate Covered(models: seq<Model>, perModel: map<Model, Counters>) {
    forall m <- models :: m in perModel
  }

  ghost function Sum(models: seq<Model>, perModel: map<Model, Counters>): Counters
    requires Covered(models, perModel)
  {
    if models == [] then ZERO else Plus(Sum(models[..|models| - 1], perModel), perModel[models[|models| - 1]])
  }

  /** Every model's total priced once, at the rates of one time. */
  ghost function PricedOnce(c: Catalog, models: seq<Model>, perModel: map<Model, Counters>, at: int): real
    requires Covered(models, perModel)
  {
    if models == [] then 0.0
    else
      var m := models[|models| - 1];
      PricedOnce(c, models[..|models| - 1], perModel, at) + PriceIfKnown(perModel[m], c.rates(m, at))
  }

  lemma {:induction false} SumsIgnoreOthers(c: Catalog, models: seq<Model>, perModel: map<Model, Counters>, key: Model,
      updated: Counters, at: int)
    requires Covered(models, perModel) && key !in models
    ensures Sum(models, perModel[key := updated]) == Sum(models, perModel)
    ensures PricedOnce(c, models, perModel[key := updated], at) == PricedOnce(c, models, perModel, at)
  {
    hide PriceIfKnown, Plus;
    if models != [] {
      SumsIgnoreOthers(c, models[..|models| - 1], perModel, key, updated, at);
    }
  }

  predicate Within(c: Counters) {
    0 <= c.cached <= c.input && 0 <= c.output
  }

  lemma Distribute(x: int, y: int, r: real)
    ensures (x + y) as real * r == x as real * r + y as real * r
  {
    assert (x + y) as real == x as real + y as real;
  }

  /** Pricing is additive over counters whose cached input lies within their input. */
  lemma PriceOfSum(a: Counters, b: Counters, r: Option<Rates>)
    requires Within(a) && Within(b)
    ensures PriceIfKnown(Plus(a, b), r) == PriceIfKnown(a, r) + PriceIfKnown(b, r)
  {
    if r.Some? {
      Distribute(Uncached(a), Uncached(b), r.value.inputPerToken);
      Distribute(a.cached, b.cached, r.value.cachedReadPerToken);
      Distribute(a.output, b.output, r.value.outputPerToken);
    }
  }

  /** What the three rates are for; with PriceOfSum this fixes every price. */
  lemma PriceOfOneKind(n: nat, r: Rates)
    ensures Price(Counters(n, 0, 0), r) == n as real * r.inputPerToken
    ensures Price(Counters(n, n, 0), r) == n as real * r.cachedReadPerToken
    ensures Price(Counters(0, 0, n), r) == n as real * r.outputPerToken
  {
  }

  /** A credit is the delta itself, except that its cached part is moved to the nearest end of the input delta. */
  lemma CreditClamps(d: Counters)
    requires 0 <= d.input
    ensures Credit(d).input == d.input && Credit(d).output == d.output
    ensures 0 <= d.cached <= d.input ==> Credit(d) == d
    ensures d.cached < 0 ==> Credit(d).cached == 0
    ensures d.cached > d.input ==> Credit(d).cached == d.input
  {
  }

  /** Crediting one model raises the sum by the credit, and the price by the price of the credit. */
  lemma {:induction false} SumsOfUpdate(c: Catalog, models: seq<Model>, perModel: map<Model, Counters>, key: Model,
      credit: Counters, at: int)
    requires Covered(models, perModel) && Distinct(models) && key in models && Within(perModel[key]) && Within(credit)
    ensures var raised := perModel[key := Plus(perModel[key], credit)];
            && Sum(models, raised) == Plus(Sum(models, perModel), credit)
            && PricedOnce(c, models, raised, at) == PricedOnce(c, models, perModel, at)
                + PriceIfKnown(credit, c.rates(key, at))
  {
    hide PriceIfKnown, Within;
    var front, last := models[..|models| - 1], models[|models| - 1];
    assert models == front + [last];
    if key == last {
      SumsIgnoreOthers(c, front, perModel, key, Plus(perModel[key], credit), at);
      PriceOfSum(perModel[key], credit, c.rates(key, at));
    } else {
      SumsOfUpdate(c, front, perModel, key, credit, at);
    }
  }

  // ----- The invariant of the loop -----

  ghost predicate Keyed(s: Scan) {
    && Distinct(s.models) && (forall m :: m in s.models <==> m in s.perModel)
    && (forall m <- s.perModel :: Within(s.perModel[m]))
  }

  /** Some model without rates at that time has used tokens. */
  ghost predicate Unpriced(c: Catalog, perModel: map<Model, Counters>, at: int) {
    exists m <- perModel :: c.rates(m, at).None? && perModel[m].input + perModel[m].output > 0
  }

  ghost predicate FixedRates(c: Catalog) {
    forall m: Model, t: int, u: int :: c.rates(m, t) == c.rates(m, u)
  }

  lemma NewModel(c: Catalog, models: seq<Model>, perModel: map<Model, Counters>, key: Model, credit: Counters, at: int)
    requires Covered(models, perModel) && key !in models
    ensures var raised := perModel[key := credit];
            && Covered(models + [key], raised)
            && Sum(models + [key], raised) == Plus(Sum(models, perModel), credit)
            && PricedOnce(c, models + [key], raised, at)
                == PricedOnce(c, models, perModel, at) + PriceIfKnown(credit, c.rates(key, at))
  {
    hide PriceIfKnown, Plus;
    SumsIgnoreOthers(c, models, perModel, key, credit, at);
    assert (models + [key])[..|models|] == models;
  }

  lemma CreditKeepsKeyed(c: Catalog, s: Scan, key: Model, credit: Counters, at: int)
    requires Keyed(s) && Within(credit)
    ensures Keyed(CreditModel(c, s, key, credit, at))
  {
    hide Distinct, PriceIfKnown;
    if key !in s.perModel {
      DistinctExtends(s.models, key);
    }
  }

  lemma KeyedIsCovered(s: Scan)
    requires Keyed(s)
    ensures Covered(s.models, s.perModel)
  {
  }

  lemma CreditOne(c: Catalog, s: Scan, key: Model, credit: Counters, at: int)
    requires Keyed(s) && Within(credit)
    ensures var s' := CreditModel(c, s, key, credit, at);
            && Keyed(s') && Covered(s.models, s.perModel) && Covered(s'.models, s'.perModel)
            && Sum(s'.models, s'.perModel) == Plus(Sum(s.models, s.perModel), credit)
            && PricedOnce(c, s'.models, s'.perModel, at)
                == PricedOnce(c, s.models, s.perModel, at) + PriceIfKnown(credit, c.rates(key, at))
  {
    hide PriceIfKnown, Sum, PricedOnce, Distinct, Covered;
    CreditKeepsKeyed(c, s, key, credit, at);
    KeyedIsCovered(s);
    KeyedIsCovered(CreditModel(c, s, key, credit, at));
    if key in s.perModel {
      SumsOfUpdate(c, s.models, s.perModel, key, credit, at);
    } else {
      NewModel(c, s.models, s.perModel, key, credit, at);
      assert Plus(ZERO, credit) == credit;
    }
  }

  /** Neither input nor output fell. */
  predicate Grew(before: Counters, after: Counters) {
    before.input <= after.input && before.output <= after.output
  }

  /** The last entry is a counter event to be credited: no reset. */
  ghost predicate Counts(entries: seq<Entry>)
    requires entries != []
  {
    var before, last := entries[..|entries| - 1], entries[|entries| - 1];
    last.TokenCount? && Grew(LastTotal(before), last.total)
  }

  ghost function LastCredit(entries: seq<Entry>): Counters
    requires entries != [] && Counts(entries)
  {
    Credit(Minus(entries[|entries| - 1].total, LastTotal(entries[..|entries| - 1])))
  }

  /** The deltas the log credits: each counter event against the one before, resets skipped. */
  ghost function Credited(entries: seq<Entry>): Counters {
    if entries == [] then ZERO
    else
      var before := Credited(entries[..|entries| - 1]);
      if Counts(entries) then Plus(before, LastCredit(entries)) else before
  }

  ghost function LastTotal(entries: seq<Entry>): Counters {
    if entries == [] then ZERO
    else if entries[|entries| - 1].TokenCount? then entries[|entries| - 1].total
    else LastTotal(entries[..|entries| - 1])
  }

  // ----- What the log says of each model -----

  predicate NamesModel(e: Entry) {
    e.TurnContext? && e.model.Some?
  }

  /** The model in force at the end of the log: the one named last. */
  ghost function ModelAt(entries: seq<Entry>): Option<Model> {
    if entries == [] then None
    else if NamesModel(entries[|entries| - 1]) then entries[|entries| - 1].model
    else ModelAt(entries[..|entries| - 1])
  }

  lemma {:induction false} ModelIsNamedLast(entries: seq<Entry>) returns (k: nat)
    ensures ModelAt(entries).None? <==> forall e <- entries :: !NamesModel(e)
    ensures ModelAt(entries).Some? ==>
              && k < |entries| && NamesModel(entries[k]) && entries[k].model == ModelAt(entries)
              && forall j :: k < j < |entries| ==> !NamesModel(entries[j])
  {
    k := 0;
    if entries != [] {
      var front, last := entries[..|entries| - 1], entries[|entries| - 1];
      assert entries == front + [last];
      k := |front|;
      if !NamesModel(last) {
        k := ModelIsNamedLast(front);
      }
    }
  }

  /** The key that the last entry is accounted under. */
  ghost function KeyAt(c: Catalog, entries: seq<Entry>): Model
    requires entries != []
  {
    c.keyOf(ModelAt(entries[..|entries| - 1]))
  }

  /** The credits of one key. */
  ghost function CreditsOf(c: Catalog, entries: seq<Entry>, key: Model): Counters {
    if entries == [] then ZERO
    else
      var before := CreditsOf(c, entries[..|entries| - 1], key);
      if Counts(entries) && KeyAt(c, entries) == key then Plus(before, LastCredit(entries)) else before
  }

  ghost predicate HasCredits(c: Catalog, entries: seq<Entry>, key: Model) {
    entries != [] && ((Counts(entries) && KeyAt(c, entries) == key) || HasCredits(c, entries[..|entries| - 1], key))
  }

  /** Each credit at the rates its model has at its time, if any. */
  ghost function CostOf(c: Catalog, entries: seq<Entry>): real {
    if entries == [] then 0.0
    else
      var before, at := CostOf(c, entries[..|entries| - 1]), entries[|entries| - 1];
      if !Counts(entries) then before
      else
        match c.rates(KeyAt(c, entries), at.at)
        case None => before
        case Some(r) => before + Price(LastCredit(entries), r)
  }

  /** Some credited tokens had no rates. */
  ghost predicate Unmeasured(c: Catalog, entries: seq<Entry>) {
    entries != [] &&
    (Unmeasured(c, entries[..|entries| - 1])
    || (Counts(entries) && c.rates(KeyAt(c, entries), entries[|entries| - 1].at).None?
        && (LastCredit(entries).input > 0 || LastCredit(entries).output > 0)))
  }

  /** The accumulators hold what the log says of each key, of the cost and of unmeasured tokens. */
  ghost predicate Tells(c: Catalog, s: Scan, entries: seq<Entry>) {
    && s.currentModel == ModelAt(entries) && s.prevTotal == LastTotal(entries)
    && (forall key :: Accumulated(s.perModel, key) == CreditsOf(c, entries, key))
    && (forall key :: key in s.perModel <==> HasCredits(c, entries, key))
    && s.costUsd == CostOf(c, entries) && s.anyUnmeasured == Unmeasured(c, entries)
  }

  lemma StepTells(c: Catalog, s: Scan, entries: seq<Entry>)
    requires entries != [] && Tells(c, s, entries[..|entries| - 1])
    ensures Tells(c, Step(c, s, entries[|entries| - 1]), entries)
  {
    hide Price, Plus, Credit;
    var before, last := entries[..|entries| - 1], entries[|entries| - 1];
    if Counts(entries) {
      CreditIsWithin(Minus(last.total, s.prevTotal));
      CreditClamps(Minus(last.total, s.prevTotal));
    }
    var s' := Step(c, s, last);
    assert forall key :: key in s'.perModel <==> HasCredits(c, entries, key);
    assert forall key :: Accumulated(s'.perModel, key) == CreditsOf(c, entries, key);
  }

  /** For every log and key, the scan holds that key's credits, lists exactly the credited keys, and has the cost and
      the measured flag that the log gives event by event, each under the model in force. */
  lemma {:induction false} ScanTells(c: Catalog, entries: seq<Entry>)
    ensures Tells(c, ScanAll(c, entries), entries)
    ensures forall m :: m in ScanAll(c, entries).models <==> HasCredits(c, entries, m)
  {
    ScanAccounts(c, entries);
    if entries != [] {
      hide Tells, Step;
      ScanTells(c, entries[..|entries| - 1]);
      StepTells(c, ScanAll(c, entries[..|entries| - 1]), entries);
    }
    KeysListed(c, ScanAll(c, entries), entries);
  }

  lemma KeysListed(c: Catalog, s: Scan, entries: seq<Entry>)
    requires Accounts(s, entries) && Tells(c, s, entries)
    ensures forall m :: m in s.models <==> HasCredits(c, entries, m)
  {
  }

  // ----- The sums -----

  /** What the accumulators hold: the credited deltas, split by model. */
  ghost predicate Accounts(s: Scan, entries: seq<Entry>) {
    && Keyed(s) && s.prevTotal == LastTotal(entries)
    && Covered(s.models, s.perModel) && Sum(s.models, s.perModel) == Credited(entries)
  }

  lemma StepAccounts(c: Catalog, s: Scan, entries: seq<Entry>)
    requires entries != [] && Accounts(s, entries[..|entries| - 1])
    ensures Accounts(Step(c, s, entries[|entries| - 1]), entries)
  {
    hide Sum, Keyed, Distinct, CreditModel, Within, Plus;
    var last := entries[|entries| - 1];
    if last.TokenCount? && Credits(Minus(last.total, s.prevTotal)) {
      var d := Minus(last.total, s.prevTotal);
      CreditIsWithin(d);
      CreditOne(c, s, c.keyOf(s.currentModel), Credit(d), last.at);
      KeyedIsLocal(CreditModel(c, s, c.keyOf(s.currentModel), Credit(d), last.at), Step(c, s, last));
    } else {
      KeyedIsLocal(s, Step(c, s, last));
    }
  }

  lemma CreditIsWithin(d: Counters)
    requires Credits(d)
    ensures Within(Credit(d))
  {
  }

  lemma KeyedIsLocal(s: Scan, t: Scan)
    requires Keyed(s) && s.models == t.models && s.perModel == t.perModel
    ensures Keyed(t)
  {
  }

  /** Whatever the log holds: cached stays within input for every model, and the models' totals sum to the credited
      deltas. */
  lemma {:induction false} ScanAccounts(c: Catalog, entries: seq<Entry>)
    ensures Accounts(ScanAll(c, entries), entries)
  {
    if entries != [] {
      hide Accounts, Step;
      ScanAccounts(c, entries[..|entries| - 1]);
      StepAccounts(c, ScanAll(c, entries[..|entries| - 1]), entries);
    }
  }

  /** The counters never drop, and each cached delta lies within its input delta. */
  ghost predicate Smooth(entries: seq<Entry>) {
    entries != [] ==>
      var before, last := entries[..|entries| - 1], entries[|entries| - 1];
      Smooth(before) && (last.TokenCount? ==> Within(Minus(last.total, LastTotal(before))))
  }

  /** On a smooth log the credited deltas are the last cumulative counters, whatever the model switches. */
  lemma {:induction false} SmoothLogsCreditEverything(entries: seq<Entry>)
    requires Smooth(entries)
    ensures Credited(entries) == LastTotal(entries)
  {
    if entries != [] {
      SmoothLogsCreditEverything(entries[..|entries| - 1]);
    }
  }

  /** The cost is the models' totals priced once, and it is partial exactly when some model without rates used
      tokens. */
  ghost predicate CostsOnce(c: Catalog, s: Scan) {
    && Covered(s.models, s.perModel) && s.costUsd == PricedOnce(c, s.models, s.perModel, 0)
    && (s.anyUnmeasured <==> Unpriced(c, s.perModel, 0))
  }

  lemma UnpricedAfter(c: Catalog, perModel: map<Model, Counters>, key: Model, credit: Counters, at: int)
    requires Within(credit) && forall m <- perModel :: Within(perModel[m])
    ensures Unpriced(c, perModel[key := Plus(Accumulated(perModel, key), credit)], at)
            <==> Unpriced(c, perModel, at) || (c.rates(key, at).None? && credit.input + credit.output > 0)
  {
    var raised := perModel[key := Plus(Accumulated(perModel, key), credit)];
    if Unpriced(c, perModel, at) {
      var m :| m in perModel && c.rates(m, at).None? && perModel[m].input + perModel[m].output > 0;
      assert m in raised && raised[m].input + raised[m].output > 0;
    }
    if c.rates(key, at).None? && credit.input + credit.output > 0 {
      assert key in raised && raised[key].input + raised[key].output > 0;
    }
  }

  lemma StepCostsOnce(c: Catalog, s: Scan, e: Entry)
    requires FixedRates(c) && Keyed(s) && CostsOnce(c, s)
    ensures CostsOnce(c, Step(c, s, e))
  {
    if e.TokenCount? && Credits(Minus(e.total, s.prevTotal)) {
      var key, credit := c.keyOf(s.currentModel), Credit(Minus(e.total, s.prevTotal));
      CreditIsWithin(Minus(e.total, s.prevTotal));
      hide Within, Distinct, PricedOnce, Sum, Unpriced, PriceIfKnown, Plus, Credit;
      CreditOne(c, s, key, credit, 0);
      UnpricedAfter(c, s.perModel, key, credit, 0);
      assert c.rates(key, e.at) == c.rates(key, 0);
    }
  }

  /** With rates fixed in time, pricing event by event is pricing the per-model totals once. */
  lemma {:induction false} EventCostIsTotalCost(c: Catalog, entries: seq<Entry>)
    requires FixedRates(c)
    ensures CostsOnce(c, ScanAll(c, entries))
  {
    if entries != [] {
      hide Step, FixedRates, CostsOnce;
      EventCostIsTotalCost(c, entries[..|entries| - 1]);
      ScanAccounts(c, entries[..|entries| - 1]);
      StepCostsOnce(c, ScanAll(c, entries[..|entries| - 1]), entries[|entries| - 1]);
    }
  }

  // ----- The parser -----

  predicate NamesSession(e: Entry) {
    e.SessionMeta? && e.id.Some?
  }

  ghost predicate FirstSession(entries: seq<Entry>, k: nat) {
    k < |entries| && NamesSession(entries[k]) && forall j :: 0 <= j < k ==> !NamesSession(entries[j])
  }

  method ParseCodexSession(c: Catalog, entries: seq<Entry>) returns (r: Option<SessionTotals>)
    ensures r.None? <==> (forall e <- entries :: !NamesSession(e)) || (forall e <- entries :: !e.TokenCount?)
    ensures r.Some? ==>
              && (exists k: nat :: FirstSession(entries, k) && entries[k].id == Some(r.value.sessionId))
              && r.value.inputTokens + r.value.cachedInputTokens == Credited(entries).input
              && r.value.cachedInputTokens == Credited(entries).cached
              && r.value.outputTokens == Credited(entries).output
              && 0 <= r.value.inputTokens && 0 <= r.value.cachedInputTokens
              && r.value.costUsd == CostOf(c, entries) && r.value.measured == !Unmeasured(c, entries)
  {
    var s := START;
    ghost var first: nat := 0;
    for i := 0 to |entries|
      invariant s == ScanAll(c, entries[..i])
      invariant s.sessionId.None? ==> forall e <- entries[..i] :: !NamesSession(e)
      invariant s.sessionId.Some? ==> first < i && FirstSession(entries, first) && entries[first].id == s.sessionId
      invariant s.lastTotal.None? <==> forall e <- entries[..i] :: !e.TokenCount?
    {
      assert entries[..i + 1][..i] == entries[..i] && entries[..i + 1] == entries[..i] + [entries[i]];
      if NamesSession(entries[i]) && s.sessionId.None? {
        first := i;
      }
      s := Step(c, s, entries[i]);
    }
    assert entries[..|entries|] == entries;
    if s.sessionId.None? || s.lastTotal.None? {
      return None;
    }
    ScanAccounts(c, entries);
    ScanTells(c, entries);
    var totals := CloseModels(s);
    r := Some(SessionTotals(s.sessionId.value, totals.input, totals.cached, totals.output, s.costUsd,
        !s.anyUnmeasured));
  }

  /** The closing loop: its clamp never bites, so net and cached input add up to the sum of the inputs. */
  method CloseModels(s: Scan) returns (totals: Counters)
    requires Keyed(s) && Covered(s.models, s.perModel)
    ensures var all := Sum(s.models, s.perModel);
            totals.input + totals.cached == all.input && totals.cached == all.cached && totals.output == all.output
    ensures 0 <= totals.input && 0 <= totals.cached
  {
    totals := ZERO;
    for i := 0 to |s.models|
      invariant Covered(s.models[..i], s.perModel)
      invariant var all := Sum(s.models[..i], s.perModel);
                totals.input + totals.cached == all.input && totals.cached == all.cached && totals.output == all.output
      invariant 0 <= totals.input && 0 <= totals.cached
    {
      assert s.models[..i + 1][..i] == s.models[..i];
      var t := s.perModel[s.models[i]];
      totals := Counters(totals.input + Uncached(t), totals.cached + t.cached, totals.output + t.output);
    }
    assert s.models[..|s.models|] == s.models;
  }
}
