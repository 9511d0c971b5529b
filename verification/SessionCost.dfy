/** Turning absolute session snapshots into deltas on a run's totals, and pricing
    the same snapshot for the cost ceiling. */
module SessionCost {
  import opened Options

  /** A run's stored totals. */
  datatype Totals = Totals(tokensIn: real, tokensOut: real, costUsd: real)

  /** The totals a session started from: `initialTokensIn` and its companions, when recorded. */
  datatype Initial = Initial(tokensIn: Option<real>, tokensOut: Option<real>, costUsd: Option<real>)

  /** The scanner's absolute usage. */
  datatype Snapshot = Snapshot(input: real, cached: real, cacheCreation: real, output: real, costUsd: real,
      measured: bool)

  /** What the harness reported. */
  datatype Result = Result(tokensIn: real, tokensOut: real, costUsd: real, measured: bool)

  datatype Source = Scanner | Runtime | Computed | Nothing

  datatype Priced = Priced(tokensIn: real, tokensOut: real, costDelta: real, cumulativeCostUsd: real, source: Source)

  function Max(a: real, b: real): real {
    if a >= b then a else b
  }

  /** `nonNegative(value) ?? fallback`. */
  function NonNegative(v: real, fallback: real): real {
    if v >= 0.0 then v else fallback
  }

  function InitialOr(v: Option<real>, fallback: real): real {
    if v.Some? then NonNegative(v.value, fallback) else fallback
  }

  function Baseline(run: Totals, initial: Initial): Totals {
    Totals(InitialOr(initial.tokensIn, NonNegative(run.tokensIn, 0.0)),
           InitialOr(initial.tokensOut, NonNegative(run.tokensOut, 0.0)),
           InitialOr(initial.costUsd, NonNegative(run.costUsd, 0.0)))
  }

  function Unrecorded(absolute: real, current: real, baseline: real): real {
    var alreadyRecorded := Max(0.0, NonNegative(current, 0.0) - NonNegative(baseline, 0.0));
    Max(0.0, NonNegative(absolute, 0.0) - alreadyRecorded)
  }

  predicate PreserveLiveCost(run: Totals, baseline: Totals, tokensIn: real, tokensOut: real) {
    tokensIn == 0.0 && tokensOut == 0.0 && NonNegative(run.costUsd, 0.0) > baseline.costUsd
  }

  /** `computeCost` of some model: any non-negative price of absolute token counts. */
  type Pricing = (real, real) -> real

  function ComputedDelta(run: Totals, baseline: Totals, absIn: real, absOut: real, price: Pricing): real {
    if PreserveLiveCost(run, baseline, Unrecorded(absIn, run.tokensIn, baseline.tokensIn),
        Unrecorded(absOut, run.tokensOut, baseline.tokensOut))
    then 0.0 else Unrecorded(price(absIn, absOut), run.costUsd, baseline.costUsd)
  }

  function AbsoluteIn(s: Snapshot): real {
    s.input + s.cached + s.cacheCreation
  }

  function PriceScannerSnapshot(run: Totals, s: Snapshot, initial: Initial, price: Pricing): Priced {
    var base := Baseline(run, initial);
    var tokensIn := Unrecorded(AbsoluteIn(s), run.tokensIn, base.tokensIn);
    var tokensOut := Unrecorded(s.output, run.tokensOut, base.tokensOut);
    var computed := ComputedDelta(run, base, AbsoluteIn(s), s.output, price);
    if s.measured then
      var delta := Unrecorded(s.costUsd, run.costUsd, base.costUsd);
      Priced(tokensIn, tokensOut, delta, run.costUsd + delta, Scanner)
    else if tokensIn > 0.0 || tokensOut > 0.0 || computed > 0.0 then
      Priced(tokensIn, tokensOut, computed, run.costUsd + computed, Computed)
    else Priced(tokensIn, tokensOut, 0.0, run.costUsd, Nothing)
  }

  function PriceResultDelta(run: Totals, r: Result, initial: Initial, price: Pricing): Priced {
    var base := Baseline(run, initial);
    var absIn, absOut := Max(0.0, r.tokensIn), Max(0.0, r.tokensOut);
    var tokensIn := Unrecorded(absIn, run.tokensIn, base.tokensIn);
    var tokensOut := Unrecorded(absOut, run.tokensOut, base.tokensOut);
    var computed := ComputedDelta(run, base, absIn, absOut, price);
    if r.costUsd >= 0.0 && (r.costUsd > 0.0 || r.measured) then
      var delta := Unrecorded(r.costUsd, run.costUsd, base.costUsd);
      Priced(tokensIn, tokensOut, delta, run.costUsd + delta, Runtime)
    else if tokensIn > 0.0 || tokensOut > 0.0 || computed > 0.0 then
      Priced(tokensIn, tokensOut, computed, run.costUsd + computed, Computed)
    else Priced(tokensIn, tokensOut, computed, run.costUsd + computed, Nothing)
  }

  function PriceFor(run: Totals, scanned: Option<Snapshot>, r: Result, initial: Initial, price: Pricing): Priced {
    if scanned.Some? then PriceScannerSnapshot(run, scanned.value, initial, price)
        else PriceResultDelta(run, r, initial, price)
  }

  /** `resolveSessionCostForCeiling`. */
  function CostForCeiling(run: Totals, scanned: Option<Snapshot>, r: Result, initial: Initial, price: Pricing): real {
    PriceFor(run, scanned, r, initial, price).cumulativeCostUsd
  }

  /** The run row. `updateTokens` adds; it is called only when there is something to add. */
  class RunRow {
    var totals: Totals
    /** The source and the stored cost of each accounting record. */
    var evidence: seq<(Source, real)>

    constructor (totals: Totals)
      ensures this.totals == totals && evidence == []
    {
      this.totals, evidence := totals, [];
    }

    method UpdateTokens(tokensIn: real, tokensOut: real, costUsd: real)
      modifies this`totals
      ensures totals == Totals(old(totals).tokensIn + tokensIn, old(totals).tokensOut + tokensOut,
              old(totals).costUsd + costUsd)
    {
      totals := Totals(totals.tokensIn + tokensIn, totals.tokensOut + tokensOut, totals.costUsd + costUsd);
    }

    /** With no write in between, the cost checked against the ceiling is the run cost then
        stored, and the cost the evidence states, on the scanner, runtime and computed paths alike. */
    method RecordSessionCost(scanned: Option<Snapshot>, r: Result, initial: Initial, price: Pricing)
      modifies this
      ensures totals == Recorded(old(totals), PriceFor(old(totals), scanned, r, initial, price))
      ensures totals.costUsd == CostForCeiling(old(totals), scanned, r, initial, price)
      ensures evidence == old(evidence) + [(PriceFor(old(totals), scanned, r, initial, price).source, totals.costUsd)]
    {
      var priced := PriceFor(totals, scanned, r, initial, price);
      var stored := totals.costUsd;
      if priced.tokensIn > 0.0 || priced.tokensOut > 0.0 || priced.costDelta > 0.0 {
        stored := totals.costUsd + priced.costDelta;
        UpdateTokens(priced.tokensIn, priced.tokensOut, priced.costDelta);
      }
      evidence := evidence + [(priced.source, stored)];
    }
  }

  function Recorded(run: Totals, p: Priced): Totals {
    Totals(run.tokensIn + p.tokensIn, run.tokensOut + p.tokensOut, run.costUsd + p.costDelta)
  }

  // ----- Any sequence of reports -----

  /** One session report: the scanner's snapshot if it has one, and the harness result. */
  datatype Report = Report(scanned: Option<Snapshot>, result: Result)

  /** All the input the report tells of: what the scanner counted fresh, read from the cache and written to it, or
      what the harness counted. */
  function TokensInOf(r: Report): real {
    match r.scanned
    case Some(s) => s.input + s.cached + s.cacheCreation
    case None => r.result.tokensIn
  }

  function TokensOutOf(r: Report): real {
    if r.scanned.Some? then r.scanned.value.output else r.result.tokensOut
  }

  function CostOf(r: Report): real {
    if r.scanned.Some? then r.scanned.value.costUsd else r.result.costUsd
  }

  /** The cost is reported, not computed from the tokens. */
  predicate CostReported(r: Report) {
    if r.scanned.Some? then r.scanned.value.measured else
        r.result.costUsd > 0.0
        || (r.result.measured && r.result.costUsd == 0.0)
  }

  lemma OneReport(run: Totals, r: Report, base: Totals, price: Pricing)
    ensures var p := PriceFor(run, r.scanned, r.result, Fixed(base), price);
            && (0.0 <= base.tokensIn ==> p.tokensIn == Unrecorded(TokensInOf(r), run.tokensIn, base.tokensIn))
            && (0.0 <= base.tokensOut ==> p.tokensOut == Unrecorded(TokensOutOf(r), run.tokensOut, base.tokensOut))
            && (0.0 <= base.costUsd && CostReported(r) ==>
                p.costDelta == Unrecorded(CostOf(r), run.costUsd, base.costUsd))
  {
  }

  /** Where one total of the session is taken to start: where it was recorded to, else at the run's current total. */
  function StartOf(recorded: Option<real>, current: real): real {
    match recorded
    case Some(v) => if v < 0.0 then Max(0.0, current) else v
    case None => Max(0.0, current)
  }

  /** The recorded deltas are counted from that start. */
  lemma CountedFromStart(run: Totals, r: Report, initial: Initial, price: Pricing)
    ensures var p := PriceFor(run, r.scanned, r.result, initial, price);
            && p.tokensIn == Unrecorded(TokensInOf(r), run.tokensIn, StartOf(initial.tokensIn, run.tokensIn))
            && p.tokensOut == Unrecorded(TokensOutOf(r), run.tokensOut, StartOf(initial.tokensOut, run.tokensOut))
            && (CostReported(r) ==>
                  p.costDelta == Unrecorded(CostOf(r), run.costUsd, StartOf(initial.costUsd, run.costUsd)))
  {
  }

  /** So a session without a recorded start adds its whole report to the run. */
  lemma WholeReportWithoutStart(run: Totals, r: Report, price: Pricing)
    ensures var p := PriceFor(run, r.scanned, r.result, Initial(None, None, None), price);
            && p.tokensIn == Max(0.0, TokensInOf(r)) && p.tokensOut == Max(0.0, TokensOutOf(r))
            && (CostReported(r) ==> p.costDelta == Max(0.0, CostOf(r)))
  {
  }

  /** Where the evidence says the cost comes from: from the report, else from the tokens if anything is added. */
  lemma SourceIsExact(run: Totals, r: Report, initial: Initial, price: Pricing)
    ensures var p := PriceFor(run, r.scanned, r.result, initial, price);
            p.source == if CostReported(r) then (if r.scanned.Some? then Scanner else Runtime)
                        else if p.tokensIn > 0.0 || p.tokensOut > 0.0 || p.costDelta > 0.0 then Computed
                        else Nothing
  {
  }

  /** The totals after recording the reports of one session, in the given order. */
  function RecordAll(run: Totals, reports: seq<Report>, initial: Initial, price: Pricing): Totals {
    if reports == [] then run
    else
      var before, last := RecordAll(run, reports[..|reports| - 1], initial, price), reports[|reports| - 1];
      Recorded(before, PriceFor(before, last.scanned, last.result, initial, price))
  }

  function Largest(reports: seq<Report>, of: Report -> real): (r: real)
    ensures r >= 0.0
  {
    if reports == [] then 0.0 else Max(Largest(reports[..|reports| - 1], of), of(reports[|reports| - 1]))
  }

  lemma LargestSplits(reports: seq<Report>, of: Report -> real)
    requires reports != []
    ensures Largest(reports, of) == Max(Largest(reports[..|reports| - 1], of), of(reports[|reports| - 1]))
  {
  }

  /** Recording raises a total to what the report says, and never lowers it. */
  lemma RecordRaises(current: real, baseline: real, absolute: real)
    requires 0.0 <= baseline <= current
    ensures current + Unrecorded(absolute, current, baseline) == Max(current, baseline + Max(0.0, absolute))
  {
  }

  lemma RaiseStep(start: real, baseline: real, largest: real, current: real, absolute: real)
    requires 0.0 <= baseline <= start && largest >= 0.0 && current == Max(start, baseline + largest)
    ensures current + Unrecorded(absolute, current, baseline) == Max(start, baseline + Max(largest, absolute))
  {
    RecordRaises(current, baseline, absolute);
  }

  function Fixed(base: Totals): Initial {
    Initial(Some(base.tokensIn), Some(base.tokensOut), Some(base.costUsd))
  }

  /** What the last report adds to the totals that the others left. */
  lemma LastReport(run: Totals, reports: seq<Report>, base: Totals, price: Pricing)
    requires reports != []
    ensures var before, last := RecordAll(run, reports[..|reports| - 1], Fixed(base), price), reports[|reports| - 1];
            var after := RecordAll(run, reports, Fixed(base), price);
            && (0.0 <= base.tokensIn ==>
                after.tokensIn
                == before.tokensIn + Unrecorded(TokensInOf(last), before.tokensIn, base.tokensIn))
            && (0.0 <= base.tokensOut ==>
                after.tokensOut
                == before.tokensOut + Unrecorded(TokensOutOf(last), before.tokensOut, base.tokensOut))
            && (0.0 <= base.costUsd && CostReported(last) ==>
                after.costUsd == before.costUsd + Unrecorded(CostOf(last), before.costUsd, base.costUsd))
  {
    hide PriceFor, Unrecorded, TokensInOf, TokensOutOf, CostOf, CostReported;
    OneReport(RecordAll(run, reports[..|reports| - 1], Fixed(base), price), reports[|reports| - 1], base, price);
  }

  lemma NothingReported(run: Totals, base: Totals, price: Pricing)
    ensures RecordAll(run, [], Fixed(base), price) == run
    ensures base.tokensIn <= run.tokensIn ==> run.tokensIn == Max(run.tokensIn, base.tokensIn + Largest([], TokensInOf))
    ensures base.tokensOut <= run.tokensOut ==>
              run.tokensOut == Max(run.tokensOut, base.tokensOut + Largest([], TokensOutOf))
  {
  }

  lemma {:induction false} TokensInAreMaximal(run: Totals, reports: seq<Report>, base: Totals, price: Pricing)
    requires 0.0 <= base.tokensIn <= run.tokensIn
    ensures RecordAll(run, reports, Fixed(base), price).tokensIn
            == Max(run.tokensIn, base.tokensIn + Largest(reports, TokensInOf))
  {
    hide *;
    if reports == [] {
      NothingReported(run, base, price);
    } else {
      var front, last := reports[..|reports| - 1], reports[|reports| - 1];
      TokensInAreMaximal(run, front, base, price);
      LastReport(run, reports, base, price);
      LargestSplits(reports, TokensInOf);
      RaiseStep(run.tokensIn, base.tokensIn, Largest(front, TokensInOf),
          RecordAll(run, front, Fixed(base), price).tokensIn, TokensInOf(last));
    }
  }

  lemma {:induction false} TokensOutAreMaximal(run: Totals, reports: seq<Report>, base: Totals, price: Pricing)
    requires 0.0 <= base.tokensOut <= run.tokensOut
    ensures RecordAll(run, reports, Fixed(base), price).tokensOut
            == Max(run.tokensOut, base.tokensOut + Largest(reports, TokensOutOf))
  {
    hide *;
    if reports == [] {
      NothingReported(run, base, price);
    } else {
      var front, last := reports[..|reports| - 1], reports[|reports| - 1];
      TokensOutAreMaximal(run, front, base, price);
      LastReport(run, reports, base, price);
      LargestSplits(reports, TokensOutOf);
      RaiseStep(run.tokensOut, base.tokensOut, Largest(front, TokensOutOf),
          RecordAll(run, front, Fixed(base), price).tokensOut, TokensOutOf(last));
    }
  }

  lemma {:induction false} CostIsMaximal(run: Totals, reports: seq<Report>, base: Totals, price: Pricing)
    requires 0.0 <= base.costUsd <= run.costUsd && forall r <- reports :: CostReported(r)
    ensures RecordAll(run, reports, Fixed(base), price).costUsd
            == Max(run.costUsd, base.costUsd + Largest(reports, CostOf))
  {
    if reports != [] {
      hide RecordAll, Unrecorded, Max, Largest;
      var front, last := reports[..|reports| - 1], reports[|reports| - 1];
      CostIsMaximal(run, front, base, price);
      LastReport(run, reports, base, price);
      LargestSplits(reports, CostOf);
      RaiseStep(run.costUsd, base.costUsd, Largest(front, CostOf), RecordAll(run, front, Fixed(base), price).costUsd,
          CostOf(last));
    }
  }

  /** The price of the report's absolute tokens, when its cost is computed. */
  function PriceOf(r: Report, price: Pricing): real {
    if r.scanned.Some? then price(TokensInOf(r), TokensOutOf(r))
    else price(Max(0.0, r.result.tokensIn), Max(0.0, r.result.tokensOut))
  }

  /** The report adds no tokens while some cost of the session is on record already. */
  predicate KeepsLiveCost(run: Totals, r: Report, base: Totals) {
    Unrecorded(TokensInOf(r), run.tokensIn, base.tokensIn) == 0.0
        && Unrecorded(TokensOutOf(r), run.tokensOut, base.tokensOut) == 0.0
    && run.costUsd > base.costUsd
  }

  /** A computed cost obeys the same law exactly when it is not a dearer report that adds no tokens:
      then the recorded cost stays as it is, however much the report's own tokens would cost. */
  lemma ComputedCostIsMaximal(run: Totals, r: Report, base: Totals, price: Pricing)
    requires 0.0 <= base.tokensIn && 0.0 <= base.tokensOut && 0.0 <= base.costUsd <= run.costUsd && !CostReported(r)
    ensures var after := Recorded(run, PriceFor(run, r.scanned, r.result, Fixed(base), price));
            after.costUsd == Max(run.costUsd, base.costUsd + Max(0.0, PriceOf(r, price)))
            <==> !(KeepsLiveCost(run, r, base) && base.costUsd + PriceOf(r, price) > run.costUsd)
  {
    OneReport(run, r, base, price);
    RecordRaises(run.costUsd, base.costUsd, PriceOf(r, price));
  }

  /** A session has t tokens of each kind and a cost of t on record; a report of the same tokens, priced 2t, adds
      nothing. */
  lemma ComputedCostCanFallShort(t: real, price: Pricing)
    requires t > 0.0 && price(t, t) == t + t
    ensures var r, run := Report(Some(Snapshot(t, 0.0, 0.0, t, 0.0, false)), Result(0.0, 0.0, 0.0, false)),
            Totals(t, t, t);
            PriceOf(r, price) == t + t && Recorded(run,
                PriceFor(run, r.scanned, r.result, Fixed(Totals(0.0, 0.0, 0.0)), price)).costUsd == t
  {
    var r, run := Report(Some(Snapshot(t, 0.0, 0.0, t, 0.0, false)), Result(0.0, 0.0, 0.0, false)), Totals(t, t, t);
    LiveCostStays(run, r, Totals(0.0, 0.0, 0.0), price);
  }

  lemma LiveCostStays(run: Totals, r: Report, base: Totals, price: Pricing)
    requires 0.0 <= base.tokensIn && 0.0 <= base.tokensOut && 0.0 <= base.costUsd && !CostReported(r)
            && KeepsLiveCost(run, r, base)
    ensures PriceFor(run, r.scanned, r.result, Fixed(base), price).costDelta == 0.0
  {
  }

  // ----- Reported and computed costs together -----

  /** What a report says the session has cost. */
  function Claim(r: Report, price: Pricing): real {
    if CostReported(r) then CostOf(r) else Max(0.0, PriceOf(r, price))
  }

  /** The report tells of more tokens of one kind than the session has on record, or than an earlier report told of. */
  ghost predicate AddsTokens(run: Totals, earlier: seq<Report>, r: Report, base: Totals) {
    || Max(0.0, TokensInOf(r)) > Max(run.tokensIn - base.tokensIn, Largest(earlier, TokensInOf))
    || Max(0.0, TokensOutOf(r)) > Max(run.tokensOut - base.tokensOut, Largest(earlier, TokensOutOf))
  }

  /** The largest cost claimed by a report that counts: one that reports its cost, adds tokens, or meets no cost
      of the session on record. */
  ghost function Counted(run: Totals, reports: seq<Report>, base: Totals, price: Pricing): (r: real)
    ensures r >= 0.0
  {
    if reports == [] then 0.0 else
      var earlier, last := reports[..|reports| - 1], reports[|reports| - 1];
      var before := Counted(run, earlier, base, price);
      if CostReported(last) || AddsTokens(run, earlier, last, base) || (run.costUsd <= base.costUsd && before == 0.0)
      then Max(before, Claim(last, price)) else before
  }

  lemma LargerStep(start: real, baseline: real, largest: real, current: real, claim: real)
    requires largest >= 0.0 && current == Max(start, baseline + largest)
    ensures Max(current, baseline + Max(0.0, claim)) == Max(start, baseline + Max(largest, claim))
  {
  }

  lemma RaisedByClaim(before: Totals, last: Report, base: Totals, price: Pricing)
    requires 0.0 <= base.tokensIn && 0.0 <= base.tokensOut && 0.0 <= base.costUsd <= before.costUsd
    requires CostReported(last) || !(KeepsLiveCost(before, last, base)
            && base.costUsd + PriceOf(last, price) > before.costUsd)
    ensures Recorded(before, PriceFor(before, last.scanned, last.result, Fixed(base), price)).costUsd
         == Max(before.costUsd, base.costUsd + Max(0.0, Claim(last, price)))
  {
    hide PriceFor, KeepsLiveCost, PriceOf, CostOf, CostReported, Unrecorded;
    if CostReported(last) {
      OneReport(before, last, base, price);
      RecordRaises(before.costUsd, base.costUsd, CostOf(last));
    } else {
      ComputedCostIsMaximal(before, last, base, price);
    }
  }

  lemma LastRecorded(run: Totals, reports: seq<Report>, base: Totals, price: Pricing)
    requires reports != []
    ensures var before, last := RecordAll(run, reports[..|reports| - 1], Fixed(base), price), reports[|reports| - 1];
            RecordAll(run, reports, Fixed(base), price)
                == Recorded(before, PriceFor(before, last.scanned, last.result, Fixed(base), price))
  {
  }

  /** Whether a report adds tokens shows in the totals that the earlier ones left. */
  lemma AddingShows(run: Totals, earlier: seq<Report>, last: Report, base: Totals, before: Totals)
    requires 0.0 <= base.tokensIn <= run.tokensIn && 0.0 <= base.tokensOut <= run.tokensOut
    requires before.tokensIn == Max(run.tokensIn, base.tokensIn + Largest(earlier, TokensInOf))
    requires before.tokensOut == Max(run.tokensOut, base.tokensOut + Largest(earlier, TokensOutOf))
    ensures KeepsLiveCost(before, last, base) <==>
            !AddsTokens(run, earlier, last, base) && before.costUsd > base.costUsd
  {
    hide TokensInOf, TokensOutOf, Largest;
  }

  lemma CountedNext(run: Totals, reports: seq<Report>, base: Totals, price: Pricing)
    requires reports != []
    ensures var earlier, last := reports[..|reports| - 1], reports[|reports| - 1];
            var before := Counted(run, earlier, base, price);
            Counted(run, reports, base, price)
            == if CostReported(last) || AddsTokens(run, earlier, last, base)
                  || (run.costUsd <= base.costUsd && before == 0.0)
               then Max(before, Claim(last, price)) else before
  {
  }

  lemma CountedStep(run: Totals, reports: seq<Report>, base: Totals, before: Totals, price: Pricing)
    requires reports != [] && 0.0 <= base.tokensIn <= run.tokensIn && 0.0 <= base.tokensOut <= run.tokensOut
            && 0.0 <= base.costUsd <= run.costUsd
    requires var earlier := reports[..|reports| - 1];
             && before.tokensIn == Max(run.tokensIn, base.tokensIn + Largest(earlier, TokensInOf))
             && before.tokensOut == Max(run.tokensOut, base.tokensOut + Largest(earlier, TokensOutOf))
             && before.costUsd == Max(run.costUsd, base.costUsd + Counted(run, earlier, base, price))
    ensures var last := reports[|reports| - 1];
            Recorded(before, PriceFor(before, last.scanned, last.result, Fixed(base), price)).costUsd
            == Max(run.costUsd, base.costUsd + Counted(run, reports, base, price))
  {
    hide Recorded, KeepsLiveCost, PriceOf, PriceFor, CostReported, Claim, AddsTokens, Largest, Max, Counted;
    var earlier, last := reports[..|reports| - 1], reports[|reports| - 1];
    var counted := Counted(run, earlier, base, price);
    AddingShows(run, earlier, last, base, before);
    OnRecord(run.costUsd, base.costUsd, counted);
    CountsOrNot(before, last, base, price);
    LargerStep(run.costUsd, base.costUsd, counted, before.costUsd, Claim(last, price));
    CountedNext(run, reports, base, price);
  }

  lemma NothingCounted(run: Totals, base: Totals, price: Pricing)
    requires base.costUsd <= run.costUsd
    ensures RecordAll(run, [], Fixed(base), price).costUsd
            == Max(run.costUsd, base.costUsd + Counted(run, [], base, price))
  {
  }

  /** The cost law over a sequence that mixes reported and computed costs. */
  lemma {:induction false} CostIsTheLargestThatCounts(run: Totals, reports: seq<Report>, base: Totals, price: Pricing)
    requires 0.0 <= base.tokensIn <= run.tokensIn && 0.0 <= base.tokensOut <= run.tokensOut
            && 0.0 <= base.costUsd <= run.costUsd
    ensures RecordAll(run, reports, Fixed(base), price).costUsd
         == Max(run.costUsd, base.costUsd + Counted(run, reports, base, price))
  {
    hide *;
    if reports == [] {
      NothingCounted(run, base, price);
    } else {
      var front := reports[..|reports| - 1];
      CostIsTheLargestThatCounts(run, front, base, price);
      TokensInAreMaximal(run, front, base, price);
      TokensOutAreMaximal(run, front, base, price);
      LastRecorded(run, reports, base, price);
      CountedStep(run, reports, base, RecordAll(run, front, Fixed(base), price), price);
    }
  }

  lemma OnRecord(start: real, baseline: real, largest: real)
    requires baseline <= start && largest >= 0.0
    ensures var now := Max(start, baseline + largest);
            now >= baseline && (now > baseline <==> start > baseline || largest != 0.0)
  {
  }

  lemma CountsOrNot(before: Totals, last: Report, base: Totals, price: Pricing)
    requires 0.0 <= base.tokensIn && 0.0 <= base.tokensOut && 0.0 <= base.costUsd <= before.costUsd
    ensures Recorded(before, PriceFor(before, last.scanned, last.result, Fixed(base), price)).costUsd
         == if CostReported(last) || !KeepsLiveCost(before, last, base)
            then Max(before.costUsd, base.costUsd + Max(0.0, Claim(last, price))) else before.costUsd
  {
    if CostReported(last) || !KeepsLiveCost(before, last, base) {
      RaisedByClaim(before, last, base, price);
    } else {
      LiveCostStays(before, last, base, price);
    }
  }

  /** Repeated or out of order, the reports of a session with a fixed baseline leave each total
      at the larger of what it was and baseline plus the largest report; for the cost, plus the largest that
      counts. */
  lemma ReportsLeaveMaxima(run: Totals, reports: seq<Report>, base: Totals, price: Pricing)
    requires 0.0 <= base.tokensIn <= run.tokensIn && 0.0 <= base.tokensOut <= run.tokensOut
            && 0.0 <= base.costUsd <= run.costUsd
    ensures var after := RecordAll(run, reports, Fixed(base), price);
            && after.tokensIn == Max(run.tokensIn, base.tokensIn + Largest(reports, TokensInOf))
            && after.tokensOut == Max(run.tokensOut, base.tokensOut + Largest(reports, TokensOutOf))
            && after.costUsd == Max(run.costUsd, base.costUsd + Counted(run, reports, base, price))
            && ((forall r <- reports :: CostReported(r)) ==>
                after.costUsd == Max(run.costUsd, base.costUsd + Largest(reports, CostOf)))
  {
    hide RecordAll, Largest, Max, CostReported, Counted;
    TokensInAreMaximal(run, reports, base, price);
    TokensOutAreMaximal(run, reports, base, price);
    CostIsTheLargestThatCounts(run, reports, base, price);
    if forall r <- reports :: CostReported(r) {
      CostIsMaximal(run, reports, base, price);
    }
  }
}
