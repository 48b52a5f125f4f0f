/** `src/harness/attempt.rs`: one attempt's stages, and the loop over attempts. What the agent, the
    gates, the commands, the checks, the browser and the validator do, to the chain and to the
    workspace, is a function of the attempt's number, of where in the attempt they stand and of the
    chain they find, so what one did to a file may change what a later one does: any behaviour is one. */
module Attempt {
  import opened Wrappers
  import opened Text
  import opened State
  import opened Ledger
  import opened Findings
  import opened Verdict
  import opened ChainStage

  type GateFinding = f: Finding | f.category in {Files, Static, Secret, Commands}
    witness Finding("", Files, "", None, None)

  type BrowserFinding = f: Finding | f.category == Playwright
    witness Finding("", Playwright, "", None, None)

  datatype AgentFailure = AgentFailure(timedOut: bool, message: string, output: string)

  datatype Generated = Generated(ops: seq<Op>, failure: Option<AgentFailure>)

  datatype Team = Team(
    host: nat -> Host,
    reader: Reader,
    generate: (nat, Chained) -> Generated,
    gates: (nat, Chained) -> (seq<Op>, seq<GateFinding>),
    smoke: (nat, Chained) -> (seq<Op>, seq<BrowserFinding>),
    evaluate: (nat, Chained) -> (seq<Op>, ValidatorRun))

  datatype Recipe = Recipe(chainValidation: Option<Config>, snapshotPerAttempt: bool,
                           hasBrowserGate: bool, evaluates: bool)

  datatype Validation = Validation(passed: bool, findings: seq<Finding>, evaluation: Option<Evaluation>,
                                   ledger: Option<seq<Entry>>)

  // ---- GENERATE ---------------------------------------------------------------------------------

  /** A failed agent is a finding, not an error. */
  function GenerateFinding(attempt: nat, failure: Option<AgentFailure>): seq<Finding> {
    match failure
    case None => []
    case Some(f) =>
      [Finding((if f.timedOut then "generator-timeout:" else "generator-exit:") + Decimal(attempt), Agent,
               f.message, Some(TruncateDetails(f.output)), None)]
  }

  // ---- ASSERT, CHAIN, SMOKE, EVALUATE -----------------------------------------------------------

  predicate AllAgent(findings: seq<Finding>) {
    forall i | 0 <= i < |findings| :: findings[i].category == Agent
  }

  /** From the browser gate on. */
  function Browsed(team: Team, recipe: Recipe, attempt: nat, c: Chained, mark: Mark, so: Validation)
    : (seq<Op>, Validation)
  {
    var (ops, smoke) := team.smoke(attempt, c);
    var driven := PerformAll(c, ops);
    var findings := so.findings + smoke;
    var smoked := so.(findings := findings, passed := AllAgent(findings));
    if !smoked.passed || !recipe.evaluates then (ops, smoked)
    else
      var (more, ran) := team.evaluate(attempt, driven);
      var evaluation := Evaluated(ran, team.reader);
      (ops + more,
       Validation(evaluation.passed, if evaluation.passed then findings else findings + evaluation.findings,
                  Some(evaluation), Some(EntriesSince(driven.world, mark))))
  }

  function ChainOutcomeOf(team: Team, recipe: Recipe, attempt: nat, c: Chained, mark: Mark): (seq<Op>, ChainOutcome) {
    match recipe.chainValidation
    case None => ([], ChainOutcome([], None, None))
    case Some(config) => Staged(team.host(attempt), c, mark, config)
  }

  function Validated(team: Team, recipe: Recipe, attempt: nat, c: Chained, mark: Mark, generated: seq<Finding>)
    : (seq<Op>, Validation)
  {
    var (ops, gates) := team.gates(attempt, c);
    var asserted := PerformAll(c, ops);
    var findings := generated + gates;
    if !AllAgent(findings) then (ops, Validation(false, findings, None, None))
    else
      var (more, outcome) := ChainOutcomeOf(team, recipe, attempt, asserted, mark);
      var staged := PerformAll(asserted, more);
      if outcome.stop.Some? then
        (ops + more, Validation(false, findings + outcome.findings, None, outcome.ledger))
      else
        var so := Validation(gates == [], findings, None, outcome.ledger);
        if !recipe.hasBrowserGate then (ops + more, so)
        else
          var (rest, validation) := Browsed(team, recipe, attempt, staged, mark, so);
          (ops + more + rest, validation)
  }

  /** `run_browser_stages`. */
  method RunBrowserStages(chain: Chain, team: Team, recipe: Recipe, attempt: nat, mark: Mark, so: Validation)
    returns (validation: Validation)
    modifies chain
    ensures validation == Browsed(team, recipe, attempt, old(chain.Value()), mark, so).1
    ensures chain.Value()
         == PerformAll(old(chain.Value()), Browsed(team, recipe, attempt, old(chain.Value()), mark, so).0)
  {
    hide PerformAll, EntriesSince, Evaluated;
    ghost var c := chain.Value();
    validation := so;
    var (ops, smoke) := team.smoke(attempt, Chained(chain.world, chain.snapshots, chain.nextSnapshot));
    Play(chain, ops);
    validation := validation.(findings := validation.findings + smoke);
    validation := validation.(passed := AllAgent(validation.findings));
    if !validation.passed || !recipe.evaluates { return; }
    var entries := Since(chain, mark);
    var (more, ran) := team.evaluate(attempt, Chained(chain.world, chain.snapshots, chain.nextSnapshot));
    PerformBoth(c, ops, more);
    Play(chain, more);
    var evaluation := Evaluated(ran, team.reader);
    validation := validation.(ledger := Some(entries));
    if !evaluation.passed {
      validation := validation.(passed := false, findings := validation.findings + evaluation.findings);
    }
    validation := validation.(evaluation := Some(evaluation));
  }

  /** `run_validation_stages`. */
  method RunValidationStages(chain: Chain, team: Team, recipe: Recipe, attempt: nat, mark: Mark,
                             generated: seq<Finding>) returns (validation: Validation)
    modifies chain
    ensures validation == Validated(team, recipe, attempt, old(chain.Value()), mark, generated).1
    ensures chain.Value()
         == PerformAll(old(chain.Value()), Validated(team, recipe, attempt, old(chain.Value()), mark, generated).0)
  {
    hide PerformAll, EntriesSince, Staged, Browsed;
    ghost var c := chain.Value();
    var (ops, gates) := team.gates(attempt, Chained(chain.world, chain.snapshots, chain.nextSnapshot));
    Play(chain, ops);
    validation := Validation(gates == [], generated + gates, None, None);
    if !AllAgent(validation.findings) {
      validation := validation.(passed := false);
      return;
    }
    ghost var more: seq<Op> := [];
    assert ops + more == ops;
    if recipe.chainValidation.Some? {
      more := Staged(team.host(attempt), chain.Value(), mark, recipe.chainValidation.value).0;
      PerformBoth(c, ops, more);
      var outcome := RunChainStage(chain, team.host(attempt), mark, recipe.chainValidation.value);
      validation := validation.(ledger := outcome.ledger);
      if outcome.stop.Some? {
        validation := validation.(findings := validation.findings + outcome.findings, passed := false);
        return;
      }
    } else {
      PerformNothing(chain.Value());
    }
    if !recipe.hasBrowserGate { return; }
    PerformBoth(c, ops + more, Browsed(team, recipe, attempt, chain.Value(), mark, validation).0);
    validation := RunBrowserStages(chain, team, recipe, attempt, mark, validation);
  }

  lemma AgentAndMore(a: seq<Finding>, b: seq<Finding>)
    ensures AllAgent(a + b) <==> AllAgent(a) && AllAgent(b)
  {
    if AllAgent(a + b) {
      forall i | 0 <= i < |a| ensures a[i].category == Agent { assert (a + b)[i] == a[i]; }
      forall i | 0 <= i < |b| ensures b[i].category == Agent { assert (a + b)[|a| + i] == b[i]; }
    }
  }

  lemma GatesAreNotAgent(gates: seq<GateFinding>)
    ensures AllAgent(gates) <==> gates == []
  {
    if gates != [] { assert gates[0].category in {Files, Static, Secret, Commands}; }
  }

  lemma BrowserIsNotAgent(smoke: seq<BrowserFinding>)
    ensures AllAgent(smoke) <==> smoke == []
  {
    if smoke != [] { assert smoke[0].category == Playwright; }
  }

  lemma EvaluationIsNotAgent(ran: ValidatorRun, reader: Reader)
    ensures AllAgent(Evaluated(ran, reader).findings) <==> Evaluated(ran, reader).passed
  {
    EvaluationIsHonest(ran, reader);
    hide Evaluated;
    if !Evaluated(ran, reader).passed { assert Evaluated(ran, reader).findings[0].category != Agent; }
  }

  lemma BrowsedPasses(team: Team, recipe: Recipe, attempt: nat, c: Chained, mark: Mark, so: Validation)
    requires AllAgent(so.findings) && so.evaluation.None?
    ensures var v := Browsed(team, recipe, attempt, c, mark, so).1;
            && (v.passed <==> AllAgent(v.findings))
            && (v.evaluation.Some? <==> recipe.evaluates && team.smoke(attempt, c).1 == [])
            && (v.evaluation.Some? && v.evaluation.value.infrastructure ==> !v.passed)
  {
    var (ops, smoke) := team.smoke(attempt, c);
    AgentAndMore(so.findings, smoke);
    BrowserIsNotAgent(smoke);
    var (more, ran) := team.evaluate(attempt, PerformAll(c, ops));
    AgentAndMore(so.findings + smoke, Evaluated(ran, team.reader).findings);
    EvaluationIsNotAgent(ran, team.reader);
    EvaluationIsHonest(ran, team.reader);
    hide AllAgent, Evaluated, EntriesSince, PerformAll;
  }

  lemma ChainStopIsNotAgent(team: Team, recipe: Recipe, attempt: nat, c: Chained, mark: Mark)
    ensures var o := ChainOutcomeOf(team, recipe, attempt, c, mark).1;
            (o.stop.Some? <==> o.findings != []) && (AllAgent(o.findings) <==> o.stop.None?)
  {
    var o := ChainOutcomeOf(team, recipe, attempt, c, mark).1;
    if recipe.chainValidation.Some? {
      StageStopsForAReason(team.host(attempt), c, mark, recipe.chainValidation.value);
      hide Staged;
      if o.findings != [] { assert o.findings[0].category != Agent; }
    }
  }

  /** An attempt passes exactly when its findings are all the agent's own; every stage that stops it
      leaves one that is not; and EVALUATE runs exactly when every stage before it was clean. */
  lemma PassedMeansOnlyAgent(team: Team, recipe: Recipe, attempt: nat, c: Chained, mark: Mark,
                             failure: Option<AgentFailure>)
    ensures var generated := GenerateFinding(attempt, failure);
            var v := Validated(team, recipe, attempt, c, mark, generated).1;
            var (ops, gates) := team.gates(attempt, c);
            var (more, outcome) := ChainOutcomeOf(team, recipe, attempt, PerformAll(c, ops), mark);
            var staged := PerformAll(PerformAll(c, ops), more);
            && (v.passed <==> AllAgent(v.findings))
            && (v.evaluation.Some? <==>
                  gates == [] && outcome.stop.None? && recipe.hasBrowserGate && recipe.evaluates
                  && team.smoke(attempt, staged).1 == [])
            && (v.evaluation.Some? && v.evaluation.value.infrastructure ==> !v.passed)
  {
    var generated := GenerateFinding(attempt, failure);
    assert AllAgent(generated);
    var (ops, gates) := team.gates(attempt, c);
    AgentAndMore(generated, gates);
    GatesAreNotAgent(gates);
    var (more, outcome) := ChainOutcomeOf(team, recipe, attempt, PerformAll(c, ops), mark);
    ChainStopIsNotAgent(team, recipe, attempt, PerformAll(c, ops), mark);
    AgentAndMore(generated + gates, outcome.findings);
    var so := Validation(gates == [], generated + gates, None, outcome.ledger);
    var staged := PerformAll(PerformAll(c, ops), more);
    hide AllAgent, ChainOutcomeOf, PerformAll, GenerateFinding, Browsed;
    if AllAgent(generated + gates) {
      BrowsedPasses(team, recipe, attempt, staged, mark, so);
    }
  }

  // ---- when the ledger is taken -----------------------------------------------------------------

  /** It is the ledger of the chain after the first `n` of these operations. */
  ghost predicate LedgerAfter(c: Chained, ops: seq<Op>, mark: Mark, ledger: Option<seq<Entry>>, n: nat) {
    && n <= |ops|
    && (ledger.Some? ==> ledger.value == EntriesSince(PerformAll(c, ops[..n]).world, mark))
  }

  lemma LedgerAtTheEnd(c: Chained, ops: seq<Op>, mark: Mark, ledger: Option<seq<Entry>>)
    requires ledger.Some? ==> ledger.value == EntriesSince(PerformAll(c, ops).world, mark)
    ensures LedgerAfter(c, ops, mark, ledger, |ops|)
  {
    assert ops[..|ops|] == ops;
    hide PerformAll, EntriesSince;
  }

  /** More operations after the ledger is taken, and operations before the first of these. */
  lemma LedgerAmong(c: Chained, first: seq<Op>, ops: seq<Op>, later: seq<Op>, mark: Mark,
                    ledger: Option<seq<Entry>>, n: nat)
    requires LedgerAfter(PerformAll(c, first), ops, mark, ledger, n)
    ensures LedgerAfter(c, first + ops + later, mark, ledger, |first| + n)
  {
    PrefixAmong(first, ops, later, n);
    PerformBoth(c, first, ops[..n]);
    hide PerformAll, EntriesSince;
  }

  lemma PrefixAmong(first: seq<Op>, ops: seq<Op>, later: seq<Op>, n: nat)
    requires n <= |ops|
    ensures (first + ops + later)[..|first| + n] == first + ops[..n]
  {
  }

  lemma OutcomeLedger(team: Team, recipe: Recipe, attempt: nat, c: Chained, mark: Mark)
    ensures var (ops, o) := ChainOutcomeOf(team, recipe, attempt, c, mark);
            LedgerAfter(c, ops, mark, o.ledger, |ops|)
  {
    if recipe.chainValidation.Some? { StagedLedger(team.host(attempt), c, mark, recipe.chainValidation.value); }
    hide Staged, PerformAll, EntriesSince, LedgerAfter;
    var (ops, o) := ChainOutcomeOf(team, recipe, attempt, c, mark);
    LedgerAtTheEnd(c, ops, mark, o.ledger);
  }

  lemma BrowsedEnds(team: Team, recipe: Recipe, attempt: nat, c: Chained, mark: Mark, so: Validation)
    ensures var (smokeOps, _) := team.smoke(attempt, c);
            var (ops, v) := Browsed(team, recipe, attempt, c, mark, so);
            || (ops == smokeOps && v.ledger == so.ledger)
            || (ops == smokeOps + team.evaluate(attempt, PerformAll(c, smokeOps)).0
                && v.ledger == Some(EntriesSince(PerformAll(c, smokeOps).world, mark)))
  {
    hide PerformAll, EntriesSince, Evaluated, AllAgent;
  }

  lemma BrowsedLedger(team: Team, recipe: Recipe, attempt: nat, c: Chained, mark: Mark, so: Validation)
    returns (n: nat)
    requires LedgerAfter(c, [], mark, so.ledger, 0)
    ensures var (ops, v) := Browsed(team, recipe, attempt, c, mark, so);
            LedgerAfter(c, ops, mark, v.ledger, n)
  {
    BrowsedEnds(team, recipe, attempt, c, mark, so);
    PerformNothing(c);
    hide *;
    var smokeOps := team.smoke(attempt, c).0;
    var (ops, v) := Browsed(team, recipe, attempt, c, mark, so);
    if ops == smokeOps && v.ledger == so.ledger {
      n := 0;
      LedgerAmong(c, [], [], smokeOps, mark, so.ledger, 0);
      assert [] + [] + smokeOps == smokeOps;
    } else {
      n := |smokeOps|;
      var later := team.evaluate(attempt, PerformAll(c, smokeOps)).0;
      LedgerAtTheEnd(c, smokeOps, mark, v.ledger);
      LedgerAmong(c, [], smokeOps, later, mark, v.ledger, n);
      assert [] + smokeOps + later == smokeOps + later;
    }
  }

  lemma ValidatedEnds(team: Team, recipe: Recipe, attempt: nat, c: Chained, mark: Mark, generated: seq<Finding>)
    ensures var (gateOps, gates) := team.gates(attempt, c);
            var asserted := PerformAll(c, gateOps);
            var (more, outcome) := ChainOutcomeOf(team, recipe, attempt, asserted, mark);
            var so := Validation(gates == [], generated + gates, None, outcome.ledger);
            var (rest, browsed) := Browsed(team, recipe, attempt, PerformAll(asserted, more), mark, so);
            var (ops, v) := Validated(team, recipe, attempt, c, mark, generated);
            || (ops == gateOps && v.ledger == None)
            || (ops == gateOps + more && v.ledger == outcome.ledger)
            || (ops == gateOps + more + rest && v.ledger == browsed.ledger)
  {
    hide PerformAll, Browsed, ChainOutcomeOf, AllAgent;
  }

  /** Whichever stages run, the ledger reported is one of the chain as it stood at some point of them. */
  lemma LedgerIsOfAPoint(team: Team, recipe: Recipe, attempt: nat, c: Chained, mark: Mark, generated: seq<Finding>)
    returns (n: nat)
    ensures var (ops, v) := Validated(team, recipe, attempt, c, mark, generated);
            LedgerAfter(c, ops, mark, v.ledger, n)
  {
    ValidatedEnds(team, recipe, attempt, c, mark, generated);
    hide *;
    var (gateOps, gates) := team.gates(attempt, c);
    var asserted := PerformAll(c, gateOps);
    var (more, outcome) := ChainOutcomeOf(team, recipe, attempt, asserted, mark);
    var staged := PerformAll(asserted, more);
    var so := Validation(gates == [], generated + gates, None, outcome.ledger);
    OutcomeLedger(team, recipe, attempt, asserted, mark);
    LedgerAmong(c, gateOps, more, [], mark, outcome.ledger, |more|);
    assert gateOps + more + [] == gateOps + more;
    LedgerHere(asserted, more, mark, outcome.ledger);
    var m := BrowsedLedger(team, recipe, attempt, staged, mark, so);
    PerformBoth(c, gateOps, more);
    var (rest, browsed) := Browsed(team, recipe, attempt, staged, mark, so);
    LedgerAmong(c, gateOps + more, rest, [], mark, browsed.ledger, m);
    assert gateOps + more + rest + [] == gateOps + more + rest;
    NoLedger(c, gateOps, mark);
    var (ops, v) := Validated(team, recipe, attempt, c, mark, generated);
    n := if ops == gateOps && v.ledger == None then 0
         else if ops == gateOps + more && v.ledger == outcome.ledger then |gateOps| + |more|
         else |gateOps + more| + m;
  }

  lemma LedgerHere(c: Chained, ops: seq<Op>, mark: Mark, ledger: Option<seq<Entry>>)
    requires LedgerAfter(c, ops, mark, ledger, |ops|)
    ensures LedgerAfter(PerformAll(c, ops), [], mark, ledger, 0)
  {
    assert ops[..|ops|] == ops;
    PerformNothing(PerformAll(c, ops));
    hide PerformAll, EntriesSince;
  }

  lemma NoLedger(c: Chained, ops: seq<Op>, mark: Mark)
    ensures LedgerAfter(c, ops, mark, None, 0)
  {
  }

  // ---- what an attempt carries ------------------------------------------------------------------

  /** The chain stage on this chain, when the recipe has one. */
  ghost predicate StageGives(team: Team, recipe: Recipe, attempt: nat, c: Chained, mark: Mark, ops: seq<Op>,
                             stops: seq<Finding>, ledger: Option<seq<Entry>>)
  {
    if recipe.chainValidation.None? then ops == [] && stops == [] && ledger.None?
    else
      var (more, outcome) := Staged(team.host(attempt), c, mark, recipe.chainValidation.value);
      ops == more && stops == outcome.findings && ledger == outcome.ledger
  }

  /** What comes after a clean chain stage: the browser gate, and the validator when that is clean too. */
  ghost predicate RestTells(team: Team, recipe: Recipe, attempt: nat, c: Chained, mark: Mark, generated: seq<Finding>,
                            ledger: Option<seq<Entry>>, ops: seq<Op>, v: Validation)
  {
    var (drives, smoke) := team.smoke(attempt, c);
    if !recipe.hasBrowserGate then ops == [] && v == Validation(true, generated, None, ledger)
    else if smoke != [] then ops == drives && v == Validation(false, generated + smoke, None, ledger)
    else if !recipe.evaluates then ops == drives && v == Validation(true, generated, None, ledger)
    else
      var (looks, ran) := team.evaluate(attempt, PerformAll(c, drives));
      var evaluation := Evaluated(ran, team.reader);
      && ops == drives + looks
      && v == Validation(evaluation.passed, generated + evaluation.findings, Some(evaluation),
                         Some(EntriesSince(PerformAll(c, drives).world, mark)))
  }

  /** Everything up to the first stage with a finding of its own, and nothing after it. */
  ghost predicate StagesTell(team: Team, recipe: Recipe, attempt: nat, c: Chained, mark: Mark,
                             generated: seq<Finding>, ops: seq<Op>, v: Validation)
  {
    var (asserts, gates) := team.gates(attempt, c);
    var asserted := PerformAll(c, asserts);
    if gates != [] then ops == asserts && v == Validation(false, generated + gates, None, None)
    else
      exists more, stops, ledger, rest ::
        && StageGives(team, recipe, attempt, asserted, mark, more, stops, ledger)
        && ops == asserts + more + rest
        && if stops != [] then rest == [] && v == Validation(false, generated + stops, None, ledger)
           else RestTells(team, recipe, attempt, PerformAll(asserted, more), mark, generated, ledger, rest, v)
  }

  /** A failed agent leaves one finding, in its own words; one that did not fail none. */
  ghost predicate AgentSays(generated: seq<Finding>, attempt: nat, failure: Option<AgentFailure>) {
    match failure
    case None => generated == []
    case Some(f) =>
      && |generated| == 1
      && generated[0].id == (if f.timedOut then "generator-timeout:" + Decimal(attempt)
                             else "generator-exit:" + Decimal(attempt))
      && generated[0].category == Agent && generated[0].message == f.message
      && generated[0].details == Some(TruncateDetails(f.output)) && generated[0].status == None
  }

  lemma BrowsedTells(team: Team, recipe: Recipe, attempt: nat, c: Chained, mark: Mark, so: Validation)
    requires AllAgent(so.findings) && so.passed && so.evaluation.None? && recipe.hasBrowserGate
    ensures var (ops, v) := Browsed(team, recipe, attempt, c, mark, so);
            RestTells(team, recipe, attempt, c, mark, so.findings, so.ledger, ops, v)
  {
    var smoke := team.smoke(attempt, c).1;
    AgentAndMore(so.findings, smoke);
    BrowserIsNotAgent(smoke);
    var (_, ran) := team.evaluate(attempt, PerformAll(c, team.smoke(attempt, c).0));
    EvaluationIsHonest(ran, team.reader);
    assert so.findings + [] == so.findings;
    hide AllAgent, Evaluated, EntriesSince, PerformAll;
  }

  lemma ValidatedParts(team: Team, recipe: Recipe, attempt: nat, c: Chained, mark: Mark, generated: seq<Finding>)
    ensures var (asserts, gates) := team.gates(attempt, c);
            var asserted := PerformAll(c, asserts);
            var (more, outcome) := ChainOutcomeOf(team, recipe, attempt, asserted, mark);
            var so := Validation(gates == [], generated + gates, None, outcome.ledger);
            var (rest, browsed) := Browsed(team, recipe, attempt, PerformAll(asserted, more), mark, so);
            Validated(team, recipe, attempt, c, mark, generated)
            == if !AllAgent(generated + gates) then (asserts, Validation(false, generated + gates, None, None))
               else if outcome.stop.Some? then
                 (asserts + more, Validation(false, generated + gates + outcome.findings, None, outcome.ledger))
               else if !recipe.hasBrowserGate then (asserts + more, so)
               else (asserts + more + rest, browsed)
  {
    hide AllAgent, ChainOutcomeOf, PerformAll, Browsed;
  }

  lemma OutcomeGives(team: Team, recipe: Recipe, attempt: nat, c: Chained, mark: Mark)
    ensures var (more, outcome) := ChainOutcomeOf(team, recipe, attempt, c, mark);
            StageGives(team, recipe, attempt, c, mark, more, outcome.findings, outcome.ledger)
  {
    hide Staged;
  }

  lemma OnlyOwn(generated: seq<Finding>, gates: seq<GateFinding>)
    requires AllAgent(generated)
    ensures AllAgent(generated + gates) <==> gates == []
    ensures gates == [] ==> generated + gates == generated
  {
    AgentAndMore(generated, gates);
    GatesAreNotAgent(gates);
    hide AllAgent;
  }

  lemma AgentSaysSo(attempt: nat, failure: Option<AgentFailure>)
    ensures AgentSays(GenerateFinding(attempt, failure), attempt, failure)
    ensures AllAgent(GenerateFinding(attempt, failure))
  {
  }

  lemma StagesTellBy(team: Team, recipe: Recipe, attempt: nat, c: Chained, mark: Mark, generated: seq<Finding>,
                     more: seq<Op>, stops: seq<Finding>, ledger: Option<seq<Entry>>, rest: seq<Op>, v: Validation)
    requires team.gates(attempt, c).1 == []
    requires StageGives(team, recipe, attempt, PerformAll(c, team.gates(attempt, c).0), mark, more, stops, ledger)
    requires if stops != [] then rest == [] && v == Validation(false, generated + stops, None, ledger)
             else RestTells(team, recipe, attempt, PerformAll(PerformAll(c, team.gates(attempt, c).0), more), mark,
                            generated, ledger, rest, v)
    ensures StagesTell(team, recipe, attempt, c, mark, generated, team.gates(attempt, c).0 + more + rest, v)
  {
    hide StageGives, RestTells, PerformAll;
  }

  /** An attempt carries the agent's finding and those of the first stage that has any. */
  lemma AttemptTells(team: Team, recipe: Recipe, attempt: nat, c: Chained, mark: Mark, failure: Option<AgentFailure>)
    ensures var (ops, v) := Validated(team, recipe, attempt, c, mark, GenerateFinding(attempt, failure));
            && AgentSays(GenerateFinding(attempt, failure), attempt, failure)
            && StagesTell(team, recipe, attempt, c, mark, GenerateFinding(attempt, failure), ops, v)
  {
    var generated := GenerateFinding(attempt, failure);
    AgentSaysSo(attempt, failure);
    hide AgentSays, GenerateFinding, AllAgent, ChainOutcomeOf, PerformAll, Browsed, StageGives, Validated;
    ValidatedParts(team, recipe, attempt, c, mark, generated);
    var (asserts, gates) := team.gates(attempt, c);
    OnlyOwn(generated, gates);
    if gates == [] {
      var asserted := PerformAll(c, asserts);
      var (more, outcome) := ChainOutcomeOf(team, recipe, attempt, asserted, mark);
      ChainStopIsNotAgent(team, recipe, attempt, asserted, mark);
      OutcomeGives(team, recipe, attempt, asserted, mark);
      var staged := PerformAll(asserted, more);
      var so := Validation(true, generated, None, outcome.ledger);
      assert asserts + more + [] == asserts + more;
      var v := Validated(team, recipe, attempt, c, mark, generated).1;
      var rest := if outcome.findings == [] && recipe.hasBrowserGate
                  then Browsed(team, recipe, attempt, staged, mark, so).0 else [];
      if outcome.findings == [] && recipe.hasBrowserGate {
        BrowsedTells(team, recipe, attempt, staged, mark, so);
      }
      hide StagesTell;
      StagesTellBy(team, recipe, attempt, c, mark, generated, more, outcome.findings, outcome.ledger, rest, v);
    }
  }
}
