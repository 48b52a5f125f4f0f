/** `run_chain_stage` of `src/harness/attempt.rs` and `run_assertions` of `src/harness/chain.rs`: the
    deploy commands, the clock, the assertions, then each phase. Commands, the checks and the cause a
    ledger gives are functions handed in; a command may do to the chain whatever a client can. */
module ChainStage {
  import opened Wrappers
  import opened Text
  import opened State
  import opened Ledger
  import opened Findings
  import opened Verdict

  datatype Network = Local | Remote

  datatype Command = Command(name: string, line: string)

  datatype AssertionKind = AccountCheck | ContractCheck | TopicCheck | TransactionsCheck | RejectionsCheck

  datatype Assertion = Assertion(kind: AssertionKind, subject: string)

  datatype Phase = Phase(advance: nat, deploy: seq<Command>, assertions: seq<Assertion>)

  datatype Config = Config(network: Network, deploy: seq<Command>, advance: nat,
                           assertions: seq<Assertion>, phases: seq<Phase>)

  /** What a command did to the chain, and its output when it failed. */
  datatype Ran = Ran(ops: seq<Op>, failed: Option<string>)

  /** Where a command stands: the set of assertions it is run before, and its position in that set's commands. */
  datatype Place = Place(stage: nat, index: nat)

  /** One attempt's machine. A command's result depends on where it stands as well as on its text and
      the chain, so the same line may fail once and succeed later; an assertion's on its position. */
  datatype Host = Host(
    hasSigner: bool,
    execute: (Place, Command, Chained) -> Ran,
    check: (nat, World, Mark, seq<Entry>, Assertion) -> Option<string>,
    cause: (seq<Entry>, Assertion) -> Option<string>)

  datatype ChainStop = DeployFailed | AssertionsFailed

  datatype ChainOutcome = ChainOutcome(findings: seq<Finding>, ledger: Option<seq<Entry>>,
                                       stop: Option<ChainStop>)

  // ---- operations on the chain object -----------------------------------------------------------

  lemma {:induction false} PerformBoth(c: Chained, a: seq<Op>, b: seq<Op>)
    ensures PerformAll(c, a + b) == PerformAll(PerformAll(c, a), b)
  {
    hide Perform;
    if b == [] {
      assert a + b == a;
    } else {
      PerformBoth(c, a, b[..|b| - 1]);
      assert (a + b)[..|a + b| - 1] == a + b[..|b| - 1];
    }
  }

  method Play(chain: Chain, ops: seq<Op>)
    modifies chain
    ensures chain.Value() == PerformAll(old(chain.Value()), ops)
  {
    for i := 0 to |ops|
      invariant chain.Value() == PerformAll(old(chain.Value()), ops[..i])
    {
      assert ops[..i + 1][..i] == ops[..i];
      match ops[i] {
        case Change(world) => chain.world := world;
        case Snapshot => var _ := chain.Snapshot();
        case Revert(id) => var _ := chain.Revert(id);
      }
    }
    assert ops[..|ops|] == ops;
  }

  /** `increase_time`, saturating. */
  function Advanced(w: World, seconds: nat): World {
    var offset := w.timeOffset + (if seconds > MAX_I64 then MAX_I64 else seconds);
    w.(timeOffset := if offset > MAX_I64 then MAX_I64 else offset)
  }

  function AdvanceOps(c: Chained, seconds: nat): seq<Op> {
    if seconds == 0 then [] else [Change(Advanced(c.world, seconds))]
  }

  /** `advance_chain_time`. */
  method AdvanceChainTime(chain: Chain, seconds: nat)
    modifies chain
    ensures chain.Value() == PerformAll(old(chain.Value()), AdvanceOps(old(chain.Value()), seconds))
  {
    ghost var ops := AdvanceOps(chain.Value(), seconds);
    if seconds == 0 { return; }
    assert ops[..0] == [];
    chain.world := Advanced(chain.world, seconds);
  }

  // ---- deploy commands --------------------------------------------------------------------------

  function DeployFinding(command: Command, output: string): Finding {
    Finding("chain-deploy:" + command.name, Commands, "Chain deploy command failed: " + command.name,
            Some(TruncateDetails(output)), None)
  }

  /** Every command runs, whether or not one before it failed. */
  function DeployAll(host: Host, stage: nat, c: Chained, commands: seq<Command>): (seq<Op>, seq<Finding>) {
    if commands == [] then ([], [])
    else
      var (ops, findings) := DeployAll(host, stage, c, commands[..|commands| - 1]);
      var last := commands[|commands| - 1];
      var ran := host.execute(Place(stage, |commands| - 1), last, PerformAll(c, ops));
      (ops + ran.ops,
       if ran.failed.Some? then findings + [DeployFinding(last, ran.failed.value)] else findings)
  }

  function Deployed(host: Host, stage: nat, c: Chained, commands: seq<Command>): (seq<Op>, seq<Finding>) {
    if host.hasSigner then DeployAll(host, stage, c, commands) else ([], [])
  }

  /** `run_deploy_commands`. */
  method RunDeployCommands(chain: Chain, host: Host, stage: nat, commands: seq<Command>)
    returns (findings: seq<Finding>)
    modifies chain
    ensures findings == Deployed(host, stage, old(chain.Value()), commands).1
    ensures chain.Value() == PerformAll(old(chain.Value()), Deployed(host, stage, old(chain.Value()), commands).0)
  {
    hide Perform, DeployFinding;
    findings := [];
    if !host.hasSigner { return; }
    ghost var c := chain.Value();
    for i := 0 to |commands|
      invariant findings == DeployAll(host, stage, c, commands[..i]).1
      invariant chain.Value() == PerformAll(c, DeployAll(host, stage, c, commands[..i]).0)
    {
      assert commands[..i + 1][..i] == commands[..i];
      var ran := host.execute(Place(stage, i), commands[i], Chained(chain.world, chain.snapshots, chain.nextSnapshot));
      PerformBoth(c, DeployAll(host, stage, c, commands[..i]).0, ran.ops);
      Play(chain, ran.ops);
      if ran.failed.Some? {
        findings := findings + [DeployFinding(commands[i], ran.failed.value)];
      }
    }
    assert commands[..|commands|] == commands;
  }

  // ---- assertions -------------------------------------------------------------------------------

  function KindName(kind: AssertionKind): string {
    match kind
    case AccountCheck => "account"
    case ContractCheck => "contract"
    case TopicCheck => "topic"
    case TransactionsCheck => "transactions"
    case RejectionsCheck => "rejections"
  }

  function AssertionId(index: nat, kind: AssertionKind): string {
    "chain:" + Decimal(index) + ":" + KindName(kind)
  }

  function AssertionFinding(host: Host, entries: seq<Entry>, index: nat, a: Assertion, reason: string): Finding {
    Finding(AssertionId(index, a.kind), OnChain,
            "Chain assertion " + Decimal(index) + " (" + KindName(a.kind) + ") failed: " + reason,
            host.cause(entries, a), None)
  }

  /** One finding per failed entry of the set, the entry's index counted from `offset`. */
  function Failures(host: Host, w: World, mark: Mark, entries: seq<Entry>, assertions: seq<Assertion>,
                    offset: nat): seq<Finding>
  {
    if assertions == [] then []
    else
      var earlier, last := assertions[..|assertions| - 1], assertions[|assertions| - 1];
      var found := Failures(host, w, mark, entries, earlier, offset);
      match host.check(offset + |earlier|, w, mark, entries, last)
      case None => found
      case Some(reason) => found + [AssertionFinding(host, entries, offset + |earlier|, last, reason)]
  }

  /** `run_assertions`. */
  method RunAssertions(w: World, host: Host, assertions: seq<Assertion>, mark: Mark, entries: seq<Entry>,
                       indexOffset: nat) returns (findings: seq<Finding>)
    ensures findings == Failures(host, w, mark, entries, assertions, indexOffset)
  {
    hide AssertionFinding;
    findings := [];
    for position := 0 to |assertions|
      invariant findings == Failures(host, w, mark, entries, assertions[..position], indexOffset)
    {
      assert assertions[..position + 1][..position] == assertions[..position];
      var a := assertions[position];
      match host.check(position + indexOffset, w, mark, entries, a) {
        case None =>
        case Some(reason) =>
          findings := findings + [AssertionFinding(host, entries, position + indexOffset, a, reason)];
      }
    }
    assert assertions[..|assertions|] == assertions;
  }

  // ---- the stage --------------------------------------------------------------------------------

  /** Set 0 is the flat block; set k is that of phase k. */
  function SetAt(config: Config, k: nat): seq<Assertion>
    requires k <= |config.phases|
  {
    if k == 0 then config.assertions else config.phases[k - 1].assertions
  }

  function Flat(config: Config, k: nat): seq<Assertion>
    requires k <= |config.phases| + 1
  {
    if k == 0 then [] else Flat(config, k - 1) + SetAt(config, k - 1)
  }

  /** The clock first, then the phase's commands. */
  function EnterPhase(host: Host, stage: nat, c: Chained, phase: Phase): (seq<Op>, seq<Finding>) {
    var ops := AdvanceOps(c, phase.advance);
    var (more, findings) := Deployed(host, stage, PerformAll(c, ops), phase.deploy);
    (ops + more, findings)
  }

  function FailuresAt(host: Host, w: World, mark: Mark, config: Config, k: nat): seq<Finding>
    requires k <= |config.phases|
  {
    Failures(host, w, mark, EntriesSince(w, mark), SetAt(config, k), |Flat(config, k)|)
  }

  /** Set `k`, judged on the chain as it stands. */
  function Judged(host: Host, w: World, mark: Mark, config: Config, k: nat): ChainOutcome
    requires k <= |config.phases|
  {
    var findings := FailuresAt(host, w, mark, config, k);
    ChainOutcome(findings, Some(EntriesSince(w, mark)), if findings == [] then None else Some(AssertionsFailed))
  }

  function Undeployed(w: World, mark: Mark, failed: seq<Finding>): ChainOutcome {
    ChainOutcome(failed, Some(EntriesSince(w, mark)), Some(DeployFailed))
  }

  /** The loop from the assertions of set `k` on. */
  function PhasesFrom(host: Host, c: Chained, mark: Mark, config: Config, k: nat): (seq<Op>, ChainOutcome)
    requires k <= |config.phases|
    decreases |config.phases| - k
  {
    var outcome := Judged(host, c.world, mark, config, k);
    if outcome.stop.Some? || k == |config.phases| then ([], outcome)
    else
      var (ops, failed) := EnterPhase(host, k + 1, c, config.phases[k]);
      var entered := PerformAll(c, ops);
      if failed != [] then (ops, Undeployed(entered.world, mark, failed))
      else
        var (rest, outcome) := PhasesFrom(host, entered, mark, config, k + 1);
        (ops + rest, outcome)
  }

  lemma PhaseStep(host: Host, c: Chained, mark: Mark, config: Config, k: nat)
    requires k <= |config.phases|
    ensures var judged := Judged(host, c.world, mark, config, k);
            PhasesFrom(host, c, mark, config, k)
            == if judged.stop.Some? || k == |config.phases| then ([], judged)
               else (var (ops, failed) := EnterPhase(host, k + 1, c, config.phases[k]);
                     var entered := PerformAll(c, ops);
                     if failed != [] then (ops, Undeployed(entered.world, mark, failed))
                     else (var (rest, outcome) := PhasesFrom(host, entered, mark, config, k + 1);
                           (ops + rest, outcome)))
  {
  }

  lemma DeployStops(w: World, mark: Mark, failed: seq<Finding>)
    ensures Undeployed(w, mark, failed).stop == Some(DeployFailed) && Undeployed(w, mark, failed).findings == failed
  {
  }

  function Staged(host: Host, c: Chained, mark: Mark, config: Config): (seq<Op>, ChainOutcome) {
    var (ops, failed) := Deployed(host, 0, c, config.deploy);
    var deployed := PerformAll(c, ops);
    if failed != [] then
      (ops, ChainOutcome(failed,
                         if config.network == Local then Some(EntriesSince(deployed.world, mark)) else None,
                         Some(DeployFailed)))
    else if config.network != Local then (ops, ChainOutcome([], None, None))
    else
      var clock := AdvanceOps(deployed, config.advance);
      var (rest, outcome) := PhasesFrom(host, PerformAll(deployed, clock), mark, config, 0);
      (ops + clock + rest, outcome)
  }

  function Onward(earlier: seq<Op>, run: (seq<Op>, ChainOutcome)): (seq<Op>, ChainOutcome) {
    (earlier + run.0, run.1)
  }

  lemma OnwardFromNothing(run: (seq<Op>, ChainOutcome))
    ensures Onward([], run) == run
  {
    assert [] + run.0 == run.0;
  }

  lemma OnwardIs(earlier: seq<Op>, ops: seq<Op>, outcome: ChainOutcome)
    ensures Onward(earlier, (ops, outcome)) == (earlier + ops, outcome)
  {
  }

  lemma OnwardAgain(earlier: seq<Op>, ops: seq<Op>, rest: seq<Op>, outcome: ChainOutcome)
    ensures Onward(earlier, (ops + rest, outcome)) == Onward(earlier + ops, (rest, outcome))
  {
    assert earlier + (ops + rest) == (earlier + ops) + rest;
  }

  /** One turn moves its operations from the rest of the run to the part already done. */
  lemma PhaseDone(host: Host, c: Chained, mark: Mark, config: Config, k: nat, earlier: seq<Op>)
    requires k <= |config.phases|
    ensures var judged := Judged(host, c.world, mark, config, k);
            var run := Onward(earlier, PhasesFrom(host, c, mark, config, k));
            if judged.stop.Some? || k == |config.phases| then run == (earlier, judged)
            else (var (ops, failed) := EnterPhase(host, k + 1, c, config.phases[k]);
                  var entered := PerformAll(c, ops);
                  run == if failed != [] then (earlier + ops, Undeployed(entered.world, mark, failed))
                         else Onward(earlier + ops, PhasesFrom(host, entered, mark, config, k + 1)))
  {
    PhaseStep(host, c, mark, config, k);
    hide *;
    var judged := Judged(host, c.world, mark, config, k);
    if judged.stop.Some? || k == |config.phases| {
      OnwardIs(earlier, [], judged);
      assert earlier + [] == earlier;
    } else {
      var (ops, failed) := EnterPhase(host, k + 1, c, config.phases[k]);
      var entered := PerformAll(c, ops);
      OnwardIs(earlier, ops, Undeployed(entered.world, mark, failed));
      var (rest, outcome) := PhasesFrom(host, entered, mark, config, k + 1);
      OnwardAgain(earlier, ops, rest, outcome);
    }
  }

  lemma JudgedIs(host: Host, w: World, mark: Mark, config: Config, k: nat)
    requires k <= |config.phases|
    ensures var findings := FailuresAt(host, w, mark, config, k);
            Judged(host, w, mark, config, k)
            == ChainOutcome(findings, Some(EntriesSince(w, mark)),
                            if findings == [] then None else Some(AssertionsFailed))
  {
  }

  /** The phase loop. */
  method RunPhases(chain: Chain, host: Host, mark: Mark, config: Config) returns (outcome: ChainOutcome)
    modifies chain
    ensures outcome == PhasesFrom(host, old(chain.Value()), mark, config, 0).1
    ensures chain.Value() == PerformAll(old(chain.Value()), PhasesFrom(host, old(chain.Value()), mark, config, 0).0)
  {
    hide PerformAll, EntriesSince, Failures, EnterPhase, PhasesFrom, Onward, Judged;
    ghost var c := chain.Value();
    ghost var ops: seq<Op> := [];
    var indexOffset := 0;
    var assertions := config.assertions;
    var number := 0;
    PerformNothing(c);
    OnwardFromNothing(PhasesFrom(host, c, mark, config, 0));
    while true
      invariant number <= |config.phases|
      invariant assertions == SetAt(config, number) && indexOffset == |Flat(config, number)|
      invariant chain.Value() == PerformAll(c, ops)
      invariant PhasesFrom(host, c, mark, config, 0)
             == Onward(ops, PhasesFrom(host, chain.Value(), mark, config, number))
      decreases |config.phases| - number
    {
      ghost var before := chain.Value();
      PhaseDone(host, before, mark, config, number, ops);
      JudgedIs(host, before.world, mark, config, number);
      var entries := Since(chain, mark);
      var findings := RunAssertions(chain.world, host, assertions, mark, entries, indexOffset);
      assert findings == FailuresAt(host, before.world, mark, config, number);
      indexOffset := indexOffset + |assertions|;
      if findings != [] {
        return ChainOutcome(findings, Some(entries), Some(AssertionsFailed));
      }
      if number == |config.phases| {
        return ChainOutcome([], Some(entries), None);
      }
      var phase := config.phases[number];
      var failed := StartPhase(chain, host, number + 1, phase);
      ghost var more := EnterPhase(host, number + 1, before, phase).0;
      PerformBoth(c, ops, more);
      if failed != [] {
        entries := Since(chain, mark);
        return ChainOutcome(failed, Some(entries), Some(DeployFailed));
      }
      ops := ops + more;
      number := number + 1;
      assertions := phase.assertions;
    }
  }

  lemma PerformNothing(c: Chained)
    ensures PerformAll(c, []) == c
  {
  }

  method StartPhase(chain: Chain, host: Host, stage: nat, phase: Phase) returns (failed: seq<Finding>)
    modifies chain
    ensures failed == EnterPhase(host, stage, old(chain.Value()), phase).1
    ensures chain.Value() == PerformAll(old(chain.Value()), EnterPhase(host, stage, old(chain.Value()), phase).0)
  {
    hide PerformAll, Deployed;
    ghost var c := chain.Value();
    AdvanceChainTime(chain, phase.advance);
    ghost var ops := AdvanceOps(c, phase.advance);
    failed := RunDeployCommands(chain, host, stage, phase.deploy);
    PerformBoth(c, ops, Deployed(host, stage, PerformAll(c, ops), phase.deploy).0);
  }

  /** `run_chain_stage`. */
  method RunChainStage(chain: Chain, host: Host, mark: Mark, config: Config) returns (outcome: ChainOutcome)
    modifies chain
    ensures outcome == Staged(host, old(chain.Value()), mark, config).1
    ensures chain.Value() == PerformAll(old(chain.Value()), Staged(host, old(chain.Value()), mark, config).0)
  {
    hide PerformAll, Deployed, PhasesFrom, EntriesSince, AdvanceOps;
    ghost var c := chain.Value();
    var ownsTheChain := config.network == Local;
    var failed := RunDeployCommands(chain, host, 0, config.deploy);
    ghost var ops := Deployed(host, 0, c, config.deploy).0;
    if failed != [] && !ownsTheChain {
      return ChainOutcome(failed, None, Some(DeployFailed));
    }
    if failed != [] {
      var entries := Since(chain, mark);
      return ChainOutcome(failed, Some(entries), Some(DeployFailed));
    }
    if !ownsTheChain {
      return ChainOutcome([], None, None);
    }
    ghost var clock := AdvanceOps(chain.Value(), config.advance);
    AdvanceChainTime(chain, config.advance);
    PerformBoth(c, ops, clock);
    ghost var rest := PhasesFrom(host, chain.Value(), mark, config, 0).0;
    PerformBoth(c, ops + clock, rest);
    outcome := RunPhases(chain, host, mark, config);
  }

  // ---- the loop over the flattened list ---------------------------------------------------------

  /** One finding per failed position of `flat[from..to]`, each carrying its own position. */
  function FailuresIn(host: Host, w: World, mark: Mark, flat: seq<Assertion>, from: nat, to: nat): seq<Finding>
    requires from <= to <= |flat|
  {
    if from == to then []
    else
      var found := FailuresIn(host, w, mark, flat, from, to - 1);
      match host.check(to - 1, w, mark, EntriesSince(w, mark), flat[to - 1])
      case None => found
      case Some(reason) =>
        var kind := KindName(flat[to - 1].kind);
        found + [Finding("chain:" + Decimal(to - 1) + ":" + kind, OnChain,
                         "Chain assertion " + Decimal(to - 1) + " (" + kind + ") failed: " + reason,
                         host.cause(EntriesSince(w, mark), flat[to - 1]), None)]
  }

  function All(config: Config): seq<Assertion> {
    Flat(config, |config.phases| + 1)
  }

  /** The entries of the phases from the first on, in file order. */
  function Entries(phases: seq<Phase>): seq<Assertion> {
    if phases == [] then [] else phases[0].assertions + Entries(phases[1..])
  }

  lemma {:induction false} EntriesMore(phases: seq<Phase>)
    requires phases != []
    ensures Entries(phases) == Entries(phases[..|phases| - 1]) + phases[|phases| - 1].assertions
  {
    if |phases| > 1 {
      EntriesMore(phases[1..]);
      assert phases[1..][..|phases| - 2] == phases[..|phases| - 1][1..];
    }
  }

  lemma {:induction false} FlatIsEntries(config: Config, k: nat)
    requires k <= |config.phases|
    ensures Flat(config, k + 1) == config.assertions + Entries(config.phases[..k])
  {
    if k > 0 {
      FlatIsEntries(config, k - 1);
      EntriesMore(config.phases[..k]);
      assert config.phases[..k][..k - 1] == config.phases[..k - 1];
    } else {
      assert Flat(config, 0) == [];
    }
  }

  /** The whole list is the file's: the flat block, then each phase's. */
  lemma AllIsTheFile(config: Config)
    ensures All(config) == config.assertions + Entries(config.phases)
  {
    FlatIsEntries(config, |config.phases|);
    assert config.phases[..|config.phases|] == config.phases;
  }

  lemma {:induction false} FlatGrows(config: Config, k: nat, n: nat)
    requires k <= n <= |config.phases| + 1
    ensures Flat(config, k) <= Flat(config, n)
  {
    if k < n { FlatGrows(config, k, n - 1); }
  }

  lemma {:induction false} SliceFailures(host: Host, w: World, mark: Mark, flat: seq<Assertion>,
                                         from: nat, to: nat)
    requires from <= to <= |flat|
    ensures Failures(host, w, mark, EntriesSince(w, mark), flat[from..to], from)
         == FailuresIn(host, w, mark, flat, from, to)
  {
    hide EntriesSince, Decimal, KindName;
    if from < to {
      SliceFailures(host, w, mark, flat, from, to - 1);
      assert flat[from..to][..to - 1 - from] == flat[from..to - 1];
    }
  }

  /** Set `k` is judged as a stretch of the whole list. */
  lemma SetIsAStretch(host: Host, w: World, mark: Mark, config: Config, k: nat)
    requires k <= |config.phases|
    ensures |Flat(config, k)| <= |Flat(config, k + 1)| <= |All(config)|
    ensures FailuresAt(host, w, mark, config, k)
         == FailuresIn(host, w, mark, All(config), |Flat(config, k)|, |Flat(config, k + 1)|)
  {
    FlatGrows(config, k + 1, |config.phases| + 1);
    var from, to := |Flat(config, k)|, |Flat(config, k + 1)|;
    SliceFailures(host, w, mark, All(config), from, to);
    assert All(config)[from..to] == Flat(config, k + 1)[from..to] == SetAt(config, k);
  }

  /** The chain that set `k` is judged on, when every deploy before it succeeded. */
  function ChainAt(host: Host, c: Chained, config: Config, k: nat): Option<Chained>
    requires k <= |config.phases|
  {
    if k == 0 then Some(c)
    else match ChainAt(host, c, config, k - 1)
      case None => None
      case Some(before) =>
        var (ops, failed) := EnterPhase(host, k, before, config.phases[k - 1]);
        if failed == [] then Some(PerformAll(before, ops)) else None
  }

  /** Set `k` is reached, and `found` is what fails of its stretch of the list. */
  ghost predicate FailsWith(host: Host, c: Chained, mark: Mark, config: Config, k: nat, found: seq<Finding>)
    requires k <= |config.phases|
  {
    FlatGrows(config, k, k + 1);
    FlatGrows(config, k + 1, |config.phases| + 1);
    && ChainAt(host, c, config, k).Some?
    && found == FailuresIn(host, ChainAt(host, c, config, k).value.world, mark, All(config),
                           |Flat(config, k)|, |Flat(config, k + 1)|)
  }

  ghost predicate CleanBefore(host: Host, c: Chained, mark: Mark, config: Config, k: nat)
    requires k <= |config.phases| + 1
  {
    forall j: nat :: j < k ==> FailsWith(host, c, mark, config, j, [])
  }

  /** Why the loop stopped, in terms of the list alone: at the first stretch that fails, with exactly
      its failures; or at the first phase whose deploy fails; or nowhere. */
  ghost predicate StopsRightly(host: Host, c: Chained, mark: Mark, config: Config, outcome: ChainOutcome) {
    match outcome.stop
    case None => CleanBefore(host, c, mark, config, |config.phases| + 1) && outcome.findings == []
    case Some(AssertionsFailed) =>
      exists k: nat :: k <= |config.phases| && CleanBefore(host, c, mark, config, k)
                       && FailsWith(host, c, mark, config, k, outcome.findings) && outcome.findings != []
    case Some(DeployFailed) =>
      exists k: nat :: k < |config.phases| && CleanBefore(host, c, mark, config, k + 1)
                       && ChainAt(host, c, config, k).Some?
                       && (var at := ChainAt(host, c, config, k).value;
                           outcome.findings == EnterPhase(host, k + 1, at, config.phases[k]).1)
                       && outcome.findings != []
  }

  lemma JudgedRightly(host: Host, c: Chained, mark: Mark, config: Config, k: nat, at: Chained)
    requires k <= |config.phases| && ChainAt(host, c, config, k) == Some(at)
    ensures var judged := Judged(host, at.world, mark, config, k);
            && FailsWith(host, c, mark, config, k, judged.findings)
            && judged.stop == if judged.findings == [] then None else Some(AssertionsFailed)
  {
    SetIsAStretch(host, at.world, mark, config, k);
  }

  lemma CleanMore(host: Host, c: Chained, mark: Mark, config: Config, k: nat)
    requires k <= |config.phases| && CleanBefore(host, c, mark, config, k)
    requires FailsWith(host, c, mark, config, k, [])
    ensures CleanBefore(host, c, mark, config, k + 1)
  {
    hide FailsWith;
  }

  lemma StoppedByDeploy(host: Host, c: Chained, mark: Mark, config: Config, k: nat, at: Chained, w: World)
    requires k < |config.phases| && ChainAt(host, c, config, k) == Some(at)
    requires CleanBefore(host, c, mark, config, k + 1)
    requires EnterPhase(host, k + 1, at, config.phases[k]).1 != []
    ensures StopsRightly(host, c, mark, config, Undeployed(w, mark, EnterPhase(host, k + 1, at, config.phases[k]).1))
  {
    hide EnterPhase, CleanBefore;
  }

  lemma ChainStep(host: Host, c: Chained, config: Config, k: nat, at: Chained)
    requires k < |config.phases| && ChainAt(host, c, config, k) == Some(at)
    ensures var (ops, failed) := EnterPhase(host, k + 1, at, config.phases[k]);
            ChainAt(host, c, config, k + 1) == if failed == [] then Some(PerformAll(at, ops)) else None
  {
    hide EnterPhase, PerformAll;
  }

  lemma StoppedByJudge(host: Host, c: Chained, mark: Mark, config: Config, k: nat, o: ChainOutcome)
    requires k <= |config.phases| && CleanBefore(host, c, mark, config, k)
    requires FailsWith(host, c, mark, config, k, o.findings)
    requires if o.findings == [] then k == |config.phases| && o.stop == None else o.stop == Some(AssertionsFailed)
    ensures StopsRightly(host, c, mark, config, o)
  {
    if o.findings == [] { CleanMore(host, c, mark, config, k); }
    hide FailsWith, CleanBefore;
  }

  lemma {:induction false} LoopIsFlat(host: Host, c: Chained, mark: Mark, config: Config, k: nat, at: Chained)
    requires k <= |config.phases| && ChainAt(host, c, config, k) == Some(at)
    requires CleanBefore(host, c, mark, config, k)
    ensures StopsRightly(host, c, mark, config, PhasesFrom(host, at, mark, config, k).1)
    decreases |config.phases| - k
  {
    hide *;
    PhaseStep(host, at, mark, config, k);
    JudgedRightly(host, c, mark, config, k, at);
    var judged := Judged(host, at.world, mark, config, k);
    if judged.findings != [] || k == |config.phases| {
      StoppedByJudge(host, c, mark, config, k, judged);
    } else {
      CleanMore(host, c, mark, config, k);
      ChainStep(host, c, config, k, at);
      var (ops, failed) := EnterPhase(host, k + 1, at, config.phases[k]);
      if failed == [] {
        LoopIsFlat(host, c, mark, config, k + 1, PerformAll(at, ops));
      } else {
        StoppedByDeploy(host, c, mark, config, k, at, PerformAll(at, ops).world);
      }
    }
  }

  /** The phase loop judges the flattened list: entry k of it always has index k, only stretches up to
      the first failing one are looked at, and the findings are exactly that stretch's failures. */
  lemma PhasesAreFlat(host: Host, c: Chained, mark: Mark, config: Config)
    ensures StopsRightly(host, c, mark, config, PhasesFrom(host, c, mark, config, 0).1)
  {
    LoopIsFlat(host, c, mark, config, 0, c);
  }

  /** One finding per failed command, in order, each run on the chain `seen` gives it. */
  function Reported(host: Host, stage: nat, commands: seq<Command>, seen: seq<Chained>): seq<Finding>
    requires |seen| >= |commands|
  {
    if commands == [] then []
    else
      var n := |commands| - 1;
      var found := Reported(host, stage, commands[..n], seen);
      match host.execute(Place(stage, n), commands[n], seen[n]).failed
      case None => found
      case Some(output) =>
        found + [Finding("chain-deploy:" + commands[n].name, Commands,
                         "Chain deploy command failed: " + commands[n].name, Some(TruncateDetails(output)), None)]
  }

  /** The chain each command is run on, and last the one they leave. */
  ghost predicate OneAfterTheOther(host: Host, stage: nat, commands: seq<Command>, seen: seq<Chained>) {
    && |seen| == |commands| + 1
    && forall i :: 0 <= i < |commands| ==>
         seen[i + 1] == PerformAll(seen[i], host.execute(Place(stage, i), commands[i], seen[i]).ops)
  }

  lemma {:induction false} SameReports(host: Host, stage: nat, commands: seq<Command>, seen: seq<Chained>,
                                       more: seq<Chained>)
    requires |commands| <= |seen| && seen <= more
    ensures Reported(host, stage, commands, seen) == Reported(host, stage, commands, more)
  {
    if commands != [] { SameReports(host, stage, commands[..|commands| - 1], seen, more); }
  }

  lemma MoreInTurn(host: Host, stage: nat, commands: seq<Command>, earlier: seq<Chained>, seen: seq<Chained>)
    requires commands != [] && OneAfterTheOther(host, stage, commands[..|commands| - 1], earlier)
    requires var n := |commands| - 1;
             seen == earlier + [PerformAll(earlier[n],
                                           host.execute(Place(stage, n), commands[n], earlier[n]).ops)]
    ensures OneAfterTheOther(host, stage, commands, seen)
  {
    hide PerformAll;
    forall i | 0 <= i < |commands| - 1
      ensures seen[i + 1] == PerformAll(seen[i], host.execute(Place(stage, i), commands[i], seen[i]).ops)
    {
      assert seen[i] == earlier[i] && seen[i + 1] == earlier[i + 1];
      assert commands[..|commands| - 1][i] == commands[i];
    }
  }

  lemma {:induction false} CommandsInTurn(host: Host, stage: nat, c: Chained, commands: seq<Command>)
    returns (seen: seq<Chained>)
    ensures OneAfterTheOther(host, stage, commands, seen)
    ensures seen[0] == c && seen[|commands|] == PerformAll(c, DeployAll(host, stage, c, commands).0)
    ensures DeployAll(host, stage, c, commands).1 == Reported(host, stage, commands, seen)
  {
    hide PerformAll, TruncateDetails, Perform;
    PerformNothing(c);
    if commands == [] {
      seen := [c];
    } else {
      var n := |commands| - 1;
      var earlier := CommandsInTurn(host, stage, c, commands[..n]);
      var ops := host.execute(Place(stage, n), commands[n], earlier[n]).ops;
      PerformBoth(c, DeployAll(host, stage, c, commands[..n]).0, ops);
      seen := earlier + [PerformAll(earlier[n], ops)];
      SameReports(host, stage, commands[..n], earlier, seen);
      MoreInTurn(host, stage, commands, earlier, seen);
    }
  }

  lemma OnlyTheClock(c: Chained, seconds: nat)
    ensures var ticked := PerformAll(c, AdvanceOps(c, seconds));
            && ticked == c.(world := c.world.(timeOffset := ticked.world.timeOffset))
            && (c.world.timeOffset + seconds <= MAX_I64 && seconds <= MAX_I64 ==>
                  ticked.world.timeOffset == c.world.timeOffset + seconds)
            && (c.world.timeOffset + seconds > MAX_I64 && seconds <= MAX_I64 ==> ticked.world.timeOffset == MAX_I64)
            && (seconds > MAX_I64 ==>
                  ticked.world.timeOffset == if c.world.timeOffset < 0 then c.world.timeOffset + MAX_I64 else MAX_I64)
  {
    var ops := AdvanceOps(c, seconds);
    PerformNothing(c);
    assert ops != [] ==> ops[..0] == [] && PerformAll(c, ops) == Perform(c, ops[0]);
  }

  /** Whatever the commands do: the first of a phase runs on the chain as it was with only the clock
      moved, each other on what the one before left, and the findings are those that fail so. */
  lemma CommandsSeeTheClock(host: Host, stage: nat, c: Chained, phase: Phase) returns (seen: seq<Chained>)
    requires host.hasSigner
    ensures OneAfterTheOther(host, stage, phase.deploy, seen)
    ensures seen[0] == c.(world := c.world.(timeOffset := seen[0].world.timeOffset))
    ensures phase.advance <= MAX_I64 && c.world.timeOffset + phase.advance <= MAX_I64 ==>
              seen[0].world.timeOffset == c.world.timeOffset + phase.advance
    ensures seen[|phase.deploy|] == PerformAll(c, EnterPhase(host, stage, c, phase).0)
    ensures EnterPhase(host, stage, c, phase).1 == Reported(host, stage, phase.deploy, seen)
  {
    var ops := AdvanceOps(c, phase.advance);
    var ticked := PerformAll(c, ops);
    OnlyTheClock(c, phase.advance);
    hide PerformAll, AdvanceOps, Reported;
    seen := CommandsInTurn(host, stage, ticked, phase.deploy);
    PerformBoth(c, ops, DeployAll(host, stage, ticked, phase.deploy).0);
  }

  /** Without a signer no command runs, and nothing but the clock moves. */
  lemma NoSignerNoCommands(host: Host, stage: nat, c: Chained, phase: Phase)
    requires !host.hasSigner
    ensures EnterPhase(host, stage, c, phase) == (AdvanceOps(c, phase.advance), [])
    ensures Deployed(host, stage, c, phase.deploy) == ([], [])
  {
    assert AdvanceOps(c, phase.advance) + [] == AdvanceOps(c, phase.advance);
  }

  /** Commands that only look at the clock, and succeed once it shows `time`. */
  ghost predicate WaitsFor(host: Host, time: int) {
    forall place, command, c ::
      && host.execute(place, command, c).ops == []
      && (host.execute(place, command, c).failed.None? <==> c.world.timeOffset >= time)
  }

  lemma {:induction false} WaitingCommands(host: Host, stage: nat, c: Chained, commands: seq<Command>, time: int)
    requires WaitsFor(host, time)
    ensures DeployAll(host, stage, c, commands).0 == []
    ensures DeployAll(host, stage, c, commands).1 == [] <==> commands == [] || c.world.timeOffset >= time
  {
    if commands != [] {
      WaitingCommands(host, stage, c, commands[..|commands| - 1], time);
      PerformNothing(c);
    }
  }

  /** So one that waits for a time succeeds exactly when the phase's advance reaches it. */
  lemma WaitingSucceeds(host: Host, stage: nat, c: Chained, phase: Phase, time: int)
    requires WaitsFor(host, time) && time <= MAX_I64 && host.hasSigner && phase.deploy != []
    requires phase.advance <= MAX_I64
    ensures EnterPhase(host, stage, c, phase).1 == [] <==> c.world.timeOffset + phase.advance >= time
  {
    var ops := AdvanceOps(c, phase.advance);
    OnlyTheClock(c, phase.advance);
    WaitingCommands(host, stage, PerformAll(c, ops), phase.deploy, time);
  }

  // ---- finding ids ------------------------------------------------------------------------------

  lemma DigitsEndAtColon(a: string, x: string)
    requires IsDigits(a)
    ensures (a + ":" + x)[0] == ':' <==> a == []
  {
  }

  lemma {:induction false} SplitAtColon(a: string, b: string, x: string, y: string)
    requires IsDigits(a) && IsDigits(b) && a + ":" + x == b + ":" + y
    ensures a == b && x == y
  {
    DigitsEndAtColon(a, x);
    DigitsEndAtColon(b, y);
    if a == [] {
      assert (a + ":" + x)[1..] == x && (b + ":" + y)[1..] == y;
    } else {
      assert (a + ":" + x)[0] == a[0] && (b + ":" + y)[0] == b[0];
      assert (a + ":" + x)[1..] == a[1..] + ":" + x && (b + ":" + y)[1..] == b[1..] + ":" + y;
      SplitAtColon(a[1..], b[1..], x, y);
    }
  }

  lemma KindNamesDiffer(k: AssertionKind, l: AssertionKind)
    ensures KindName(k) == KindName(l) <==> k == l
  {
  }

  lemma SamePrefix(p: string, a: string, b: string)
    requires p + a == p + b
    ensures a == b
  {
    assert (p + a)[|p|..] == a && (p + b)[|p|..] == b;
  }

  lemma IdParts(i: nat, k: AssertionKind)
    ensures AssertionId(i, k) == "chain:" + (Decimal(i) + ":" + KindName(k))
  {
    hide Decimal, KindName;
  }

  /** An id says which entry of the list failed. */
  lemma IdsTellEntriesApart(i: nat, k: AssertionKind, j: nat, l: AssertionKind)
    ensures AssertionId(i, k) == AssertionId(j, l) <==> i == j && k == l
  {
    if AssertionId(i, k) == AssertionId(j, l) {
      PadRoundTrip(i, 1);
      PadRoundTrip(j, 1);
      IdParts(i, k);
      IdParts(j, l);
      assert Decimal(i) == Pad(i, 1) && Decimal(j) == Pad(j, 1);
      hide Pad, KindName, AssertionId, Decimal;
      SamePrefix("chain:", Decimal(i) + ":" + KindName(k), Decimal(j) + ":" + KindName(l));
      SplitAtColon(Decimal(i), Decimal(j), KindName(k), KindName(l));
      KindNamesDiffer(k, l);
    }
  }

  ghost predicate NumberedFrom(findings: seq<Finding>, index: nat) {
    forall i :: 0 <= i < |findings| ==>
      exists p: nat, kind :: p >= index && findings[i].id == AssertionId(p, kind)
  }

  lemma {:induction false} FailuresAreNumbered(host: Host, w: World, mark: Mark, entries: seq<Entry>,
                                               assertions: seq<Assertion>, offset: nat)
    ensures NumberedFrom(Failures(host, w, mark, entries, assertions, offset), offset)
  {
    if assertions != [] {
      var earlier, last := assertions[..|assertions| - 1], assertions[|assertions| - 1];
      FailuresAreNumbered(host, w, mark, entries, earlier, offset);
      var checked := host.check(offset + |earlier|, w, mark, entries, last);
      if checked.Some? {
        assert AssertionFinding(host, entries, offset + |earlier|, last, checked.value).id
            == AssertionId(offset + |earlier|, last.kind);
      }
    }
  }

  function WithPhase(config: Config, phase: Phase): Config {
    config.(phases := config.phases + [phase])
  }

  lemma {:induction false} FlatOfMore(config: Config, phase: Phase, k: nat)
    requires k <= |config.phases| + 1
    ensures Flat(WithPhase(config, phase), k) == Flat(config, k)
  {
    if k > 0 { FlatOfMore(config, phase, k - 1); }
  }

  lemma SameJudgement(host: Host, w: World, mark: Mark, config: Config, phase: Phase, k: nat)
    requires k <= |config.phases|
    ensures Judged(host, w, mark, WithPhase(config, phase), k) == Judged(host, w, mark, config, k)
  {
    FlatOfMore(config, phase, k);
    assert SetAt(WithPhase(config, phase), k) == SetAt(config, k);
    hide Failures, EntriesSince;
  }

  lemma NewSetIsNumberedAfter(host: Host, w: World, mark: Mark, config: Config, phase: Phase)
    ensures NumberedFrom(Judged(host, w, mark, WithPhase(config, phase), |config.phases| + 1).findings, |All(config)|)
  {
    var more, last := WithPhase(config, phase), |config.phases| + 1;
    FlatOfMore(config, phase, last);
    FailuresAreNumbered(host, w, mark, EntriesSince(w, mark), SetAt(more, last), |Flat(more, last)|);
  }

  lemma PhasesOfMore(config: Config, phase: Phase)
    ensures var more := WithPhase(config, phase);
            && |more.phases| == |config.phases| + 1 && more.phases[|config.phases|] == phase
            && forall k :: 0 <= k < |config.phases| ==> more.phases[k] == config.phases[k]
  {
  }

  /** Appending a phase never moves a finding: a run that stopped still stops with the same findings,
      and one that passed can only gain assertion findings numbered after every old entry. */
  lemma {:induction false} AppendedPhase(host: Host, c: Chained, mark: Mark, config: Config, phase: Phase, k: nat)
    requires k <= |config.phases|
    ensures k <= |WithPhase(config, phase).phases|
    ensures var earlier, later := PhasesFrom(host, c, mark, config, k),
                                  PhasesFrom(host, c, mark, WithPhase(config, phase), k);
            && (earlier.1.stop.Some? ==> later == earlier)
            && (earlier.1.stop.None? && later.1.stop == Some(AssertionsFailed) ==>
                  NumberedFrom(later.1.findings, |All(config)|))
    decreases |config.phases| - k
  {
    hide *;
    var more := WithPhase(config, phase);
    PhasesOfMore(config, phase);
    SameJudgement(host, c.world, mark, config, phase, k);
    PhaseStep(host, c, mark, config, k);
    PhaseStep(host, c, mark, more, k);
    var (ops, failed) := EnterPhase(host, k + 1, c, more.phases[k]);
    var entered := PerformAll(c, ops);
    DeployStops(entered.world, mark, failed);
    if k < |config.phases| {
      AppendedPhase(host, entered, mark, config, phase, k + 1);
    } else {
      PhaseStep(host, entered, mark, more, k + 1);
      NewSetIsNumberedAfter(host, entered.world, mark, config, phase);
    }
  }

  // ---- what a stopped stage leaves --------------------------------------------------------------

  ghost predicate FromTheChain(findings: seq<Finding>) {
    forall i :: 0 <= i < |findings| ==> findings[i].category == OnChain || findings[i].category == Commands
  }

  lemma {:induction false} DeployFromTheChain(host: Host, stage: nat, c: Chained, commands: seq<Command>)
    ensures FromTheChain(DeployAll(host, stage, c, commands).1)
  {
    if commands != [] { DeployFromTheChain(host, stage, c, commands[..|commands| - 1]); }
  }

  lemma DeployedFromTheChain(host: Host, stage: nat, c: Chained, commands: seq<Command>)
    ensures FromTheChain(Deployed(host, stage, c, commands).1)
  {
    DeployFromTheChain(host, stage, c, commands);
    hide DeployAll;
  }

  lemma {:induction false} FailuresFromTheChain(host: Host, w: World, mark: Mark, entries: seq<Entry>,
                                                assertions: seq<Assertion>, offset: nat)
    ensures FromTheChain(Failures(host, w, mark, entries, assertions, offset))
  {
    if assertions != [] {
      FailuresFromTheChain(host, w, mark, entries, assertions[..|assertions| - 1], offset);
    }
  }

  lemma JudgedForAReason(host: Host, w: World, mark: Mark, config: Config, k: nat)
    requires k <= |config.phases|
    ensures var o := Judged(host, w, mark, config, k);
            (o.stop.Some? <==> o.findings != []) && FromTheChain(o.findings)
  {
    FailuresFromTheChain(host, w, mark, EntriesSince(w, mark), SetAt(config, k), |Flat(config, k)|);
  }

  lemma EnterForAReason(host: Host, stage: nat, c: Chained, phase: Phase)
    ensures FromTheChain(EnterPhase(host, stage, c, phase).1)
  {
    DeployedFromTheChain(host, stage, PerformAll(c, AdvanceOps(c, phase.advance)), phase.deploy);
    hide Deployed, FromTheChain, PerformAll, AdvanceOps;
  }

  lemma {:induction false} LoopStopsForAReason(host: Host, c: Chained, mark: Mark, config: Config, k: nat)
    requires k <= |config.phases|
    ensures var o := PhasesFrom(host, c, mark, config, k).1;
            (o.stop.Some? <==> o.findings != []) && FromTheChain(o.findings)
    decreases |config.phases| - k
  {
    hide *;
    JudgedForAReason(host, c.world, mark, config, k);
    PhaseStep(host, c, mark, config, k);
    if k < |config.phases| {
      EnterForAReason(host, k + 1, c, config.phases[k]);
      DeployStops(PerformAll(c, EnterPhase(host, k + 1, c, config.phases[k]).0).world, mark,
                  EnterPhase(host, k + 1, c, config.phases[k]).1);
      LoopStopsForAReason(host, PerformAll(c, EnterPhase(host, k + 1, c, config.phases[k]).0), mark, config, k + 1);
    }
  }

  lemma JudgedLedger(host: Host, w: World, mark: Mark, config: Config, k: nat, failed: seq<Finding>)
    requires k <= |config.phases|
    ensures Judged(host, w, mark, config, k).ledger == Some(EntriesSince(w, mark))
    ensures Undeployed(w, mark, failed).ledger == Some(EntriesSince(w, mark))
  {
    hide EntriesSince, FailuresAt;
  }

  /** The ledger is that of the chain the stage leaves. */
  lemma {:induction false} PhasesLedger(host: Host, c: Chained, mark: Mark, config: Config, k: nat)
    requires k <= |config.phases|
    ensures var (ops, o) := PhasesFrom(host, c, mark, config, k);
            o.ledger == Some(EntriesSince(PerformAll(c, ops).world, mark))
    decreases |config.phases| - k
  {
    hide *;
    PhaseStep(host, c, mark, config, k);
    PerformNothing(c);
    JudgedLedger(host, c.world, mark, config, k, []);
    if k < |config.phases| {
      var (ops, failed) := EnterPhase(host, k + 1, c, config.phases[k]);
      var entered := PerformAll(c, ops);
      JudgedLedger(host, entered.world, mark, config, k, failed);
      PhasesLedger(host, entered, mark, config, k + 1);
      PerformBoth(c, ops, PhasesFrom(host, entered, mark, config, k + 1).0);
    }
  }

  lemma StagedLedger(host: Host, c: Chained, mark: Mark, config: Config)
    ensures var (ops, o) := Staged(host, c, mark, config);
            o.ledger.Some? ==> o.ledger.value == EntriesSince(PerformAll(c, ops).world, mark)
  {
    hide Deployed, PhasesFrom, PerformAll, AdvanceOps, EntriesSince;
    var ops := Deployed(host, 0, c, config.deploy).0;
    var deployed := PerformAll(c, ops);
    var clock := AdvanceOps(deployed, config.advance);
    PerformBoth(c, ops, clock);
    PhasesLedger(host, PerformAll(deployed, clock), mark, config, 0);
    PerformBoth(c, ops + clock, PhasesFrom(host, PerformAll(deployed, clock), mark, config, 0).0);
  }

  lemma StagedEnds(host: Host, c: Chained, mark: Mark, config: Config)
    ensures var failed := Deployed(host, 0, c, config.deploy).1;
            var deployed := PerformAll(c, Deployed(host, 0, c, config.deploy).0);
            var o := Staged(host, c, mark, config).1;
            if failed != [] then
              o == ChainOutcome(failed, if config.network == Remote then None
                                        else Some(EntriesSince(deployed.world, mark)), Some(DeployFailed))
            else if config.network == Remote then o == ChainOutcome([], None, None)
            else o == PhasesFrom(host, PerformAll(deployed, AdvanceOps(deployed, config.advance)), mark, config, 0).1
  {
    hide Deployed, PhasesFrom, PerformAll, AdvanceOps, EntriesSince;
  }

  /** CHAIN stops exactly when it has findings, all of them its own. */
  lemma StageStopsForAReason(host: Host, c: Chained, mark: Mark, config: Config)
    ensures var o := Staged(host, c, mark, config).1;
            (o.stop.Some? <==> o.findings != []) && FromTheChain(o.findings)
  {
    DeployedFromTheChain(host, 0, c, config.deploy);
    var deployed := PerformAll(c, Deployed(host, 0, c, config.deploy).0);
    StagedEnds(host, c, mark, config);
    assert FromTheChain([]);
    hide *;
    LoopStopsForAReason(host, PerformAll(deployed, AdvanceOps(deployed, config.advance)), mark, config, 0);
  }
}
