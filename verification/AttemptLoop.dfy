/** `run_loop` of `src/harness/attempt.rs`: snapshot, generate, validate, compare, revert, again. */
module AttemptLoop {
  import opened Wrappers
  import opened State
  import opened Ledger
  import opened Findings
  import opened Verdict
  import opened ChainStage
  import opened Attempt
  import opened Standing

  /** One turn of the loop, as someone who reads the run's log and watches the chain sees it. */
  datatype Event = Event(
    number: nat,
    start: World,            // the chain the attempt began on
    taken: Chained,          // the same, with the attempt's snapshot when it takes one
    ops: seq<Op>,            // everything done to it from GENERATE to EVALUATE
    end: Chained,            // the chain it left
    raw: seq<Finding>,       // findings as the stages gave them
    delta: Delta,
    validation: Validation)  // with its findings stamped open and fixed

  /** The loop's variables. */
  datatype LoopState = LoopState(chain: Chained, attempts: nat, carried: Carried, delta: Delta,
                                 validation: Validation)

  predicate Snapshots(recipe: Recipe) {
    recipe.chainValidation.Some? && recipe.snapshotPerAttempt
  }

  function NotRunYet(): Validation {
    Validation(false,
               [Finding("generator-not-run", Agent, "Generator did not complete a successful attempt.", None,
                        Some(Open))],
               None, None)
  }

  predicate Aborts(v: Validation) {
    v.evaluation.Some? && v.evaluation.value.infrastructure
  }

  /** The loop ends here whatever budget is left. */
  predicate Stops(v: Validation) {
    Aborts(v) || v.passed
  }

  function Stamped(v: Validation, delta: Delta, previous: seq<Finding>): Validation {
    v.(findings := Opened(v.findings) + Closed(previous, delta.fixed))
  }

  /** One attempt, up to what it carries forward. */
  function Attempted(team: Team, recipe: Recipe, s: LoopState): (Event, LoopState) {
    var number := s.attempts + 1;
    var mark := MarkOf(s.chain.world);
    var taken := if Snapshots(recipe) then TakeSnapshot(s.chain) else s.chain;
    var generated := team.generate(number, taken);
    var (ops, v) := Validated(team, recipe, number, PerformAll(taken, generated.ops), mark,
                              GenerateFinding(number, generated.failure));
    var all := generated.ops + ops;
    var end := PerformAll(taken, all);
    var delta := ComputeDelta(s.carried.openIds, v.findings);
    var stamped := Stamped(v, delta, s.carried.previous);
    (Event(number, s.chain.world, taken, all, end, v.findings, delta, stamped),
     LoopState(end, number, Carried(delta.open, stamped.findings), delta, stamped))
  }

  /** Back to the snapshot the attempt took, when it took one and it is still there. */
  function Rewound(recipe: Recipe, before: LoopState, after: LoopState): LoopState {
    if Snapshots(recipe) then after.(chain := RevertTo(after.chain, before.chain.nextSnapshot)) else after
  }

  function LoopFrom(team: Team, recipe: Recipe, s: LoopState, budget: nat): (seq<Event>, LoopState)
    decreases budget
  {
    if budget == 0 then ([], s)
    else
      var (event, after) := Attempted(team, recipe, s);
      if Stops(after.validation) || budget == 1 then ([event], after)
      else
        var (rest, final) := LoopFrom(team, recipe, Rewound(recipe, s, after), budget - 1);
        ([event] + rest, final)
  }

  datatype Report = Report(attempts: nat, attemptsThisCycle: nat, passed: bool, openFindingIds: seq<string>,
                           fixedFindingIds: seq<string>, validation: Validation)

  function Start(chain: Chained, startingAttempt: nat, openIds: seq<string>): LoopState {
    LoopState(chain, if startingAttempt == 0 then 0 else startingAttempt - 1, FromSession(openIds),
              Delta(openIds, [], []), NotRunYet())
  }

  function ReportOf(events: seq<Event>, final: LoopState): Report {
    Report(final.attempts, |events|, final.validation.passed, final.delta.open, final.delta.fixed,
           final.validation)
  }

  lemma LoopStep(team: Team, recipe: Recipe, s: LoopState, budget: nat)
    requires budget > 0
    ensures var (event, after) := Attempted(team, recipe, s);
            LoopFrom(team, recipe, s, budget)
            == if Stops(after.validation) || budget == 1 then ([event], after)
               else (var (rest, final) := LoopFrom(team, recipe, Rewound(recipe, s, after), budget - 1);
                     ([event] + rest, final))
  {
  }

  lemma LoopEmpty(team: Team, recipe: Recipe, s: LoopState)
    ensures LoopFrom(team, recipe, s, 0) == ([], s)
  {
    hide Attempted;
  }

  /** One turn, on the chain object. */
  method RunAttempt(chain: Chain, team: Team, recipe: Recipe, ghost s: LoopState, attempts: nat,
                    openFindingIds: seq<string>, previousFindings: seq<Finding>)
    returns (event: Event, snapshot: Option<nat>)
    requires s.chain == chain.Value() && s.attempts == attempts
    requires s.carried == Carried(openFindingIds, previousFindings)
    modifies chain
    ensures var (e, after) := Attempted(team, recipe, s); event == e && chain.Value() == after.chain
    ensures snapshot == if Snapshots(recipe) then Some(s.chain.nextSnapshot) else None
  {
    hide PerformAll, EntriesSince, Validated, GenerateFinding, ComputeDelta, Closed, Opened;
    var number := attempts + 1;
    var start := chain.world;
    var mark := MarkOf(start);
    snapshot := None;
    if Snapshots(recipe) {
      var id := chain.Snapshot();
      snapshot := Some(id);
    }
    var taken := Chained(chain.world, chain.snapshots, chain.nextSnapshot);
    var generated := team.generate(number, taken);
    Play(chain, generated.ops);
    ghost var ops := Validated(team, recipe, number, chain.Value(), mark,
                               GenerateFinding(number, generated.failure)).0;
    PerformBoth(taken, generated.ops, ops);
    var validation := RunValidationStages(chain, team, recipe, number, mark,
                                          GenerateFinding(number, generated.failure));
    var raw := validation.findings;
    var delta := ComputeDelta(openFindingIds, raw);
    var findings := ApplyStatus(raw, delta, previousFindings);
    validation := validation.(findings := findings);
    var end := Chained(chain.world, chain.snapshots, chain.nextSnapshot);
    var did := OpsOf(team, recipe, number, taken, mark);
    event := Event(number, start, taken, did, end, raw, delta, validation);
  }

  /** What was done to the chain, as the log would list it. */
  function OpsOf(team: Team, recipe: Recipe, number: nat, taken: Chained, mark: Mark): seq<Op> {
    var generated := team.generate(number, taken);
    generated.ops + Validated(team, recipe, number, PerformAll(taken, generated.ops), mark,
                              GenerateFinding(number, generated.failure)).0
  }

  function Join(earlier: seq<Event>, run: (seq<Event>, LoopState)): (seq<Event>, LoopState) {
    (earlier + run.0, run.1)
  }

  lemma JoinNothing(run: (seq<Event>, LoopState))
    ensures Join([], run) == run
  {
    assert [] + run.0 == run.0;
  }

  /** One turn moves its event from the rest of the run to the part already done. */
  lemma TurnDone(team: Team, recipe: Recipe, s: LoopState, earlier: seq<Event>, budget: nat)
    requires budget > 0
    ensures var (event, after) := Attempted(team, recipe, s);
            var next := if Stops(after.validation) || budget == 1 then after else Rewound(recipe, s, after);
            Join(earlier, LoopFrom(team, recipe, s, budget))
            == if Stops(after.validation) then (earlier + [event], after)
               else Join(earlier + [event], LoopFrom(team, recipe, next, budget - 1))
  {
    LoopStep(team, recipe, s, budget);
    hide *;
    var (event, after) := Attempted(team, recipe, s);
    if Stops(after.validation) || budget == 1 {
      JoinOne(earlier, event, [], after);
      assert [event] + [] == [event] && (earlier + [event]) + [] == earlier + [event];
      LoopEmpty(team, recipe, after);
      JoinIs(earlier, [event], after);
    } else {
      var (rest, final) := LoopFrom(team, recipe, Rewound(recipe, s, after), budget - 1);
      JoinOne(earlier, event, rest, final);
    }
  }

  lemma JoinIs(earlier: seq<Event>, events: seq<Event>, final: LoopState)
    ensures Join(earlier, (events, final)) == (earlier + events, final)
  {
  }

  lemma JoinOne(earlier: seq<Event>, event: Event, rest: seq<Event>, final: LoopState)
    ensures Join(earlier, ([event] + rest, final)) == Join(earlier + [event], (rest, final))
  {
    assert earlier + ([event] + rest) == (earlier + [event]) + rest;
  }

  lemma Finished(team: Team, recipe: Recipe, s: LoopState, events: seq<Event>)
    ensures Join(events, LoopFrom(team, recipe, s, 0)) == (events, s)
  {
    LoopEmpty(team, recipe, s);
    assert events + [] == events;
  }

  /** `run_loop`. */
  method RunLoop(chain: Chain, team: Team, recipe: Recipe, startingAttempt: nat, maxAttempts: nat,
                 previousOpen: seq<string>) returns (events: seq<Event>, report: Report)
    modifies chain
    ensures var (es, final) := LoopFrom(team, recipe, Start(old(chain.Value()), startingAttempt, previousOpen),
                                        maxAttempts);
            events == es && report == ReportOf(es, final) && chain.Value() == final.chain
  {
    hide PerformAll, Validated, Attempted, LoopFrom, Join;
    ghost var s := Start(chain.Value(), startingAttempt, previousOpen);
    ghost var result := LoopFrom(team, recipe, s, maxAttempts);
    var attempts: nat := if startingAttempt == 0 then 0 else startingAttempt - 1;
    var attemptsThisCycle := 0;
    var validation := NotRunYet();
    var openFindingIds := previousOpen;
    var previousFindings: seq<Finding> := [];
    var delta := Delta(openFindingIds, [], []);
    events := [];
    JoinNothing(result);
    while attemptsThisCycle < maxAttempts
      invariant attemptsThisCycle <= maxAttempts && attemptsThisCycle == |events|
      invariant s == LoopState(chain.Value(), attempts, Carried(openFindingIds, previousFindings), delta, validation)
      invariant result == Join(events, LoopFrom(team, recipe, s, maxAttempts - attemptsThisCycle))
      decreases maxAttempts - attemptsThisCycle
    {
      TurnDone(team, recipe, s, events, maxAttempts - attemptsThisCycle);
      AttemptedFacts(team, recipe, s);
      ghost var before := s;
      var event, snapshot := RunAttempt(chain, team, recipe, s, attempts, openFindingIds, previousFindings);
      s := Attempted(team, recipe, before).1;
      attempts := attempts + 1;
      attemptsThisCycle := attemptsThisCycle + 1;
      validation := event.validation;
      delta := event.delta;
      previousFindings := validation.findings;
      openFindingIds := delta.open;
      events := events + [event];
      if Aborts(validation) || validation.passed {
        report := Report(attempts, attemptsThisCycle, validation.passed, delta.open, delta.fixed, validation);
        return;
      }
      if attemptsThisCycle < maxAttempts {
        if snapshot.Some? {
          var _ := chain.Revert(snapshot.value);
        }
        s := Rewound(recipe, before, s);
      }
    }
    Finished(team, recipe, s, events);
    report := Report(attempts, attemptsThisCycle, validation.passed, delta.open, delta.fixed, validation);
  }

  lemma AttemptedFacts(team: Team, recipe: Recipe, s: LoopState)
    ensures var (event, after) := Attempted(team, recipe, s);
            && event.number == after.attempts == s.attempts + 1
            && event.start == s.chain.world && event.end == after.chain
            && event.taken == (if Snapshots(recipe) then TakeSnapshot(s.chain) else s.chain)
            && event.end == PerformAll(event.taken, event.ops)
            && after.carried == Carried(event.delta.open, event.validation.findings)
            && after.carried == Carry(s.carried, event.raw)
            && after.delta == event.delta && after.validation == event.validation
            && event.delta == ComputeDelta(s.carried.openIds, event.raw)
  {
    hide PerformAll, Validated;
  }

  // ---- whole runs -------------------------------------------------------------------------------

  lemma RewoundKeeps(recipe: Recipe, before: LoopState, after: LoopState)
    ensures Rewound(recipe, before, after).(chain := after.chain) == after
  {
  }

  /** Numbered `first`, `first + 1`, ... */
  ghost predicate Consecutive(events: seq<Event>, first: nat) {
    forall i :: 0 <= i < |events| ==> events[i].number == first + i
  }

  lemma ConsecutiveMore(event: Event, rest: seq<Event>)
    requires Consecutive(rest, event.number + 1)
    ensures Consecutive([event] + rest, event.number)
  {
  }

  /** Attempts are numbered without gaps, within the budget. */
  lemma {:induction false} NumbersAreConsecutive(team: Team, recipe: Recipe, s: LoopState, budget: nat)
    ensures var (events, final) := LoopFrom(team, recipe, s, budget);
            && |events| <= budget && (budget > 0 ==> events != []) && final.attempts == s.attempts + |events|
            && Consecutive(events, s.attempts + 1)
    decreases budget
  {
    hide *;
    LoopEmpty(team, recipe, s);
    NoneIsConsecutive(s.attempts + 1);
    if budget > 0 {
      LoopStep(team, recipe, s, budget);
      AttemptedFacts(team, recipe, s);
      var (event, after) := Attempted(team, recipe, s);
      var next := Rewound(recipe, s, after);
      RewoundKeeps(recipe, s, after);
      NumbersAreConsecutive(team, recipe, next, budget - 1);
      ConsecutiveMore(event, LoopFrom(team, recipe, next, budget - 1).0);
      OneIsConsecutive(event);
    }
  }

  lemma NoneIsConsecutive(first: nat)
    ensures Consecutive([], first)
  {
  }

  lemma OneIsConsecutive(event: Event)
    ensures Consecutive([event], event.number)
  {
  }

  /** A pass, or an evaluation that is put down to the validator, ends a run. */
  ghost predicate Ends(v: Validation) {
    v.passed || (v.evaluation.Some? && v.evaluation.value.infrastructure)
  }

  lemma StopsIsEnds(v: Validation)
    ensures Stops(v) <==> Ends(v)
  {
  }

  /** Only the last attempt can pass or abort, and when it does neither the budget is spent. Nothing
      happens to the chain after it: on all three exits the chain is what that attempt left. */
  lemma {:induction false} OnlyTheLastEnds(team: Team, recipe: Recipe, s: LoopState, budget: nat)
    requires budget > 0
    ensures var (events, final) := LoopFrom(team, recipe, s, budget);
            && events != []
            && (forall i :: 0 <= i < |events| - 1 ==> !Ends(events[i].validation))
            && (var last := events[|events| - 1];
                && final.chain == last.end && final.validation == last.validation
                && final.delta == last.delta
                && (Ends(last.validation) || |events| == budget))
    decreases budget
  {
    hide *;
    StopsIsEnds(Attempted(team, recipe, s).1.validation);
    LoopStep(team, recipe, s, budget);
    AttemptedFacts(team, recipe, s);
    var (event, after) := Attempted(team, recipe, s);
    if !Stops(after.validation) && budget > 1 {
      OnlyTheLastEnds(team, recipe, Rewound(recipe, s, after), budget - 1);
    }
  }

  /** Somebody other than the harness reverted to the attempt's snapshot, or past it. */
  ghost predicate Undermined(e: Event) {
    e.taken.nextSnapshot > 0 && Undercut(e.taken, e.ops, e.taken.nextSnapshot - 1)
  }

  /** The chain contents the attempt after `e` begins on. */
  ghost function StartAfter(recipe: Recipe, e: Event): World {
    if recipe.chainValidation.Some? && recipe.snapshotPerAttempt && !Undermined(e) then e.start else e.end.world
  }

  lemma RewoundStart(team: Team, recipe: Recipe, s: LoopState)
    requires Snapshots(recipe) ==> IdsAreSpent(s.chain)
    ensures var (event, after) := Attempted(team, recipe, s);
            && (Snapshots(recipe) ==> IdsAreSpent(Rewound(recipe, s, after).chain))
            && Rewound(recipe, s, after).chain.world == StartAfter(recipe, event)
  {
    AttemptedFacts(team, recipe, s);
    if Snapshots(recipe) {
      var event := Attempted(team, recipe, s).0;
      RevertRestores(s.chain, event.ops);
      assert event.taken.nextSnapshot - 1 == s.chain.nextSnapshot;
      hide Attempted, PerformAll, Undercut;
    }
  }

  lemma {:induction false} FirstStart(team: Team, recipe: Recipe, s: LoopState, budget: nat)
    ensures var events := LoopFrom(team, recipe, s, budget).0;
            events != [] ==> events[0].start == s.chain.world
  {
    if budget > 0 {
      LoopStep(team, recipe, s, budget);
      AttemptedFacts(team, recipe, s);
    }
  }

  /** With a snapshot per attempt, the next attempt begins on the chain contents this one began on,
      whatever was done meanwhile, unless this attempt itself reverted to the harness's snapshot or an
      older one; then, and without snapshots always, it begins on what this one left. */
  lemma {:induction false} AttemptsStartAlike(team: Team, recipe: Recipe, s: LoopState, budget: nat)
    requires Snapshots(recipe) ==> IdsAreSpent(s.chain)
    ensures var events := LoopFrom(team, recipe, s, budget).0;
            forall i :: 0 <= i < |events| - 1 ==> events[i + 1].start == StartAfter(recipe, events[i])
    decreases budget
  {
    hide *;
    if budget > 1 {
      LoopStep(team, recipe, s, budget);
      RewoundStart(team, recipe, s);
      var (event, after) := Attempted(team, recipe, s);
      var next := Rewound(recipe, s, after);
      FirstStart(team, recipe, next, budget - 1);
      AttemptsStartAlike(team, recipe, next, budget - 1);
      var rest := LoopFrom(team, recipe, next, budget - 1).0;
      var events := LoopFrom(team, recipe, s, budget).0;
      forall i | 0 <= i < |events| - 1 ensures events[i + 1].start == StartAfter(recipe, events[i]) {
        if i > 0 { assert events[i] == rest[i - 1] && events[i + 1] == rest[i]; }
      }
    } else {
      NumbersAreConsecutive(team, recipe, s, budget);
    }
  }

  /** So when no attempt does that, every attempt of the run begins on the same contents. */
  lemma {:induction false} AllStartTheSame(team: Team, recipe: Recipe, s: LoopState, budget: nat, i: nat)
    requires Snapshots(recipe) && IdsAreSpent(s.chain)
    ensures var events := LoopFrom(team, recipe, s, budget).0;
            i < |events| && (forall j :: 0 <= j < i ==> !Undermined(events[j])) ==> events[i].start == s.chain.world
  {
    hide LoopFrom, Undermined, IdsAreSpent;
    var events := LoopFrom(team, recipe, s, budget).0;
    if i == 0 {
      FirstStart(team, recipe, s, budget);
    } else {
      AllStartTheSame(team, recipe, s, budget, i - 1);
      AttemptsStartAlike(team, recipe, s, budget);
      assert i < |events| ==> events[i - 1 + 1].start == StartAfter(recipe, events[i - 1]);
    }
  }

  /** A team whose agent reverts to the newest snapshot and changes the chain, and never passes. */
  function Meddling(team: Team, other: World): Team {
    var ops := (c: Chained) => if c.nextSnapshot == 0 then [] else [Revert(c.nextSnapshot - 1), Change(other)];
    team.(generate := (attempt, c) => Generated(ops(c), None),
          gates := (attempt, c) => ([], [Finding("files:missing", Files, "", None, None)]))
  }

  lemma UndercutChain(c: Chained, other: World)
    ensures var end := PerformAll(TakeSnapshot(c), [Revert(c.nextSnapshot), Change(other)]);
            RevertTo(end, c.nextSnapshot) == end && end.world == other
  {
    var id, taken := c.nextSnapshot, TakeSnapshot(c);
    var ops := [Revert(id), Change(other)];
    assert ops[..1] == [Revert(id)] && ops[..1][..0] == [];
    assert PerformAll(taken, ops[..1]) == RevertTo(taken, id);
    assert PerformAll(taken, ops) == RevertTo(taken, id).(world := other);
  }

  lemma MeddlingAttempt(team: Team, recipe: Recipe, s: LoopState, other: World)
    requires Snapshots(recipe)
    ensures var (event, after) := Attempted(Meddling(team, other), recipe, s);
            && !Stops(after.validation) && event.start == s.chain.world
            && Rewound(recipe, s, after).chain.world == other
  {
    var meddling := Meddling(team, other);
    var number, taken, mark := s.attempts + 1, TakeSnapshot(s.chain), MarkOf(s.chain.world);
    var ops := [Revert(s.chain.nextSnapshot), Change(other)];
    assert meddling.generate(number, taken) == Generated(ops, None);
    var c := PerformAll(taken, ops);
    var missing := Finding("files:missing", Files, "", None, None);
    assert meddling.gates(number, c).1 == [missing] && GenerateFinding(number, None) + [missing] == [missing];
    assert [missing][0].category != Agent;
    assert Validated(meddling, recipe, number, c, mark, GenerateFinding(number, None)).0 == [];
    assert ops + [] == ops;
    UndercutChain(s.chain, other);
    hide PerformAll, ComputeDelta, Closed, Opened;
  }

  /** An agent that reverts to the snapshot itself and then goes on makes the harness's revert fail:
      on any chain there is a run whose second attempt does not begin where the first did. */
  lemma SnapshotsCanBeUndercut(team: Team, recipe: Recipe, s: LoopState, other: World)
    requires Snapshots(recipe)
    ensures var events := LoopFrom(Meddling(team, other), recipe, s, 2).0;
            |events| == 2 && events[0].start == s.chain.world && events[1].start == other
  {
    hide *;
    var meddling := Meddling(team, other);
    LoopStep(meddling, recipe, s, 2);
    MeddlingAttempt(team, recipe, s, other);
    var next := Rewound(recipe, s, Attempted(meddling, recipe, s).1);
    LoopStep(meddling, recipe, next, 1);
    MeddlingAttempt(team, recipe, next, other);
  }

  // ---- what the reported ledger holds -----------------------------------------------------------

  /** The ledger of an attempt is that of the chain after the first `n` of its operations. */
  ghost predicate LedgerTakenAt(e: Event, n: nat) {
    LedgerAfter(e.taken, e.ops, MarkOf(e.start), e.validation.ledger, n)
  }

  lemma LedgerIsTaken(team: Team, recipe: Recipe, s: LoopState) returns (n: nat)
    ensures LedgerTakenAt(Attempted(team, recipe, s).0, n)
  {
    hide *;
    AttemptedParts(team, recipe, s);
    var e := Attempted(team, recipe, s).0;
    var taken := if Snapshots(recipe) then TakeSnapshot(s.chain) else s.chain;
    var generated := team.generate(s.attempts + 1, taken);
    n := LedgerOfParts(team, recipe, s.attempts + 1, taken, generated, MarkOf(s.chain.world), e.validation.ledger);
    LedgerIsTakenAt(e, n);
  }

  lemma LedgerOfParts(team: Team, recipe: Recipe, number: nat, taken: Chained, generated: Generated, mark: Mark,
                      ledger: Option<seq<Entry>>) returns (n: nat)
    requires var v := Validated(team, recipe, number, PerformAll(taken, generated.ops), mark,
                                GenerateFinding(number, generated.failure)).1;
             v.ledger == ledger
    ensures var ops := Validated(team, recipe, number, PerformAll(taken, generated.ops), mark,
                                 GenerateFinding(number, generated.failure)).0;
            LedgerAfter(taken, generated.ops + ops, mark, ledger, n)
  {
    hide *;
    var c, found := PerformAll(taken, generated.ops), GenerateFinding(number, generated.failure);
    var m := LedgerIsOfAPoint(team, recipe, number, c, mark, found);
    var ops := Validated(team, recipe, number, c, mark, found).0;
    LedgerAmong(taken, generated.ops, ops, [], mark, ledger, m);
    assert generated.ops + ops + [] == generated.ops + ops;
    n := |generated.ops| + m;
  }

  lemma LedgerIsTakenAt(e: Event, n: nat)
    ensures LedgerTakenAt(e, n) <==> LedgerAfter(e.taken, e.ops, MarkOf(e.start), e.validation.ledger, n)
  {
  }

  lemma AttemptedParts(team: Team, recipe: Recipe, s: LoopState)
    ensures var taken := if Snapshots(recipe) then TakeSnapshot(s.chain) else s.chain;
            var generated := team.generate(s.attempts + 1, taken);
            var (ops, v) := Validated(team, recipe, s.attempts + 1, PerformAll(taken, generated.ops),
                                      MarkOf(s.chain.world), GenerateFinding(s.attempts + 1, generated.failure));
            var e := Attempted(team, recipe, s).0;
            && e.taken == taken && e.start == s.chain.world && e.ops == generated.ops + ops
            && e.validation.ledger == v.ledger
  {
    hide PerformAll, Validated, ComputeDelta, Closed, Opened, GenerateFinding, MarkOf, TakeSnapshot;
  }

  /** The operations up to that point, the attempt's own snapshot included. */
  function OpsUpTo(recipe: Recipe, e: Event, n: nat): seq<Op>
    requires n <= |e.ops|
  {
    (if Snapshots(recipe) then [Snapshot] else []) + e.ops[..n]
  }

  lemma OpsFromTheStart(team: Team, recipe: Recipe, s: LoopState, n: nat)
    requires n <= |Attempted(team, recipe, s).0.ops|
    ensures var e := Attempted(team, recipe, s).0;
            PerformAll(s.chain, OpsUpTo(recipe, e, n)) == PerformAll(e.taken, e.ops[..n])
  {
    AttemptedFacts(team, recipe, s);
    var e := Attempted(team, recipe, s).0;
    hide Attempted;
    if Snapshots(recipe) {
      PerformBoth(s.chain, [Snapshot], e.ops[..n]);
      assert [Snapshot][..0] == [];
      assert PerformAll(s.chain, [Snapshot]) == TakeSnapshot(s.chain);
    } else {
      assert [] + e.ops[..n] == e.ops[..n];
    }
  }

  /** When what was done in an attempt up to that point was steps, snapshots and reverts, the ledger it
      reports is that of the chain they leave, made of exactly what of them still stands, if and only if
      the mark holds; and it does unless one of the reverts went back past the start of the attempt. */
  lemma ReportedLedgerStands(team: Team, recipe: Recipe, s: LoopState, n: nat, acts: seq<Act>)
    requires Ancestral(s.chain)
    requires var e := Attempted(team, recipe, s).0;
             LedgerTakenAt(e, n) && AsOps(s.chain, acts) == OpsUpTo(recipe, e, n)
    ensures var e := Attempted(team, recipe, s).0;
            var w, stand := AllActed(s.chain, acts).world, TimelineOf(s.chain, acts).now;
            && (e.validation.ledger.Some? ==> e.validation.ledger.value == EntriesSince(w, MarkOf(e.start)))
            && (Listing(w, MarkOf(e.start)) == StandingOf(stand) <==> MarkHolds(e.start, stand))
            && (!RevertsPast(s.chain, acts) ==> stand.base == e.start && MarkHolds(e.start, stand))
  {
    AttemptedFacts(team, recipe, s);
    OpsFromTheStart(team, recipe, s, n);
    OpsAreActs(s.chain, acts);
    LedgerIsWhatStands(s.chain, acts);
    hide Attempted, PerformAll, AsOps, AllActed, TimelineOf, Listing, StandingOf, MarkHolds, EntriesSince, Reached,
      RevertsPast, Ancestral, OldContents;
    if !RevertsPast(s.chain, acts) { MarkStaysValid(s.chain, acts); }
  }

  // ---- what the report says ---------------------------------------------------------------------

  /** What failed in the attempt before this one, or in the session when there was none. */
  ghost predicate FailedBefore(events: seq<Event>, i: nat, previousOpen: seq<string>, id: string)
    requires i < |events|
  {
    if i == 0 then id in previousOpen else Names(events[i - 1].raw, id)
  }

  /** Every id that fails in `raw`, once, in the order they first do. */
  ghost predicate ListsFailing(ids: seq<string>, raw: seq<Finding>) {
    && (forall id :: id in ids <==> Names(raw, id))
    && (forall i, j :: 0 <= i < j < |ids| ==> FirstAt(raw, ids[i]) < FirstAt(raw, ids[j]))
  }

  /** The report is that of the last attempt: open is what fails in it, fixed is what failed before it and
      does not, and the rest is its own. A run without attempts reports that it did not run, with what was
      open still open. */
  ghost predicate ReportSays(report: Report, events: seq<Event>, startingAttempt: nat, budget: nat,
                             previousOpen: seq<string>)
  {
    if budget == 0 then
      && events == [] && !report.passed && report.attemptsThisCycle == 0
      && report.attempts == (if startingAttempt == 0 then 0 else startingAttempt - 1)
      && report.openFindingIds == previousOpen && report.fixedFindingIds == []
      && report.validation.evaluation == None && report.validation.ledger == None
      && |report.validation.findings| == 1 && report.validation.findings[0].id == "generator-not-run"
      && report.validation.findings[0].category == Agent && report.validation.findings[0].status == Some(Open)
    else
      && events != []
      && (var n := |events| - 1;
          var last := events[n];
          && ListsFailing(report.openFindingIds, last.raw)
          && (forall id :: id in report.fixedFindingIds
                           <==> FailedBefore(events, n, previousOpen, id) && !Names(last.raw, id))
          && report.validation == last.validation && report.passed == last.validation.passed
          && report.attempts == last.number && report.attemptsThisCycle == |events|)
  }

  function OpenBefore(events: seq<Event>, i: nat, previousOpen: seq<string>): seq<string>
    requires i < |events|
  {
    if i == 0 then previousOpen else Ids(events[i - 1].raw)
  }

  /** Every attempt is compared with what failed in the one before it. */
  ghost predicate Compared(events: seq<Event>, previousOpen: seq<string>) {
    forall i :: 0 <= i < |events| ==>
      events[i].delta == ComputeDelta(OpenBefore(events, i, previousOpen), events[i].raw)
  }

  lemma ComparedMore(event: Event, rest: seq<Event>, previousOpen: seq<string>)
    requires event.delta == ComputeDelta(previousOpen, event.raw) && Compared(rest, Ids(event.raw))
    ensures Compared([event] + rest, previousOpen)
  {
    var events := [event] + rest;
    hide ComputeDelta, Ids;
    assert events[0] == event;
    forall i | 0 <= i < |events|
      ensures events[i].delta == ComputeDelta(OpenBefore(events, i, previousOpen), events[i].raw)
    {
      if i > 0 {
        assert events[i] == rest[i - 1];
        assert OpenBefore(events, i, previousOpen) == OpenBefore(rest, i - 1, Ids(event.raw));
      }
    }
  }

  lemma NoneCompared(previousOpen: seq<string>)
    ensures Compared([], previousOpen)
  {
  }

  lemma OpenIsIds(previousOpen: seq<string>, raw: seq<Finding>)
    ensures ComputeDelta(previousOpen, raw).open == Ids(raw)
  {
  }

  lemma {:induction false} RunCompares(team: Team, recipe: Recipe, s: LoopState, budget: nat)
    ensures Compared(LoopFrom(team, recipe, s, budget).0, s.carried.openIds)
    decreases budget
  {
    hide *;
    LoopEmpty(team, recipe, s);
    NoneCompared(s.carried.openIds);
    if budget > 0 {
      LoopStep(team, recipe, s, budget);
      AttemptedFacts(team, recipe, s);
      var (event, after) := Attempted(team, recipe, s);
      OpenIsIds(s.carried.openIds, event.raw);
      NoneCompared(Ids(event.raw));
      ComparedMore(event, [], s.carried.openIds);
      assert [event] + [] == [event];
      var next := Rewound(recipe, s, after);
      RewoundKeeps(recipe, s, after);
      RunCompares(team, recipe, next, budget - 1);
      if !Stops(after.validation) && budget > 1 {
        ComparedMore(event, LoopFrom(team, recipe, next, budget - 1).0, s.carried.openIds);
      }
    }
  }

  lemma IdsListFailing(raw: seq<Finding>)
    ensures ListsFailing(Ids(raw), raw)
  {
    forall id ensures id in Ids(raw) <==> Names(raw, id) { IdsAreNames(raw, id); }
    hide Ids;
    forall i, j | 0 <= i < j < |Ids(raw)| ensures FirstAt(raw, Ids(raw)[i]) < FirstAt(raw, Ids(raw)[j]) {
      IdsInOrder(raw, i, j);
    }
  }

  /** What a comparison says, of the ids alone. */
  lemma DeltaSays(previousOpen: seq<string>, raw: seq<Finding>)
    ensures var d := ComputeDelta(previousOpen, raw);
            ListsFailing(d.open, raw) && forall id :: id in d.fixed <==> id in previousOpen && !Names(raw, id)
  {
    IdsListFailing(raw);
    forall id ensures id in ComputeDelta(previousOpen, raw).fixed <==> id in previousOpen && !Names(raw, id) {
      WithoutIsDifference(previousOpen, Ids(raw), id);
      IdsAreNames(raw, id);
    }
    hide Ids, Without, ListsFailing;
  }

  lemma LastDeltaSays(events: seq<Event>, previousOpen: seq<string>)
    requires Compared(events, previousOpen) && events != []
    ensures var n := |events| - 1;
            var last := events[n];
            && ListsFailing(last.delta.open, last.raw)
            && forall id :: id in last.delta.fixed
                            <==> FailedBefore(events, n, previousOpen, id) && !Names(last.raw, id)
  {
    var n := |events| - 1;
    var before := OpenBefore(events, n, previousOpen);
    DeltaSays(before, events[n].raw);
    assert events[n].delta == ComputeDelta(before, events[n].raw);
    assert forall id :: id in before <==> FailedBefore(events, n, previousOpen, id) by {
      if n > 0 { IdsListFailing(events[n - 1].raw); }
    }
    hide ComputeDelta, Ids, ListsFailing, FailedBefore, Compared;
  }

  lemma ReportIsOfTheLast(team: Team, recipe: Recipe, chain: Chained, startingAttempt: nat, budget: nat,
                          previousOpen: seq<string>)
    ensures var (events, final) := LoopFrom(team, recipe, Start(chain, startingAttempt, previousOpen), budget);
            ReportSays(ReportOf(events, final), events, startingAttempt, budget, previousOpen)
  {
    var s := Start(chain, startingAttempt, previousOpen);
    LoopEmpty(team, recipe, s);
    hide LoopFrom, ListsFailing, FailedBefore, Compared, Stops;
    if budget > 0 {
      RunCompares(team, recipe, s, budget);
      NumbersAreConsecutive(team, recipe, s, budget);
      OnlyTheLastEnds(team, recipe, s, budget);
      LastDeltaSays(LoopFrom(team, recipe, s, budget).0, previousOpen);
    }
  }

  function Raws(events: seq<Event>): (r: seq<seq<Finding>>)
    ensures |r| == |events| && forall i | 0 <= i < |r| :: r[i] == events[i].raw
  {
    seq(|events|, i requires 0 <= i < |events| => events[i].raw)
  }

  lemma RawsMore(event: Event, rest: seq<Event>)
    ensures Raws([event] + rest) == [event.raw] + Raws(rest)
  {
  }

  /** What the loop carries is the lifecycle over its attempts' findings, so `FixedOnce` and
      `FixedAgainOnlyIfReopened` speak of whole runs. */
  lemma {:induction false} RunCarries(team: Team, recipe: Recipe, s: LoopState, budget: nat)
    ensures var (events, final) := LoopFrom(team, recipe, s, budget);
            final.carried == CarryAll(s.carried, Raws(events))
    decreases budget
  {
    hide *;
    LoopEmpty(team, recipe, s);
    CarryNothing(s.carried);
    if budget > 0 {
      LoopStep(team, recipe, s, budget);
      AttemptedFacts(team, recipe, s);
      var (event, after) := Attempted(team, recipe, s);
      CarryNothing(after.carried);
      if Stops(after.validation) || budget == 1 {
        RawsMore(event, []);
        CarryFirst(s.carried, event.raw, []);
        assert [event] + [] == [event];
      } else {
        var next := Rewound(recipe, s, after);
        RewoundKeeps(recipe, s, after);
        RunCarries(team, recipe, next, budget - 1);
        var rest := LoopFrom(team, recipe, next, budget - 1).0;
        RawsMore(event, rest);
        CarryFirst(s.carried, event.raw, Raws(rest));
      }
    }
  }

  lemma CarryNothing(c: Carried)
    ensures Raws([]) == [] && CarryAll(c, []) == c
  {
  }

  lemma AttemptedIsStamped(team: Team, recipe: Recipe, s: LoopState)
    ensures var number := s.attempts + 1;
            var taken := if Snapshots(recipe) then TakeSnapshot(s.chain) else s.chain;
            var generated := team.generate(number, taken);
            var raw := Validated(team, recipe, number, PerformAll(taken, generated.ops), MarkOf(s.chain.world),
                                 GenerateFinding(number, generated.failure)).1;
            Attempted(team, recipe, s).0.validation
            == Stamped(raw, ComputeDelta(s.carried.openIds, raw.findings), s.carried.previous)
  {
    hide Validated, PerformAll, ComputeDelta, Stamped, GenerateFinding, TakeSnapshot, MarkOf;
  }

  lemma StampKeepsVerdict(raw: Validation, delta: Delta, previous: seq<Finding>)
    requires raw.passed <==> AllAgent(raw.findings)
    ensures var v := Stamped(raw, delta, previous);
            && v.passed == raw.passed && v.evaluation == raw.evaluation
            && (v.passed <==> forall i | 0 <= i < |v.findings| :: IsOpen(v.findings[i]) ==>
                                                                  v.findings[i].category == Agent)
  {
    ClosedAreFixed(previous, delta.fixed);
    OpenFindings(raw.findings, Closed(previous, delta.fixed));
    hide Closed, Opened, AllAgent, IsOpen;
  }

  /** The verdict an attempt is recorded with: passed exactly when every finding still open is the
      agent's own, and then nothing was aborted. */
  lemma RecordedVerdict(team: Team, recipe: Recipe, s: LoopState)
    ensures var v := Attempted(team, recipe, s).0.validation;
            && (v.passed <==> forall i | 0 <= i < |v.findings| :: IsOpen(v.findings[i]) ==>
                                                                  v.findings[i].category == Agent)
            && (Aborts(v) ==> !v.passed)
  {
    hide PerformAll, Validated, Attempted, ComputeDelta, Stamped, GenerateFinding, AllAgent, IsOpen, TakeSnapshot,
      MarkOf;
    var number := s.attempts + 1;
    var taken := if Snapshots(recipe) then TakeSnapshot(s.chain) else s.chain;
    var generated := team.generate(number, taken);
    var c := PerformAll(taken, generated.ops);
    PassedMeansOnlyAgent(team, recipe, number, c, MarkOf(s.chain.world), generated.failure);
    var raw := Validated(team, recipe, number, c, MarkOf(s.chain.world),
                         GenerateFinding(number, generated.failure)).1;
    AttemptedIsStamped(team, recipe, s);
    StampKeepsVerdict(raw, ComputeDelta(s.carried.openIds, raw.findings), s.carried.previous);
  }

  lemma OpenFindings(raw: seq<Finding>, closed: seq<Finding>)
    requires forall i | 0 <= i < |closed| :: !IsOpen(closed[i])
    ensures var all := Opened(raw) + closed;
            (forall i | 0 <= i < |all| :: IsOpen(all[i]) ==> all[i].category == Agent) <==> AllAgent(raw)
  {
    var all := Opened(raw) + closed;
    assert forall i :: 0 <= i < |raw| ==> all[i] == Opened(raw)[i] && all[i].category == raw[i].category;
    assert forall i :: |raw| <= i < |all| ==> all[i] == closed[i - |raw|];
  }

  lemma {:induction false} ClosedAreFixed(previous: seq<Finding>, fixed: seq<string>)
    ensures forall i | 0 <= i < |Closed(previous, fixed)| :: !IsOpen(Closed(previous, fixed)[i])
  {
    if previous != [] { ClosedAreFixed(previous[..|previous| - 1], fixed); }
  }
}
