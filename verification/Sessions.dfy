/** The slice loop of `src/harness/run.rs` and the session file of `src/harness/session.rs`. A run is a
    start and any number of continues; every one of them may be cut off between two writes of the
    session file. */
module Sessions {
  import opened Wrappers
  import opened Text
  import opened State
  import opened ChainStage
  import opened Attempt
  import opened AttemptLoop
  import Artifacts

  datatype Gate = GatePending | GatePassed | GateFailed | GateAborted

  /** The fields of `session.json` that carry a run from one kick to the next. */
  datatype Session = Session(cycle: nat, lastAttempt: nat, gate: Gate, sliceIndex: Option<nat>,
                             openFindingIds: Option<seq<string>>)

  datatype SliceReport = SliceReport(index: nat, passed: bool, attempts: nat, openFindingIds: seq<string>)

  /** One `update_session`. */
  datatype Write =
    | Continued
    | Checkpoint(attempt: nat, passed: bool)
    | SliceEnded(report: SliceReport)
    | Finished(attempts: nat, cycle: nat, openFindingIds: seq<string>, gate: Gate)

  function Fresh(): Session {
    Session(0, 0, GatePending, None, None)
  }

  function Saved(s: Session, w: Write): Session {
    match w
    case Continued => s.(cycle := s.cycle + 1, gate := GatePending)
    case Checkpoint(attempt, passed) =>
      s.(lastAttempt := attempt, gate := if passed then GatePassed else GateFailed)
    case SliceEnded(report) => s.(sliceIndex := Some(report.index))
    case Finished(attempts, cycle, open, gate) =>
      s.(lastAttempt := attempts, cycle := cycle, openFindingIds := Some(open), gate := gate)
  }

  function SaveAll(s: Session, writes: seq<Write>): Session {
    if writes == [] then s else Saved(SaveAll(s, writes[..|writes| - 1]), writes[|writes| - 1])
  }

  // ---- the slice loop ---------------------------------------------------------------------------

  /** One invocation of the program: the spec, the chain it finds, and the attempt budget. */
  datatype Kick = Kick(team: Team, recipe: Recipe, maxAttempts: nat, sliceCount: nat)

  datatype Driven = Driven(writes: seq<Write>, slices: seq<SliceReport>, last: Option<Report>, chain: Chained)

  function Checkpoints(events: seq<Event>): (r: seq<Write>)
    ensures |r| == |events|
    ensures forall i | 0 <= i < |r| :: r[i] == Checkpoint(events[i].number, events[i].validation.passed)
  {
    seq(|events|, i requires 0 <= i < |events| => Checkpoint(events[i].number, events[i].validation.passed))
  }

  function SliceOf(index: nat, report: Report): SliceReport {
    SliceReport(index, report.passed, report.attemptsThisCycle, report.openFindingIds)
  }

  /** One slice: its attempts' checkpoints, then its own write. */
  function Slice(kick: Kick, index: nat, cursor: nat, chain: Chained, open: seq<string>)
    : (seq<Write>, Report, Chained)
  {
    var (events, final) := LoopFrom(kick.team, kick.recipe, Start(chain, cursor, open), kick.maxAttempts);
    var report := ReportOf(events, final);
    (Checkpoints(events) + [SliceEnded(SliceOf(index, report))], report, final.chain)
  }

  /** What has been done, then what is still to do. */
  function Join(writes: seq<Write>, slices: seq<SliceReport>, last: Option<Report>, rest: Driven): Driven {
    Driven(writes + rest.writes, slices + rest.slices, if rest.last.Some? then rest.last else last, rest.chain)
  }

  /** Slices from `index` on, stopping at the first that is not delivered. */
  function SlicesFrom(kick: Kick, index: nat, cursor: nat, chain: Chained, open: seq<string>): Driven
    decreases kick.sliceCount - index
  {
    if index >= kick.sliceCount then Driven([], [], None, chain)
    else
      var (writes, report, left) := Slice(kick, index, cursor, chain, open);
      var slice := SliceOf(index, report);
      if !report.passed then Driven(writes, [slice], Some(report), left)
      else Join(writes, [slice], Some(report), SlicesFrom(kick, index + 1, report.attempts + 1, left, []))
  }

  lemma SliceFacts(kick: Kick, index: nat, cursor: nat, chain: Chained, open: seq<string>)
    returns (events: seq<Event>)
    requires cursor > 0
    ensures var (writes, report, left) := Slice(kick, index, cursor, chain, open);
            && writes == Checkpoints(events) + [SliceEnded(SliceOf(index, report))]
            && Consecutive(events, cursor) && |events| <= kick.maxAttempts
            && report.attempts == cursor - 1 + |events| && report.attemptsThisCycle == |events|
            && SliceOf(index, report).index == index && SliceOf(index, report).passed == report.passed
            && SliceOf(index, report).attempts <= kick.maxAttempts
  {
    var s := Start(chain, cursor, open);
    assert s.attempts == cursor - 1;
    events := LoopFrom(kick.team, kick.recipe, s, kick.maxAttempts).0;
    hide LoopFrom, Start, Consecutive;
    NumbersAreConsecutive(kick.team, kick.recipe, s, kick.maxAttempts);
  }

  lemma JoinParts(writes: seq<Write>, slices: seq<SliceReport>, last: Option<Report>, rest: Driven)
    ensures var d := Join(writes, slices, last, rest);
            && d.writes == writes + rest.writes && d.slices == slices + rest.slices
            && d.last == (if rest.last.Some? then rest.last else last) && d.chain == rest.chain
  {
  }

  lemma SlicesStep(kick: Kick, index: nat, cursor: nat, chain: Chained, open: seq<string>)
    ensures SlicesFrom(kick, index, cursor, chain, open)
         == if index >= kick.sliceCount then Driven([], [], None, chain)
            else (var (writes, report, left) := Slice(kick, index, cursor, chain, open);
                  var slice := SliceOf(index, report);
                  if !report.passed then Driven(writes, [slice], Some(report), left)
                  else Join(writes, [slice], Some(report),
                            SlicesFrom(kick, index + 1, report.attempts + 1, left, [])))
  {
    hide Slice, Join, SliceOf;
  }

  function FirstSlice(s: Session, isContinue: bool, count: nat): nat {
    var index := if s.sliceIndex.Some? then s.sliceIndex.value else 0;
    var last := if count == 0 then 0 else count - 1;
    if !isContinue then 0 else if index < last then index else last
  }

  predicate AllPassed(slices: seq<SliceReport>) {
    forall i | 0 <= i < |slices| :: slices[i].passed
  }

  function GateOf(passed: bool, report: Report): Gate {
    if passed then GatePassed else if Aborts(report.validation) then GateAborted else GateFailed
  }

  /** What `drive` does with a prepared session: its writes, and the run's verdict; no verdict when
      there is no slice to run. */
  function Drove(kick: Kick, chain: Chained, s: Session, isContinue: bool): (seq<Write>, Option<bool>) {
    var d := SlicesFrom(kick, FirstSlice(s, isContinue, kick.sliceCount), s.lastAttempt + 1, chain,
                        if s.openFindingIds.Some? then s.openFindingIds.value else []);
    match d.last
    case None => (d.writes, None)
    case Some(report) =>
      var passed := AllPassed(d.slices);
      (d.writes + [Finished(report.attempts, s.cycle, report.openFindingIds, GateOf(passed, report))],
       Some(passed))
  }

  /** The slice loop of `drive`. */
  method Drive(chain: Chain, kick: Kick, session: Session, isContinue: bool)
    returns (writes: seq<Write>, verdict: Option<bool>)
    modifies chain
    ensures (writes, verdict) == Drove(kick, old(chain.Value()), session, isContinue)
  {
    hide LoopFrom, Saved, AllPassed, GateOf, Start, FirstSlice, SliceOf, SlicesFrom, Join;
    DroveParts(kick, chain.Value(), session, isContinue);
    var firstSlice := FirstSlice(session, isContinue, kick.sliceCount);
    var slices: seq<SliceReport> := [];
    var attemptCursor: nat := session.lastAttempt + 1;
    var last: Option<Report> := None;
    var sliceIndex := firstSlice;
    var open := if session.openFindingIds.Some? then session.openFindingIds.value else [];
    writes := [];
    ghost var whole := SlicesFrom(kick, firstSlice, attemptCursor, chain.Value(), open);
    Joins(whole);
    var stopped := false;
    while !stopped && sliceIndex < kick.sliceCount
      invariant stopped ==> whole.writes == writes && whole.slices == slices && whole.last == last
      invariant !stopped ==>
        whole == Join(writes, slices, last, SlicesFrom(kick, sliceIndex, attemptCursor, chain.Value(), open))
      decreases !stopped, kick.sliceCount - sliceIndex
    {
      ghost var before := chain.Value();
      SlicesStep(kick, sliceIndex, attemptCursor, before, open);
      var events, report := RunLoop(chain, kick.team, kick.recipe, attemptCursor, kick.maxAttempts, open);
      var ended := Checkpoints(events) + [SliceEnded(SliceOf(sliceIndex, report))];
      assert (ended, report, chain.Value()) == Slice(kick, sliceIndex, attemptCursor, before, open);
      if report.passed {
        JoinsTwice(writes, slices, last, ended, SliceOf(sliceIndex, report), report,
                   SlicesFrom(kick, sliceIndex + 1, report.attempts + 1, chain.Value(), []));
      } else {
        JoinParts(writes, slices, last, Driven(ended, [SliceOf(sliceIndex, report)], Some(report), chain.Value()));
      }
      writes := writes + ended;
      slices := slices + [SliceOf(sliceIndex, report)];
      attemptCursor := report.attempts + 1;
      last := Some(report);
      open := [];
      if !report.passed { stopped := true; }
      sliceIndex := sliceIndex + 1;
    }
    if !stopped {
      SlicesStep(kick, sliceIndex, attemptCursor, chain.Value(), open);
      JoinsNothing(writes, slices, last, chain.Value());
    }
    if last.None? { return writes, None; }
    var passed := AllPassed(slices);
    writes := writes + [Finished(last.value.attempts, session.cycle, last.value.openFindingIds,
                                 GateOf(passed, last.value))];
    verdict := Some(passed);
  }

  lemma Joins(d: Driven)
    ensures Join([], [], None, d) == d
  {
  }

  lemma JoinsNothing(writes: seq<Write>, slices: seq<SliceReport>, last: Option<Report>, chain: Chained)
    ensures Join(writes, slices, last, Driven([], [], None, chain)) == Driven(writes, slices, last, chain)
  {
  }

  lemma JoinsTwice(writes: seq<Write>, slices: seq<SliceReport>, last: Option<Report>,
                   more: seq<Write>, slice: SliceReport, report: Report, rest: Driven)
    ensures Join(writes, slices, last, Join(more, [slice], Some(report), rest))
         == Join(writes + more, slices + [slice], Some(report), rest)
  {
  }

  // ---- one kick ---------------------------------------------------------------------------------

  function Remaining(kick: Kick, index: nat): nat {
    if index < kick.sliceCount then kick.sliceCount - index else 0
  }

  ghost predicate SlicesFollow(slices: seq<SliceReport>, index: nat, maxAttempts: nat) {
    forall i :: 0 <= i < |slices| ==>
      && slices[i].index == index + i && slices[i].attempts <= maxAttempts
      && (i < |slices| - 1 ==> slices[i].passed)
  }

  lemma SlicesFollowMore(slice: SliceReport, rest: seq<SliceReport>, maxAttempts: nat)
    requires SlicesFollow(rest, slice.index + 1, maxAttempts)
    requires slice.attempts <= maxAttempts && (rest != [] ==> slice.passed)
    ensures SlicesFollow([slice] + rest, slice.index, maxAttempts)
    ensures AllPassed([slice] + rest) <==> slice.passed && AllPassed(rest)
  {
    AllPassedMore(slice, rest);
  }

  lemma AllPassedMore(slice: SliceReport, rest: seq<SliceReport>)
    ensures AllPassed([slice] + rest) <==> slice.passed && AllPassed(rest)
  {
    var all := [slice] + rest;
    if AllPassed(all) {
      assert all[0].passed;
      forall i | 0 <= i < |rest| ensures rest[i].passed { assert all[i + 1] == rest[i]; }
    }
  }

  lemma RemainingStep(kick: Kick, index: nat)
    ensures Remaining(kick, index) == if index < kick.sliceCount then Remaining(kick, index + 1) + 1 else 0
  {
  }

  /** Slices run in order from the first, each within the budget, and only the last can be undelivered;
      the run passes exactly when no remaining slice was left out and the last one passed too. */
  lemma {:induction false} SlicesInOrder(kick: Kick, index: nat, cursor: nat, chain: Chained, open: seq<string>)
    requires cursor > 0
    ensures var slices := SlicesFrom(kick, index, cursor, chain, open).slices;
            && SlicesFollow(slices, index, kick.maxAttempts)
            && |slices| <= Remaining(kick, index) && (Remaining(kick, index) > 0 ==> slices != [])
            && (AllPassed(slices) <==> |slices| == Remaining(kick, index)
                                       && (slices == [] || slices[|slices| - 1].passed))
    decreases kick.sliceCount - index
  {
    hide *;
    SlicesStep(kick, index, cursor, chain, open);
    RemainingStep(kick, index);
    NoSlices(kick.maxAttempts, index);
    if index < kick.sliceCount {
      var _ := SliceFacts(kick, index, cursor, chain, open);
      var (writes, report, left) := Slice(kick, index, cursor, chain, open);
      var slice := SliceOf(index, report);
      if report.passed {
        SlicesInOrder(kick, index + 1, report.attempts + 1, left, []);
        var rest := SlicesFrom(kick, index + 1, report.attempts + 1, left, []);
        JoinParts(writes, [slice], Some(report), rest);
        SlicesFollowMore(slice, rest.slices, kick.maxAttempts);
      } else {
        NoSlices(kick.maxAttempts, index + 1);
        SlicesFollowMore(slice, [], kick.maxAttempts);
        assert [slice] + [] == [slice];
      }
    }
  }

  lemma NoSlices(maxAttempts: nat, index: nat)
    ensures SlicesFollow([], index, maxAttempts) && AllPassed([])
  {
  }

  // ---- attempt numbers over a whole history -----------------------------------------------------

  /** The attempts checkpointed, in order. */
  function NumbersOf(writes: seq<Write>): seq<nat> {
    if writes == [] then []
    else
      var last := writes[|writes| - 1];
      NumbersOf(writes[..|writes| - 1]) + (if last.Checkpoint? then [last.attempt] else [])
  }

  /** Each checkpoint is numbered one past what was recorded before it; the closing write agrees. */
  ghost predicate Numbered(writes: seq<Write>, from: nat) {
    writes == []
    || (var earlier, last := writes[..|writes| - 1], writes[|writes| - 1];
        var reached := from + |NumbersOf(earlier)|;
        && Numbered(earlier, from)
        && (last.Checkpoint? ==> last.attempt == reached + 1)
        && (last.Finished? ==> last.attempts == reached))
  }

  lemma {:induction false} NumberedMeans(writes: seq<Write>, from: nat)
    requires Numbered(writes, from)
    ensures forall i :: 0 <= i < |NumbersOf(writes)| ==> NumbersOf(writes)[i] == from + 1 + i
  {
    if writes != [] { NumberedMeans(writes[..|writes| - 1], from); }
  }

  lemma {:induction false} NumberedPrefix(writes: seq<Write>, from: nat, cut: nat)
    requires Numbered(writes, from) && cut <= |writes|
    ensures Numbered(writes[..cut], from)
  {
    if cut < |writes| {
      NumberedPrefix(writes[..|writes| - 1], from, cut);
      assert writes[..|writes| - 1][..cut] == writes[..cut];
    } else {
      assert writes[..cut] == writes;
    }
  }

  lemma {:induction false} NumberedBoth(a: seq<Write>, b: seq<Write>, from: nat)
    requires Numbered(a, from) && Numbered(b, from + |NumbersOf(a)|)
    ensures Numbered(a + b, from) && |NumbersOf(a + b)| == |NumbersOf(a)| + |NumbersOf(b)|
  {
    if b == [] {
      assert a + b == a;
    } else {
      NumberedBoth(a, b[..|b| - 1], from);
      assert (a + b)[..|a + b| - 1] == a + b[..|b| - 1];
    }
  }

  lemma {:induction false} CheckpointsAreNumbered(events: seq<Event>, from: nat)
    requires Consecutive(events, from + 1)
    ensures Numbered(Checkpoints(events), from) && |NumbersOf(Checkpoints(events))| == |events|
  {
    if events != [] {
      var earlier := events[..|events| - 1];
      CheckpointsAreNumbered(earlier, from);
      assert Checkpoints(events)[..|events| - 1] == Checkpoints(earlier);
    }
  }

  lemma SliceIsNumbered(kick: Kick, index: nat, from: nat, chain: Chained, open: seq<string>)
    ensures var (writes, report, _) := Slice(kick, index, from + 1, chain, open);
            Numbered(writes, from) && report.attempts == from + |NumbersOf(writes)|
  {
    hide Slice, Consecutive;
    var events := SliceFacts(kick, index, from + 1, chain, open);
    var report := Slice(kick, index, from + 1, chain, open).1;
    CheckpointsAreNumbered(events, from);
    var ended := [SliceEnded(SliceOf(index, report))];
    assert ended[..0] == [];
    NumberedBoth(Checkpoints(events), ended, from);
  }

  lemma {:induction false} SlicesAreNumbered(kick: Kick, index: nat, from: nat, chain: Chained, open: seq<string>)
    ensures var d := SlicesFrom(kick, index, from + 1, chain, open);
            && Numbered(d.writes, from)
            && (d.last.Some? ==> d.last.value.attempts == from + |NumbersOf(d.writes)|)
            && (d.last.None? ==> d.writes == [])
    decreases kick.sliceCount - index
  {
    hide *;
    SlicesStep(kick, index, from + 1, chain, open);
    NoneNumbered(from);
    if index < kick.sliceCount {
      SliceIsNumbered(kick, index, from, chain, open);
      var (writes, report, left) := Slice(kick, index, from + 1, chain, open);
      if report.passed {
        SlicesAreNumbered(kick, index + 1, report.attempts, left, []);
        var rest := SlicesFrom(kick, index + 1, report.attempts + 1, left, []);
        JoinParts(writes, [SliceOf(index, report)], Some(report), rest);
        NumberedBoth(writes, rest.writes, from);
        NoneNumbered(report.attempts);
        assert writes + [] == writes;
      }
    }
  }

  lemma NoneNumbered(from: nat)
    ensures Numbered([], from) && NumbersOf([]) == []
  {
  }

  lemma DroveParts(kick: Kick, chain: Chained, s: Session, isContinue: bool)
    ensures var open := if s.openFindingIds.Some? then s.openFindingIds.value else [];
            var d := SlicesFrom(kick, FirstSlice(s, isContinue, kick.sliceCount), s.lastAttempt + 1, chain, open);
            Drove(kick, chain, s, isContinue)
            == (match d.last
                case None => (d.writes, None)
                case Some(report) =>
                  (d.writes + [Finished(report.attempts, s.cycle, report.openFindingIds,
                                        GateOf(AllPassed(d.slices), report))],
                   Some(AllPassed(d.slices))))
  {
    hide SlicesFrom, FirstSlice, AllPassed, GateOf;
  }

  lemma ClosingIsNumbered(writes: seq<Write>, from: nat, closing: Write)
    requires Numbered(writes, from) && closing.Finished? && closing.attempts == from + |NumbersOf(writes)|
    ensures Numbered(writes + [closing], from)
  {
  }

  lemma DriveIsNumbered(kick: Kick, chain: Chained, s: Session, isContinue: bool)
    ensures Numbered(Drove(kick, chain, s, isContinue).0, s.lastAttempt)
  {
    hide *;
    DroveParts(kick, chain, s, isContinue);
    var first := FirstSlice(s, isContinue, kick.sliceCount);
    var open := if s.openFindingIds.Some? then s.openFindingIds.value else [];
    SlicesAreNumbered(kick, first, s.lastAttempt, chain, open);
    var d := SlicesFrom(kick, first, s.lastAttempt + 1, chain, open);
    if d.last.Some? {
      var report := d.last.value;
      ClosingIsNumbered(d.writes, s.lastAttempt,
                        Finished(report.attempts, s.cycle, report.openFindingIds,
                                 GateOf(AllPassed(d.slices), report)));
    }
  }

  lemma {:induction false} SavedAttempt(s: Session, writes: seq<Write>)
    requires Numbered(writes, s.lastAttempt)
    ensures SaveAll(s, writes).lastAttempt == s.lastAttempt + |NumbersOf(writes)|
  {
    if writes != [] { SavedAttempt(s, writes[..|writes| - 1]); }
  }

  // ---- histories --------------------------------------------------------------------------------

  /** A kick, the chain it found, and how many of its session writes were made before it was cut off. */
  datatype Cycle = Cycle(kick: Kick, chain: Chained, cut: nat)

  /** Everything a kick writes; a continue first stamps the session. */
  function WritesOf(s: Session, isContinue: bool, c: Cycle): seq<Write> {
    if isContinue then [Continued] + Drove(c.kick, c.chain, Saved(s, Continued), true).0
    else Drove(c.kick, c.chain, s, false).0
  }

  function Persisted(s: Session, isContinue: bool, c: Cycle): seq<Write> {
    var writes := WritesOf(s, isContinue, c);
    if c.cut <= |writes| then writes[..c.cut] else writes
  }

  /** A start, then continues: the session file at the end, and every write that reached it. */
  function After(cycles: seq<Cycle>): (Session, seq<Write>) {
    if cycles == [] then (Fresh(), [])
    else
      var (s, writes) := After(cycles[..|cycles| - 1]);
      var more := Persisted(s, |cycles| > 1, cycles[|cycles| - 1]);
      (SaveAll(s, more), writes + more)
  }

  lemma WritesAreNumbered(s: Session, isContinue: bool, c: Cycle)
    ensures Numbered(WritesOf(s, isContinue, c), s.lastAttempt)
  {
    hide Drove;
    if isContinue {
      DriveIsNumbered(c.kick, c.chain, Saved(s, Continued), true);
      assert Numbered([Continued], s.lastAttempt) && NumbersOf([Continued]) == [] by {
        assert [Continued][..0] == [];
      }
      NumberedBoth([Continued], Drove(c.kick, c.chain, Saved(s, Continued), true).0, s.lastAttempt);
    } else {
      DriveIsNumbered(c.kick, c.chain, s, false);
    }
  }

  /** Checkpointed attempts are numbered 1, 2, 3, ... without a gap or a repeat, across retries, slices
      and continues, however many kicks were cut off and wherever. */
  lemma {:induction false} AttemptsAreGapFree(cycles: seq<Cycle>)
    ensures var (s, writes) := After(cycles);
            && s.lastAttempt == |NumbersOf(writes)|
            && Numbered(writes, 0)
            && forall i :: 0 <= i < |NumbersOf(writes)| ==> NumbersOf(writes)[i] == i + 1
  {
    hide *;
    AfterStep(cycles);
    NoneNumbered(0);
    if cycles != [] {
      var (s, before) := After(cycles[..|cycles| - 1]);
      AttemptsAreGapFree(cycles[..|cycles| - 1]);
      var more := Persisted(s, |cycles| > 1, cycles[|cycles| - 1]);
      PersistedIsNumbered(s, |cycles| > 1, cycles[|cycles| - 1]);
      NumberedBoth(before, more, 0);
      SavedAttempt(s, more);
    }
    NumberedMeans(After(cycles).1, 0);
  }

  lemma AfterStep(cycles: seq<Cycle>)
    ensures if cycles == [] then After(cycles).0.lastAttempt == 0 && After(cycles).1 == []
            else (var (s, writes) := After(cycles[..|cycles| - 1]);
                  var more := Persisted(s, |cycles| > 1, cycles[|cycles| - 1]);
                  After(cycles) == (SaveAll(s, more), writes + more))
  {
    hide Persisted, SaveAll;
  }

  /** A kick may be cut off after any of its writes. */
  lemma PersistedIsCut(s: Session, isContinue: bool, c: Cycle)
    ensures Persisted(s, isContinue, c) <= WritesOf(s, isContinue, c)
    ensures |Persisted(s, isContinue, c)| == if c.cut < |WritesOf(s, isContinue, c)| then c.cut
                                             else |WritesOf(s, isContinue, c)|
  {
    hide WritesOf;
  }

  lemma PersistedIsNumbered(s: Session, isContinue: bool, c: Cycle)
    ensures Numbered(Persisted(s, isContinue, c), s.lastAttempt)
  {
    WritesAreNumbered(s, isContinue, c);
    hide WritesOf, Numbered;
    if c.cut <= |WritesOf(s, isContinue, c)| { NumberedPrefix(WritesOf(s, isContinue, c), s.lastAttempt, c.cut); }
  }

  // ---- delivered slices -------------------------------------------------------------------------

  /** Slices that passed. */
  function Delivered(writes: seq<Write>): set<nat> {
    if writes == [] then {}
    else
      var last := writes[|writes| - 1];
      Delivered(writes[..|writes| - 1])
      + (if last.SliceEnded? && last.report.passed then {last.report.index} else {})
  }

  ghost predicate AllBelow(n: nat, slices: set<nat>) {
    forall j: nat :: j < n ==> j in slices
  }

  /** No slice ends before every slice below it has been delivered. */
  ghost predicate NoneSkipped(writes: seq<Write>, before: set<nat>) {
    writes == []
    || (var earlier, last := writes[..|writes| - 1], writes[|writes| - 1];
        && NoneSkipped(earlier, before)
        && (last.SliceEnded? ==> AllBelow(last.report.index, before + Delivered(earlier))))
  }

  lemma {:induction false} NoneSkippedPrefix(writes: seq<Write>, before: set<nat>, cut: nat)
    requires NoneSkipped(writes, before) && cut <= |writes|
    ensures NoneSkipped(writes[..cut], before)
  {
    if cut < |writes| {
      NoneSkippedPrefix(writes[..|writes| - 1], before, cut);
      assert writes[..|writes| - 1][..cut] == writes[..cut];
    } else {
      assert writes[..cut] == writes;
    }
  }

  lemma {:induction false} NoneSkippedBoth(a: seq<Write>, b: seq<Write>, before: set<nat>)
    requires NoneSkipped(a, before) && NoneSkipped(b, before + Delivered(a))
    ensures NoneSkipped(a + b, before) && Delivered(a + b) == Delivered(a) + Delivered(b)
  {
    if b == [] {
      assert a + b == a;
    } else {
      NoneSkippedBoth(a, b[..|b| - 1], before);
      assert (a + b)[..|a + b| - 1] == a + b[..|b| - 1];
      assert before + Delivered(a + b[..|b| - 1]) == (before + Delivered(a)) + Delivered(b[..|b| - 1]);
    }
  }

  lemma {:induction false} NoSlicesEnd(writes: seq<Write>, before: set<nat>)
    requires forall i :: 0 <= i < |writes| ==> !writes[i].SliceEnded?
    ensures NoneSkipped(writes, before) && Delivered(writes) == {}
  {
    if writes != [] { NoSlicesEnd(writes[..|writes| - 1], before); }
  }

  lemma SliceSkipsNone(kick: Kick, index: nat, cursor: nat, chain: Chained, open: seq<string>, before: set<nat>)
    requires AllBelow(index, before)
    ensures var (writes, report, _) := Slice(kick, index, cursor, chain, open);
            NoneSkipped(writes, before) && Delivered(writes) == if report.passed then {index} else {}
  {
    hide LoopFrom;
    var (events, final) := LoopFrom(kick.team, kick.recipe, Start(chain, cursor, open), kick.maxAttempts);
    var checkpoints := Checkpoints(events);
    NoSlicesEnd(checkpoints, before);
    var ended := SliceEnded(SliceOf(index, ReportOf(events, final)));
    assert (checkpoints + [ended])[..|checkpoints|] == checkpoints;
  }

  lemma {:induction false} SlicesSkipNone(kick: Kick, index: nat, cursor: nat, chain: Chained, open: seq<string>,
                                          before: set<nat>)
    requires AllBelow(index, before)
    ensures var d := SlicesFrom(kick, index, cursor, chain, open);
            && NoneSkipped(d.writes, before)
            && (AllPassed(d.slices) ==> AllBelow(kick.sliceCount, before + Delivered(d.writes)))
    decreases kick.sliceCount - index
  {
    hide *;
    SlicesStep(kick, index, cursor, chain, open);
    NoneSkippedYet(before);
    if index < kick.sliceCount {
      SliceSkipsNone(kick, index, cursor, chain, open, before);
      var (writes, report, left) := Slice(kick, index, cursor, chain, open);
      var slice := SliceOf(index, report);
      SliceOfPassed(index, report);
      if report.passed {
        OneMoreBelow(index, before);
        SlicesSkipNone(kick, index + 1, report.attempts + 1, left, [], before + {index});
        var rest := SlicesFrom(kick, index + 1, report.attempts + 1, left, []);
        JoinParts(writes, [slice], Some(report), rest);
        NoneSkippedBoth(writes, rest.writes, before);
        AllPassedMore(slice, rest.slices);
        assert before + (Delivered(writes) + Delivered(rest.writes)) == (before + {index}) + Delivered(rest.writes);
      } else {
        AllPassedMore(slice, []);
        assert [slice] + [] == [slice];
      }
    } else {
      FewerBelow(kick.sliceCount, index, before);
      assert before + {} == before;
    }
  }

  lemma NoneSkippedYet(before: set<nat>)
    ensures NoneSkipped([], before) && Delivered([]) == {}
  {
  }

  lemma SliceOfPassed(index: nat, report: Report)
    ensures SliceOf(index, report).passed == report.passed
  {
  }

  lemma OneMoreBelow(n: nat, slices: set<nat>)
    requires AllBelow(n, slices)
    ensures AllBelow(n + 1, slices + {n})
  {
  }

  lemma FewerBelow(m: nat, n: nat, slices: set<nat>)
    requires AllBelow(n, slices) && m <= n
    ensures AllBelow(m, slices)
  {
  }

  lemma BelowGrows(n: nat, slices: set<nat>, more: set<nat>)
    requires AllBelow(n, slices) && slices <= more
    ensures AllBelow(n, more)
  {
  }

  lemma {:induction false} SavedSlice(s: Session, writes: seq<Write>, before: set<nat>)
    requires NoneSkipped(writes, before)
    requires s.sliceIndex.Some? ==> AllBelow(s.sliceIndex.value, before)
    ensures var after := SaveAll(s, writes);
            after.sliceIndex.Some? ==> AllBelow(after.sliceIndex.value, before + Delivered(writes))
  {
    if writes == [] {
      assert before + Delivered(writes) == before;
    } else {
      var earlier, last := writes[..|writes| - 1], writes[|writes| - 1];
      SavedSlice(s, earlier, before);
      var reached := if last.SliceEnded? then last.report.index
                     else if SaveAll(s, earlier).sliceIndex.Some? then SaveAll(s, earlier).sliceIndex.value else 0;
      BelowGrows(reached, before + Delivered(earlier), before + Delivered(writes));
    }
  }

  lemma DriveSkipsNone(kick: Kick, chain: Chained, s: Session, isContinue: bool, before: set<nat>)
    requires s.sliceIndex.Some? ==> AllBelow(s.sliceIndex.value, before)
    ensures var (writes, verdict) := Drove(kick, chain, s, isContinue);
            && NoneSkipped(writes, before)
            && (verdict == Some(true) ==> AllBelow(kick.sliceCount, before + Delivered(writes)))
  {
    hide *;
    DroveParts(kick, chain, s, isContinue);
    var first := FirstSlice(s, isContinue, kick.sliceCount);
    var open := if s.openFindingIds.Some? then s.openFindingIds.value else [];
    FirstIsDelivered(s, isContinue, kick.sliceCount, before);
    SlicesSkipNone(kick, first, s.lastAttempt + 1, chain, open, before);
    var d := SlicesFrom(kick, first, s.lastAttempt + 1, chain, open);
    if d.last.Some? {
      var report := d.last.value;
      ClosingSkipsNone(d.writes, before, Finished(report.attempts, s.cycle, report.openFindingIds,
                                                  GateOf(AllPassed(d.slices), report)));
    }
  }

  lemma FirstIsDelivered(s: Session, isContinue: bool, count: nat, before: set<nat>)
    requires s.sliceIndex.Some? ==> AllBelow(s.sliceIndex.value, before)
    ensures AllBelow(FirstSlice(s, isContinue, count), before)
  {
  }

  lemma ClosingSkipsNone(writes: seq<Write>, before: set<nat>, closing: Write)
    requires NoneSkipped(writes, before) && closing.Finished?
    ensures NoneSkipped(writes + [closing], before) && Delivered(writes + [closing]) == Delivered(writes)
  {
  }

  lemma WritesSkipNone(s: Session, isContinue: bool, c: Cycle, before: set<nat>)
    requires s.sliceIndex.Some? ==> AllBelow(s.sliceIndex.value, before)
    ensures NoneSkipped(WritesOf(s, isContinue, c), before)
    ensures Verdict(s, isContinue, c) == Some(true) ==>
              AllBelow(c.kick.sliceCount, before + Delivered(WritesOf(s, isContinue, c)))
  {
    hide Drove, AllBelow;
    if isContinue {
      var stamped := Saved(s, Continued);
      DriveSkipsNone(c.kick, c.chain, stamped, true, before);
      NoSlicesEnd([Continued], before);
      assert before + Delivered([Continued]) == before;
      var writes := Drove(c.kick, c.chain, stamped, true).0;
      NoneSkippedBoth([Continued], writes, before);
      assert {} + Delivered(writes) == Delivered(writes);
    } else {
      DriveSkipsNone(c.kick, c.chain, s, false, before);
    }
  }

  /** What a kick reports when it is not cut off. */
  function Verdict(s: Session, isContinue: bool, c: Cycle): Option<bool> {
    Drove(c.kick, c.chain, if isContinue then Saved(s, Continued) else s, isContinue).1
  }

  lemma {:induction false} RecordedSlicesAreDelivered(cycles: seq<Cycle>)
    ensures var (s, writes) := After(cycles);
            s.sliceIndex.Some? ==> AllBelow(s.sliceIndex.value, Delivered(writes))
  {
    if cycles != [] {
      hide Persisted, AllBelow, NoneSkipped, Delivered;
      RecordedSlicesAreDelivered(cycles[..|cycles| - 1]);
      var (s, writes) := After(cycles[..|cycles| - 1]);
      var last := cycles[|cycles| - 1];
      PersistedSkipsNone(s, |cycles| > 1, last, Delivered(writes));
      SavedSlice(s, Persisted(s, |cycles| > 1, last), Delivered(writes));
      DeliveredBoth(writes, Persisted(s, |cycles| > 1, last));
    }
  }

  lemma PersistedSkipsNone(s: Session, isContinue: bool, c: Cycle, before: set<nat>)
    requires s.sliceIndex.Some? ==> AllBelow(s.sliceIndex.value, before)
    ensures NoneSkipped(Persisted(s, isContinue, c), before)
  {
    WritesSkipNone(s, isContinue, c, before);
    hide WritesOf, NoneSkipped, AllBelow;
    if c.cut <= |WritesOf(s, isContinue, c)| { NoneSkippedPrefix(WritesOf(s, isContinue, c), before, c.cut); }
  }

  lemma {:induction false} DeliveredBoth(a: seq<Write>, b: seq<Write>)
    ensures Delivered(a + b) == Delivered(a) + Delivered(b)
  {
    if b == [] {
      assert a + b == a;
    } else {
      DeliveredBoth(a, b[..|b| - 1]);
      assert (a + b)[..|a + b| - 1] == a + b[..|b| - 1];
    }
  }

  /** A kick that reports a pass completes the whole recipe: every slice has been delivered, in this
      kick or in one before it, though a continue runs only from the recorded slice on. */
  lemma PassedRunsDeliverEverything(cycles: seq<Cycle>)
    requires cycles != []
    ensures var (s, _) := After(cycles[..|cycles| - 1]);
            var last := cycles[|cycles| - 1];
            && last.cut >= |WritesOf(s, |cycles| > 1, last)|
            && Verdict(s, |cycles| > 1, last) == Some(true)
            ==> AllBelow(last.kick.sliceCount, Delivered(After(cycles).1))
  {
    hide WritesOf, Delivered, AllBelow, Verdict, NoneSkipped, SaveAll;
    RecordedSlicesAreDelivered(cycles[..|cycles| - 1]);
    var (s, writes) := After(cycles[..|cycles| - 1]);
    var last := cycles[|cycles| - 1];
    WritesSkipNone(s, |cycles| > 1, last, Delivered(writes));
    var all := WritesOf(s, |cycles| > 1, last);
    assert all[..|all|] == all;
    DeliveredBoth(writes, Persisted(s, |cycles| > 1, last));
  }

  // ---- finding the session again ----------------------------------------------------------------

  /** `find_matching_session`, over the sessions that match: newest first by `startedAt`, then the
      first of the list. */
  function NewestSession<T>(sessions: seq<(string, T)>): Option<(string, T)> {
    if sessions == [] then None
    else match NewestSession(sessions[1..])
      case None => Some(sessions[0])
      case Some(best) => if Less(sessions[0].0, best.0) then Some(best) else Some(sessions[0])
  }

  lemma {:induction false} NewestSessionIsGreatest<T>(sessions: seq<(string, T)>)
    ensures match NewestSession(sessions)
            case None => sessions == []
            case Some(best) => best in sessions && forall s <- sessions :: !Less(best.0, s.0)
  {
    if sessions != [] {
      NewestSessionIsGreatest(sessions[1..]);
      assert sessions == [sessions[0]] + sessions[1..];
      LessIrreflexive(sessions[0].0);
      match NewestSession(sessions[1..])
      case None =>
      case Some(best) =>
        if Less(sessions[0].0, best.0) {
          LessAsymmetric(sessions[0].0, best.0);
        } else {
          forall s | s in sessions[1..] ensures !Less(sessions[0].0, s.0) {
            LessTotal(sessions[0].0, best.0);
            LessTotal(best.0, s.0);
            if Less(sessions[0].0, s.0) && Less(best.0, sessions[0].0) { LessTransitive(best.0, sessions[0].0, s.0); }
          }
        }
    }
  }

  /** The session continued is one no other matching session was started after. */
  lemma NewestSessionIsNewest(started: seq<Artifacts.Instant>) returns (k: nat)
    requires started != [] && forall i | 0 <= i < |started| :: Artifacts.Printable(started[i])
    ensures k < |started|
    ensures NewestSession(seq(|started|, i requires 0 <= i < |started| => (Artifacts.Iso8601(started[i]), i)))
         == Some((Artifacts.Iso8601(started[k]), k))
    ensures forall i | 0 <= i < |started| :: !Artifacts.Before(started[k], started[i])
  {
    var sessions := seq(|started|, i requires 0 <= i < |started| => (Artifacts.Iso8601(started[i]), i));
    NewestSessionIsGreatest(sessions);
    var best := NewestSession(sessions).value;
    k := best.1;
    forall i | 0 <= i < |started| ensures !Artifacts.Before(started[k], started[i]) {
      assert sessions[i] in sessions;
      Artifacts.TimestampsSort(started[k], started[i]);
    }
  }
}
