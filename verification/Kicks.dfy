/** One kick of the program, slice by slice: where it starts, what each slice is given, and what the session
    file says afterwards; `drive` of `src/harness/run.rs` without the functions that compute it. */
module Kicks {
  import opened Wrappers
  import opened State
  import opened Attempt
  import opened AttemptLoop
  import opened Sessions

  /** One slice as it ran. */
  datatype Leg = Leg(index: nat, cursor: nat, handed: seq<string>, before: Chained, events: seq<Event>,
                     report: Report, left: Chained)

  /** The loop over attempts, from the leg's cursor, on the chain and the findings handed to it. */
  ghost predicate Ran(kick: Kick, leg: Leg) {
    var (events, final) := LoopFrom(kick.team, kick.recipe, Start(leg.before, leg.cursor, leg.handed),
                                    kick.maxAttempts);
    leg.cursor > 0 && leg.events == events && leg.report == ReportOf(events, final) && leg.left == final.chain
  }

  /** A later leg takes up where the one before ended, and only after a pass; no findings are handed on. */
  ghost predicate Follows(earlier: Leg, later: Leg) {
    && earlier.report.passed && later.index == earlier.index + 1
    && later.cursor == earlier.cursor + |earlier.events| && later.before == earlier.left && later.handed == []
  }

  /** Legs in order up to the first that fails or the last slice. */
  ghost predicate Legs(kick: Kick, legs: seq<Leg>) {
    && legs != []
    && (forall i :: 0 <= i < |legs| ==> Ran(kick, legs[i]))
    && (forall i :: 0 <= i < |legs| - 1 ==> Follows(legs[i], legs[i + 1]))
    && var last := legs[|legs| - 1];
       last.index < kick.sliceCount && (last.report.passed ==> last.index + 1 == kick.sliceCount)
  }

  function Attempts(events: seq<Event>): seq<Write> {
    if events == [] then []
    else [Checkpoint(events[0].number, events[0].validation.passed)] + Attempts(events[1..])
  }

  function LegReport(leg: Leg): SliceReport {
    SliceReport(leg.index, leg.report.passed, |leg.events|, leg.report.openFindingIds)
  }

  /** Every attempt is checkpointed, then the slice. */
  function LegWrites(leg: Leg): seq<Write> {
    Attempts(leg.events) + [SliceEnded(LegReport(leg))]
  }

  function AllWrites(legs: seq<Leg>): seq<Write> {
    if legs == [] then [] else LegWrites(legs[0]) + AllWrites(legs[1..])
  }

  /** A continue starts over with the slice it recorded, and with the last there is when the recipe got
      shorter; a start with the first. */
  ghost predicate StartsAt(s: Session, isContinue: bool, count: nat, index: nat) {
    if !isContinue || s.sliceIndex.None? then index == 0
    else if s.sliceIndex.value < count then index == s.sliceIndex.value
    else index == count - 1
  }

  predicate AllDelivered(legs: seq<Leg>) {
    forall i | 0 <= i < |legs| :: legs[i].report.passed
  }

  ghost predicate Closes(s: Session, legs: seq<Leg>, closing: Write)
    requires legs != []
  {
    var last := legs[|legs| - 1];
    && closing.Finished? && closing.cycle == s.cycle
    && closing.attempts == last.cursor - 1 + |last.events|
    && closing.openFindingIds == last.report.openFindingIds
    && closing.gate == (if AllDelivered(legs) then GatePassed
                        else if last.report.validation.evaluation.Some?
                                && last.report.validation.evaluation.value.infrastructure then GateAborted
                        else GateFailed)
  }

  // ---- that is how it goes ----------------------------------------------------------------------

  lemma {:induction false} AttemptsAre(events: seq<Event>)
    ensures Attempts(events) == Checkpoints(events)
  {
    if events != [] {
      AttemptsAre(events[1..]);
      assert Checkpoints(events) == [Checkpoint(events[0].number, events[0].validation.passed)]
                                    + Checkpoints(events[1..]);
    }
  }

  lemma SliceIsLeg(kick: Kick, index: nat, cursor: nat, chain: Chained, handed: seq<string>) returns (leg: Leg)
    requires cursor > 0
    ensures Ran(kick, leg) && leg.index == index && leg.cursor == cursor && leg.handed == handed && leg.before == chain
    ensures Slice(kick, index, cursor, chain, handed) == (LegWrites(leg), leg.report, leg.left)
    ensures leg.report.attempts + 1 == cursor + |leg.events|
    ensures SliceOf(index, leg.report).passed == leg.report.passed
  {
    var s := Start(chain, cursor, handed);
    var (events, final) := LoopFrom(kick.team, kick.recipe, s, kick.maxAttempts);
    leg := Leg(index, cursor, handed, chain, events, ReportOf(events, final), final.chain);
    AttemptsAre(events);
    assert s.attempts == cursor - 1;
    hide LoopFrom, Start;
    NumbersAreConsecutive(kick.team, kick.recipe, s, kick.maxAttempts);
  }

  lemma RanCounts(kick: Kick, leg: Leg)
    requires Ran(kick, leg)
    ensures leg.report.attempts == leg.cursor - 1 + |leg.events|
  {
    var s := Start(leg.before, leg.cursor, leg.handed);
    assert s.attempts == leg.cursor - 1;
    hide LoopFrom, Start;
    NumbersAreConsecutive(kick.team, kick.recipe, s, kick.maxAttempts);
  }

  /** The legs, as the slice loop reports them. */
  ghost predicate Made(kick: Kick, d: Driven, legs: seq<Leg>) {
    && Legs(kick, legs) && d.writes == AllWrites(legs) && d.last == Some(legs[|legs| - 1].report)
    && (AllPassed(d.slices) <==> AllDelivered(legs))
  }

  ghost predicate Begins(legs: seq<Leg>, index: nat, cursor: nat, chain: Chained, handed: seq<string>) {
    && legs != [] && legs[0].index == index && legs[0].cursor == cursor && legs[0].before == chain
    && legs[0].handed == handed
  }

  lemma OneLeg(kick: Kick, leg: Leg, slice: SliceReport)
    requires Ran(kick, leg) && leg.index < kick.sliceCount && slice.passed == leg.report.passed
    requires leg.report.passed ==> leg.index + 1 == kick.sliceCount
    ensures Made(kick, Driven(LegWrites(leg), [slice], Some(leg.report), leg.left), [leg])
  {
    hide Ran, LegWrites;
    assert AllWrites([leg][1..]) == [] && AllWrites([leg]) == LegWrites(leg) + [];
    assert [slice][0].passed == [leg][0].report.passed;
  }

  lemma AllWritesMore(leg: Leg, rest: seq<Leg>)
    ensures AllWrites([leg] + rest) == LegWrites(leg) + AllWrites(rest)
    ensures AllDelivered([leg] + rest) <==> leg.report.passed && AllDelivered(rest)
  {
    hide LegWrites;
    var legs := [leg] + rest;
    assert legs[1..] == rest;
    if AllDelivered(legs) {
      assert legs[0].report.passed;
      forall i | 0 <= i < |rest| ensures rest[i].report.passed { assert legs[i + 1] == rest[i]; }
    }
  }

  lemma LegsMore(kick: Kick, leg: Leg, rest: seq<Leg>)
    requires Ran(kick, leg) && Legs(kick, rest) && Follows(leg, rest[0])
    ensures Legs(kick, [leg] + rest)
  {
    hide Ran, Follows;
    var legs := [leg] + rest;
    forall i | 0 <= i < |legs| - 1 ensures Follows(legs[i], legs[i + 1]) {
      if i > 0 { assert Follows(rest[i - 1], rest[i - 1 + 1]) && legs[i] == rest[i - 1] && legs[i + 1] == rest[i]; }
    }
    forall i | 0 <= i < |legs| ensures Ran(kick, legs[i]) {
      if i > 0 { assert Ran(kick, rest[i - 1]) && legs[i] == rest[i - 1]; }
    }
    assert legs[|legs| - 1] == rest[|rest| - 1];
  }

  lemma MoreMade(kick: Kick, leg: Leg, slice: SliceReport, d: Driven, rest: seq<Leg>)
    requires Ran(kick, leg) && slice.passed == leg.report.passed
    requires Made(kick, d, rest) && Follows(leg, rest[0])
    ensures Made(kick, Sessions.Join(LegWrites(leg), [slice], Some(leg.report), d), [leg] + rest)
  {
    LegsMore(kick, leg, rest);
    AllWritesMore(leg, rest);
    AllPassedMore(slice, d.slices);
    hide Ran, LegWrites, Follows, Legs, AllWrites, AllPassed, AllDelivered;
  }

  lemma {:induction false} SlicesAreLegs(kick: Kick, index: nat, cursor: nat, chain: Chained, handed: seq<string>)
    returns (legs: seq<Leg>)
    requires cursor > 0 && index < kick.sliceCount
    ensures Made(kick, SlicesFrom(kick, index, cursor, chain, handed), legs)
    ensures Begins(legs, index, cursor, chain, handed)
    decreases kick.sliceCount - index
  {
    SlicesStep(kick, index, cursor, chain, handed);
    var leg := SliceIsLeg(kick, index, cursor, chain, handed);
    var slice := SliceOf(index, leg.report);
    hide *;
    BeginsWith(leg, index, cursor, chain, handed);
    if leg.report.passed && index + 1 < kick.sliceCount {
      var rest := SlicesAreLegs(kick, index + 1, leg.report.attempts + 1, leg.left, []);
      BeginsAfter(leg, rest);
      legs := [leg] + rest;
      MoreMade(kick, leg, slice, SlicesFrom(kick, index + 1, leg.report.attempts + 1, leg.left, []), rest);
    } else {
      legs := [leg];
      SlicesStep(kick, index + 1, leg.report.attempts + 1, leg.left, []);
      JoinsNothing(LegWrites(leg), [slice], Some(leg.report), leg.left);
      OneLeg(kick, leg, slice);
    }
  }

  lemma BeginsWith(leg: Leg, index: nat, cursor: nat, chain: Chained, handed: seq<string>)
    requires leg.index == index && leg.cursor == cursor && leg.before == chain && leg.handed == handed
    ensures forall rest :: Begins([leg] + rest, index, cursor, chain, handed)
    ensures Begins([leg], index, cursor, chain, handed)
  {
  }

  lemma BeginsAfter(leg: Leg, rest: seq<Leg>)
    requires leg.report.passed && leg.report.attempts + 1 == leg.cursor + |leg.events|
    requires Begins(rest, leg.index + 1, leg.report.attempts + 1, leg.left, [])
    ensures rest != [] && Follows(leg, rest[0])
  {
  }

  /** A kick over at least one slice. */
  lemma DroveIsLegs(kick: Kick, chain: Chained, s: Session, isContinue: bool) returns (legs: seq<Leg>, closing: Write)
    requires kick.sliceCount > 0
    ensures Legs(kick, legs) && Closes(s, legs, closing)
    ensures StartsAt(s, isContinue, kick.sliceCount, legs[0].index)
    ensures Begins(legs, legs[0].index, s.lastAttempt + 1, chain,
                   if s.openFindingIds.Some? then s.openFindingIds.value else [])
    ensures Drove(kick, chain, s, isContinue) == (AllWrites(legs) + [closing], Some(AllDelivered(legs)))
  {
    DroveParts(kick, chain, s, isContinue);
    var first := FirstSlice(s, isContinue, kick.sliceCount);
    FirstIs(s, isContinue, kick.sliceCount);
    var handed := if s.openFindingIds.Some? then s.openFindingIds.value else [];
    hide SlicesFrom, FirstSlice, StartsAt, AllPassed, AllWrites, LoopFrom, Drove, GateOf;
    legs := SlicesAreLegs(kick, first, s.lastAttempt + 1, chain, handed);
    var d := SlicesFrom(kick, first, s.lastAttempt + 1, chain, handed);
    closing := ClosingIs(kick, s, d, legs);
    hide Legs, Closes, Ran;
  }

  lemma FirstIs(s: Session, isContinue: bool, count: nat)
    requires count > 0
    ensures StartsAt(s, isContinue, count, FirstSlice(s, isContinue, count)) && FirstSlice(s, isContinue, count) < count
  {
  }

  lemma ClosingIs(kick: Kick, s: Session, d: Driven, legs: seq<Leg>) returns (closing: Write)
    requires Made(kick, d, legs)
    ensures closing == Finished(d.last.value.attempts, s.cycle, d.last.value.openFindingIds,
                                GateOf(AllPassed(d.slices), d.last.value))
    ensures Closes(s, legs, closing)
  {
    var last := legs[|legs| - 1];
    assert Ran(kick, last);
    RanCounts(kick, last);
    closing := Finished(last.report.attempts, s.cycle, last.report.openFindingIds,
                        GateOf(AllPassed(d.slices), last.report));
    hide Ran, AllWrites, AllPassed, AllDelivered;
  }

  /** A recipe without slices writes nothing and has no verdict. */
  lemma NoLegs(kick: Kick, chain: Chained, s: Session, isContinue: bool)
    requires kick.sliceCount == 0
    ensures Drove(kick, chain, s, isContinue) == ([], None)
  {
  }

  // ---- the slices a kick ends -------------------------------------------------------------------

  function EndedIn(writes: seq<Write>): seq<SliceReport> {
    if writes == [] then []
    else (if writes[0].SliceEnded? then [writes[0].report] else []) + EndedIn(writes[1..])
  }

  lemma {:induction false} EndedInBoth(a: seq<Write>, b: seq<Write>)
    ensures EndedIn(a + b) == EndedIn(a) + EndedIn(b)
  {
    if a == [] {
      assert a + b == b;
    } else {
      assert (a + b)[0] == a[0] && (a + b)[1..] == a[1..] + b;
      var first := if a[0].SliceEnded? then [a[0].report] else [];
      assert EndedIn(a + b) == first + EndedIn(a[1..] + b) && EndedIn(a) == first + EndedIn(a[1..]);
      hide EndedIn;
      EndedInBoth(a[1..], b);
    }
  }

  lemma {:induction false} AttemptsEndNothing(events: seq<Event>)
    ensures EndedIn(Attempts(events)) == []
  {
    if events != [] {
      AttemptsEndNothing(events[1..]);
      assert Attempts(events)[1..] == Attempts(events[1..]);
    }
  }

  lemma {:induction false} LegsEnd(legs: seq<Leg>)
    ensures var ended := EndedIn(AllWrites(legs));
            |ended| == |legs| && forall i :: 0 <= i < |legs| ==> ended[i].index == legs[i].index
  {
    if legs != [] {
      LegsEnd(legs[1..]);
      AttemptsEndNothing(legs[0].events);
      var report := LegReport(legs[0]);
      EndedInBoth(Attempts(legs[0].events), [SliceEnded(report)]);
      assert [SliceEnded(report)][1..] == [] && EndedIn([SliceEnded(report)]) == [report];
      EndedInBoth(LegWrites(legs[0]), AllWrites(legs[1..]));
      hide EndedIn, LegWrites;
    }
  }

  lemma {:induction false} LegIndices(kick: Kick, legs: seq<Leg>, i: nat)
    requires Legs(kick, legs) && i < |legs|
    ensures legs[i].index == legs[0].index + i
  {
    hide Ran;
    if i > 0 {
      LegIndices(kick, legs, i - 1);
      assert Follows(legs[i - 1], legs[i - 1 + 1]);
    }
  }

  /** A kick ends slices one after another: a continue from the recorded one on, a start from the first. */
  lemma SlicesEndInOrder(kick: Kick, chain: Chained, s: Session, isContinue: bool)
    requires kick.sliceCount > 0
    ensures var ended := EndedIn(Drove(kick, chain, s, isContinue).0);
            && ended != [] && StartsAt(s, isContinue, kick.sliceCount, ended[0].index)
            && forall i :: 0 <= i < |ended| ==> ended[i].index == ended[0].index + i
  {
    var legs, closing := DroveIsLegs(kick, chain, s, isContinue);
    assert legs != [];
    hide *;
    LegsEnd(legs);
    ClosingEndsNothing(AllWrites(legs), s, legs, closing);
    forall i | 0 <= i < |legs| ensures legs[i].index == legs[0].index + i { LegIndices(kick, legs, i); }
  }

  lemma ClosingEndsNothing(writes: seq<Write>, s: Session, legs: seq<Leg>, closing: Write)
    requires legs != [] && Closes(s, legs, closing)
    ensures EndedIn(writes + [closing]) == EndedIn(writes)
  {
    EndedInBoth(writes, [closing]);
    assert [closing][1..] == [] && EndedIn([closing]) == [];
  }

  // ---- what the session file keeps --------------------------------------------------------------

  /** The write sets the field, and none after it does. */
  ghost predicate LastToSet(writes: seq<Write>, sets: Write -> bool, i: nat) {
    i < |writes| && sets(writes[i]) && forall j :: i < j < |writes| ==> !sets(writes[j])
  }

  ghost predicate NoneSets(writes: seq<Write>, sets: Write -> bool) {
    forall i :: 0 <= i < |writes| ==> !sets(writes[i])
  }

  predicate SetsSlice(w: Write) { w.SliceEnded? }
  predicate SetsFindings(w: Write) { w.Finished? }
  predicate SetsAttempt(w: Write) { w.Checkpoint? || w.Finished? }
  predicate SetsGate(w: Write) { !w.SliceEnded? }
  predicate SetsCycle(w: Write) { w.Continued? || w.Finished? }

  /** What one write leaves in the field it sets. */
  ghost predicate HasSlice(s: Session, w: Write) {
    w.SliceEnded? ==> s.sliceIndex == Some(w.report.index)
  }

  ghost predicate HasFindings(s: Session, w: Write) {
    w.Finished? ==> s.openFindingIds == Some(w.openFindingIds)
  }

  ghost predicate HasAttempt(s: Session, w: Write) {
    (w.Checkpoint? ==> s.lastAttempt == w.attempt) && (w.Finished? ==> s.lastAttempt == w.attempts)
  }

  ghost predicate HasGate(s: Session, w: Write) {
    match w
    case Continued => s.gate == GatePending
    case Checkpoint(_, passed) => s.gate == if passed then GatePassed else GateFailed
    case SliceEnded(_) => true
    case Finished(_, _, _, gate) => s.gate == gate
  }

  /** A field that only some writes set keeps what the last of those left. */
  lemma {:induction false} FieldKept<T>(s: Session, writes: seq<Write>, sets: Write -> bool, field: Session -> T,
                                        i: nat)
    requires forall before, w :: !sets(w) ==> field(Saved(before, w)) == field(before)
    ensures NoneSets(writes, sets) ==> field(SaveAll(s, writes)) == field(s)
    ensures LastToSet(writes, sets, i) ==>
              field(SaveAll(s, writes)) == field(Saved(SaveAll(s, writes[..i]), writes[i]))
  {
    if writes != [] {
      var n := |writes| - 1;
      FieldKept(s, writes[..n], sets, field, i);
      assert i < n ==> writes[..n][..i] == writes[..i] && writes[..n][i] == writes[i];
      assert writes == writes[..n] + [writes[n]];
      SaveStep(s, writes[..n], writes[n]);
      hide SaveAll, Saved;
    }
  }

  /** Each field is what the last write to set it left there, and as it was when none did. */
  lemma SessionKeepsTheLast(s: Session, writes: seq<Write>, i: nat)
    ensures var after := SaveAll(s, writes);
            && (LastToSet(writes, SetsSlice, i) ==> HasSlice(after, writes[i]))
            && (LastToSet(writes, SetsFindings, i) ==> HasFindings(after, writes[i]))
            && (LastToSet(writes, SetsAttempt, i) ==> HasAttempt(after, writes[i]))
            && (LastToSet(writes, SetsGate, i) ==> HasGate(after, writes[i]))
            && (LastToSet(writes, SetsCycle, i) ==>
                  after.cycle == if writes[i].Finished? then writes[i].cycle else SaveAll(s, writes[..i]).cycle + 1)
    ensures var after := SaveAll(s, writes);
            && (NoneSets(writes, SetsSlice) ==> after.sliceIndex == s.sliceIndex)
            && (NoneSets(writes, SetsFindings) ==> after.openFindingIds == s.openFindingIds)
            && (NoneSets(writes, SetsAttempt) ==> after.lastAttempt == s.lastAttempt)
            && (NoneSets(writes, SetsGate) ==> after.gate == s.gate)
            && (NoneSets(writes, SetsCycle) ==> after.cycle == s.cycle)
  {
    FieldKept(s, writes, SetsSlice, (x: Session) => x.sliceIndex, i);
    FieldKept(s, writes, SetsFindings, (x: Session) => x.openFindingIds, i);
    FieldKept(s, writes, SetsAttempt, (x: Session) => x.lastAttempt, i);
    FieldKept(s, writes, SetsGate, (x: Session) => x.gate, i);
    FieldKept(s, writes, SetsCycle, (x: Session) => x.cycle, i);
    hide SaveAll, NoneSets;
  }

  /** A kick that is not cut off leaves the last slice's outcome in the session. */
  lemma SessionAfterKick(kick: Kick, chain: Chained, s: Session, isContinue: bool)
    returns (legs: seq<Leg>, closing: Write)
    requires kick.sliceCount > 0
    ensures Legs(kick, legs) && Closes(s, legs, closing)
    ensures SaveAll(s, Drove(kick, chain, s, isContinue).0)
         == Session(s.cycle, closing.attempts, closing.gate, Some(legs[|legs| - 1].index),
                    Some(legs[|legs| - 1].report.openFindingIds))
  {
    legs, closing := DroveIsLegs(kick, chain, s, isContinue);
    assert legs != [];
    hide *;
    SaveStep(s, AllWrites(legs), closing);
    SliceIsSaved(s, legs);
    ClosingIsSaved(SaveAll(s, AllWrites(legs)), s, legs, closing);
  }

  lemma SliceIsSaved(s: Session, legs: seq<Leg>)
    requires legs != []
    ensures SaveAll(s, AllWrites(legs)).sliceIndex == Some(legs[|legs| - 1].index)
  {
    var writes := AllWrites(legs);
    hide AllWrites, SaveAll;
    LastLegEnds(legs);
    var n := |writes| - 1;
    SaveStep(s, writes[..n], writes[n]);
    assert writes == writes[..n] + [writes[n]];
  }

  lemma ClosingIsSaved(before: Session, s: Session, legs: seq<Leg>, closing: Write)
    requires legs != [] && Closes(s, legs, closing) && before.sliceIndex == Some(legs[|legs| - 1].index)
    ensures Saved(before, closing)
         == Session(s.cycle, closing.attempts, closing.gate, Some(legs[|legs| - 1].index),
                    Some(legs[|legs| - 1].report.openFindingIds))
  {
  }

  lemma {:induction false} LastLegEnds(legs: seq<Leg>)
    requires legs != []
    ensures var writes := AllWrites(legs);
            writes != [] && writes[|writes| - 1] == SliceEnded(LegReport(legs[|legs| - 1]))
  {
    if |legs| > 1 { LastLegEnds(legs[1..]); }
  }

  lemma SaveStep(s: Session, writes: seq<Write>, w: Write)
    ensures SaveAll(s, writes + [w]) == Saved(SaveAll(s, writes), w)
  {
  }
}
