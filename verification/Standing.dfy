/** The mark of `src/harness/chain.rs` and the ledger of `src/harness/ledger.rs` when a client of the
    chain snapshots and reverts on its own while they are in use: what still stands of what was done. */
module Standing {
  import opened Wrappers
  import opened State
  import opened Wire
  import opened Ledger

  // ---- acts -------------------------------------------------------------------------------------

  /** What a client can do to a chain: a step, `evm_snapshot`, `evm_revert`. */
  datatype Act = Does(step: Step) | Snaps | Reverts(id: nat)

  function Acted(c: Chained, act: Act): Chained {
    match act
    case Does(step) => c.(world := Take(c.world, step))
    case Snaps => TakeSnapshot(c)
    case Reverts(id) => RevertTo(c, id)
  }

  function AllActed(c: Chained, acts: seq<Act>): Chained {
    if acts == [] then c else Acted(AllActed(c, acts[..|acts| - 1]), acts[|acts| - 1])
  }

  /** A revert to a snapshot that was there before the acts began, and that succeeded. */
  ghost predicate RevertsPast(c: Chained, acts: seq<Act>) {
    exists i :: 0 <= i < |acts| && acts[i].Reverts? && acts[i].id < c.nextSnapshot
                && acts[i].id in AllActed(c, acts[..i]).snapshots
  }

  lemma PastStep(c: Chained, acts: seq<Act>)
    requires acts != []
    ensures var earlier, last := acts[..|acts| - 1], acts[|acts| - 1];
            RevertsPast(c, acts)
            <==> (RevertsPast(c, earlier)
                  || (last.Reverts? && last.id < c.nextSnapshot && last.id in AllActed(c, earlier).snapshots))
  {
    var earlier, last := acts[..|acts| - 1], acts[|acts| - 1];
    if RevertsPast(c, earlier) {
      var i :| 0 <= i < |earlier| && earlier[i].Reverts? && earlier[i].id < c.nextSnapshot
               && earlier[i].id in AllActed(c, earlier[..i]).snapshots;
      assert earlier[..i] == acts[..i] && acts[i] == earlier[i];
    }
    if RevertsPast(c, acts) {
      var i :| 0 <= i < |acts| && acts[i].Reverts? && acts[i].id < c.nextSnapshot
               && acts[i].id in AllActed(c, acts[..i]).snapshots;
      if i < |earlier| { assert earlier[..i] == acts[..i] && acts[i] == earlier[i]; }
    }
  }

  // ---- what stands ------------------------------------------------------------------------------

  /** Contents from before the acts, and the steps since that no revert has undone. */
  datatype Stand = Stand(base: World, steps: seq<Step>)

  function Reached(s: Stand): World {
    After(s.base, s.steps)
  }

  /** What stands now and what stood when each snapshot was taken. */
  datatype Timeline = Timeline(now: Stand, saved: map<nat, Stand>, next: nat)

  function Begun(c: Chained): Timeline {
    Timeline(Stand(c.world, []), map k | k in c.snapshots :: Stand(c.snapshots[k], []), c.nextSnapshot)
  }

  function Followed(t: Timeline, act: Act): Timeline {
    match act
    case Does(step) => t.(now := Stand(t.now.base, t.now.steps + [step]))
    case Snaps => t.(saved := t.saved[t.next := t.now], next := t.next + 1)
    case Reverts(id) =>
      if id !in t.saved then t
      else t.(now := t.saved[id], saved := map k | k in t.saved && k < id :: t.saved[k])
  }

  function TimelineOf(c: Chained, acts: seq<Act>): Timeline {
    if acts == [] then Begun(c) else Followed(TimelineOf(c, acts[..|acts| - 1]), acts[|acts| - 1])
  }

  /** The chain is where the timeline says it is, and so is every snapshot. */
  ghost predicate Tells(t: Timeline, c: Chained) {
    && c.world == Reached(t.now) && c.nextSnapshot == t.next && c.snapshots.Keys == t.saved.Keys
    && forall k :: k in t.saved ==> c.snapshots[k] == Reached(t.saved[k])
  }

  lemma OneMoreStep(s: Stand, step: Step)
    ensures Reached(Stand(s.base, s.steps + [step])) == Take(Reached(s), step)
  {
    assert (s.steps + [step])[..|s.steps|] == s.steps;
    hide Take;
  }

  lemma FollowedTells(t: Timeline, c: Chained, act: Act)
    requires Tells(t, c)
    ensures Tells(Followed(t, act), Acted(c, act))
  {
    if act.Does? { OneMoreStep(t.now, act.step); }
    hide Reached, Take;
  }

  lemma {:induction false} TimelineTells(c: Chained, acts: seq<Act>)
    ensures Tells(TimelineOf(c, acts), AllActed(c, acts))
  {
    hide Followed, Acted;
    if acts != [] {
      TimelineTells(c, acts[..|acts| - 1]);
      hide Tells;
      FollowedTells(TimelineOf(c, acts[..|acts| - 1]), AllActed(c, acts[..|acts| - 1]), acts[|acts| - 1]);
    }
  }

  /** Every stand is on contents the chain had when the acts began: its own, or an old snapshot's. */
  ghost predicate OldContents(c: Chained, w: World) {
    w == c.world || exists k :: k in c.snapshots && c.snapshots[k] == w
  }

  lemma {:induction false} BasesAreOld(c: Chained, acts: seq<Act>)
    ensures var t := TimelineOf(c, acts);
            OldContents(c, t.now.base) && forall k :: k in t.saved ==> OldContents(c, t.saved[k].base)
  {
    if acts != [] {
      hide OldContents;
      BasesAreOld(c, acts[..|acts| - 1]);
    }
  }

  /** Without a revert past the beginning everything stands on the contents of the beginning. */
  ghost predicate FromTheBeginning(c: Chained, t: Timeline) {
    && t.now.base == c.world && t.next >= c.nextSnapshot
    && (forall k :: k in t.saved ==> k < t.next)
    && (forall k :: k in t.saved && k >= c.nextSnapshot ==> t.saved[k].base == c.world)
  }

  lemma {:induction false} StandsOnTheBeginning(c: Chained, acts: seq<Act>)
    requires IdsAreSpent(c) && !RevertsPast(c, acts)
    ensures FromTheBeginning(c, TimelineOf(c, acts))
  {
    if acts != [] {
      hide RevertsPast, Tells, AllActed;
      PastStep(c, acts);
      var earlier := acts[..|acts| - 1];
      StandsOnTheBeginning(c, earlier);
      TimelineTells(c, earlier);
      SavedAlike(TimelineOf(c, earlier), AllActed(c, earlier));
    }
  }

  lemma SavedAlike(t: Timeline, c: Chained)
    requires Tells(t, c)
    ensures c.snapshots.Keys == t.saved.Keys
  {
  }

  // ---- chains that only grow --------------------------------------------------------------------

  ghost predicate Grown(w: World, later: World) {
    && |w.records| <= |later.records| && |w.blocks| <= |later.blocks|
    && RefusalsSeen(w) <= RefusalsSeen(later)
  }

  /** Every snapshot was taken on the way to the present contents, older ones before newer ones. */
  ghost predicate Ancestral(c: Chained) {
    && IdsAreSpent(c)
    && (forall k :: k in c.snapshots ==> Grown(c.snapshots[k], c.world))
    && (forall j, k :: j in c.snapshots && k in c.snapshots && j < k ==> Grown(c.snapshots[j], c.snapshots[k]))
  }

  /** A chain without snapshots is such a chain, and whatever a client does it stays one. */
  lemma {:induction false} ChainsAreAncestral(c: Chained, acts: seq<Act>)
    requires Ancestral(c)
    ensures Ancestral(AllActed(c, acts))
  {
    if acts != [] {
      ChainsAreAncestral(c, acts[..|acts| - 1]);
      ActedAncestral(AllActed(c, acts[..|acts| - 1]), acts[|acts| - 1]);
      hide Ancestral, Acted;
    }
  }

  lemma ActedAncestral(c: Chained, act: Act)
    requires Ancestral(c)
    ensures Ancestral(Acted(c, act))
  {
    if act.Does? { StepLogs(c.world, act.step); }
    hide Take, RefusalsSeen;
  }

  // ---- what the mark still finds ----------------------------------------------------------------

  /** The three lists a ledger is made of. */
  datatype Listed = Listed(records: seq<Record>, blocks: seq<seq<Hash>>, refusals: seq<Rejection>)

  function Listing(w: World, mark: Mark): Listed {
    Listed(Skip(w.records, mark.records), Skip(w.blocks, mark.blocks), Kept(w, mark))
  }

  /** What stands of the acts: all of it but the refusals the cap has dropped since. */
  function StandingOf(s: Stand): Listed {
    Listed(RecordsIn(s.steps), BlocksIn(s.steps), Capped(RefusalsIn(s.steps), s.base.maxRejections))
  }

  /** The mark counts what its chain had; contents that had less of something must have got nothing of
      it since, or, of refusals, so many that the cap has dropped those the mark skips. */
  ghost predicate MarkHolds(marked: World, s: Stand) {
    && (|s.base.records| == |marked.records| || RecordsIn(s.steps) == [])
    && (|s.base.blocks| == |marked.blocks| || BlocksIn(s.steps) == [])
    && RefusalsHold(marked, s)
  }

  ghost predicate RefusalsHold(marked: World, s: Stand) {
    var cap, made := s.base.maxRejections, RefusalsIn(s.steps);
    || RefusalsSeen(s.base) == RefusalsSeen(marked)
    || made == []
    || (cap != 0 && |made| >= cap + RefusalsSeen(marked) - RefusalsSeen(s.base))
  }

  lemma SkipsExactly<T>(had: seq<T>, got: seq<T>, marked: nat)
    requires |had| <= marked
    ensures Skip(had + got, marked) == got <==> |had| == marked || got == []
  {
  }

  /** The refusals the mark finds are the newest ones, as many as were made beyond its count. */
  lemma KeptIsNewest(w: World, mark: Mark)
    ensures Kept(w, mark)
         == Newest(w.rejections, if RefusalsSeen(w) <= mark.rejections then 0 else RefusalsSeen(w) - mark.rejections)
  {
  }

  lemma MadeAreNewest<T>(kept: seq<T>, made: seq<T>, cap: nat)
    requires made != []
    ensures Capped(made, cap) == Newest(CappedSince(kept, made, cap), |Capped(made, cap)|)
    ensures |Capped(made, cap)| == if cap == 0 || |made| <= cap then |made| else cap
    ensures |CappedSince(kept, made, cap)| == if cap == 0 || |kept| + |made| <= cap then |kept| + |made| else cap
  {
  }

  lemma NewestAlike<T>(all: seq<T>, m: nat, n: nat)
    ensures |Newest(all, m)| == if m <= |all| then m else |all|
    ensures |Newest(all, m)| == |Newest(all, n)| <==> Newest(all, m) == Newest(all, n)
  {
  }

  lemma KeptLength(w: World, marked: World, s: Stand)
    requires Grown(s.base, marked)
    requires RefusalsSeen(w) == RefusalsSeen(s.base) + |RefusalsIn(s.steps)|
    requires w.rejections == CappedSince(s.base.rejections, RefusalsIn(s.steps), s.base.maxRejections)
    ensures Kept(w, MarkOf(marked)) == Capped(RefusalsIn(s.steps), s.base.maxRejections)
            <==> |Kept(w, MarkOf(marked))| == |Capped(RefusalsIn(s.steps), s.base.maxRejections)|
    ensures |Kept(w, MarkOf(marked))| == |Capped(RefusalsIn(s.steps), s.base.maxRejections)|
            <==> RefusalsHold(marked, s)
  {
    var made, cap := RefusalsIn(s.steps), s.base.maxRejections;
    var mark := MarkOf(marked);
    KeptIsNewest(w, mark);
    var beyond := if RefusalsSeen(w) <= mark.rejections then 0 else RefusalsSeen(w) - mark.rejections;
    hide RefusalsIn, Kept, RefusalsSeen;
    if made != [] {
      MadeAreNewest(s.base.rejections, made, cap);
      NewestAlike(w.rejections, beyond, |Capped(made, cap)|);
    }
    hide CappedSince;
  }

  lemma ListingIsExact(marked: World, s: Stand)
    requires Grown(s.base, marked)
    ensures Listing(Reached(s), MarkOf(marked)) == StandingOf(s) <==> MarkHolds(marked, s)
    ensures |Listing(Reached(s), MarkOf(marked)).refusals| == |StandingOf(s).refusals| <==> RefusalsHold(marked, s)
  {
    HistoryAfter(s.base, s.steps);
    RefusalsAfter(s.base, s.steps);
    SkipsExactly(s.base.records, RecordsIn(s.steps), |marked.records|);
    SkipsExactly(s.base.blocks, BlocksIn(s.steps), |marked.blocks|);
    KeptLength(Reached(s), marked, s);
    hide After, RecordsIn, BlocksIn, RefusalsIn, Capped, CappedSince, RefusalsHold, Kept;
  }

  // ---- the ledger -------------------------------------------------------------------------------

  function RowsOf(w: World, listed: Listed): seq<Row> {
    RecordRows(listed.records) + BlockRows(w, listed.records, Hashes(listed.blocks)) + RefusalRows(w, listed.refusals)
  }

  lemma CollectedIsListed(w: World, mark: Mark)
    ensures Collected(w, mark) == RowsOf(w, Listing(w, mark))
  {
    hide RecordRows, BlockRows, RefusalRows, Hashes;
  }

  lemma BasesGrew(c: Chained, acts: seq<Act>)
    requires Ancestral(c)
    ensures Grown(TimelineOf(c, acts).now.base, c.world)
    ensures AllActed(c, acts).world == Reached(TimelineOf(c, acts).now)
  {
    BasesAreOld(c, acts);
    TimelineTells(c, acts);
    hide AllActed, TimelineOf, Reached;
  }

  /** Whatever a client does after the mark, snapshots and reverts of its own included, the ledger is made
      of exactly what of it still stands, if and only if the mark holds for the contents that stands on. */
  lemma LedgerIsWhatStands(c: Chained, acts: seq<Act>)
    requires Ancestral(c)
    ensures var w, mark, stand := AllActed(c, acts).world, MarkOf(c.world), TimelineOf(c, acts).now;
            && (Listing(w, mark) == StandingOf(stand) <==> MarkHolds(c.world, stand))
            && Collected(w, mark) == RowsOf(w, Listing(w, mark))
            && w == Reached(stand) && OldContents(c, stand.base)
  {
    BasesGrew(c, acts);
    BasesAreOld(c, acts);
    var w, stand := AllActed(c, acts).world, TimelineOf(c, acts).now;
    hide *;
    ListingIsExact(c.world, stand);
    CollectedIsListed(w, MarkOf(c.world));
  }

  /** So the mark stays valid as long as no revert goes back past it: reverts to the harness's own snapshot
      of the attempt, and to any later one, take away only what they undo. */
  lemma MarkStaysValid(c: Chained, acts: seq<Act>)
    requires Ancestral(c) && !RevertsPast(c, acts)
    ensures var w, stand := AllActed(c, acts).world, TimelineOf(c, acts).now;
            stand.base == c.world && Listing(w, MarkOf(c.world)) == StandingOf(stand)
  {
    StandsOnTheBeginning(c, acts);
    LedgerIsWhatStands(c, acts);
    hide TimelineOf, AllActed, RevertsPast, Listing, StandingOf, OldContents, Reached;
  }

  /** A client that goes back past the mark, to contents with fewer records, and then gets one record:
      the ledger has no record at all. */
  lemma RevertsPastLoseRows(c: Chained, id: nat, r: Record)
    requires Ancestral(c) && id in c.snapshots && |c.snapshots[id].records| < |c.world.records|
    ensures var acts := [Reverts(id), Does(Recorded(r))];
            var w := AllActed(c, acts).world;
            && RevertsPast(c, acts) && StandingOf(TimelineOf(c, acts).now).records == [r]
            && w.records != [] && w.records[|w.records| - 1] == r
            && Listing(w, MarkOf(c.world)).records == []
  {
    var acts := [Reverts(id), Does(Recorded(r))];
    assert acts[..1] == [Reverts(id)] && acts[..1][..0] == [] && acts[..0] == [];
    assert AllActed(c, acts[..1]) == RevertTo(c, id);
    assert TimelineOf(c, acts[..1]).now == Stand(c.snapshots[id], []);
    assert TimelineOf(c, acts).now == Stand(c.snapshots[id], [] + [Recorded(r)]);
    assert [Recorded(r)][..0] == [] && [] + [Recorded(r)] == [Recorded(r)];
    assert RecordsIn([Recorded(r)]) == [] + [r];
    assert acts[0].id in AllActed(c, acts[..0]).snapshots;
  }

  /** The rejected count is that of the refusals that stand and that the cap still holds, exactly when the
      mark holds for refusals. */
  lemma RejectedCountIsExact(c: Chained, acts: seq<Act>)
    requires Ancestral(c)
    ensures var w, stand := AllActed(c, acts).world, TimelineOf(c, acts).now;
            Counts(EntriesSince(w, MarkOf(c.world))).rejected == |StandingOf(stand).refusals|
            <==> RefusalsHold(c.world, stand)
  {
    BasesGrew(c, acts);
    var w, stand := AllActed(c, acts).world, TimelineOf(c, acts).now;
    ListingIsExact(c.world, stand);
    RejectedIsKept(w, MarkOf(c.world));
    hide AllActed, TimelineOf, Reached, EntriesSince, StandingOf, RefusalsHold, Kept, CountOf;
  }

  /** Where the mark holds, the failed count is that of the standing records that failed and of the standing
      calls that failed and that none of those records carries. */
  lemma FailedCountIsExact(c: Chained, acts: seq<Act>)
    requires Ancestral(c) && MarkHolds(c.world, TimelineOf(c, acts).now)
    ensures var w, listed := AllActed(c, acts).world, StandingOf(TimelineOf(c, acts).now);
            Counts(EntriesSince(w, MarkOf(c.world))).failed
            == FailedRecords(listed.records) + FailedCalls(w, listed.records, Hashes(listed.blocks))
  {
    LedgerIsWhatStands(c, acts);
    FailedIsListed(AllActed(c, acts).world, MarkOf(c.world));
    hide AllActed, TimelineOf, Reached, EntriesSince, StandingOf, MarkHolds, FailedRecords, FailedCalls, CountOf;
  }

  // ---- a client's run is such acts --------------------------------------------------------------

  /** What a client sends over the wire and the RPC port. */
  datatype Move = Sends(submission: Submission) | Saves | Restores(id: nat)

  function Moved(c: Chained, move: Move): Chained {
    match move
    case Sends(s) => c.(world := Taken(c.world, s).0)
    case Saves => TakeSnapshot(c)
    case Restores(id) => RevertTo(c, id)
  }

  function AllMoved(c: Chained, moves: seq<Move>): Chained {
    if |moves| == 0 then c else Moved(AllMoved(c, moves[..|moves| - 1]), moves[|moves| - 1])
  }

  function Doing(steps: seq<Step>): seq<Act> {
    seq(|steps|, i requires 0 <= i < |steps| => Does(steps[i]))
  }

  function ActsOf(c: Chained, move: Move): seq<Act> {
    match move
    case Sends(s) => Doing(StepsOf(c.world, s))
    case Saves => [Snaps]
    case Restores(id) => [Reverts(id)]
  }

  function ActsOfAll(c: Chained, moves: seq<Move>): seq<Act> {
    if |moves| == 0 then []
    else
      var earlier := moves[..|moves| - 1];
      ActsOfAll(c, earlier) + ActsOf(AllMoved(c, earlier), moves[|moves| - 1])
  }

  lemma {:induction false} ActedBoth(c: Chained, a: seq<Act>, b: seq<Act>)
    ensures AllActed(c, a + b) == AllActed(AllActed(c, a), b)
  {
    hide Acted;
    if b == [] {
      assert a + b == a;
    } else {
      ActedBoth(c, a, b[..|b| - 1]);
      assert (a + b)[..|a + b| - 1] == a + b[..|b| - 1];
    }
  }

  lemma {:induction false} DoingSteps(c: Chained, steps: seq<Step>)
    ensures AllActed(c, Doing(steps)) == c.(world := After(c.world, steps))
  {
    hide Take;
    if steps != [] {
      DoingSteps(c, steps[..|steps| - 1]);
      assert Doing(steps)[..|steps| - 1] == Doing(steps[..|steps| - 1]);
    }
  }

  lemma MoveIsActs(c: Chained, move: Move)
    requires move.Sends? ==> MinesForward(move.submission.node.sendRaw)
    ensures AllActed(c, ActsOf(c, move)) == Moved(c, move)
  {
    match move
    case Sends(s) =>
      SubmissionIsSteps(c.world, s);
      DoingSteps(c, StepsOf(c.world, s));
      hide AllActed, StepsOf, Taken, After, Doing;
    case _ =>
      assert ActsOf(c, move)[..0] == [];
  }

  /** Any run of submissions, snapshots and reverts is such acts, so the ledger of it is what
      `LedgerIsWhatStands` says. */
  lemma {:induction false} ClientRunsAreActs(c: Chained, moves: seq<Move>)
    requires forall move <- moves :: move.Sends? ==> MinesForward(move.submission.node.sendRaw)
    ensures AllActed(c, ActsOfAll(c, moves)) == AllMoved(c, moves)
  {
    if |moves| != 0 {
      hide AllActed, Moved, ActsOf, MinesForward;
      var earlier, last := moves[..|moves| - 1], moves[|moves| - 1];
      ClientRunsAreActs(c, earlier);
      ActedBoth(c, ActsOfAll(c, earlier), ActsOf(AllMoved(c, earlier), last));
      MoveIsActs(AllMoved(c, earlier), last);
    } else {
      NothingActed(c);
    }
  }

  lemma NothingActed(c: Chained)
    ensures AllActed(c, []) == c
  {
  }

  /** The same acts as operations on the chain object. */
  function AsOps(c: Chained, acts: seq<Act>): seq<Op> {
    if acts == [] then []
    else
      var earlier, last := acts[..|acts| - 1], acts[|acts| - 1];
      AsOps(c, earlier)
      + [match last
         case Does(step) => Change(Take(AllActed(c, earlier).world, step))
         case Snaps => Snapshot
         case Reverts(id) => Revert(id)]
  }

  lemma {:induction false} OpsAreActs(c: Chained, acts: seq<Act>)
    ensures PerformAll(c, AsOps(c, acts)) == AllActed(c, acts)
  {
    hide Take;
    if acts != [] {
      var earlier := acts[..|acts| - 1];
      OpsAreActs(c, earlier);
      var ops := AsOps(c, acts);
      assert ops[..|ops| - 1] == AsOps(c, earlier);
    }
  }
}
