/** `src/harness/findings.rs`: findings, and how they move from one attempt to the next. */
module Findings {
  import opened Wrappers

  datatype Category = Files | Static | Secret | Commands | Agent | Playwright | Eval | EvalInfra | OnChain

  datatype Lifecycle = Open | Fixed

  datatype Finding = Finding(id: string, category: Category, message: string, details: Option<string>,
                             status: Option<Lifecycle>)

  /** Ids that fail now, that failed and do not, that did not fail and do. */
  datatype Delta = Delta(open: seq<string>, fixed: seq<string>, introduced: seq<string>)

  predicate IsOpen(f: Finding) {
    f.status != Some(Fixed)
  }

  // ---- ids --------------------------------------------------------------------------------------

  predicate Names(findings: seq<Finding>, id: string) {
    exists i | 0 <= i < |findings| :: findings[i].id == id
  }

  lemma NamesMore(findings: seq<Finding>, last: Finding, id: string)
    ensures Names(findings + [last], id) <==> Names(findings, id) || id == last.id
  {
    var all := findings + [last];
    if Names(findings, id) {
      var i :| 0 <= i < |findings| && findings[i].id == id;
      assert all[i].id == id;
    }
    if id == last.id { assert all[|findings|].id == id; }
  }

  /** Ids in the order they first appear. */
  function Ids(findings: seq<Finding>): seq<string> {
    if findings == [] then []
    else
      var earlier, last := findings[..|findings| - 1], findings[|findings| - 1];
      Ids(earlier) + (if last.id in Ids(earlier) then [] else [last.id])
  }

  /** `finding_ids`. */
  method FindingIds(findings: seq<Finding>) returns (ids: seq<string>)
    ensures ids == Ids(findings)
  {
    var seen: set<string> := {};
    ids := [];
    for i := 0 to |findings|
      invariant ids == Ids(findings[..i])
      invariant forall id :: id in seen <==> id in ids
    {
      assert findings[..i + 1][..i] == findings[..i];
      if findings[i].id !in seen {
        seen := seen + {findings[i].id};
        ids := ids + [findings[i].id];
      }
    }
    assert findings[..|findings|] == findings;
  }

  /** Where an id first appears. */
  function FirstAt(findings: seq<Finding>, id: string): (i: nat)
    requires Names(findings, id)
    ensures i < |findings| && findings[i].id == id && forall j | 0 <= j < i :: findings[j].id != id
  {
    if findings[0].id == id then 0 else FirstAt(findings[1..], id) + 1
  }

  lemma {:induction false} IdsAreNames(findings: seq<Finding>, id: string)
    ensures id in Ids(findings) <==> Names(findings, id)
  {
    if findings != [] {
      var earlier, last := findings[..|findings| - 1], findings[|findings| - 1];
      IdsAreNames(earlier, id);
      NamesMore(earlier, last, id);
      assert findings == earlier + [last];
    }
  }

  /** Every id once, in order of first appearance. */
  lemma {:induction false} IdsInOrder(findings: seq<Finding>, i: nat, j: nat)
    requires i < j < |Ids(findings)|
    ensures var a, b := Ids(findings)[i], Ids(findings)[j];
            Names(findings, a) && Names(findings, b) && FirstAt(findings, a) < FirstAt(findings, b)
  {
    var earlier, last := findings[..|findings| - 1], findings[|findings| - 1];
    var a, b := Ids(findings)[i], Ids(findings)[j];
    assert findings == earlier + [last];
    if j < |Ids(earlier)| {
      IdsInOrder(earlier, i, j);
      FirstAtOfPrefix(earlier, last, a);
      FirstAtOfPrefix(earlier, last, b);
    } else {
      IdsAreNames(earlier, a);
      IdsAreNames(earlier, b);
      assert a == Ids(earlier)[i];
      FirstAtOfPrefix(earlier, last, a);
      NewIdComesLast(earlier, last);
    }
  }

  lemma FirstAtOfPrefix(earlier: seq<Finding>, last: Finding, id: string)
    requires Names(earlier, id)
    ensures Names(earlier + [last], id) && FirstAt(earlier + [last], id) == FirstAt(earlier, id)
  {
    var i := FirstAt(earlier, id);
    assert (earlier + [last])[i] == earlier[i];
    var j := FirstAt(earlier + [last], id);
    assert j <= i;
    assert (earlier + [last])[j] == earlier[j];
  }

  lemma NewIdComesLast(earlier: seq<Finding>, last: Finding)
    requires !Names(earlier, last.id)
    ensures Names(earlier + [last], last.id) && FirstAt(earlier + [last], last.id) == |earlier|
  {
    var all := earlier + [last];
    assert all[|earlier|] == last;
    assert forall k :: 0 <= k < |earlier| ==> all[k] == earlier[k] && earlier[k].id != last.id;
  }

  // ---- one attempt's movement -------------------------------------------------------------------

  function Without(ids: seq<string>, others: seq<string>): seq<string> {
    if ids == [] then []
    else
      var earlier, last := ids[..|ids| - 1], ids[|ids| - 1];
      Without(earlier, others) + (if last in others then [] else [last])
  }

  lemma {:induction false} WithoutIsDifference(ids: seq<string>, others: seq<string>, id: string)
    ensures id in Without(ids, others) <==> id in ids && id !in others
  {
    if ids != [] {
      WithoutIsDifference(ids[..|ids| - 1], others, id);
      assert ids == ids[..|ids| - 1] + [ids[|ids| - 1]];
    }
  }

  /** `compute_delta`. */
  function ComputeDelta(previousOpen: seq<string>, findings: seq<Finding>): Delta {
    var open := Ids(findings);
    Delta(open, Without(previousOpen, open), Without(open, previousOpen))
  }

  function SetOf(ids: seq<string>): set<string> {
    set id | id in ids
  }

  /** What is open now is what was open, less what was fixed, with what was introduced; nothing is
      both fixed and open, nothing introduced was open before. */
  lemma DeltaBalances(previousOpen: seq<string>, findings: seq<Finding>)
    ensures var d := ComputeDelta(previousOpen, findings);
            && SetOf(d.open) == (SetOf(previousOpen) - SetOf(d.fixed)) + SetOf(d.introduced)
            && SetOf(d.fixed) !! SetOf(d.open) && SetOf(d.introduced) !! SetOf(previousOpen)
            && SetOf(d.fixed) <= SetOf(previousOpen) && SetOf(d.introduced) <= SetOf(d.open)
  {
    var open := Ids(findings);
    forall id
      ensures id in Without(previousOpen, open) <==> id in previousOpen && id !in open
      ensures id in Without(open, previousOpen) <==> id in open && id !in previousOpen
    {
      WithoutIsDifference(previousOpen, open, id);
      WithoutIsDifference(open, previousOpen, id);
    }
  }

  function Opened(findings: seq<Finding>): (r: seq<Finding>)
    ensures |r| == |findings|
    ensures forall i | 0 <= i < |r| :: r[i] == findings[i].(status := Some(Open))
  {
    seq(|findings|, i requires 0 <= i < |findings| => findings[i].(status := Some(Open)))
  }

  /** The first record of each id of `fixed`, marked fixed. */
  function Closed(previous: seq<Finding>, fixed: seq<string>): seq<Finding> {
    if previous == [] then []
    else
      var earlier, last := previous[..|previous| - 1], previous[|previous| - 1];
      Closed(earlier, fixed)
      + (if last.id in fixed && !Names(Closed(earlier, fixed), last.id) then [last.(status := Some(Fixed))]
         else [])
  }

  /** `apply_status`. */
  method ApplyStatus(findings: seq<Finding>, delta: Delta, previous: seq<Finding>)
    returns (result: seq<Finding>)
    ensures result == Opened(findings) + Closed(previous, delta.fixed)
  {
    var closed: seq<Finding> := [];
    var seen: set<string> := {};
    for i := 0 to |previous|
      invariant closed == Closed(previous[..i], delta.fixed)
      invariant forall id :: id in seen <==> Names(closed, id)
    {
      assert previous[..i + 1][..i] == previous[..i];
      var finding := previous[i];
      if finding.id in delta.fixed && finding.id !in seen {
        ghost var before := closed;
        seen := seen + {finding.id};
        closed := closed + [finding.(status := Some(Fixed))];
        forall id ensures Names(closed, id) <==> Names(before, id) || id == finding.id {
          NamesMore(before, finding.(status := Some(Fixed)), id);
        }
      }
    }
    assert previous[..|previous|] == previous;
    result := Opened(findings) + closed;
  }

  lemma {:induction false} ClosedNames(previous: seq<Finding>, fixed: seq<string>, id: string)
    ensures Names(Closed(previous, fixed), id) <==> id in fixed && Names(previous, id)
  {
    if previous != [] {
      var earlier, last := previous[..|previous| - 1], previous[|previous| - 1];
      ClosedNames(earlier, fixed, id);
      NamesMore(earlier, last, id);
      assert earlier + [last] == previous;
      NamesMore(Closed(earlier, fixed), last.(status := Some(Fixed)), id);
      assert Closed(earlier, fixed) + [] == Closed(earlier, fixed);
    }
  }

  /** Records of ids already seen add nothing. */
  lemma {:induction false} ClosedIgnoresRepeats(first: seq<Finding>, more: seq<Finding>, fixed: seq<string>)
    requires forall id :: id in fixed ==> Names(first, id)
    ensures Closed(first + more, fixed) == Closed(first, fixed)
  {
    if more == [] {
      assert first + more == first;
    } else {
      var earlier, last := more[..|more| - 1], more[|more| - 1];
      ClosedIgnoresRepeats(first, earlier, fixed);
      assert (first + more)[..|first + more| - 1] == first + earlier;
      ClosedNames(first, fixed, last.id);
    }
  }

  // ---- across attempts --------------------------------------------------------------------------

  /** What the loop carries from one attempt to the next. */
  datatype Carried = Carried(openIds: seq<string>, previous: seq<Finding>)

  function Carry(c: Carried, findings: seq<Finding>): Carried {
    var delta := ComputeDelta(c.openIds, findings);
    Carried(delta.open, Opened(findings) + Closed(c.previous, delta.fixed))
  }

  function CarryAll(c: Carried, history: seq<seq<Finding>>): Carried {
    if history == [] then c else Carry(CarryAll(c, history[..|history| - 1]), history[|history| - 1])
  }

  lemma {:induction false} CarryFirst(c: Carried, first: seq<Finding>, rest: seq<seq<Finding>>)
    ensures CarryAll(c, [first] + rest) == CarryAll(Carry(c, first), rest)
  {
    hide Carry;
    if rest == [] {
      assert [first] + rest == [first] && [first][..0] == [];
    } else {
      CarryFirst(c, first, rest[..|rest| - 1]);
      assert ([first] + rest)[..|rest|] == [first] + rest[..|rest| - 1];
    }
  }

  /** The first attempt of a loop holds no records: only ids came over from the session. */
  function FromSession(openIds: seq<string>): Carried {
    Carried(openIds, [])
  }

  lemma OpenedNames(findings: seq<Finding>, id: string)
    ensures Names(Opened(findings), id) <==> Names(findings, id)
  {
  }

  /** Whatever the attempts before did, an attempt's list is its own findings, then what it closed of
      the attempt just before it: older `fixed` entries are never surfaced again. */
  lemma LifecycleIsLastTwo(openIds: seq<string>, history: seq<seq<Finding>>)
    requires history != []
    ensures var now := history[|history| - 1];
            var after := CarryAll(FromSession(openIds), history);
            && after.openIds == Ids(now)
            && after.previous
               == Opened(now) + (if |history| == 1 then []
                                 else (var before := history[|history| - 2];
                                       Closed(Opened(before), Without(Ids(before), Ids(now)))))
  {
    var now := history[|history| - 1];
    var earlier := history[..|history| - 1];
    if earlier == [] {
      assert CarryAll(FromSession(openIds), earlier) == FromSession(openIds);
    } else {
      var before := earlier[|earlier| - 1];
      var carried := CarryAll(FromSession(openIds), earlier);
      assert carried.openIds == Ids(before);
      var fixed := Without(Ids(before), Ids(now));
      var older := CarryAll(FromSession(openIds), earlier[..|earlier| - 1]);
      var tail := Closed(older.previous, ComputeDelta(older.openIds, before).fixed);
      assert carried.previous == Opened(before) + tail;
      forall id | id in fixed ensures Names(Opened(before), id) {
        WithoutIsDifference(Ids(before), Ids(now), id);
        IdsAreNames(before, id);
        OpenedNames(before, id);
      }
      ClosedIgnoresRepeats(Opened(before), tail, fixed);
    }
  }

  function TimesFixed(findings: seq<Finding>, id: string): nat {
    if findings == [] then 0
    else
      var last := findings[|findings| - 1];
      TimesFixed(findings[..|findings| - 1], id) + (if last.id == id && last.status == Some(Fixed) then 1 else 0)
  }

  lemma {:induction false} TimesFixedSplits(a: seq<Finding>, b: seq<Finding>, id: string)
    ensures TimesFixed(a + b, id) == TimesFixed(a, id) + TimesFixed(b, id)
  {
    if b == [] {
      assert a + b == a;
    } else {
      TimesFixedSplits(a, b[..|b| - 1], id);
      assert (a + b)[..|a + b| - 1] == a + b[..|b| - 1];
    }
  }

  lemma {:induction false} NoneFixed(findings: seq<Finding>, id: string)
    requires forall i | 0 <= i < |findings| :: IsOpen(findings[i])
    ensures TimesFixed(findings, id) == 0
  {
    if findings != [] { NoneFixed(findings[..|findings| - 1], id); }
  }

  lemma {:induction false} ClosedOnce(previous: seq<Finding>, fixed: seq<string>, id: string)
    ensures TimesFixed(Closed(previous, fixed), id) == if id in fixed && Names(previous, id) then 1 else 0
  {
    if previous != [] {
      var earlier, last := previous[..|previous| - 1], previous[|previous| - 1];
      ClosedOnce(earlier, fixed, id);
      ClosedNames(earlier, fixed, last.id);
      NamesMore(earlier, last, id);
      assert earlier + [last] == previous;
      TimesFixedSplits(Closed(earlier, fixed), [last.(status := Some(Fixed))], id);
      assert Closed(earlier, fixed) + [] == Closed(earlier, fixed);
      assert [last.(status := Some(Fixed))][..0] == [];
    }
  }

  /** An id is surfaced as fixed by exactly the attempt that closed it, exactly once, when the attempt
      before held its record; no other attempt surfaces it. */
  lemma FixedOnce(openIds: seq<string>, history: seq<seq<Finding>>, id: string)
    requires history != []
    ensures var n := |history|;
            TimesFixed(CarryAll(FromSession(openIds), history).previous, id)
            == if n >= 2 && Names(history[n - 2], id) && !Names(history[n - 1], id) then 1 else 0
  {
    LifecycleIsLastTwo(openIds, history);
    var now := history[|history| - 1];
    NoneFixed(Opened(now), id);
    if |history| >= 2 {
      var before := history[|history| - 2];
      var fixed := Without(Ids(before), Ids(now));
      TimesFixedSplits(Opened(now), Closed(Opened(before), fixed), id);
      ClosedOnce(Opened(before), fixed, id);
      WithoutIsDifference(Ids(before), Ids(now), id);
      IdsAreNames(before, id);
      IdsAreNames(now, id);
      OpenedNames(before, id);
    } else {
      assert Opened(now) + [] == Opened(now);
    }
  }

  /** The record surfaced is the one the attempt before gave first. */
  lemma {:induction false} ClosedKeepsFirstRecord(previous: seq<Finding>, fixed: seq<string>, id: string)
    requires id in fixed && Names(previous, id)
    ensures previous[FirstAt(previous, id)].(status := Some(Fixed)) in Closed(previous, fixed)
  {
    var earlier, last := previous[..|previous| - 1], previous[|previous| - 1];
    assert earlier + [last] == previous;
    if Names(earlier, id) {
      ClosedKeepsFirstRecord(earlier, fixed, id);
      FirstAtOfPrefix(earlier, last, id);
    } else {
      NamesMore(earlier, last, id);
      NewIdComesLast(earlier, last);
      ClosedNames(earlier, fixed, id);
    }
  }

  /** Two attempts that both surface an id as fixed have between them one where it was open again. */
  lemma FixedAgainOnlyIfReopened(openIds: seq<string>, history: seq<seq<Finding>>, i: nat, j: nat, id: string)
    requires 1 <= i < j <= |history|
    requires TimesFixed(CarryAll(FromSession(openIds), history[..i]).previous, id) > 0
    requires TimesFixed(CarryAll(FromSession(openIds), history[..j]).previous, id) > 0
    ensures exists k :: i <= k < j && Names(history[k], id)
  {
    FixedOnce(openIds, history[..i], id);
    FixedOnce(openIds, history[..j], id);
    assert history[..j][j - 2] == history[j - 2] && history[..i][i - 1] == history[i - 1];
    assert Names(history[j - 2], id);
    assert !Names(history[i - 1], id);
  }
}
