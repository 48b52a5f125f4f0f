/** `src/harness/ledger.rs` and the mark of `src/harness/chain.rs`: what an attempt did to the chain,
    merged from three histories of which one forgets its oldest rows. */
module Ledger {
  import opened Wrappers
  import opened Evm
  import Text
  import opened State
  import opened Wire

  datatype Outcome = Succeeded | Failed | Refused

  datatype Payer = Number(id: Id) | EvmAddress(address: Address) | NobodyKnown

  datatype Entry = Entry(index: nat, kind: string, payer: Payer, outcome: Outcome, answer: string,
                         atMillis: Int64, fee: nat)

  /** An entry and its place in consensus order, before it is numbered. */
  datatype Row = Row(key: nat, entry: Entry)

  // ---- the mark ---------------------------------------------------------------------------------

  /** Where the chain stood. Refusals are counted as seen, not as kept. */
  datatype Mark = Mark(records: nat, blocks: nat, rejections: nat)

  /** `Mark::of`. */
  function MarkOf(w: World): Mark {
    Mark(|w.records|, |w.blocks|, RefusalsSeen(w))
  }

  function Skip<T>(all: seq<T>, n: nat): seq<T> {
    if n <= |all| then all[n..] else []
  }

  // ---- the rows ---------------------------------------------------------------------------------

  function At(t: Timestamp): nat {
    t.secs * 1_000_000_000 + t.nanos
  }

  function RecordRow(r: Record): Row {
    Row(At(r.at), Entry(0, KindName(r.kind), Number(r.id.payer),
                        if r.status == Success then Succeeded else Outcome.Failed, StatusName(r.status), 0, r.fee))
  }

  function EvmPayer(w: World, from: Address): Payer {
    if from in w.byEvm && w.byEvm[from] in w.accounts then Number(w.byEvm[from]) else EvmAddress(from)
  }

  function EvmRow(w: World, tx: EvmTx): Row {
    Row(At(tx.at), Entry(0, KindName(EthereumTransaction), EvmPayer(w, tx.from),
                         if tx.success then Succeeded else Outcome.Failed,
                         if tx.success then StatusName(Success) else tx.result, 0, tx.fee))
  }

  function RefusalRow(w: World, r: Rejection): Row {
    var payer := match r.payer
                 case Some(id) => Number(id)
                 case None => if r.from.Some? then EvmPayer(w, r.from.value) else NobodyKnown;
    Row(At(r.at), Entry(0, if r.kind.Some? then KindName(r.kind.value) else "UNKNOWN", payer, Refused,
                        if r.status.Some? then StatusName(r.status.value) else r.message, 0, 0))
  }

  function RecordRows(records: seq<Record>): seq<Row> {
    if records == [] then []
    else RecordRows(records[..|records| - 1]) + [RecordRow(records[|records| - 1])]
  }

  function RefusalRows(w: World, refusals: seq<Rejection>): seq<Row> {
    if refusals == [] then []
    else RefusalRows(w, refusals[..|refusals| - 1]) + [RefusalRow(w, refusals[|refusals| - 1])]
  }

  /** One of these records carries the transaction already. */
  predicate OverHapi(records: seq<Record>, hash: Hash) {
    hash != [] && exists i | 0 <= i < |records| :: records[i].ethereumHash == hash
  }

  function HashRows(w: World, records: seq<Record>, hash: Hash): seq<Row> {
    if OverHapi(records, hash) || hash !in w.txs then [] else [EvmRow(w, w.txs[hash])]
  }

  function BlockRows(w: World, records: seq<Record>, hashes: seq<Hash>): seq<Row> {
    if hashes == [] then []
    else BlockRows(w, records, hashes[..|hashes| - 1]) + HashRows(w, records, hashes[|hashes| - 1])
  }

  function Hashes(blocks: seq<seq<Hash>>): seq<Hash> {
    if blocks == [] then [] else Hashes(blocks[..|blocks| - 1]) + blocks[|blocks| - 1]
  }

  function Kept(w: World, mark: Mark): seq<Rejection> {
    Skip(w.rejections, if mark.rejections < w.dropped then 0 else mark.rejections - w.dropped)
  }

  /** The rows `since` collects, in the order it collects them. */
  function Collected(w: World, mark: Mark): seq<Row> {
    var records := Skip(w.records, mark.records);
    RecordRows(records) + BlockRows(w, records, Hashes(Skip(w.blocks, mark.blocks)))
    + RefusalRows(w, Kept(w, mark))
  }

  // ---- the stable sort --------------------------------------------------------------------------

  /** Behind every row whose key is not larger. */
  function Place(rows: seq<Row>, row: Row): seq<Row> {
    if rows == [] || rows[|rows| - 1].key <= row.key then rows + [row]
    else Place(rows[..|rows| - 1], row) + [rows[|rows| - 1]]
  }

  /** `sort_by_key`. */
  function Sorted(rows: seq<Row>): seq<Row> {
    if rows == [] then [] else Place(Sorted(rows[..|rows| - 1]), rows[|rows| - 1])
  }

  predicate InOrder(rows: seq<Row>) {
    forall i, j | 0 <= i < j < |rows| :: rows[i].key <= rows[j].key
  }

  /** The rows of one instant, in order. */
  function WithKey(rows: seq<Row>, key: nat): seq<Row> {
    if rows == [] then []
    else WithKey(rows[..|rows| - 1], key)
         + (if rows[|rows| - 1].key == key then [rows[|rows| - 1]] else [])
  }

  lemma {:induction false} PlaceKeepsRows(rows: seq<Row>, row: Row)
    ensures multiset(Place(rows, row)) == multiset(rows) + multiset{row}
  {
    if rows != [] && rows[|rows| - 1].key > row.key {
      var earlier, last := rows[..|rows| - 1], rows[|rows| - 1];
      PlaceKeepsRows(earlier, row);
      assert earlier + [last] == rows;
    }
  }

  lemma {:induction false} PlaceBounded(rows: seq<Row>, row: Row, key: nat)
    requires row.key <= key && forall i :: 0 <= i < |rows| ==> rows[i].key <= key
    ensures forall i :: 0 <= i < |Place(rows, row)| ==> Place(rows, row)[i].key <= key
  {
    if rows != [] { PlaceBounded(rows[..|rows| - 1], row, key); }
  }

  lemma {:induction false} PlaceInOrder(rows: seq<Row>, row: Row)
    requires InOrder(rows)
    ensures InOrder(Place(rows, row))
  {
    if rows != [] && rows[|rows| - 1].key > row.key {
      var earlier, last := rows[..|rows| - 1], rows[|rows| - 1];
      PlaceInOrder(earlier, row);
      PlaceBounded(earlier, row, last.key);
    }
  }

  lemma WithKeyStep(rows: seq<Row>, last: Row, key: nat)
    ensures WithKey(rows + [last], key) == WithKey(rows, key) + (if last.key == key then [last] else [])
  {
  }

  lemma {:induction false} PlaceKeepsInstants(rows: seq<Row>, row: Row, key: nat)
    ensures WithKey(Place(rows, row), key) == WithKey(rows + [row], key)
  {
    if rows != [] && rows[|rows| - 1].key > row.key {
      var earlier, last := rows[..|rows| - 1], rows[|rows| - 1];
      PlaceKeepsInstants(earlier, row, key);
      WithKeyStep(earlier, row, key);
      WithKeyStep(Place(earlier, row), last, key);
      WithKeyStep(rows, row, key);
    }
  }

  lemma {:induction false} SortInOrder(rows: seq<Row>)
    ensures InOrder(Sorted(rows)) && multiset(Sorted(rows)) == multiset(rows)
  {
    if rows != [] {
      var earlier, last := rows[..|rows| - 1], rows[|rows| - 1];
      SortInOrder(earlier);
      PlaceInOrder(Sorted(earlier), last);
      PlaceKeepsRows(Sorted(earlier), last);
      assert earlier + [last] == rows;
    }
  }

  lemma {:induction false} SortKeepsInstants(rows: seq<Row>, key: nat)
    ensures WithKey(Sorted(rows), key) == WithKey(rows, key)
  {
    if rows != [] {
      var earlier, last := rows[..|rows| - 1], rows[|rows| - 1];
      SortKeepsInstants(earlier, key);
      PlaceKeepsInstants(Sorted(earlier), last, key);
      WithKeyStep(Sorted(earlier), last, key);
    }
  }

  /** Sorting keeps every row, orders them by time, and leaves rows of one instant as they were. */
  ghost predicate StableSortOf(sorted: seq<Row>, rows: seq<Row>) {
    && InOrder(sorted) && multiset(sorted) == multiset(rows)
    && forall key: nat :: WithKey(sorted, key) == WithKey(rows, key)
  }

  lemma {:induction false} FromInstant(rows: seq<Row>, key: nat) returns (i: nat)
    requires WithKey(rows, key) != []
    ensures i < |rows| && rows[i].key == key
  {
    if rows[|rows| - 1].key == key {
      i := |rows| - 1;
    } else {
      i := FromInstant(rows[..|rows| - 1], key);
    }
  }

  lemma LastOfInstant(rows: seq<Row>)
    requires rows != []
    ensures var last, same := rows[|rows| - 1], WithKey(rows, rows[|rows| - 1].key);
            same != [] && same[|same| - 1] == last
  {
  }

  /** There is exactly one stable sort of a list: whatever the library does, this is its answer. */
  lemma SortIsTheStableSort(rows: seq<Row>, sorted: seq<Row>)
    ensures sorted == Sorted(rows) <==> StableSortOf(sorted, rows)
  {
    SortInOrder(rows);
    forall key: nat ensures WithKey(Sorted(rows), key) == WithKey(rows, key) {
      SortKeepsInstants(rows, key);
    }
    if StableSortOf(sorted, rows) {
      InOrderIsUnique(sorted, Sorted(rows));
    }
  }

  lemma {:induction false} InOrderIsUnique(a: seq<Row>, b: seq<Row>)
    requires InOrder(a) && InOrder(b)
    requires forall key: nat :: WithKey(a, key) == WithKey(b, key)
    ensures a == b
    decreases |a|
  {
    if a == [] {
      assert forall key: nat :: WithKey(b, key) == WithKey(a, key) == [];
      if b != [] { LastOfInstant(b); }
    } else {
      SameLast(a, b);
      var earlier, others, last := a[..|a| - 1], b[..|b| - 1], a[|a| - 1];
      assert a == earlier + [last] && b == others + [last];
      forall key: nat ensures WithKey(earlier, key) == WithKey(others, key) {
        assert WithKey(a, key) == WithKey(b, key);
        WithKeyStep(earlier, last, key);
        WithKeyStep(others, last, key);
        hide WithKey;
        Cancel(WithKey(earlier, key), WithKey(others, key), if last.key == key then [last] else []);
      }
      InOrderIsUnique(earlier, others);
    }
  }

  lemma Cancel<T>(x: seq<T>, y: seq<T>, z: seq<T>)
    requires x + z == y + z
    ensures x == y
  {
    assert |x + z| == |y + z|;
    assert (x + z)[..|x|] == x && (y + z)[..|y|] == y;
  }

  lemma LastIsLatest(rows: seq<Row>, i: nat)
    requires InOrder(rows) && i < |rows|
    ensures rows[i].key <= rows[|rows| - 1].key
  {
  }

  lemma SameLast(a: seq<Row>, b: seq<Row>)
    requires InOrder(a) && InOrder(b) && a != []
    requires forall key: nat :: WithKey(a, key) == WithKey(b, key)
    ensures b != [] && a[|a| - 1] == b[|b| - 1]
  {
    hide WithKey, InOrder;
    var last := a[|a| - 1];
    LastOfInstant(a);
    var i := FromInstant(b, last.key);
    LastOfInstant(b);
    var j := FromInstant(a, b[|b| - 1].key);
    LastIsLatest(b, i);
    LastIsLatest(a, j);
  }

  // ---- the ledger -------------------------------------------------------------------------------

  function Numbered(rows: seq<Row>, origin: nat): seq<Entry>
    requires forall i | 0 <= i < |rows| :: origin <= rows[i].key
  {
    if rows == [] then []
    else
      var earlier, last := rows[..|rows| - 1], rows[|rows| - 1];
      Numbered(earlier, origin)
      + [last.entry.(index := |rows|, atMillis := AsInt64((last.key - origin) / 1_000_000))]
  }

  function Origin(rows: seq<Row>): nat {
    if rows == [] then 0 else rows[0].key
  }

  lemma SortedFromOrigin(rows: seq<Row>)
    ensures InOrder(Sorted(rows))
    ensures forall i | 0 <= i < |Sorted(rows)| :: Origin(Sorted(rows)) <= Sorted(rows)[i].key
  {
    SortInOrder(rows);
  }

  function EntriesSince(w: World, mark: Mark): seq<Entry> {
    var rows := Sorted(Collected(w, mark));
    SortedFromOrigin(Collected(w, mark));
    Numbered(rows, Origin(rows))
  }

  /** `Ledger::since`. */
  method Since(chain: Chain, mark: Mark) returns (entries: seq<Entry>)
    ensures entries == EntriesSince(chain.world, mark)
  {
    hide RecordRow, EvmRow, RefusalRow, Sorted, OverHapi, BlockRows, HashRows, Hashes, Numbered, InOrder, Origin;
    var w := chain.world;
    var rows: seq<Row> := [];
    var records := Skip(w.records, mark.records);
    for i := 0 to |records|
      invariant rows == RecordRows(records[..i])
    {
      assert records[..i + 1][..i] == records[..i];
      rows := rows + [RecordRow(records[i])];
    }
    assert records[..|records|] == records;
    ghost var first := rows;
    NoBlocks(w, records);
    var blocks := Skip(w.blocks, mark.blocks);
    for i := 0 to |blocks|
      invariant rows == first + BlockRows(w, records, Hashes(blocks[..i]))
    {
      BlockStep(blocks, i);
      ghost var before := Hashes(blocks[..i]);
      var block := blocks[i];
      assert block[..0] == [] && before + [] == before;
      for j := 0 to |block|
        invariant rows == first + BlockRows(w, records, before + block[..j])
      {
        HashStep(w, records, before, block, j);
        if OverHapi(records, block[j]) || block[j] !in w.txs { continue; }
        rows := rows + [EvmRow(w, w.txs[block[j]])];
      }
      assert block[..|block|] == block;
    }
    assert blocks[..|blocks|] == blocks;
    ghost var second := rows;
    var skip := if mark.rejections < w.dropped then 0 else mark.rejections - w.dropped;
    var kept := Skip(w.rejections, skip);
    for i := 0 to |kept|
      invariant rows == second + RefusalRows(w, kept[..i])
    {
      assert kept[..i + 1][..i] == kept[..i];
      rows := rows + [RefusalRow(w, kept[i])];
    }
    assert kept[..|kept|] == kept;
    SortedFromOrigin(rows);
    entries := Renumber(Sorted(rows));
  }

  lemma NoBlocks(w: World, records: seq<Record>)
    ensures BlockRows(w, records, Hashes([])) == []
  {
  }

  lemma BlockStep(blocks: seq<seq<Hash>>, i: nat)
    requires i < |blocks|
    ensures Hashes(blocks[..i + 1]) == Hashes(blocks[..i]) + blocks[i]
  {
    assert blocks[..i + 1][..i] == blocks[..i];
  }

  lemma HashStep(w: World, records: seq<Record>, before: seq<Hash>, block: seq<Hash>, j: nat)
    requires j < |block|
    ensures BlockRows(w, records, before + block[..j + 1])
         == BlockRows(w, records, before + block[..j])
          + (if OverHapi(records, block[j]) || block[j] !in w.txs then [] else [EvmRow(w, w.txs[block[j]])])
  {
    var more := before + block[..j + 1];
    assert more[..|more| - 1] == before + block[..j];
  }

  /** The renumbering at the end of `since`. */
  method Renumber(rows: seq<Row>) returns (entries: seq<Entry>)
    requires InOrder(rows)
    ensures entries == Numbered(rows, Origin(rows))
  {
    var origin := Origin(rows);
    entries := [];
    for position := 0 to |rows|
      invariant entries == Numbered(rows[..position], origin)
    {
      assert rows[..position + 1][..position] == rows[..position];
      var Row(key, entry) := rows[position];
      entries := entries + [entry.(index := position + 1, atMillis := AsInt64((key - origin) / 1_000_000))];
    }
    assert rows[..|rows|] == rows;
  }

  lemma {:induction false} NumberedAt(rows: seq<Row>, origin: nat, i: nat)
    requires forall i | 0 <= i < |rows| :: origin <= rows[i].key
    ensures |Numbered(rows, origin)| == |rows|
    ensures i < |rows| ==>
              Numbered(rows, origin)[i]
              == rows[i].entry.(index := i + 1, atMillis := AsInt64((rows[i].key - origin) / 1_000_000))
    decreases |rows|
  {
    if rows != [] {
      NumberedAt(rows[..|rows| - 1], origin, i);
    }
  }

  /** Whole milliseconds from the first row. */
  function Distance(rows: seq<Row>, i: nat): nat
    requires InOrder(rows) && i < |rows|
  {
    assert rows[0].key <= rows[i].key;
    (rows[i].key - rows[0].key) / 1_000_000
  }

  /** The ledger spans less than 2^63 milliseconds. */
  predicate FitsInt64(rows: seq<Row>)
    requires InOrder(rows)
  {
    rows == [] || Distance(rows, |rows| - 1) <= MAX_I64
  }

  lemma DistancesGrow(rows: seq<Row>, i: nat, j: nat)
    requires InOrder(rows) && i <= j < |rows|
    ensures Distance(rows, i) <= Distance(rows, j)
  {
  }

  lemma EntriesAre(rows: seq<Row>)
    requires InOrder(rows)
    ensures var entries := Numbered(rows, Origin(rows));
            && |entries| == |rows|
            && forall i :: 0 <= i < |entries| ==>
                 entries[i] == rows[i].entry.(index := i + 1, atMillis := AsInt64(Distance(rows, i)))
  {
    NumberedAt(rows, Origin(rows), 0);
    forall i | 0 <= i < |rows|
      ensures Numbered(rows, Origin(rows))[i]
           == rows[i].entry.(index := i + 1, atMillis := AsInt64(Distance(rows, i)))
    {
      NumberedAt(rows, Origin(rows), i);
    }
  }

  /** Indices are 1..n; every offset is the true distance from the first row exactly when the ledger
      spans less than 2^63 milliseconds, and then offsets start at 0 and never decrease. */
  lemma OffsetsAreExact(rows: seq<Row>)
    requires InOrder(rows)
    ensures var entries := Numbered(rows, Origin(rows));
            && |entries| == |rows|
            && (forall i :: 0 <= i < |entries| ==> entries[i].index == i + 1)
            && ((forall i :: 0 <= i < |entries| ==> entries[i].atMillis == Distance(rows, i)) <==> FitsInt64(rows))
            && (FitsInt64(rows) ==>
                  && (entries != [] ==> entries[0].atMillis == 0)
                  && (forall i, j :: 0 <= i < j < |entries| ==> entries[i].atMillis <= entries[j].atMillis))
  {
    var entries := Numbered(rows, Origin(rows));
    EntriesAre(rows);
    hide Numbered;
    if rows != [] {
      assert Distance(rows, 0) == 0;
      hide Distance, InOrder, AsInt64;
      AsInt64IsExact(Distance(rows, |rows| - 1));
      assert entries[|rows| - 1].atMillis == AsInt64(Distance(rows, |rows| - 1));
      if FitsInt64(rows) {
        forall i | 0 <= i < |rows| ensures entries[i].atMillis == Distance(rows, i) {
          DistancesGrow(rows, i, |rows| - 1);
          AsInt64IsExact(Distance(rows, i));
        }
        forall i, j | 0 <= i < j < |rows| ensures Distance(rows, i) <= Distance(rows, j) {
          DistancesGrow(rows, i, j);
        }
      }
    }
  }

  lemma AsInt64IsExact(n: nat)
    ensures AsInt64(n) == n <==> n <= MAX_I64
  {
  }

  /** Two refusals 2^63 milliseconds apart: the later one is shown before the start. */
  lemma OffsetsWrap(w: World, r: Rejection)
    ensures var rows := [RefusalRow(w, r.(at := Timestamp(0, 0))),
                         RefusalRow(w, r.(at := Timestamp(9223372036854775, 808_000_000)))];
            && Sorted(rows) == rows && |Numbered(rows, 0)| == 2
            && Numbered(rows, 0)[1].atMillis == -0x8000_0000_0000_0000
  {
    var first, last := RefusalRow(w, r.(at := Timestamp(0, 0))),
                       RefusalRow(w, r.(at := Timestamp(9223372036854775, 808_000_000)));
    assert first.key == 0 && last.key == 9223372036854775808 * 1_000_000;
    TwoInOrder(first, last);
    assert AsInt64(9223372036854775808) == -0x8000_0000_0000_0000;
    hide RefusalRow, AsInt64, Sorted, Numbered;
    NumberedAt([first, last], 0, 1);
  }

  lemma TwoInOrder(a: Row, b: Row)
    requires a.key <= b.key
    ensures Sorted([a, b]) == [a, b]
  {
    assert [a, b][..1] == [a] && [a][..0] == [];
    assert Sorted([a]) == [a];
    assert Sorted([a, b]) == Place([a], b);
  }

  // ---- what happened to the chain after the mark ------------------------------------------------

  /** One thing that can happen to a chain: a record is stored, blocks are mined, a submission is
      refused, or anything else changes. */
  datatype Step =
    | Recorded(record: Record)
    | MinedBlocks(blocks: seq<seq<Hash>>)
    | Turned(rejection: Rejection)
    | Changed(world: World)

  function Take(w: World, step: Step): World {
    match step
    case Recorded(record) => Store(w, record)
    case MinedBlocks(blocks) => w.(blocks := w.blocks + blocks)
    case Turned(rejection) => Rejected(w, rejection)
    case Changed(v) => v.(records := w.records, byId := w.byId, blocks := w.blocks,
                          rejections := w.rejections, dropped := w.dropped,
                          maxRejections := w.maxRejections)
  }

  function After(w: World, steps: seq<Step>): World {
    if steps == [] then w else Take(After(w, steps[..|steps| - 1]), steps[|steps| - 1])
  }

  function RecordsIn(steps: seq<Step>): seq<Record> {
    if steps == [] then []
    else
      var last := steps[|steps| - 1];
      RecordsIn(steps[..|steps| - 1]) + (if last.Recorded? then [last.record] else [])
  }

  function BlocksIn(steps: seq<Step>): seq<seq<Hash>> {
    if steps == [] then []
    else
      var last := steps[|steps| - 1];
      BlocksIn(steps[..|steps| - 1]) + (if last.MinedBlocks? then last.blocks else [])
  }

  function RefusalsIn(steps: seq<Step>): seq<Rejection> {
    if steps == [] then []
    else
      var last := steps[|steps| - 1];
      RefusalsIn(steps[..|steps| - 1]) + (if last.Turned? then [Clipped(last.rejection)] else [])
  }

  /** What a cap leaves of a list; 0 is no cap. */
  function Capped<T>(all: seq<T>, cap: nat): seq<T> {
    if cap == 0 then all else Newest(all, cap)
  }

  lemma CappedGrows<T>(all: seq<T>, x: T, cap: nat)
    ensures Capped(Capped(all, cap) + [x], cap) == Capped(all + [x], cap)
  {
  }

  lemma StepLogs(w: World, step: Step)
    ensures var v := Take(w, step);
            && v.records == w.records + (if step.Recorded? then [step.record] else [])
            && v.blocks == w.blocks + (if step.MinedBlocks? then step.blocks else [])
            && v.maxRejections == w.maxRejections
            && RefusalsSeen(v) == RefusalsSeen(w) + (if step.Turned? then 1 else 0)
            && v.rejections == (if step.Turned? then Capped(w.rejections + [Clipped(step.rejection)], w.maxRejections)
                                else w.rejections)
  {
  }

  lemma {:induction false} HistoryAfter(c: World, steps: seq<Step>)
    ensures var w := After(c, steps);
            && w.records == c.records + RecordsIn(steps)
            && w.blocks == c.blocks + BlocksIn(steps)
            && w.maxRejections == c.maxRejections
            && RefusalsSeen(w) == RefusalsSeen(c) + |RefusalsIn(steps)|
  {
    if steps != [] {
      hide Take, RefusalsSeen, Capped;
      HistoryAfter(c, steps[..|steps| - 1]);
      StepLogs(After(c, steps[..|steps| - 1]), steps[|steps| - 1]);
    }
  }

  /** What the cap leaves of the refusals kept at the mark and those made since. A list that was over
      the cap already, as one loaded with a smaller cap is, stays until the first refusal. */
  function CappedSince<T>(kept: seq<T>, since: seq<T>, cap: nat): seq<T> {
    if since == [] then kept else Capped(kept + since, cap)
  }

  lemma CappedSinceGrows<T>(kept: seq<T>, since: seq<T>, x: T, cap: nat)
    ensures Capped(CappedSince(kept, since, cap) + [x], cap) == CappedSince(kept, since + [x], cap)
  {
    CappedGrows(kept + since, x, cap);
    hide Capped;
    assert (kept + since) + [x] == kept + (since + [x]);
    if since == [] { assert kept + since == kept; }
  }

  lemma {:induction false} RefusalsAfter(c: World, steps: seq<Step>)
    ensures After(c, steps).rejections == CappedSince(c.rejections, RefusalsIn(steps), c.maxRejections)
  {
    if steps != [] {
      hide Take, RefusalsSeen, Capped, CappedSince, Clipped;
      var earlier, last := steps[..|steps| - 1], steps[|steps| - 1];
      RefusalsAfter(c, earlier);
      HistoryAfter(c, earlier);
      StepLogs(After(c, earlier), last);
      if last.Turned? {
        CappedSinceGrows(c.rejections, RefusalsIn(earlier), Clipped(last.rejection), c.maxRejections);
      }
    }
  }

  /** Whatever steps follow the mark, and however many refusals the cap drops meanwhile, the rows are
      the records stored since, the transactions mined since that none of those records carries,
      and the refusals made since that the cap still holds. */
  lemma SinceIsTheSteps(c: World, steps: seq<Step>)
    ensures var w := After(c, steps);
            Collected(w, MarkOf(c))
            == RecordRows(RecordsIn(steps))
             + BlockRows(w, RecordsIn(steps), Hashes(BlocksIn(steps)))
             + RefusalRows(w, Capped(RefusalsIn(steps), c.maxRejections))
  {
    var w := After(c, steps);
    HistoryAfter(c, steps);
    RefusalsAfter(c, steps);
    hide After, RecordsIn, BlocksIn, RefusalsIn;
    assert Skip(w.records, |c.records|) == RecordsIn(steps);
    assert Skip(w.blocks, |c.blocks|) == BlocksIn(steps);
    KeptAreTheNewest(c, w, RefusalsIn(steps));
  }

  lemma KeptAreTheNewest(c: World, w: World, since: seq<Rejection>)
    requires RefusalsSeen(w) == RefusalsSeen(c) + |since|
    requires w.rejections == CappedSince(c.rejections, since, c.maxRejections)
    ensures Kept(w, MarkOf(c)) == Capped(since, c.maxRejections)
  {
  }

  // ---- a submission is such a step --------------------------------------------------------------

  /** An EVM that only ever adds blocks. */
  ghost predicate MinesForward(sendRaw: SendRaw) {
    forall w, rlp, now :: sendRaw(w, rlp, now).Mined? ==> w.blocks <= sendRaw(w, rlp, now).blocks
  }

  function StepsOf(w: World, s: Submission): seq<Step> {
    var (w1, outcome) := Taken(w, s);
    match outcome
    case Ok(record) =>
      [Changed(w1), MinedBlocks(Skip(w1.blocks, |w.blocks|)), Recorded(record)]
    case Err(status) =>
      var (kind, payer) := Identify(s.envelope, s.node);
      [Turned(Rejection(s.now, kind, payer, Some(status), None, ""))]
  }

  lemma AfterOne(w: World, a: Step)
    ensures After(w, [a]) == Take(w, a)
  {
  }

  lemma AfterThree(w: World, a: Step, b: Step, c: Step)
    ensures After(w, [a, b, c]) == Take(Take(Take(w, a), b), c)
  {
    hide Take;
    AfterOne(w, a);
    assert [a, b, c][..2] == [a, b] && [a, b][..1] == [a];
  }

  lemma SubmissionIsSteps(w: World, s: Submission)
    requires MinesForward(s.node.sendRaw)
    ensures After(w, StepsOf(w, s)) == Taken(w, s).0
  {
    hide After, Precheck, Identify, Applied;
    match Precheck(w, s.envelope, s.now, s.verify, s.node)
    case Err(status) =>
      var (kind, payer) := Identify(s.envelope, s.node);
      AfterOne(w, Turned(Rejection(s.now, kind, payer, Some(status), None, "")));
    case Ok(tx) =>
      AppliedKeepsLog(w, tx, s.now, s.node.sendRaw);
      AppliedMinesForward(w, tx, s.now, s.node.sendRaw);
      var (w1, record) := Applied(w, tx, s.now, s.node.sendRaw);
      AfterThree(w, Changed(w1), MinedBlocks(Skip(w1.blocks, |w.blocks|)), Recorded(record));
      assert w.blocks + Skip(w1.blocks, |w.blocks|) == w1.blocks;
  }

  function StepsOfRun(w: World, submissions: seq<Submission>): seq<Step> {
    if |submissions| == 0 then []
    else
      var earlier := submissions[..|submissions| - 1];
      StepsOfRun(w, earlier) + StepsOf(Run(w, earlier).0, submissions[|submissions| - 1])
  }

  lemma {:induction false} AfterBoth(w: World, a: seq<Step>, b: seq<Step>)
    ensures After(w, a + b) == After(After(w, a), b)
  {
    hide Take;
    if b == [] {
      assert a + b == a;
    } else {
      AfterBoth(w, a, b[..|b| - 1]);
      assert (a + b)[..|a + b| - 1] == a + b[..|b| - 1];
    }
  }

  /** So the ledger of any run of submissions is what `SinceIsTheSteps` says it is. */
  lemma {:induction false} RunIsSteps(w: World, submissions: seq<Submission>)
    requires forall s <- submissions :: MinesForward(s.node.sendRaw)
    ensures After(w, StepsOfRun(w, submissions)) == Run(w, submissions).0
  {
    if |submissions| != 0 {
      hide After, Taken, StepsOf, MinesForward;
      var earlier, last := submissions[..|submissions| - 1], submissions[|submissions| - 1];
      RunIsSteps(w, earlier);
      var w1 := Run(w, earlier).0;
      SubmissionIsSteps(w1, last);
      AfterBoth(w, StepsOfRun(w, earlier), StepsOf(w1, last));
    }
  }

  lemma AppliedMinesForward(w: World, tx: Transaction, now: Timestamp, sendRaw: SendRaw)
    requires MinesForward(sendRaw)
    ensures var (w1, _) := Applied(w, tx, now, sendRaw);
            w.blocks <= w1.blocks && w1.maxRejections == w.maxRejections
  {
    if tx.body.Ethereum? {
      assert ChargeFee(w, tx.id.payer).blocks == w.blocks;
    } else {
      var at := NextConsensus(w, now);
      BodyKeepsHistory(ChargeFee(w.(lastConsensus := at), tx.id.payer), tx.id.payer, tx.body, at);
    }
  }

  // ---- the counts -------------------------------------------------------------------------------

  function CountOf(entries: seq<Entry>, outcome: Outcome): nat {
    if entries == [] then 0
    else CountOf(entries[..|entries| - 1], outcome) + (if entries[|entries| - 1].outcome == outcome then 1 else 0)
  }

  datatype Summary = Summary(transactions: nat, succeeded: int, failed: nat, rejected: nat)

  /** `counts`: successes are what is left over. */
  function Counts(entries: seq<Entry>): Summary {
    var rejected, failed := CountOf(entries, Refused), CountOf(entries, Outcome.Failed);
    Summary(|entries|, |entries| - rejected - failed, failed, rejected)
  }

  lemma {:induction false} CountsAddUp(entries: seq<Entry>)
    ensures CountOf(entries, Succeeded) + CountOf(entries, Outcome.Failed) + CountOf(entries, Refused) == |entries|
    ensures Counts(entries).succeeded == CountOf(entries, Succeeded)
  {
    if entries != [] { CountsAddUp(entries[..|entries| - 1]); }
  }

  function RowCount(rows: seq<Row>, outcome: Outcome): nat {
    if rows == [] then 0
    else RowCount(rows[..|rows| - 1], outcome) + (if rows[|rows| - 1].entry.outcome == outcome then 1 else 0)
  }

  lemma {:induction false} RowCountSplits(a: seq<Row>, b: seq<Row>, outcome: Outcome)
    ensures RowCount(a + b, outcome) == RowCount(a, outcome) + RowCount(b, outcome)
  {
    if b == [] {
      assert a + b == a;
    } else {
      RowCountSplits(a, b[..|b| - 1], outcome);
      assert (a + b)[..|a + b| - 1] == a + b[..|b| - 1];
    }
  }

  lemma {:induction false} PlaceCounts(rows: seq<Row>, row: Row, outcome: Outcome)
    ensures RowCount(Place(rows, row), outcome) == RowCount(rows, outcome) + RowCount([row], outcome)
  {
    if rows == [] || rows[|rows| - 1].key <= row.key {
      RowCountSplits(rows, [row], outcome);
    } else {
      var earlier, last := rows[..|rows| - 1], rows[|rows| - 1];
      PlaceCounts(earlier, row, outcome);
      RowCountSplits(Place(earlier, row), [last], outcome);
      assert [last][..0] == [];
    }
  }

  lemma {:induction false} SortCounts(rows: seq<Row>, outcome: Outcome)
    ensures RowCount(Sorted(rows), outcome) == RowCount(rows, outcome)
  {
    if rows != [] {
      var earlier, last := rows[..|rows| - 1], rows[|rows| - 1];
      SortCounts(earlier, outcome);
      PlaceCounts(Sorted(earlier), last, outcome);
      assert [last][..0] == [];
    }
  }

  lemma {:induction false} NumberedCounts(rows: seq<Row>, origin: nat, outcome: Outcome)
    requires forall i | 0 <= i < |rows| :: origin <= rows[i].key
    ensures CountOf(Numbered(rows, origin), outcome) == RowCount(rows, outcome)
  {
    if rows != [] { NumberedCounts(rows[..|rows| - 1], origin, outcome); }
  }

  lemma {:induction false} RefusalRowsAreRefused(w: World, refusals: seq<Rejection>)
    ensures RowCount(RefusalRows(w, refusals), Refused) == |refusals|
  {
    if refusals != [] { RefusalRowsAreRefused(w, refusals[..|refusals| - 1]); }
  }

  lemma {:induction false} RecordRowsReachConsensus(records: seq<Record>)
    ensures RowCount(RecordRows(records), Refused) == 0
  {
    if records != [] { RecordRowsReachConsensus(records[..|records| - 1]); }
  }

  lemma {:induction false} BlockRowsReachConsensus(w: World, records: seq<Record>, hashes: seq<Hash>)
    ensures RowCount(BlockRows(w, records, hashes), Refused) == 0
  {
    if hashes != [] {
      var earlier, last := hashes[..|hashes| - 1], hashes[|hashes| - 1];
      BlockRowsReachConsensus(w, records, earlier);
      RowCountSplits(BlockRows(w, records, earlier), HashRows(w, records, last), Refused);
      assert HashRows(w, records, last) != [] ==> HashRows(w, records, last)[..0] == [];
    }
  }

  /** The rejected count is the number of refusals that the mark finds. */
  lemma RejectedIsKept(w: World, mark: Mark)
    ensures Counts(EntriesSince(w, mark)).rejected == |Kept(w, mark)|
  {
    var kept, records, hashes := Kept(w, mark), Skip(w.records, mark.records), Hashes(Skip(w.blocks, mark.blocks));
    hide Kept, Skip, Hashes;
    var rows := Collected(w, mark);
    RowCountSplits(RecordRows(records) + BlockRows(w, records, hashes), RefusalRows(w, kept), Refused);
    RowCountSplits(RecordRows(records), BlockRows(w, records, hashes), Refused);
    RefusalRowsAreRefused(w, kept);
    RecordRowsReachConsensus(records);
    BlockRowsReachConsensus(w, records, hashes);
    SortCounts(rows, Refused);
    SortedFromOrigin(rows);
    NumberedCounts(Sorted(rows), Origin(Sorted(rows)), Refused);
  }

  function FailedRecords(records: seq<Record>): nat {
    if records == [] then 0
    else FailedRecords(records[..|records| - 1]) + (if records[|records| - 1].status != Success then 1 else 0)
  }

  /** Transactions that no record carries and whose call did not succeed. */
  function FailedCalls(w: World, records: seq<Record>, hashes: seq<Hash>): nat {
    if hashes == [] then 0
    else
      var last := hashes[|hashes| - 1];
      FailedCalls(w, records, hashes[..|hashes| - 1])
      + (if !OverHapi(records, last) && last in w.txs && !w.txs[last].success then 1 else 0)
  }

  lemma {:induction false} RecordRowsFail(records: seq<Record>)
    ensures RowCount(RecordRows(records), Outcome.Failed) == FailedRecords(records)
  {
    if records != [] { RecordRowsFail(records[..|records| - 1]); }
  }

  lemma {:induction false} BlockRowsFail(w: World, records: seq<Record>, hashes: seq<Hash>)
    ensures RowCount(BlockRows(w, records, hashes), Outcome.Failed) == FailedCalls(w, records, hashes)
  {
    if hashes != [] {
      var earlier, last := hashes[..|hashes| - 1], hashes[|hashes| - 1];
      BlockRowsFail(w, records, earlier);
      RowCountSplits(BlockRows(w, records, earlier), HashRows(w, records, last), Outcome.Failed);
      assert HashRows(w, records, last) != [] ==> HashRows(w, records, last)[..0] == [];
    }
  }

  lemma {:induction false} RefusalRowsDoNotFail(w: World, refusals: seq<Rejection>)
    ensures RowCount(RefusalRows(w, refusals), Outcome.Failed) == 0
  {
    if refusals != [] { RefusalRowsDoNotFail(w, refusals[..|refusals| - 1]); }
  }

  /** The failed count is that of the failed records the mark finds and of the failed calls that none of
      those records carries. */
  lemma FailedIsListed(w: World, mark: Mark)
    ensures var records := Skip(w.records, mark.records);
            Counts(EntriesSince(w, mark)).failed
            == FailedRecords(records) + FailedCalls(w, records, Hashes(Skip(w.blocks, mark.blocks)))
  {
    var kept, records, hashes := Kept(w, mark), Skip(w.records, mark.records), Hashes(Skip(w.blocks, mark.blocks));
    hide Kept, Skip, Hashes;
    var rows := Collected(w, mark);
    RowCountSplits(RecordRows(records) + BlockRows(w, records, hashes), RefusalRows(w, kept), Outcome.Failed);
    RowCountSplits(RecordRows(records), BlockRows(w, records, hashes), Outcome.Failed);
    RecordRowsFail(records);
    BlockRowsFail(w, records, hashes);
    RefusalRowsDoNotFail(w, kept);
    SortCounts(rows, Outcome.Failed);
    SortedFromOrigin(rows);
    NumberedCounts(Sorted(rows), Origin(Sorted(rows)), Outcome.Failed);
  }

  // ---- a refusal that came back -----------------------------------------------------------------

  type Cause = (string, string)

  function CauseOf(entry: Entry): Cause {
    (entry.kind, entry.answer)
  }

  function Times(entries: seq<Entry>, cause: Cause): nat {
    if entries == [] then 0
    else
      var last := entries[|entries| - 1];
      Times(entries[..|entries| - 1], cause)
      + (if last.outcome == Refused && CauseOf(last) == cause then 1 else 0)
  }

  /** The refused entries of this kind and answer. */
  ghost function RefusedWith(entries: seq<Entry>, kind: string, answer: string): set<nat> {
    set i | 0 <= i < |entries| && entries[i].outcome == Refused && entries[i].kind == kind
            && entries[i].answer == answer
  }

  lemma {:induction false} TimesCounts(entries: seq<Entry>, kind: string, answer: string)
    ensures Times(entries, (kind, answer)) == |RefusedWith(entries, kind, answer)|
  {
    if entries != [] {
      var n := |entries| - 1;
      TimesCounts(entries[..n], kind, answer);
      var before, now := RefusedWith(entries[..n], kind, answer), RefusedWith(entries, kind, answer);
      if n in now {
        assert now == before + {n};
      } else {
        assert now == before;
      }
    }
  }

  ghost predicate Tallies(counts: map<Cause, nat>, entries: seq<Entry>) {
    forall cause :: (cause in counts <==> Times(entries, cause) > 0)
                    && (cause in counts ==> counts[cause] == Times(entries, cause))
  }

  /** The `tally` closure. */
  method Tally(entries: seq<Entry>) returns (counts: map<Cause, nat>)
    ensures Tallies(counts, entries)
  {
    counts := map[];
    for i := 0 to |entries|
      invariant Tallies(counts, entries[..i])
    {
      assert entries[..i + 1][..i] == entries[..i];
      if entries[i].outcome == Refused {
        var cause := CauseOf(entries[i]);
        counts := counts[cause := (if cause in counts then counts[cause] else 0) + 1];
      }
    }
    assert entries[..|entries|] == entries;
  }

  /** The order of the tally's keys. */
  predicate CauseLess(a: Cause, b: Cause) {
    Text.Less(a.0, b.0) || (a.0 == b.0 && Text.Less(a.1, b.1))
  }

  ghost predicate CausesInOrder(causes: seq<Cause>) {
    forall i, j | 0 <= i < j < |causes| :: CauseLess(causes[i], causes[j])
  }

  lemma CauseLessTransitive(a: Cause, b: Cause, c: Cause)
    requires CauseLess(a, b) && CauseLess(b, c)
    ensures CauseLess(a, c)
  {
    if Text.Less(a.0, b.0) && Text.Less(b.0, c.0) { Text.LessTransitive(a.0, b.0, c.0); }
    if Text.Less(a.1, b.1) && Text.Less(b.1, c.1) { Text.LessTransitive(a.1, b.1, c.1); }
  }

  function InsertCause(cause: Cause, causes: seq<Cause>): seq<Cause> {
    if causes == [] then [cause]
    else if CauseLess(cause, causes[0]) then [cause] + causes
    else [causes[0]] + InsertCause(cause, causes[1..])
  }

  lemma {:induction false} InsertCauseMembers(cause: Cause, causes: seq<Cause>, x: Cause)
    ensures x in InsertCause(cause, causes) <==> x == cause || x in causes
  {
    if causes != [] && !CauseLess(cause, causes[0]) {
      InsertCauseMembers(cause, causes[1..], x);
      assert causes == [causes[0]] + causes[1..];
    }
  }

  lemma {:induction false} InsertCauseInOrder(cause: Cause, causes: seq<Cause>)
    requires CausesInOrder(causes) && cause !in causes
    ensures CausesInOrder(InsertCause(cause, causes))
  {
    if causes != [] {
      var first, rest := causes[0], causes[1..];
      hide CauseLess;
      if CauseLess(cause, first) {
        forall i | 0 <= i < |causes| ensures CauseLess(cause, causes[i]) {
          if i > 0 { CauseLessTransitive(cause, first, causes[i]); }
        }
      } else {
        CauseLessTotal(cause, first);
        InsertCauseInOrder(cause, rest);
        var after := InsertCause(cause, rest);
        forall i | 0 <= i < |after| ensures CauseLess(first, after[i]) {
          InsertCauseMembers(cause, rest, after[i]);
        }
      }
    }
  }

  lemma CauseLessTotal(a: Cause, b: Cause)
    ensures a == b || CauseLess(a, b) || CauseLess(b, a)
  {
    Text.LessTotal(a.0, b.0);
    Text.LessTotal(a.1, b.1);
  }

  const RESULT_WIDTH := 56

  /** `clip`. */
  function Clip(result: string): string {
    if |result| <= RESULT_WIDTH then result else Text.TrimEnd(result[..RESULT_WIDTH - 1]) + "\U{2026}"
  }

  function Line(cause: Cause, count: nat): string {
    Text.Decimal(count) + "\U{00D7} " + cause.0 + " \U{2014} " + Clip(cause.1)
  }

  /** A line shows how often, which kind and which answer, an answer of over 56 characters cut to 55, less the
      white space it then ends in, and a mark. */
  lemma LineSays(cause: Cause, count: nat) returns (shown: string)
    ensures Line(cause, count) == Text.Decimal(count) + "\U{00D7} " + cause.0 + " \U{2014} " + shown
    ensures |cause.1| <= 56 ==> shown == cause.1
    ensures |cause.1| > 56 ==>
              && shown != "" && shown[|shown| - 1] == '\U{2026}'
              && (var kept := shown[..|shown| - 1];
                  && |kept| <= 55 && kept == cause.1[..|kept|]
                  && (kept == "" || !Text.IsWhite(kept[|kept| - 1]))
                  && Text.AllWhite(cause.1[|kept|..55]))
  {
    shown := Clip(cause.1);
    if |cause.1| > 56 {
      Text.TrimEndKeeps(cause.1[..55]);
      var kept := Text.TrimEnd(cause.1[..55]);
      assert shown[..|shown| - 1] == kept && cause.1[..55][|kept|..] == cause.1[|kept|..55];
    }
    hide Text.Decimal;
  }

  function Lines(causes: seq<Cause>, now: seq<Entry>): string {
    if causes == [] then ""
    else
      var earlier, last := causes[..|causes| - 1], causes[|causes| - 1];
      (if earlier == [] then "" else Lines(earlier, now) + "; ") + Line(last, Times(now, last))
  }

  /** Line after line, `; ` between two of them. */
  function Shown(causes: seq<Cause>, now: seq<Entry>): string {
    if |causes| == 0 then ""
    else if |causes| == 1 then Line(causes[0], Times(now, causes[0]))
    else Line(causes[0], Times(now, causes[0])) + "; " + Shown(causes[1..], now)
  }

  lemma {:induction false} LinesAreShown(causes: seq<Cause>, now: seq<Entry>)
    ensures Lines(causes, now) == Shown(causes, now)
    decreases |causes|
  {
    hide Line, Times;
    if |causes| > 1 {
      var n := |causes| - 1;
      LinesAreShown(causes[..n], now);
      ShownMore(causes, now);
    } else if |causes| == 1 {
      assert causes[..0] == [];
    }
  }

  lemma {:induction false} ShownMore(causes: seq<Cause>, now: seq<Entry>)
    requires |causes| > 1
    ensures var n := |causes| - 1;
            Shown(causes, now) == Shown(causes[..n], now) + "; " + Line(causes[n], Times(now, causes[n]))
  {
    hide Line, Times;
    if |causes| > 2 {
      ShownMore(causes[1..], now);
      assert causes[1..][..|causes| - 2] == causes[..|causes| - 1][1..];
    }
  }

  /** The causes both tallies have, in order. */
  method CommonCauses(current: map<Cause, nat>, before: map<Cause, nat>) returns (common: seq<Cause>)
    ensures CausesInOrder(common)
    ensures forall cause :: cause in common <==> cause in current && cause in before
  {
    hide CauseLess;
    var keys := current.Keys * before.Keys;
    common := [];
    while keys != {}
      invariant keys <= current.Keys * before.Keys && CausesInOrder(common)
      invariant forall cause :: cause in common <==> cause in current && cause in before && cause !in keys
      decreases |keys|
    {
      var cause :| cause in keys;
      InsertCauseInOrder(cause, common);
      forall x ensures x in InsertCause(cause, common) <==> x == cause || x in common {
        InsertCauseMembers(cause, common, x);
      }
      hide CausesInOrder;
      common := InsertCause(cause, common);
      keys := keys - {cause};
    }
  }

  method Joined(causes: seq<Cause>, now: seq<Entry>, current: map<Cause, nat>) returns (text: string)
    requires forall cause :: cause in causes ==> cause in current && current[cause] == Times(now, cause)
    ensures text == Lines(causes, now)
  {
    hide Line, Times;
    text := "";
    for i := 0 to |causes|
      invariant text == Lines(causes[..i], now)
    {
      assert causes[..i + 1][..i] == causes[..i];
      assert causes[i] in causes;
      if i > 0 { text := text + "; "; }
      text := text + Line(causes[i], current[causes[i]]);
    }
    assert causes[..|causes|] == causes;
  }

  /** The causes refused in both lists, in order. */
  ghost predicate Repeats(causes: seq<Cause>, now: seq<Entry>, previous: seq<Entry>) {
    && CausesInOrder(causes)
    && forall cause :: cause in causes <==> Times(now, cause) > 0 && Times(previous, cause) > 0
  }

  /** `repeated_from`: the causes of this attempt's refusals that the last attempt was refused for
      too, in order, each with how often it happened now; nothing exactly when no cause came back. */
  method RepeatedFrom(now: seq<Entry>, previous: seq<Entry>) returns (repeated: Option<string>)
    ensures repeated.None? ==> Repeats([], now, previous)
    ensures repeated.Some? ==> exists causes :: Repeats(causes, now, previous) && |causes| > 0
                                                && repeated.value == Shown(causes, now)
  {
    hide Times, CausesInOrder, Lines, Shown;
    var current := Tally(now);
    var before := Tally(previous);
    var common := CommonCauses(current, before);
    assert Repeats(common, now, previous);
    if |common| == 0 {
      assert common == [];
      return None;
    }
    var text := Joined(common, now, current);
    LinesAreShown(common, now);
    repeated := Some(text);
  }
}
