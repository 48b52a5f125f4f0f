/** The ledger of `src/harness/ledger.rs` told by what is in it: records, calls and refusals in consensus
    order, stated without the rows and keys it is built from. */
module Chronicle {
  import opened Wrappers
  import opened Evm
  import opened State
  import L = Ledger

  /** One thing a ledger has an entry for. */
  datatype Item = OfRecord(record: Record) | OfCall(call: EvmTx) | OfRefusal(refusal: Rejection)

  function InstantOf(item: Item): Timestamp {
    match item
    case OfRecord(record) => record.at
    case OfCall(call) => call.at
    case OfRefusal(refusal) => refusal.at
  }

  function Nanoseconds(t: Timestamp): nat {
    1_000_000_000 * t.secs + t.nanos
  }

  /** A nanosecond part below a second. */
  predicate Proper(t: Timestamp) {
    t.nanos < 1_000_000_000
  }

  /** Whole milliseconds from one instant to another. */
  function MillisBetween(from: Timestamp, to: Timestamp): int {
    1000 * (to.secs - from.secs) + (to.nanos - from.nanos) / 1_000_000
  }

  // ---- what there is to tell --------------------------------------------------------------------

  function Stored(records: seq<Record>): seq<Item> {
    if records == [] then [] else [OfRecord(records[0])] + Stored(records[1..])
  }

  function Turned(refusals: seq<Rejection>): seq<Item> {
    if refusals == [] then [] else [OfRefusal(refusals[0])] + Turned(refusals[1..])
  }

  /** No record of the ledger is of this call; an empty hash links nothing. */
  ghost predicate Uncarried(records: seq<Record>, hash: Hash) {
    |hash| > 0 ==> forall record <- records :: record.ethereumHash != hash
  }

  ghost function Calls(w: World, records: seq<Record>, hashes: seq<Hash>): seq<Item> {
    if hashes == [] then []
    else (if hashes[0] in w.txs && Uncarried(records, hashes[0]) then [OfCall(w.txs[hashes[0]])] else [])
         + Calls(w, records, hashes[1..])
  }

  function Flat(blocks: seq<seq<Hash>>): seq<Hash> {
    if |blocks| == 0 then [] else blocks[0] + Flat(blocks[1..])
  }

  /** The records since the mark, the calls mined since that none of them carries, the refusals kept. */
  ghost function ItemsSince(w: World, mark: L.Mark): seq<Item> {
    var records := L.Skip(w.records, mark.records);
    Stored(records) + Calls(w, records, Flat(L.Skip(w.blocks, mark.blocks))) + Turned(L.Kept(w, mark))
  }

  /** The sender's account, when it has one. */
  ghost predicate PaidBy(w: World, payer: L.Payer, from: Address) {
    payer == if from in w.byEvm && w.byEvm[from] in w.accounts then L.Number(w.byEvm[from]) else L.EvmAddress(from)
  }

  /** The entry says of the item what happened, who paid, how it ended and what it cost. */
  ghost predicate Tells(w: World, entry: L.Entry, item: Item) {
    match item
    case OfRecord(record) =>
      && entry.kind == KindName(record.kind) && entry.payer == L.Number(record.id.payer)
      && entry.outcome == (if record.status == Success then L.Succeeded else L.Outcome.Failed)
      && entry.answer == StatusName(record.status) && entry.fee == record.fee
    case OfCall(call) =>
      && entry.kind == "ETHEREUMTRANSACTION" && PaidBy(w, entry.payer, call.from)
      && entry.outcome == (if call.success then L.Succeeded else L.Outcome.Failed)
      && entry.answer == (if call.success then "SUCCESS" else call.result) && entry.fee == call.fee
    case OfRefusal(refusal) =>
      && entry.kind == (if refusal.kind.Some? then KindName(refusal.kind.value) else "UNKNOWN")
      && (if refusal.payer.Some? then entry.payer == L.Number(refusal.payer.value)
          else if refusal.from.Some? then PaidBy(w, entry.payer, refusal.from.value)
          else entry.payer == L.NobodyKnown)
      && entry.outcome == L.Refused && entry.fee == 0
      && entry.answer == (if refusal.status.Some? then StatusName(refusal.status.value) else refusal.message)
  }

  // ---- the rows are the items -------------------------------------------------------------------

  ghost predicate RowOf(w: World, row: L.Row, item: Item) {
    row.key == Nanoseconds(InstantOf(item)) && Tells(w, row.entry, item)
  }

  ghost predicate RowsOf(w: World, rows: seq<L.Row>, items: seq<Item>) {
    |rows| == |items| && forall i :: 0 <= i < |rows| ==> RowOf(w, rows[i], items[i])
  }

  lemma RecordRowIs(w: World, record: Record)
    ensures RowOf(w, L.RecordRow(record), OfRecord(record))
  {
  }

  lemma EvmRowIs(w: World, call: EvmTx)
    ensures RowOf(w, L.EvmRow(w, call), OfCall(call))
  {
  }

  lemma RefusalRowIs(w: World, refusal: Rejection)
    ensures RowOf(w, L.RefusalRow(w, refusal), OfRefusal(refusal))
  {
  }

  lemma RowsOfBoth(w: World, a: seq<L.Row>, x: seq<Item>, b: seq<L.Row>, y: seq<Item>)
    requires RowsOf(w, a, x) && RowsOf(w, b, y)
    ensures RowsOf(w, a + b, x + y)
  {
    hide RowOf;
  }

  lemma {:induction false} StoredMore(records: seq<Record>)
    requires records != []
    ensures Stored(records) == Stored(records[..|records| - 1]) + [OfRecord(records[|records| - 1])]
  {
    if |records| > 1 {
      StoredMore(records[1..]);
      assert records[1..][..|records| - 2] == records[..|records| - 1][1..];
    }
  }

  lemma {:induction false} TurnedMore(refusals: seq<Rejection>)
    requires refusals != []
    ensures Turned(refusals) == Turned(refusals[..|refusals| - 1]) + [OfRefusal(refusals[|refusals| - 1])]
  {
    if |refusals| > 1 {
      TurnedMore(refusals[1..]);
      assert refusals[1..][..|refusals| - 2] == refusals[..|refusals| - 1][1..];
    }
  }

  lemma {:induction false} CallsMore(w: World, records: seq<Record>, hashes: seq<Hash>)
    requires hashes != []
    ensures Calls(w, records, hashes)
         == Calls(w, records, hashes[..|hashes| - 1]) + Calls(w, records, [hashes[|hashes| - 1]])
  {
    if |hashes| > 1 {
      CallsMore(w, records, hashes[1..]);
      assert hashes[1..][..|hashes| - 2] == hashes[..|hashes| - 1][1..];
    } else {
      assert hashes == [hashes[0]];
    }
  }

  lemma {:induction false} FlatMore(blocks: seq<seq<Hash>>)
    requires blocks != []
    ensures Flat(blocks) == Flat(blocks[..|blocks| - 1]) + blocks[|blocks| - 1]
  {
    if |blocks| > 1 {
      FlatMore(blocks[1..]);
      assert blocks[1..][..|blocks| - 2] == blocks[..|blocks| - 1][1..];
    }
  }

  lemma {:induction false} FlatIsHashes(blocks: seq<seq<Hash>>)
    ensures L.Hashes(blocks) == Flat(blocks)
  {
    if blocks != [] {
      FlatMore(blocks);
      FlatIsHashes(blocks[..|blocks| - 1]);
    }
  }

  lemma {:induction false} RecordRowsAre(w: World, records: seq<Record>)
    ensures RowsOf(w, L.RecordRows(records), Stored(records))
  {
    if records != [] {
      var earlier, last := records[..|records| - 1], records[|records| - 1];
      RecordRowsAre(w, earlier);
      StoredMore(records);
      RecordRowIs(w, last);
      RowsOfBoth(w, L.RecordRows(earlier), Stored(earlier), [L.RecordRow(last)], [OfRecord(last)]);
    }
  }

  lemma {:induction false} RefusalRowsAre(w: World, refusals: seq<Rejection>)
    ensures RowsOf(w, L.RefusalRows(w, refusals), Turned(refusals))
  {
    if refusals != [] {
      var earlier, last := refusals[..|refusals| - 1], refusals[|refusals| - 1];
      RefusalRowsAre(w, earlier);
      TurnedMore(refusals);
      RefusalRowIs(w, last);
      RowsOfBoth(w, L.RefusalRows(w, earlier), Turned(earlier), [L.RefusalRow(w, last)], [OfRefusal(last)]);
    }
  }

  lemma {:induction false} BlockRowsAre(w: World, records: seq<Record>, hashes: seq<Hash>)
    ensures RowsOf(w, L.BlockRows(w, records, hashes), Calls(w, records, hashes))
  {
    if hashes != [] {
      var earlier, last := hashes[..|hashes| - 1], hashes[|hashes| - 1];
      BlockRowsAre(w, records, earlier);
      CallsMore(w, records, hashes);
      HashRowsAre(w, records, last);
      RowsOfBoth(w, L.BlockRows(w, records, earlier), Calls(w, records, earlier),
                 L.HashRows(w, records, last), Calls(w, records, [last]));
    }
  }

  lemma HashRowsAre(w: World, records: seq<Record>, hash: Hash)
    ensures RowsOf(w, L.HashRows(w, records, hash), Calls(w, records, [hash]))
  {
    assert Calls(w, records, [hash])
        == if hash in w.txs && Uncarried(records, hash) then [OfCall(w.txs[hash])] else [];
    assert L.OverHapi(records, hash) <==> !Uncarried(records, hash);
    if hash in w.txs { EvmRowIs(w, w.txs[hash]); }
    hide RowOf, L.OverHapi, Uncarried, L.EvmRow;
  }

  lemma CollectedAre(w: World, mark: L.Mark)
    ensures RowsOf(w, L.Collected(w, mark), ItemsSince(w, mark))
  {
    var records := L.Skip(w.records, mark.records);
    var hashes := L.Hashes(L.Skip(w.blocks, mark.blocks));
    FlatIsHashes(L.Skip(w.blocks, mark.blocks));
    RecordRowsAre(w, records);
    BlockRowsAre(w, records, hashes);
    RefusalRowsAre(w, L.Kept(w, mark));
    hide RowsOf, L.Kept, L.Skip;
    RowsOfBoth(w, L.RecordRows(records), Stored(records),
               L.BlockRows(w, records, hashes), Calls(w, records, hashes));
    RowsOfBoth(w, L.RecordRows(records) + L.BlockRows(w, records, hashes),
               Stored(records) + Calls(w, records, hashes),
               L.RefusalRows(w, L.Kept(w, mark)), Turned(L.Kept(w, mark)));
  }

  // ---- and stay them through the sort -----------------------------------------------------------

  /** The items of one instant, in order. */
  function OfInstant(items: seq<Item>, nanoseconds: nat): seq<Item> {
    if items == [] then []
    else OfInstant(items[..|items| - 1], nanoseconds)
         + (if Nanoseconds(InstantOf(items[|items| - 1])) == nanoseconds then [items[|items| - 1]] else [])
  }

  lemma OfInstantStep(items: seq<Item>, last: Item, n: nat)
    ensures OfInstant(items + [last], n)
         == OfInstant(items, n) + (if Nanoseconds(InstantOf(last)) == n then [last] else [])
  {
  }

  /** The same items, those of one instant in the same order. */
  ghost predicate Rearranges(order: seq<Item>, items: seq<Item>) {
    multiset(order) == multiset(items) && forall n: nat :: OfInstant(order, n) == OfInstant(items, n)
  }

  /** Putting `item` before `last` or behind it is the same, when they are of different instants. */
  lemma RearrangesMore(earlier: seq<Item>, items: seq<Item>, item: Item, last: Item)
    requires Rearranges(earlier, items + [item])
    requires Nanoseconds(InstantOf(item)) != Nanoseconds(InstantOf(last))
    ensures Rearranges(earlier + [last], items + [last] + [item])
  {
    forall t: nat ensures OfInstant(earlier + [last], t) == OfInstant(items + [last] + [item], t) {
      OfInstantStep(earlier, last, t);
      OfInstantStep(items, item, t);
      OfInstantStep(items, last, t);
      OfInstantStep(items + [last], item, t);
    }
  }

  lemma RearrangesBoth(order: seq<Item>, earlier: seq<Item>, items: seq<Item>, last: Item)
    requires Rearranges(earlier, items) && Rearranges(order, earlier + [last])
    ensures Rearranges(order, items + [last])
  {
    forall t: nat ensures OfInstant(order, t) == OfInstant(items + [last], t) {
      OfInstantStep(earlier, last, t);
      OfInstantStep(items, last, t);
    }
  }

  lemma {:induction false} PlaceItem(w: World, rows: seq<L.Row>, items: seq<Item>, row: L.Row, item: Item)
    returns (order: seq<Item>)
    requires RowsOf(w, rows, items) && RowOf(w, row, item)
    ensures RowsOf(w, L.Place(rows, row), order) && Rearranges(order, items + [item])
  {
    if rows == [] || rows[|rows| - 1].key <= row.key {
      order := items + [item];
      hide RowOf, OfInstant;
      RowsOfBoth(w, rows, items, [row], [item]);
    } else {
      var n := |rows| - 1;
      assert rows[n].key == Nanoseconds(InstantOf(items[n])) && row.key == Nanoseconds(InstantOf(item));
      hide RowOf, Rearranges, Nanoseconds;
      var earlier := PlaceItem(w, rows[..n], items[..n], row, item);
      order := earlier + [items[n]];
      RowsOfBoth(w, L.Place(rows[..n], row), earlier, [rows[n]], [items[n]]);
      assert items[..n] + [items[n]] == items;
      RearrangesMore(earlier, items[..n], item, items[n]);
    }
  }

  lemma {:induction false} SortItems(w: World, rows: seq<L.Row>, items: seq<Item>) returns (order: seq<Item>)
    requires RowsOf(w, rows, items)
    ensures RowsOf(w, L.Sorted(rows), order) && Rearranges(order, items)
  {
    hide RowOf, L.Place;
    if rows == [] {
      order := [];
    } else {
      hide Rearranges;
      var n := |rows| - 1;
      var earlier := SortItems(w, rows[..n], items[..n]);
      order := PlaceItem(w, L.Sorted(rows[..n]), earlier, rows[n], items[n]);
      assert items[..n] + [items[n]] == items;
      RearrangesBoth(order, earlier, items[..n], items[n]);
    }
  }

  lemma NanosecondsOrder(a: Timestamp, b: Timestamp)
    requires Proper(a) && Proper(b)
    ensures Nanoseconds(a) > Nanoseconds(b) <==> Later(a, b)
  {
  }

  lemma MillisAre(from: Timestamp, to: Timestamp)
    ensures (Nanoseconds(to) - Nanoseconds(from)) / 1_000_000 == MillisBetween(from, to)
  {
  }

  /** One entry for each item, in the order of their instants. */
  ghost predicate InInstantOrder(order: seq<Item>) {
    forall i, j :: 0 <= i < j < |order| ==>
      var a, b := InstantOf(order[i]), InstantOf(order[j]);
      Nanoseconds(a) <= Nanoseconds(b) && (Proper(a) && Proper(b) ==> !Later(a, b))
  }

  ghost predicate TellsAt(w: World, entries: seq<L.Entry>, order: seq<Item>, i: nat)
    requires i < |entries| && i < |order|
  {
    var apart := MillisBetween(InstantOf(order[0]), InstantOf(order[i]));
    entries[i].index == i + 1 && Tells(w, entries[i], order[i]) && apart >= 0 && entries[i].atMillis == AsInt64(apart)
  }

  lemma SortedIsInOrder(w: World, sorted: seq<L.Row>, order: seq<Item>)
    requires L.InOrder(sorted) && RowsOf(w, sorted, order)
    ensures InInstantOrder(order)
  {
    forall i, j | 0 <= i < j < |order|
      ensures Nanoseconds(InstantOf(order[i])) <= Nanoseconds(InstantOf(order[j]))
    {
      assert RowOf(w, sorted[i], order[i]) && RowOf(w, sorted[j], order[j]);
      hide Tells, Nanoseconds;
    }
    forall i, j | 0 <= i < j < |order| && Proper(InstantOf(order[i])) && Proper(InstantOf(order[j]))
      ensures !Later(InstantOf(order[i]), InstantOf(order[j]))
    {
      NanosecondsOrder(InstantOf(order[i]), InstantOf(order[j]));
      hide Nanoseconds;
    }
    hide RowsOf, RowOf, Nanoseconds;
  }

  lemma RowTells(w: World, row: L.Row, item: Item, index: nat, millis: Int64)
    requires Tells(w, row.entry, item)
    ensures Tells(w, row.entry.(index := index, atMillis := millis), item)
  {
  }

  lemma NumberedTells(w: World, sorted: seq<L.Row>, order: seq<Item>, i: nat)
    requires L.InOrder(sorted) && RowsOf(w, sorted, order) && i < |sorted|
    ensures var entries := L.Numbered(sorted, L.Origin(sorted));
            |entries| == |sorted| && TellsAt(w, entries, order, i)
  {
    L.EntriesAre(sorted);
    hide L.Numbered, L.Origin;
    assert RowOf(w, sorted[0], order[0]) && RowOf(w, sorted[i], order[i]);
    var first, t := InstantOf(order[0]), InstantOf(order[i]);
    assert L.Distance(sorted, i) == (Nanoseconds(t) - Nanoseconds(first)) / 1_000_000;
    MillisAre(first, t);
    RowTells(w, sorted[i], order[i], i + 1, AsInt64(L.Distance(sorted, i)));
    hide Tells, MillisBetween, Nanoseconds, RowOf, RowsOf, AsInt64, InstantOf, L.InOrder;
  }

  /** The ledger has one entry for each item, in the order of their instants, those of one instant as they
      were collected; each says what its item was, and how many milliseconds after the first it came. */
  lemma EntriesAreItems(w: World, mark: L.Mark) returns (order: seq<Item>)
    ensures Rearranges(order, ItemsSince(w, mark)) && InInstantOrder(order)
    ensures |L.EntriesSince(w, mark)| == |order|
    ensures forall i :: 0 <= i < |order| ==> TellsAt(w, L.EntriesSince(w, mark), order, i)
  {
    CollectedAre(w, mark);
    hide L.Collected, ItemsSince, L.Sorted, L.Numbered, L.Origin, L.InOrder, InInstantOrder, Rearranges, RowOf;
    hide TellsAt;
    var rows := L.Collected(w, mark);
    order := SortItems(w, rows, ItemsSince(w, mark));
    L.SortInOrder(rows);
    var sorted := L.Sorted(rows);
    SortedIsInOrder(w, sorted, order);
    L.EntriesAre(sorted);
    forall i | 0 <= i < |order| ensures TellsAt(w, L.EntriesSince(w, mark), order, i) {
      NumberedTells(w, sorted, order, i);
    }
  }
}
