/** What applying a transaction does, account by account and topic by topic: `apply_hapi` of
    `src/state/mod.rs`, stated without the functions that compute it. */
module Effects {
  import opened Wrappers
  import opened Evm
  import opened State

  // ---- the fee ----------------------------------------------------------------------------------

  /** What an account holds once the payer has paid the fee of 10000 to the collector, 0.0.98. */
  function AfterFee(w: World, payer: Id, id: Id): nat {
    var held := BalanceOf(w.accounts, id) + if id == 98 then 10000 else 0;
    if id != payer then held else if held < 10000 then 0 else held - 10000
  }

  ghost predicate Paid(w: World, payer: Id, paid: Accounts) {
    && paid.Keys == w.accounts.Keys
    && forall id :: id in paid ==> paid[id] == w.accounts[id].(balance := AfterFee(w, payer, id))
  }

  ghost predicate CanPay(w: World, payer: Id) {
    Sound(w) && payer in w.accounts && w.accounts[payer].balance >= 10000
  }

  lemma AdjustKeepsRest(accounts: Accounts, id: Id, amount: int)
    ensures var after := Adjust(accounts, id, amount);
            after.Keys == accounts.Keys
            && forall other :: other in accounts ==>
                 after[other] == accounts[other].(balance := BalanceOf(after, other))
  {
  }

  lemma FeeDoes(w: World, payer: Id)
    requires CanPay(w, payer)
    ensures var c := ChargeFee(w, payer);
            && Sound(c) && Paid(w, payer, c.accounts) && c == w.(accounts := c.accounts)
            && Total(c.accounts) == Total(w.accounts)
  {
    FeeMintsShortfall(w, payer);
    SmallAmount(HAPI_FEE);
    var debited := Adjust(w.accounts, payer, 0 - HAPI_FEE);
    AdjustKeepsRest(w.accounts, payer, 0 - HAPI_FEE);
    AdjustKeepsRest(debited, FEE_COLLECTOR, HAPI_FEE);
    hide Total, Adjust, AsInt64;
    assert Sound(w.(accounts := ChargeFee(w, payer).accounts));
  }

  /** The address an entity is found by when it has no alias: its number, in twenty bytes. */
  lemma LongZeroIs(id: Id)
    requires id <= MAX_U64
    ensures var address := LongZero(id);
            && |address| == 20 && FromBigEndian(address[12..]) == id
            && forall i :: 0 <= i < 12 ==> address[i] == 0
  {
    BigEndianRoundTrip(id, 8);
    assert LongZero(id)[12..] == BigEndian(id, 8);
    assert Pow256(8) == MAX_U64 + 1;
  }

  // ---- bodies -----------------------------------------------------------------------------------

  /** Nothing but the accounts, the topics and their indexes, as given. */
  ghost predicate Becomes(c: World, w1: World, accounts: Accounts, byEvm: map<Address, Id>, nextId: Id,
                          topics: map<Id, Topic>)
  {
    && w1.accounts == accounts && w1.byEvm == byEvm && w1.nextId == nextId && w1.topics == topics
    && w1.blocks == c.blocks && w1.txs == c.txs && w1.timeOffset == c.timeOffset
    && w1.rejections == c.rejections && w1.dropped == c.dropped && w1.maxRejections == c.maxRejections
  }

  ghost predicate Unchanged(c: World, w1: World) {
    Becomes(c, w1, c.accounts, c.byEvm, c.nextId, c.topics)
  }

  /** A new account under the next id: the key, the alias and the balance asked for, out of the payer's. */
  ghost predicate CreateDoes(c: World, w1: World, status: Status, payer: Id, key: Key, initial: nat,
                             alias: Option<Address>)
    requires payer in c.accounts
  {
    if alias.Some? && alias.value in c.byEvm then status == AliasAlreadyAssigned && Unchanged(c, w1)
    else if c.accounts[payer].balance < initial then
      status == InsufficientPayerBalance && Unchanged(c, w1)
    else
      && status == Success
      && (var id := c.nextId;
          var named := if alias.Some? then c.byEvm[alias.value := id] else c.byEvm;
          var left := c.accounts[payer].(balance := c.accounts[payer].balance - initial);
          Becomes(c, w1, c.accounts[payer := left][id := Account(Some(key), alias, initial, false)],
                  named[LongZero(id) := id], id + 1, c.topics))
  }

  /** All the account held goes to the beneficiary, and it is deleted. */
  ghost predicate DeleteDoes(c: World, w1: World, status: Status, account: Id, transferTo: Id) {
    if account == transferTo then status == InvalidTransferAccountId && Unchanged(c, w1)
    else if account !in c.accounts then status == InvalidAccountId && Unchanged(c, w1)
    else if c.accounts[account].deleted then status == AccountDeleted && Unchanged(c, w1)
    else if transferTo !in c.accounts || c.accounts[transferTo].deleted then
      status == InvalidTransferAccountId && Unchanged(c, w1)
    else
      && status == Success
      && (var gone := c.accounts[account].(balance := 0, deleted := true);
          var held := c.accounts[transferTo].balance + c.accounts[account].balance;
          var richer := c.accounts[transferTo].(balance := held);
          Becomes(c, w1, c.accounts[account := gone][transferTo := richer], c.byEvm, c.nextId, c.topics))
  }

  /** A new topic under the next id, with the submit key and no messages. */
  ghost predicate TopicDoes(c: World, w1: World, status: Status, submitKey: Option<Key>) {
    && status == Success
    && Becomes(c, w1, c.accounts, c.byEvm, c.nextId + 1, c.topics[c.nextId := Topic(submitKey, [])])
  }

  /** The payload is the topic's last message, numbered next, from the payer, at the record's instant. */
  ghost predicate MessageDoes(c: World, w1: World, status: Status, payer: Id, at: Timestamp, topic: Id,
                              payload: Bytes)
  {
    if payload == [] then status == InvalidTopicMessage && Unchanged(c, w1)
    else if topic !in c.topics then status == InvalidTopicId && Unchanged(c, w1)
    else
      && status == Success
      && (var before := c.topics[topic];
          var more := before.messages + [Message(|before.messages| + 1, payload, at, payer)];
          Becomes(c, w1, c.accounts, c.byEvm, c.nextId, c.topics[topic := Topic(before.submitKey, more)]))
  }

  lemma MoveDoes(accounts: Accounts, from: Id, to: Id, amount: nat)
    requires from in accounts && to in accounts && from != to && amount <= accounts[from].balance
    requires Total(accounts) <= MAX_I64
    ensures Move(accounts, from, to, amount)
         == accounts[from := accounts[from].(balance := accounts[from].balance - amount)]
                    [to := accounts[to].(balance := accounts[to].balance + amount)]
  {
    BalanceWithinTotal(accounts, from);
    BalanceWithinTotal(accounts, to);
    SmallAmount(amount);
    hide Total, AsInt64;
  }

  /** The body applied, or the status it fails with. */
  function Outcome(c: World, payer: Id, body: Body, at: Timestamp): (World, Status)
    requires !body.Ethereum?
  {
    match ApplyBody(c, payer, body, at)
    case Ok(w1) => (w1, Success)
    case Err(status) => (c, status)
  }

  lemma CreateIs(c: World, payer: Id, body: Body, at: Timestamp)
    requires Sound(c) && body.CreateAccount? && payer in c.accounts
    ensures var (w1, status) := Outcome(c, payer, body, at);
            CreateDoes(c, w1, status, payer, body.key, body.initialBalance, body.alias)
  {
    if c.accounts[payer].balance >= body.initialBalance { OpenedFrom(c, payer, body); }
    hide Total, Move, LongZero, InsertAccount;
  }

  lemma OpenedFrom(c: World, payer: Id, body: Body)
    requires Sound(c) && body.CreateAccount? && payer in c.accounts
    requires c.accounts[payer].balance >= body.initialBalance
    ensures var id := c.nextId;
            var w1 := InsertAccount(c.(nextId := id + 1), id, Account(Some(body.key), body.alias, 0, false));
            var named := if body.alias.Some? then c.byEvm[body.alias.value := id] else c.byEvm;
            var left := c.accounts[payer].(balance := c.accounts[payer].balance - body.initialBalance);
            var made := Account(Some(body.key), body.alias, body.initialBalance, false);
            && Move(w1.accounts, payer, id, body.initialBalance) == c.accounts[payer := left][id := made]
            && w1.byEvm == named[LongZero(id) := id]
            && w1 == c.(nextId := id + 1, accounts := w1.accounts, byEvm := w1.byEvm)
  {
    var id, account := c.nextId, Account(Some(body.key), body.alias, 0, false);
    var w1 := InsertAccount(c.(nextId := id + 1), id, account);
    InsertAccountSound(c, account);
    assert w1.accounts == c.accounts[id := account];
    hide LongZero, InsertAccount;
    MoveDoes(w1.accounts, payer, id, body.initialBalance);
    hide Total, Move;
  }

  lemma DeleteIs(c: World, payer: Id, body: Body, at: Timestamp)
    requires Sound(c) && body.Delete?
    ensures var (w1, status) := Outcome(c, payer, body, at);
            DeleteDoes(c, w1, status, body.account, body.transferTo)
  {
    var account, to := body.account, body.transferTo;
    if account in c.accounts && to in c.accounts && account != to {
      MoveDoes(c.accounts, account, to, c.accounts[account].balance);
    }
    hide Total, Move;
  }

  lemma TopicIs(c: World, payer: Id, body: Body, at: Timestamp)
    requires body.CreateTopic?
    ensures var (w1, status) := Outcome(c, payer, body, at); TopicDoes(c, w1, status, body.submitKey)
  {
  }

  lemma MessageIs(c: World, payer: Id, body: Body, at: Timestamp)
    requires body.SubmitMessage?
    ensures var (w1, status) := Outcome(c, payer, body, at);
            MessageDoes(c, w1, status, payer, at, body.topic, body.message)
  {
  }

  // ---- transfers --------------------------------------------------------------------------------

  type Entries = seq<(AccountRef, Int64)>

  /** The account an entry names, when there is one. */
  ghost predicate Names(c: World, so: AccountRef, id: Id) {
    so == ById(id) || (so.ByAlias? && so.address in c.byEvm && c.byEvm[so.address] == id)
  }

  /** An entry that credits an alias nobody has. */
  ghost predicate Opens(c: World, entry: (AccountRef, Int64), address: Address) {
    entry.0 == ByAlias(address) && address !in c.byEvm && entry.1 > 0
  }

  ghost predicate Credited(c: World, entries: Entries, address: Address) {
    exists j :: 0 <= j < |entries| && Opens(c, entries[j], address)
  }

  /** What is wrong with one entry, given those before it. */
  ghost function EntryFault(c: World, entries: Entries, i: nat): Option<Status>
    requires i < |entries|
  {
    match entries[i].0
    case ById(id) =>
      if id !in c.accounts then Some(InvalidAccountId)
      else if c.accounts[id].deleted then Some(AccountDeleted)
      else None
    case ByAlias(address) =>
      if address in c.byEvm then
        if c.byEvm[address] in c.accounts && !c.accounts[c.byEvm[address]].deleted then None
        else Some(AccountDeleted)
      else if entries[i].1 <= 0 then Some(InvalidAccountId)
      else if Credited(c, entries[..i], address) then Some(AccountRepeatedInAccountAmounts)
      else None
  }

  /** The first entry with a fault is `i`. */
  ghost predicate FirstFault(c: World, entries: Entries, i: nat) {
    && i < |entries| && EntryFault(c, entries, i).Some?
    && forall j :: 0 <= j < i ==> EntryFault(c, entries, j).None?
  }

  ghost predicate NoFault(c: World, entries: Entries) {
    forall i :: 0 <= i < |entries| ==> EntryFault(c, entries, i).None?
  }

  ghost predicate NamedTwice(c: World, entries: Entries) {
    exists i, j, id :: 0 <= i < j < |entries| && Names(c, entries[i].0, id) && Names(c, entries[j].0, id)
  }

  ghost predicate Overdrawn(c: World, entries: Entries) {
    exists i, id :: 0 <= i < |entries| && Names(c, entries[i].0, id) && id in c.accounts
                    && c.accounts[id].balance + entries[i].1 < 0
  }

  /** The aliases credited that nobody had, in list order. */
  function Opened(c: World, entries: Entries): seq<(Address, Int64)> {
    if entries == [] then []
    else
      var last := entries[|entries| - 1];
      Opened(c, entries[..|entries| - 1])
      + (if last.0.ByAlias? && last.0.address !in c.byEvm then [(last.0.address, last.1)] else [])
  }

  /** Each gets the next id and is found by its alias and by its number. */
  function Indexed(byEvm: map<Address, Id>, first: Id, made: seq<(Address, Int64)>): map<Address, Id> {
    if made == [] then byEvm
    else
      var n := |made| - 1;
      Indexed(byEvm, first, made[..n])[made[n].0 := first + n][LongZero(first + n) := first + n]
  }

  /** Everybody named gets, or gives, what the list says of them; whoever had no account gets one. */
  ghost predicate TransferMoves(c: World, w1: World, entries: Entries) {
    var made := Opened(c, entries);
    && Becomes(c, w1, w1.accounts, Indexed(c.byEvm, c.nextId, made), c.nextId + |made|, c.topics)
    && (forall id :: id in w1.accounts <==> id in c.accounts || c.nextId <= id < c.nextId + |made|)
    && (forall i, id :: 0 <= i < |entries| && Names(c, entries[i].0, id) ==> Moves(c, w1, id, entries[i].1))
    && (forall id :: id in c.accounts && Unnamed(c, entries, id) ==> w1.accounts[id] == c.accounts[id])
    && (forall j :: 0 <= j < |made| ==>
          made[j].1 > 0 && w1.accounts[c.nextId + j] == Account(None, Some(made[j].0), made[j].1, false))
  }

  ghost predicate Unnamed(c: World, entries: Entries, id: Id) {
    forall i :: 0 <= i < |entries| ==> !Names(c, entries[i].0, id)
  }

  ghost predicate Moves(c: World, w1: World, id: Id, amount: Int64) {
    && id in c.accounts && id in w1.accounts && c.accounts[id].balance + amount >= 0
    && w1.accounts[id] == c.accounts[id].(balance := c.accounts[id].balance + amount)
  }

  ghost predicate TransferDoes(c: World, w1: World, status: Status, entries: Entries) {
    if SumOf(entries) != 0 then status == InvalidAccountAmounts && Unchanged(c, w1)
    else if !NoFault(c, entries) then
      && Unchanged(c, w1)
      && exists i :: FirstFault(c, entries, i) && Some(status) == EntryFault(c, entries, i)
    else if NamedTwice(c, entries) then status == AccountRepeatedInAccountAmounts && Unchanged(c, w1)
    else if Overdrawn(c, entries) then status == InsufficientAccountBalance && Unchanged(c, w1)
    else status == Success && TransferMoves(c, w1, entries)
  }

  // ---- that is what a transfer does -------------------------------------------------------------

  /** The entries that name an account, as that account. */
  function Known(c: World, entries: Entries): seq<(Id, Int64)> {
    if entries == [] then []
    else
      var last := entries[|entries| - 1];
      Known(c, entries[..|entries| - 1])
      + (match last.0
         case ById(id) => [(id, last.1)]
         case ByAlias(address) => if address in c.byEvm then [(c.byEvm[address], last.1)] else [])
  }

  lemma FaultOfPrefix(c: World, entries: Entries, n: nat, i: nat)
    requires i < n <= |entries|
    ensures EntryFault(c, entries[..n], i) == EntryFault(c, entries, i)
  {
    assert entries[..n][..i] == entries[..i];
    hide Credited;
  }

  ghost predicate Among(made: seq<(Address, Int64)>, address: Address) {
    exists j :: 0 <= j < |made| && made[j].0 == address
  }

  /** As `Resolve` looks it up. */
  lemma AmongIs(made: seq<(Address, Int64)>, address: Address)
    ensures Among(made, address) <==> exists i | 0 <= i < |made| :: made[i].0 == address
  {
  }

  lemma {:induction false} OpenedAre(c: World, entries: Entries, address: Address)
    requires NoFault(c, entries)
    ensures Credited(c, entries, address) <==> Among(Opened(c, entries), address)
  {
    if entries != [] {
      var n := |entries| - 1;
      NoFaultBefore(c, entries, n);
      OpenedAre(c, entries[..n], address);
      assert EntryFault(c, entries, n).None?;
      CreditedMore(c, entries, address);
      if entries[n].0.ByAlias? {
        AmongMore(Opened(c, entries[..n]), (entries[n].0.address, entries[n].1), address);
      }
      OpenedStep(c, entries);
      hide Credited, Among, Opened;
    }
  }

  lemma OpenedStep(c: World, entries: Entries)
    requires entries != []
    ensures var n := |entries| - 1;
            Opened(c, entries)
            == if entries[n].0.ByAlias? && entries[n].0.address !in c.byEvm
               then Opened(c, entries[..n]) + [(entries[n].0.address, entries[n].1)]
               else Opened(c, entries[..n])
  {
  }

  lemma KnownStep(c: World, entries: Entries)
    requires entries != []
    ensures var n := |entries| - 1;
            && (forall id :: Names(c, entries[n].0, id)
                  ==> Known(c, entries) == Known(c, entries[..n]) + [(id, entries[n].1)])
            && ((forall id :: !Names(c, entries[n].0, id)) ==> Known(c, entries) == Known(c, entries[..n]))
  {
    var last := entries[|entries| - 1].0;
    assert last.ById? ==> Names(c, last, last.id);
    assert last.ByAlias? && last.address in c.byEvm ==> Names(c, last, c.byEvm[last.address]);
  }

  lemma CreditedMore(c: World, entries: Entries, address: Address)
    requires entries != []
    ensures var n := |entries| - 1;
            Credited(c, entries, address) <==> Credited(c, entries[..n], address) || Opens(c, entries[n], address)
  {
    var n := |entries| - 1;
    if Credited(c, entries, address) {
      var j :| 0 <= j < |entries| && Opens(c, entries[j], address);
      if j < n { assert Opens(c, entries[..n][j], address); }
    }
    if Credited(c, entries[..n], address) {
      var j :| 0 <= j < n && Opens(c, entries[..n][j], address);
      assert Opens(c, entries[j], address);
    }
  }

  lemma AmongMore(made: seq<(Address, Int64)>, last: (Address, Int64), address: Address)
    ensures Among(made + [last], address) <==> Among(made, address) || last.0 == address
  {
    var all := made + [last];
    if Among(made, address) {
      var j :| 0 <= j < |made| && made[j].0 == address;
      assert all[j].0 == address;
    }
    if last.0 == address { assert all[|made|].0 == address; }
  }

  lemma NoFaultBefore(c: World, entries: Entries, n: nat)
    requires NoFault(c, entries) && n <= |entries|
    ensures NoFault(c, entries[..n])
  {
    forall i | 0 <= i < n ensures EntryFault(c, entries[..n], i).None? { FaultOfPrefix(c, entries, n, i); }
  }

  lemma NoFaultMore(c: World, entries: Entries)
    requires entries != []
    ensures var n := |entries| - 1;
            NoFault(c, entries) <==> NoFault(c, entries[..n]) && EntryFault(c, entries, n).None?
  {
    var n := |entries| - 1;
    forall i | 0 <= i < n ensures EntryFault(c, entries[..n], i) == EntryFault(c, entries, i) {
      FaultOfPrefix(c, entries, n, i);
    }
    hide EntryFault;
  }

  /** Resolving the list stops at its first fault, and otherwise sorts it into the two lists. */
  lemma {:induction false} ResolveIs(c: World, entries: Entries)
    ensures if NoFault(c, entries) then Resolve(c, entries) == Ok(Resolved(Known(c, entries), Opened(c, entries)))
            else exists i :: FirstFault(c, entries, i) && Resolve(c, entries) == Err(EntryFault(c, entries, i).value)
  {
    if entries != [] {
      var n := |entries| - 1;
      var earlier := entries[..n];
      ResolveIs(c, earlier);
      NoFaultMore(c, entries);
      if NoFault(c, earlier) {
        if entries[n].0.ByAlias? { OpenedAre(c, earlier, entries[n].0.address); }
        ResolveLast(c, entries);
        if !NoFault(c, entries) { LastIsFirst(c, entries); }
      } else {
        var i :| FirstFault(c, earlier, i) && Resolve(c, earlier) == Err(EntryFault(c, earlier, i).value);
        FirstOfPrefix(c, entries, n, i);
      }
    }
  }

  lemma LastIsFirst(c: World, entries: Entries)
    requires entries != [] && NoFault(c, entries[..|entries| - 1]) && EntryFault(c, entries, |entries| - 1).Some?
    ensures FirstFault(c, entries, |entries| - 1)
  {
    var n := |entries| - 1;
    forall j | 0 <= j < n ensures EntryFault(c, entries, j).None? {
      FaultOfPrefix(c, entries, n, j);
      assert EntryFault(c, entries[..n], j).None?;
    }
    hide EntryFault;
  }

  lemma FirstOfPrefix(c: World, entries: Entries, n: nat, i: nat)
    requires n <= |entries| && FirstFault(c, entries[..n], i)
    ensures FirstFault(c, entries, i) && EntryFault(c, entries, i) == EntryFault(c, entries[..n], i)
  {
    forall j | 0 <= j <= i ensures EntryFault(c, entries[..n], j) == EntryFault(c, entries, j) {
      FaultOfPrefix(c, entries, n, j);
    }
    hide EntryFault;
  }

  lemma ResolveLast(c: World, entries: Entries)
    requires entries != []
    requires var earlier, last := entries[..|entries| - 1], entries[|entries| - 1];
             && Resolve(c, earlier) == Ok(Resolved(Known(c, earlier), Opened(c, earlier)))
             && (last.0.ByAlias? ==>
                   (Credited(c, earlier, last.0.address) <==> Among(Opened(c, earlier), last.0.address)))
    ensures match EntryFault(c, entries, |entries| - 1)
            case None => Resolve(c, entries) == Ok(Resolved(Known(c, entries), Opened(c, entries)))
            case Some(status) => Resolve(c, entries) == Err(status)
  {
    var earlier, last := entries[..|entries| - 1], entries[|entries| - 1];
    var so := Resolved(Known(c, earlier), Opened(c, earlier));
    assert Resolve(c, entries) == ResolveOne(c, so, last);
    OpenedStep(c, entries);
    KnownStep(c, entries);
    hide Credited, Opened, Known, Resolve;
    match last.0
    case ById(id) => assert Names(c, last.0, id);
    case ByAlias(address) =>
      AmongIs(so.hollow, address);
      hide Among;
      if address in c.byEvm { assert Names(c, last.0, c.byEvm[address]); }
  }

  // ---- the entries that name an account ---------------------------------------------------------

  ghost predicate Lists(c: World, entries: Entries, id: Id, amount: Int64) {
    exists i :: 0 <= i < |entries| && Names(c, entries[i].0, id) && entries[i].1 == amount
  }

  lemma {:induction false} KnownAre(c: World, entries: Entries, id: Id, amount: Int64)
    ensures (id, amount) in Known(c, entries) <==> Lists(c, entries, id, amount)
  {
    if entries != [] {
      var n := |entries| - 1;
      KnownAre(c, entries[..n], id, amount);
      ListsMore(c, entries, id, amount);
    }
  }

  lemma ListsMore(c: World, entries: Entries, id: Id, amount: Int64)
    requires entries != []
    ensures var n := |entries| - 1;
            Lists(c, entries, id, amount)
            <==> Lists(c, entries[..n], id, amount) || (Names(c, entries[n].0, id) && entries[n].1 == amount)
  {
    var n := |entries| - 1;
    if Lists(c, entries[..n], id, amount) {
      var i :| 0 <= i < n && Names(c, entries[..n][i].0, id) && entries[..n][i].1 == amount;
      assert Names(c, entries[i].0, id);
    }
    if Lists(c, entries, id, amount) {
      var i :| 0 <= i < |entries| && Names(c, entries[i].0, id) && entries[i].1 == amount;
      if i < n { assert entries[..n][i] == entries[i]; }
    }
  }

  lemma {:induction false} TwiceIs(c: World, entries: Entries)
    ensures Distinct(Known(c, entries)) <==> !NamedTwice(c, entries)
  {
    if entries != [] {
      var n := |entries| - 1;
      var earlier, last := entries[..n], entries[n];
      TwiceIs(c, earlier);
      TwiceMore(c, entries);
      KnownStep(c, entries);
      hide Known, Names;
      var known := Known(c, earlier);
      if id :| Names(c, last.0, id) {
        assert Known(c, entries) == known + [(id, last.1)];
        forall k | 0 <= k < |known| && known[k].0 == id ensures NamedTwice(c, entries) {
          KnownAre(c, earlier, id, known[k].1);
          var i :| 0 <= i < n && Names(c, earlier[i].0, id) && earlier[i].1 == known[k].1;
          assert Names(c, entries[i].0, id);
        }
        if i :| 0 <= i < n && Names(c, entries[i].0, id) {
          assert earlier[i] == entries[i];
          assert Lists(c, earlier, id, entries[i].1);
          KnownAre(c, earlier, id, entries[i].1);
          var k :| 0 <= k < |known| && known[k] == (id, entries[i].1);
          assert Known(c, entries)[k].0 == Known(c, entries)[|known|].0;
        }
        DistinctMore(known, (id, last.1));
      }
    }
  }

  lemma DistinctMore(known: seq<(Id, Int64)>, last: (Id, Int64))
    ensures Distinct(known + [last]) <==> Distinct(known) && forall k :: 0 <= k < |known| ==> known[k].0 != last.0
  {
    var all := known + [last];
    if Distinct(all) {
      forall k | 0 <= k < |known| ensures known[k].0 != last.0 { assert all[k].0 != all[|known|].0; }
      forall i, j | 0 <= i < j < |known| ensures known[i].0 != known[j].0 { assert all[i].0 != all[j].0; }
    }
  }

  lemma TwiceMore(c: World, entries: Entries)
    requires entries != []
    ensures var n := |entries| - 1;
            NamedTwice(c, entries)
            <==> NamedTwice(c, entries[..n])
                 || exists i, id :: 0 <= i < n && Names(c, entries[i].0, id) && Names(c, entries[n].0, id)
  {
    var n := |entries| - 1;
    var earlier := entries[..n];
    if NamedTwice(c, earlier) {
      var i, j, id :| 0 <= i < j < n && Names(c, earlier[i].0, id) && Names(c, earlier[j].0, id);
      assert entries[i] == earlier[i] && entries[j] == earlier[j];
    }
    if NamedTwice(c, entries) {
      var i, j, id :| 0 <= i < j < |entries| && Names(c, entries[i].0, id) && Names(c, entries[j].0, id);
      if j < n { assert entries[i] == earlier[i] && entries[j] == earlier[j]; }
    }
  }

  lemma OverdrawnIs(c: World, entries: Entries)
    requires forall i :: 0 <= i < |Known(c, entries)| ==> Known(c, entries)[i].0 in c.accounts
    ensures Funded(c.accounts, Known(c, entries)) <==> !Overdrawn(c, entries)
  {
    var known := Known(c, entries);
    if Overdrawn(c, entries) {
      var i, id :| 0 <= i < |entries| && Names(c, entries[i].0, id) && id in c.accounts
                   && c.accounts[id].balance + entries[i].1 < 0;
      assert Lists(c, entries, id, entries[i].1);
      KnownAre(c, entries, id, entries[i].1);
      var k :| 0 <= k < |known| && known[k] == (id, entries[i].1);
    }
    if !Funded(c.accounts, known) {
      var k :| 0 <= k < |known| && known[k].1 < 0
                 && BalanceOf(c.accounts, known[k].0) + known[k].1 < 0;
      KnownAre(c, entries, known[k].0, known[k].1);
    }
  }

  // ---- what the two lists do --------------------------------------------------------------------

  lemma {:induction false} AdjustAllIs(accounts: Accounts, known: seq<(Id, Int64)>)
    requires forall i :: 0 <= i < |known| ==> known[i].0 in accounts
    requires Distinct(known) && Funded(accounts, known) && Total(accounts) <= MAX_I64
    ensures var after := AdjustAll(accounts, known);
            && after.Keys == accounts.Keys
            && (forall id :: id in accounts && (forall i :: 0 <= i < |known| ==> known[i].0 != id)
                  ==> after[id] == accounts[id])
            && (forall i :: 0 <= i < |known| ==>
                  accounts[known[i].0].balance + known[i].1 >= 0
                  && after[known[i].0]
                     == accounts[known[i].0].(balance := accounts[known[i].0].balance + known[i].1))
  {
    if known != [] {
      var n := |known| - 1;
      var earlier, last := known[..n], known[n];
      AdjustAllIs(accounts, earlier);
      var before := AdjustAll(accounts, earlier);
      assert before[last.0] == accounts[last.0];
      BalanceWithinTotal(accounts, last.0);
      hide Total;
      assert last.1 < 0 ==> -last.1 <= BalanceOf(accounts, last.0);
      var after := AdjustAll(accounts, known);
      assert after == before[last.0 := before[last.0].(balance := before[last.0].balance + last.1)];
      forall id | id in accounts && (forall i :: 0 <= i < |known| ==> known[i].0 != id)
        ensures after[id] == accounts[id]
      {
        assert known[n].0 != id;
        forall i | 0 <= i < n ensures earlier[i].0 != id { assert known[i].0 != id; }
      }
      forall i | 0 <= i < |known|
        ensures accounts[known[i].0].balance + known[i].1 >= 0
        ensures after[known[i].0]
                == accounts[known[i].0].(balance := accounts[known[i].0].balance + known[i].1)
      {
        if i < n { assert known[i] == earlier[i] && known[i].0 != last.0; }
      }
    }
  }

  lemma {:induction false} HollowWorld(c: World, hollow: seq<(Address, Int64)>)
    ensures var w1 := CreateHollow(c, hollow);
            && w1 == c.(accounts := w1.accounts, byEvm := Indexed(c.byEvm, c.nextId, hollow),
                        nextId := c.nextId + |hollow|)
            && forall id :: id in w1.accounts <==> id in c.accounts || c.nextId <= id < c.nextId + |hollow|
  {
    if hollow != [] {
      var n := |hollow| - 1;
      HollowWorld(c, hollow[..n]);
      OpenHollowIs(CreateHollow(c, hollow[..n]), hollow[n]);
      hide OpenHollow, LongZero;
    }
  }

  lemma OpenHollowIs(w: World, entry: (Address, Int64))
    ensures OpenHollow(w, entry)
         == w.(accounts := w.accounts[w.nextId := HollowAccount(entry.0, entry.1)], nextId := w.nextId + 1,
               byEvm := w.byEvm[entry.0 := w.nextId][LongZero(w.nextId) := w.nextId])
  {
    hide LongZero;
  }

  lemma TransferMovesIs(c: World, entries: Entries)
    requires Sound(c) && NoFault(c, entries) && SumOf(entries) == 0
    requires Resolve(c, entries) == Ok(Resolved(Known(c, entries), Opened(c, entries)))
    requires !NamedTwice(c, entries) && !Overdrawn(c, entries)
    ensures ApplyTransfer(c, entries).Ok? && TransferMoves(c, ApplyTransfer(c, entries).value, entries)
  {
    hide Total, NoFault, NamedTwice, Overdrawn, AdjustAll, CreateHollow, Known, Opened, TransferMoves, Names;
    hide SumOf, Resolve;
    var known, made := Known(c, entries), Opened(c, entries);
    ResolveFacts(c, entries);
    TwiceIs(c, entries);
    OverdrawnIs(c, entries);
    var adjusted := AdjustAll(c.accounts, known);
    var between := c.(accounts := adjusted);
    var w1 := CreateHollow(between, made);
    assert ApplyTransfer(c, entries) == Ok(w1);
    hide ApplyTransfer;
    AdjustAllIs(c.accounts, known);
    hide Distinct, Funded;
    TransferMovesFrom(c, entries, adjusted, w1);
  }

  lemma TransferMovesFrom(c: World, entries: Entries, adjusted: Accounts, w1: World)
    requires Sound(c) && adjusted.Keys == c.accounts.Keys
    requires forall j :: 0 <= j < |Opened(c, entries)| ==> Opened(c, entries)[j].1 > 0
    requires w1 == CreateHollow(c.(accounts := adjusted), Opened(c, entries))
    requires forall id ::
               id in c.accounts && (forall i :: 0 <= i < |Known(c, entries)| ==> Known(c, entries)[i].0 != id)
               ==> adjusted[id] == c.accounts[id]
    requires forall i :: 0 <= i < |Known(c, entries)| ==>
               var (id, amount) := Known(c, entries)[i];
               && id in c.accounts && c.accounts[id].balance + amount >= 0
               && adjusted[id] == c.accounts[id].(balance := c.accounts[id].balance + amount)
    ensures TransferMoves(c, w1, entries)
  {
    var known, made := Known(c, entries), Opened(c, entries);
    var between := c.(accounts := adjusted);
    hide Total, CreateHollow, Known, Opened, Names;
    HollowWorld(between, made);
    CreateHollowAdds(between, made);
    CreateHollowExtends(between, made);
    forall i, id: Id | 0 <= i < |entries| && Names(c, entries[i].0, id) ensures Moves(c, w1, id, entries[i].1) {
      assert Lists(c, entries, id, entries[i].1);
      KnownAre(c, entries, id, entries[i].1);
      var k :| 0 <= k < |known| && known[k] == (id, entries[i].1);
    }
    forall id | id in c.accounts && Unnamed(c, entries, id) ensures w1.accounts[id] == c.accounts[id] {
      forall i | 0 <= i < |known| ensures known[i].0 != id {
        KnownAre(c, entries, known[i].0, known[i].1);
      }
    }
  }

  lemma TransferIs(c: World, payer: Id, body: Body, at: Timestamp)
    requires Sound(c) && body.Transfer?
    ensures var (w1, status) := Outcome(c, payer, body, at); TransferDoes(c, w1, status, body.amounts)
  {
    var entries := body.amounts;
    hide Sound, NoFault, NamedTwice, Overdrawn, TransferMoves, Resolve, Known, Opened, FirstFault, EntryFault;
    hide SumOf, Funded, Distinct, CreateHollow, AdjustAll;
    ResolveIs(c, entries);
    TwiceIs(c, entries);
    if NoFault(c, entries) && SumOf(entries) == 0 {
      KnownLive(c, entries);
      OverdrawnIs(c, entries);
      if !NamedTwice(c, entries) && !Overdrawn(c, entries) { TransferMovesIs(c, entries); }
    }
  }

  lemma KnownLive(c: World, entries: Entries)
    requires Resolve(c, entries) == Ok(Resolved(Known(c, entries), Opened(c, entries)))
    ensures forall i :: 0 <= i < |Known(c, entries)| ==> Known(c, entries)[i].0 in c.accounts
  {
    ResolveFacts(c, entries);
  }

  // ---- the whole of it --------------------------------------------------------------------------

  /** The instant asked for when it is after the last one, and otherwise a nanosecond after that. */
  ghost predicate Stamped(last: Timestamp, now: Timestamp, at: Timestamp) {
    if now.secs > last.secs || (now.secs == last.secs && now.nanos > last.nanos) then at == now
    else if last.nanos == 999_999_999 then at == Timestamp(last.secs + 1, 0)
    else at == Timestamp(last.secs, last.nanos + 1)
  }

  /** One more record, found by its id. */
  ghost predicate Recorded(w: World, w1: World, record: Record) {
    && w1.records == w.records + [record] && w1.byId == w.byId[record.id := |w.records|]
    && record.fee == 10000
  }

  /** What the body does to the chain after the fee. */
  ghost predicate BodyDoes(c: World, w1: World, status: Status, payer: Id, body: Body, at: Timestamp)
    requires payer in c.accounts
  {
    match body
    case CreateAccount(key, initial, alias) => CreateDoes(c, w1, status, payer, key, initial, alias)
    case Transfer(amounts) => TransferDoes(c, w1, status, amounts)
    case Delete(account, transferTo) => DeleteDoes(c, w1, status, account, transferTo)
    case CreateTopic(submitKey) => TopicDoes(c, w1, status, submitKey)
    case SubmitMessage(topic, message) => MessageDoes(c, w1, status, payer, at, topic, message)
    case Ethereum(_) => false
  }

  lemma BodyIs(c: World, payer: Id, body: Body, at: Timestamp)
    requires Sound(c) && !body.Ethereum? && payer in c.accounts
    ensures var (w1, status) := Outcome(c, payer, body, at); BodyDoes(c, w1, status, payer, body, at)
  {
    hide Outcome, CreateDoes, TransferDoes, DeleteDoes, TopicDoes, MessageDoes, Sound;
    match body
    case CreateAccount(_, _, _) => CreateIs(c, payer, body, at);
    case Transfer(_) => TransferIs(c, payer, body, at);
    case Delete(_, _) => DeleteIs(c, payer, body, at);
    case CreateTopic(_) => TopicIs(c, payer, body, at);
    case SubmitMessage(_, _) => MessageIs(c, payer, body, at);
  }

  /** The body is applied to the chain after the fee, whoever paid it, and the record says how that went. */
  lemma AppliedOn(w: World, tx: Transaction, now: Timestamp, sendRaw: SendRaw)
    requires !tx.body.Ethereum?
    requires var c := ChargeFee(w.(lastConsensus := NextConsensus(w, now)), tx.id.payer);
             Sound(c) && tx.id.payer in c.accounts
    ensures var (w1, record) := Applied(w, tx, now, sendRaw);
            var c := ChargeFee(w.(lastConsensus := record.at), tx.id.payer);
            && record.id == tx.id && record.ethereumHash == [] && record.kind == KindOf(tx.body)
            && Stamped(w.lastConsensus, now, record.at) && w1.lastConsensus == record.at && Recorded(w, w1, record)
            && tx.id.payer in c.accounts
            && BodyDoes(c, w1, record.status, tx.id.payer, tx.body, record.at)
  {
    var at := NextConsensus(w, now);
    var c := ChargeFee(w.(lastConsensus := at), tx.id.payer);
    BodyIs(c, tx.id.payer, tx.body, at);
    BodyKeepsHistory(c, tx.id.payer, tx.body, at);
    BodyKeepsClock(c, tx.id.payer, tx.body, at);
    var (w1, status) := Outcome(c, tx.id.payer, tx.body, at);
    var record := Record(tx.id, KindOf(tx.body), at, status, HAPI_FEE, []);
    assert Applied(w, tx, now, sendRaw) == (Store(w1, record), record);
    BodyIgnoresRecord(c, w1, record, tx.body);
    hide BodyDoes, Outcome, ApplyBody, Move, Sound;
  }

  /** A transaction whose payer can pay, on a sound chain: the fee, then the body, then the record. */
  lemma AppliedDoes(w: World, tx: Transaction, now: Timestamp, sendRaw: SendRaw) returns (c: World)
    requires CanPay(w, tx.id.payer) && !tx.body.Ethereum?
    ensures Paid(w, tx.id.payer, c.accounts)
    ensures var (w1, record) := Applied(w, tx, now, sendRaw);
            && c == w.(accounts := c.accounts, lastConsensus := record.at)
            && record.id == tx.id && record.ethereumHash == [] && record.kind == KindOf(tx.body)
            && Stamped(w.lastConsensus, now, record.at) && w1.lastConsensus == record.at && Recorded(w, w1, record)
            && BodyDoes(c, w1, record.status, tx.id.payer, tx.body, record.at)
  {
    var stamped := w.(lastConsensus := NextConsensus(w, now));
    FeeDoes(stamped, tx.id.payer);
    c := ChargeFee(stamped, tx.id.payer);
    AppliedOn(w, tx, now, sendRaw);
    assert Applied(w, tx, now, sendRaw).1.at == NextConsensus(w, now);
    assert Paid(w, tx.id.payer, c.accounts);
    hide BodyDoes, Outcome, ApplyBody, ChargeFee, Sound;
  }

  lemma BodyKeepsClock(c: World, payer: Id, body: Body, at: Timestamp)
    requires !body.Ethereum?
    ensures Outcome(c, payer, body, at).0.lastConsensus == c.lastConsensus
  {
    if body.Transfer? && Resolve(c, body.amounts).Ok? {
      var r := Resolve(c, body.amounts).value;
      HollowWorld(c.(accounts := AdjustAll(c.accounts, r.known)), r.hollow);
    }
    hide CreateHollow, Move;
  }

  lemma StoredBecomes(c: World, w1: World, record: Record)
    ensures forall accounts, byEvm, nextId, topics ::
              Becomes(c, Store(w1, record), accounts, byEvm, nextId, topics)
              <==> Becomes(c, w1, accounts, byEvm, nextId, topics)
    ensures Store(w1, record).accounts == w1.accounts
  {
  }

  /** Storing the record adds nothing to what the body did. */
  lemma BodyIgnoresRecord(c: World, w1: World, record: Record, body: Body)
    requires record.id.payer in c.accounts
    ensures BodyDoes(c, w1, record.status, record.id.payer, body, record.at)
            ==> BodyDoes(c, Store(w1, record), record.status, record.id.payer, body, record.at)
  {
    StoredBecomes(c, w1, record);
    hide NoFault, NamedTwice, Overdrawn, FirstFault, EntryFault, Names, Opened, Indexed, SumOf, LongZero;
    hide Becomes, Store;
  }

  /** An EVM call sees the chain after the fee, and hands back the parts it may touch. */
  lemma EthereumDoes(w: World, tx: Transaction, now: Timestamp, sendRaw: SendRaw) returns (c: World)
    requires CanPay(w, tx.id.payer) && tx.body.Ethereum?
    ensures Paid(w, tx.id.payer, c.accounts) && c == w.(accounts := c.accounts)
    ensures var (w1, record) := Applied(w, tx, now, sendRaw);
            && record.id == tx.id && record.kind == EthereumTransaction && Recorded(w, w1, record)
            && CallDoes(c, w1, record, now, sendRaw(c, tx.body.rlp, now))
  {
    FeeDoes(w, tx.id.payer);
    c := ChargeFee(w, tx.id.payer);
    CalledOn(w, tx, now, sendRaw);
    hide ChargeFee, Applied, CallDoes, CanPay, Paid, Total;
  }

  lemma CalledOn(w: World, tx: Transaction, now: Timestamp, sendRaw: SendRaw)
    requires tx.body.Ethereum?
    ensures var c := ChargeFee(w, tx.id.payer);
            var (w1, record) := Applied(w, tx, now, sendRaw);
            && record.id == tx.id && record.kind == EthereumTransaction && record.fee == 10000
            && w1.records == c.records + [record] && w1.byId == c.byId[record.id := |c.records|]
            && CallDoes(c, w1, record, now, sendRaw(c, tx.body.rlp, now))
  {
    hide ChargeFee;
  }

  ghost predicate CallDoes(c: World, w1: World, record: Record, now: Timestamp, mined: Mined) {
    match mined
    case Unminable(last) =>
      && record.status == InvalidTransactionBody && record.ethereumHash == []
      && Stamped(last, now, record.at) && w1.lastConsensus == record.at && Unchanged(c, w1)
    case Mined(accounts, byEvm, nextId, blocks, txs, last, hash, success, at) =>
      && record.status == (if success then Success else ContractRevertExecuted) && record.ethereumHash == hash
      && record.at == at && w1.lastConsensus == last
      && Becomes(c.(blocks := blocks, txs := txs), w1, accounts, byEvm, nextId, c.topics)
  }
}
