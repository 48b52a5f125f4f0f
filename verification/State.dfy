/** `src/state`: the chain. `World` is what a snapshot clones; `Chain` is the object that every
    listener and the harness hold. */
module State {
  import opened Wrappers
  import opened Evm
  import Text

  type Id = nat
  type Address = Bytes
  type Hash = Bytes
  type Int64 = n: int | -0x8000_0000_0000_0000 <= n < 0x8000_0000_0000_0000

  const MAX_U64: nat := 0xFFFF_FFFF_FFFF_FFFF
  const MAX_I64: nat := 0x7FFF_FFFF_FFFF_FFFF
  const FIRST_USER_ID: Id := 1002
  const NODE: Id := 3
  const FEE_COLLECTOR: Id := 98
  const HAPI_FEE: nat := 10000
  const MAX_REJECTION_MESSAGE_BYTES: nat := 512

  // ---- what the chain holds ---------------------------------------------------------------------

  datatype Timestamp = Timestamp(secs: nat, nanos: nat)

  predicate Later(a: Timestamp, b: Timestamp) {
    a.secs > b.secs || (a.secs == b.secs && a.nanos > b.nanos)
  }

  function NextNano(t: Timestamp): Timestamp {
    if t.nanos == 999999999 then Timestamp(t.secs + 1, 0) else Timestamp(t.secs, t.nanos + 1)
  }

  datatype Key = Ed25519(key: Bytes) | EcdsaSecp256k1(key: Bytes)

  datatype Account = Account(key: Option<Key>, alias: Option<Address>, balance: nat, deleted: bool)

  datatype Message = Message(sequenceNumber: nat, payload: Bytes, at: Timestamp, payer: Id)

  datatype Topic = Topic(submitKey: Option<Key>, messages: seq<Message>)

  datatype TxId = TxId(payer: Id, validStart: Timestamp, nonce: int, scheduled: bool)

  datatype AccountRef = ById(id: Id) | ByAlias(address: Address)

  datatype Body =
    | CreateAccount(key: Key, initialBalance: nat, alias: Option<Address>)
    | Transfer(amounts: seq<(AccountRef, Int64)>)
    | Delete(account: Id, transferTo: Id)
    | CreateTopic(submitKey: Option<Key>)
    | SubmitMessage(topic: Id, message: Bytes)
    | Ethereum(rlp: Bytes)

  datatype Kind = CryptoCreateAccount | CryptoTransfer | CryptoDelete | ConsensusCreateTopic
                | ConsensusSubmitMessage | EthereumTransaction

  function KindOf(body: Body): Kind {
    match body
    case CreateAccount(_, _, _) => CryptoCreateAccount
    case Transfer(_) => CryptoTransfer
    case Delete(_, _) => CryptoDelete
    case CreateTopic(_) => ConsensusCreateTopic
    case SubmitMessage(_, _) => ConsensusSubmitMessage
    case Ethereum(_) => EthereumTransaction
  }

  datatype Status =
    | Success
    | InvalidTransaction | InvalidTransactionBody | TransactionOversize | InvalidNodeAccount
    | InvalidTransactionId | InvalidTransactionDuration | InvalidTransactionStart
    | TransactionExpired | DuplicateTransaction | PayerAccountNotFound | PayerAccountDeleted
    | MemoTooLong | InvalidSignature | InsufficientPayerBalance | NotSupported | KeyRequired
    | BadEncoding | InvalidAccountId | InvalidTransferAccountId | InvalidTopicId
    | InvalidTopicMessage | AliasAlreadyAssigned | InvalidAccountAmounts | AccountDeleted
    | AccountRepeatedInAccountAmounts | InsufficientAccountBalance | ContractRevertExecuted

  /** `Status::name`. */
  function StatusName(status: Status): string {
    match status
    case Success => "SUCCESS"
    case InvalidTransaction => "INVALID_TRANSACTION"
    case InvalidTransactionBody => "INVALID_TRANSACTION_BODY"
    case TransactionOversize => "TRANSACTION_OVERSIZE"
    case InvalidNodeAccount => "INVALID_NODE_ACCOUNT"
    case InvalidTransactionId => "INVALID_TRANSACTION_ID"
    case InvalidTransactionDuration => "INVALID_TRANSACTION_DURATION"
    case InvalidTransactionStart => "INVALID_TRANSACTION_START"
    case TransactionExpired => "TRANSACTION_EXPIRED"
    case DuplicateTransaction => "DUPLICATE_TRANSACTION"
    case PayerAccountNotFound => "PAYER_ACCOUNT_NOT_FOUND"
    case PayerAccountDeleted => "PAYER_ACCOUNT_DELETED"
    case MemoTooLong => "MEMO_TOO_LONG"
    case InvalidSignature => "INVALID_SIGNATURE"
    case InsufficientPayerBalance => "INSUFFICIENT_PAYER_BALANCE"
    case NotSupported => "NOT_SUPPORTED"
    case KeyRequired => "KEY_REQUIRED"
    case BadEncoding => "BAD_ENCODING"
    case InvalidAccountId => "INVALID_ACCOUNT_ID"
    case InvalidTransferAccountId => "INVALID_TRANSFER_ACCOUNT_ID"
    case InvalidTopicId => "INVALID_TOPIC_ID"
    case InvalidTopicMessage => "INVALID_TOPIC_MESSAGE"
    case AliasAlreadyAssigned => "ALIAS_ALREADY_ASSIGNED"
    case InvalidAccountAmounts => "INVALID_ACCOUNT_AMOUNTS"
    case AccountDeleted => "ACCOUNT_DELETED"
    case AccountRepeatedInAccountAmounts => "ACCOUNT_REPEATED_IN_ACCOUNT_AMOUNTS"
    case InsufficientAccountBalance => "INSUFFICIENT_ACCOUNT_BALANCE"
    case ContractRevertExecuted => "CONTRACT_REVERT_EXECUTED"
  }

  /** `BodyKind::name`. */
  function KindName(kind: Kind): string {
    match kind
    case CryptoCreateAccount => "CRYPTOCREATEACCOUNT"
    case CryptoTransfer => "CRYPTOTRANSFER"
    case CryptoDelete => "CRYPTODELETE"
    case ConsensusCreateTopic => "CONSENSUSCREATETOPIC"
    case ConsensusSubmitMessage => "CONSENSUSSUBMITMESSAGE"
    case EthereumTransaction => "ETHEREUMTRANSACTION"
  }

  datatype Transaction = Transaction(id: TxId, memo: string, validDuration: nat, body: Body)

  datatype Record = Record(id: TxId, kind: Kind, at: Timestamp, status: Status, fee: nat,
                           ethereumHash: Hash)

  datatype Rejection = Rejection(at: Timestamp, kind: Option<Kind>, payer: Option<Id>,
                                 status: Option<Status>, from: Option<Address>, message: string)

  datatype EvmTx = EvmTx(at: Timestamp, from: Address, success: bool, result: string, fee: nat)

  type Accounts = map<Id, Account>

  /** The fields of `Chain` that a snapshot clones and this model needs. */
  datatype World = World(
    accounts: Accounts,
    byEvm: map<Address, Id>,
    topics: map<Id, Topic>,
    nextId: Id,
    records: seq<Record>,
    byId: map<TxId, nat>,
    rejections: seq<Rejection>,
    dropped: nat,
    maxRejections: nat,
    blocks: seq<seq<Hash>>,
    txs: map<Hash, EvmTx>,
    lastConsensus: Timestamp,
    timeOffset: Int64)

  /** What running a raw EVM transaction gives back. The EVM itself is not part of this model: it is
      any function that hands back the parts of the world it may touch. */
  datatype Mined =
    | Mined(accounts: Accounts, byEvm: map<Address, Id>, nextId: Id, blocks: seq<seq<Hash>>,
            txs: map<Hash, EvmTx>, lastConsensus: Timestamp, hash: Hash, success: bool, at: Timestamp)
    | Unminable(lastConsensus: Timestamp)

  type SendRaw = (World, Bytes, Timestamp) -> Mined

  // ---- refusals ---------------------------------------------------------------------------------

  function Newest<T>(all: seq<T>, n: nat): seq<T> {
    if |all| <= n then all else all[|all| - n..]
  }

  lemma NewestOfRest<T>(all: seq<T>, n: nat)
    requires |all| > n
    ensures Newest(all[1..], n) == Newest(all, n)
  {
  }

  /** A refusal as the chain keeps it: a long message is cut between two characters. */
  function Clipped(r: Rejection): Rejection {
    if Text.Utf8Length(r.message) <= MAX_REJECTION_MESSAGE_BYTES then r
    else r.(message := Text.Fitting(r.message, MAX_REJECTION_MESSAGE_BYTES) + "\U{2026}")
  }

  /** `reject`: the newest refusals stay, and the rest are counted. */
  function Rejected(w: World, r: Rejection): World {
    var all := w.rejections + [Clipped(r)];
    var kept := if w.maxRejections == 0 then all else Newest(all, w.maxRejections);
    w.(rejections := kept, dropped := w.dropped + |all| - |kept|)
  }

  /** What the clip leaves: a message that fits as it was; of a longer one the longest prefix that fits,
      and a mark, so no message on the chain is longer than 515 bytes. */
  lemma ClipKeepsWhatFits(r: Rejection, n: nat)
    requires n <= |r.message|
    ensures Clipped(r) == r.(message := Clipped(r).message)
    ensures var kept := Clipped(r).message;
            if Text.Utf8Length(r.message) <= 512 then kept == r.message
            else
              && kept != "" && kept[|kept| - 1] == '\U{2026}' && kept[..|kept| - 1] < r.message
              && Text.Utf8Length(kept[..|kept| - 1]) <= 512
              && (Text.Utf8Length(r.message[..n]) <= 512 ==> n < |kept|)
    ensures Text.Utf8Length(Clipped(r).message) <= 515
  {
    if Text.Utf8Length(r.message) > MAX_REJECTION_MESSAGE_BYTES {
      var prefix := Text.Fitting(r.message, MAX_REJECTION_MESSAGE_BYTES);
      Text.FittingIsLongest(r.message, MAX_REJECTION_MESSAGE_BYTES, n);
      assert (prefix + "\U{2026}")[..|prefix|] == prefix;
      assert |prefix| == |r.message| ==> prefix == r.message;
    }
  }

  // ---- tinybar ----------------------------------------------------------------------------------

  function BalanceOf(accounts: Accounts, id: Id): nat {
    if id in accounts then accounts[id].balance else 0
  }

  predicate IsLive(accounts: Accounts, id: Id) {
    id in accounts && !accounts[id].deleted
  }

  /** `as i64`. */
  function AsInt64(n: nat): Int64 {
    var low := n % 0x1_0000_0000_0000_0000;
    if low <= MAX_I64 then low else low - 0x1_0000_0000_0000_0000
  }

  /** `adjust`: saturating at both ends of `u64`, silent when there is no such account. */
  function Adjust(accounts: Accounts, id: Id, amount: int): Accounts {
    if id !in accounts then accounts
    else
      var balance := accounts[id].balance + amount;
      accounts[id := accounts[id].(balance := if balance < 0 then 0
                                              else if balance > MAX_U64 then MAX_U64 else balance)]
  }

  /** `move_tinybar`. */
  function Move(accounts: Accounts, from: Id, to: Id, amount: nat): Accounts {
    var signed: int := AsInt64(amount);
    Adjust(Adjust(accounts, from, -signed), to, signed)
  }

  function LongZero(id: Id): Address {
    Zeros(12) + BigEndian(id, 8)
  }

  /** `insert_account`, for an id that was just allocated. */
  function InsertAccount(w: World, id: Id, account: Account): World {
    var evmAddress := if account.alias.Some? then account.alias.value else LongZero(id);
    w.(byEvm := w.byEvm[evmAddress := id][LongZero(id) := id],
       accounts := w.accounts[id := account])
  }

  // ---- the bodies -------------------------------------------------------------------------------

  datatype Resolved = Resolved(known: seq<(Id, Int64)>, hollow: seq<(Address, Int64)>)

  function ResolveOne(w: World, so: Resolved, entry: (AccountRef, Int64)): Result<Resolved, Status> {
    var amount := entry.1;
    match entry.0
    case ById(id) =>
      if IsLive(w.accounts, id) then Ok(so.(known := so.known + [(id, amount)]))
      else Err(if id in w.accounts then AccountDeleted else InvalidAccountId)
    case ByAlias(address) =>
      if address in w.byEvm then
        var id := w.byEvm[address];
        if IsLive(w.accounts, id) then Ok(so.(known := so.known + [(id, amount)])) else Err(AccountDeleted)
      else if amount > 0 then
        if exists i | 0 <= i < |so.hollow| :: so.hollow[i].0 == address then
          Err(AccountRepeatedInAccountAmounts)
        else Ok(so.(hollow := so.hollow + [(address, amount)]))
      else Err(InvalidAccountId)
  }

  /** Every reference of the list, in order; the first that does not resolve decides. */
  function Resolve(w: World, amounts: seq<(AccountRef, Int64)>): Result<Resolved, Status> {
    if amounts == [] then Ok(Resolved([], []))
    else match Resolve(w, amounts[..|amounts| - 1])
      case Err(status) => Err(status)
      case Ok(so) => ResolveOne(w, so, amounts[|amounts| - 1])
  }

  function SumOf<T>(amounts: seq<(T, Int64)>): int {
    if amounts == [] then 0 else SumOf(amounts[..|amounts| - 1]) + amounts[|amounts| - 1].1
  }

  predicate Distinct<T(==)>(amounts: seq<(T, Int64)>) {
    forall i, j | 0 <= i < j < |amounts| :: amounts[i].0 != amounts[j].0
  }

  predicate Funded(accounts: Accounts, amounts: seq<(Id, Int64)>) {
    forall i | 0 <= i < |amounts| :: amounts[i].1 < 0 ==> -amounts[i].1 <= BalanceOf(accounts, amounts[i].0)
  }

  function AdjustAll(accounts: Accounts, amounts: seq<(Id, Int64)>): Accounts {
    if amounts == [] then accounts
    else
      var last := amounts[|amounts| - 1];
      Adjust(AdjustAll(accounts, amounts[..|amounts| - 1]), last.0, last.1)
  }

  function Magnitude(n: int): nat {
    if n < 0 then -n else n
  }

  function HollowAccount(address: Address, amount: Int64): Account {
    Account(None, Some(address), Magnitude(amount), false)
  }

  /** Hollow accounts for the aliases nobody had. */
  function CreateHollow(w: World, hollow: seq<(Address, Int64)>): World {
    if hollow == [] then w
    else OpenHollow(CreateHollow(w, hollow[..|hollow| - 1]), hollow[|hollow| - 1])
  }

  function OpenHollow(w: World, entry: (Address, Int64)): World {
    InsertAccount(w.(nextId := w.nextId + 1), w.nextId, HollowAccount(entry.0, entry.1))
  }

  /** `apply_transfer`. */
  function ApplyTransfer(w: World, amounts: seq<(AccountRef, Int64)>): Result<World, Status> {
    if SumOf(amounts) != 0 then Err(InvalidAccountAmounts)
    else match Resolve(w, amounts)
      case Err(status) => Err(status)
      case Ok(r) =>
        if !Distinct(r.known) then Err(AccountRepeatedInAccountAmounts)
        else if !Funded(w.accounts, r.known) then Err(InsufficientAccountBalance)
        else Ok(CreateHollow(w.(accounts := AdjustAll(w.accounts, r.known)), r.hollow))
  }

  /** `apply_body` for every body but the EVM's: validate completely, then change. */
  function ApplyBody(w: World, payer: Id, body: Body, at: Timestamp): Result<World, Status>
    requires !body.Ethereum?
  {
    match body
    case CreateAccount(key, initialBalance, alias) =>
      if alias.Some? && alias.value in w.byEvm then Err(AliasAlreadyAssigned)
      else if BalanceOf(w.accounts, payer) < initialBalance then Err(InsufficientPayerBalance)
      else
        var w1 := InsertAccount(w.(nextId := w.nextId + 1), w.nextId,
                                Account(Some(key), alias, 0, false));
        Ok(w1.(accounts := Move(w1.accounts, payer, w.nextId, initialBalance)))
    case Transfer(amounts) => ApplyTransfer(w, amounts)
    case Delete(account, transferTo) =>
      if account == transferTo then Err(InvalidTransferAccountId)
      else if account !in w.accounts then Err(InvalidAccountId)
      else if !IsLive(w.accounts, account) then Err(AccountDeleted)
      else if !IsLive(w.accounts, transferTo) then Err(InvalidTransferAccountId)
      else
        var moved := Move(w.accounts, account, transferTo, BalanceOf(w.accounts, account));
        Ok(w.(accounts := moved[account := moved[account].(deleted := true)]))
    case CreateTopic(submitKey) =>
      Ok(w.(nextId := w.nextId + 1, topics := w.topics[w.nextId := Topic(submitKey, [])]))
    case SubmitMessage(topic, message) =>
      if message == [] then Err(InvalidTopicMessage)
      else if topic !in w.topics then Err(InvalidTopicId)
      else
        var target := w.topics[topic];
        var next := Message(|target.messages| + 1, message, at, payer);
        Ok(w.(topics := w.topics[topic := target.(messages := target.messages + [next])]))
  }

  function NextConsensus(w: World, at: Timestamp): Timestamp {
    if Later(at, w.lastConsensus) then at else NextNano(w.lastConsensus)
  }

  function ChargeFee(w: World, payer: Id): World {
    w.(accounts := Move(w.accounts, payer, FEE_COLLECTOR, HAPI_FEE))
  }

  function Store(w: World, record: Record): World {
    w.(byId := w.byId[record.id := |w.records|], records := w.records + [record])
  }

  /** `apply_hapi`: the fee first, then the body; a failed body keeps the fee and leaves a record. */
  function Applied(w: World, tx: Transaction, now: Timestamp, sendRaw: SendRaw): (World, Record) {
    var kind := KindOf(tx.body);
    if tx.body.Ethereum? then
      var charged := ChargeFee(w, tx.id.payer);
      match sendRaw(charged, tx.body.rlp, now)
      case Unminable(lastConsensus) =>
        var at := NextConsensus(charged.(lastConsensus := lastConsensus), now);
        var record := Record(tx.id, kind, at, InvalidTransactionBody, HAPI_FEE, []);
        (Store(charged.(lastConsensus := at), record), record)
      case Mined(accounts, byEvm, nextId, blocks, txs, lastConsensus, hash, success, at) =>
        var record := Record(tx.id, kind, at, if success then Success else ContractRevertExecuted,
                             HAPI_FEE, hash);
        (Store(charged.(accounts := accounts, byEvm := byEvm, nextId := nextId, blocks := blocks,
                        txs := txs, lastConsensus := lastConsensus), record), record)
    else
      var at := NextConsensus(w, now);
      var charged := ChargeFee(w.(lastConsensus := at), tx.id.payer);
      match ApplyBody(charged, tx.id.payer, tx.body, at)
      case Ok(applied) =>
        var record := Record(tx.id, kind, at, Success, HAPI_FEE, []);
        (Store(applied, record), record)
      case Err(status) =>
        var record := Record(tx.id, kind, at, status, HAPI_FEE, []);
        (Store(charged, record), record)
  }

  // ---- tinybar is conserved ---------------------------------------------------------------------

  ghost function Total(accounts: Accounts): nat {
    if accounts == map[] then 0
    else
      var id :| id in accounts;
      accounts[id].balance + Total(accounts - {id})
  }

  lemma {:induction false} TotalWithout(accounts: Accounts, id: Id)
    requires id in accounts
    ensures Total(accounts) == accounts[id].balance + Total(accounts - {id})
    decreases |accounts|
  {
    var first :| first in accounts
                 && Total(accounts) == accounts[first].balance + Total(accounts - {first});
    if first != id {
      TotalWithout(accounts - {first}, id);
      TotalWithout(accounts - {id}, first);
      assert accounts - {first} - {id} == accounts - {id} - {first};
    }
  }

  lemma TotalUpdate(accounts: Accounts, id: Id, account: Account)
    ensures Total(accounts[id := account])
         == Total(accounts) - BalanceOf(accounts, id) + account.balance
  {
    TotalWithout(accounts[id := account], id);
    assert accounts[id := account] - {id} == accounts - {id};
    if id in accounts { TotalWithout(accounts, id); } else { assert accounts - {id} == accounts; }
  }

  function Apart(a: int, b: int): nat {
    if a < b then b - a else a - b
  }

  /** An adjusted balance is the one of `u64` nearest to the sum. */
  lemma AdjustIsNearest(accounts: Accounts, id: Id, amount: int, n: nat)
    requires id in accounts && n <= MAX_U64
    ensures var sum, after := accounts[id].balance + amount, Adjust(accounts, id, amount)[id].balance;
            after <= MAX_U64 && Apart(after, sum) <= Apart(n, sum)
  {
  }

  lemma BalanceWithinTotal(accounts: Accounts, id: Id)
    ensures BalanceOf(accounts, id) <= Total(accounts)
  {
  }

  /** An adjustment that stays in range adds exactly its amount. */
  lemma AdjustTotal(accounts: Accounts, id: Id, amount: int)
    requires id in accounts && 0 <= accounts[id].balance + amount <= MAX_U64
    ensures Total(Adjust(accounts, id, amount)) == Total(accounts) + amount
    ensures Adjust(accounts, id, amount).Keys == accounts.Keys
    ensures BalanceOf(Adjust(accounts, id, amount), id) == accounts[id].balance + amount
    ensures forall other :: other != id
              ==> BalanceOf(Adjust(accounts, id, amount), other) == BalanceOf(accounts, other)
  {
    TotalUpdate(accounts, id, accounts[id].(balance := accounts[id].balance + amount));
  }

  lemma MoveTotal(accounts: Accounts, from: Id, to: Id, amount: nat)
    requires from in accounts && to in accounts && amount <= accounts[from].balance
    requires Total(accounts) <= MAX_I64
    ensures Total(Move(accounts, from, to, amount)) == Total(accounts)
    ensures Move(accounts, from, to, amount).Keys == accounts.Keys
  {
    BalanceWithinTotal(accounts, from);
    SmallAmount(amount);
    hide Total, AsInt64;
    var debit: int := 0 - amount;
    AdjustTotal(accounts, from, debit);
    var debited := Adjust(accounts, from, debit);
    BalanceWithinTotal(debited, to);
    AdjustTotal(debited, to, amount);
  }

  lemma SmallAmount(amount: nat)
    requires amount <= MAX_I64
    ensures AsInt64(amount) == amount
  {
  }

  lemma {:induction false} AdjustAllTotal(accounts: Accounts, amounts: seq<(Id, Int64)>)
    requires forall i :: 0 <= i < |amounts| ==> amounts[i].0 in accounts
    requires Distinct(amounts) && Funded(accounts, amounts) && Total(accounts) <= MAX_I64
    ensures Total(AdjustAll(accounts, amounts)) == Total(accounts) + SumOf(amounts)
    ensures AdjustAll(accounts, amounts).Keys == accounts.Keys
    ensures forall id :: (forall i :: 0 <= i < |amounts| ==> amounts[i].0 != id)
              ==> BalanceOf(AdjustAll(accounts, amounts), id) == BalanceOf(accounts, id)
  {
    if amounts != [] {
      var earlier, last := amounts[..|amounts| - 1], amounts[|amounts| - 1];
      AdjustAllTotal(accounts, earlier);
      var before := AdjustAll(accounts, earlier);
      assert BalanceOf(before, last.0) == BalanceOf(accounts, last.0);
      BalanceWithinTotal(accounts, last.0);
      AdjustTotal(before, last.0, last.1);
      forall id | forall i :: 0 <= i < |amounts| ==> amounts[i].0 != id
        ensures BalanceOf(AdjustAll(accounts, amounts), id) == BalanceOf(accounts, id)
      {
        assert id != last.0;
        forall i | 0 <= i < |earlier| ensures earlier[i].0 != id { assert earlier[i] == amounts[i]; }
      }
    }
  }

  /** What genesis has and submissions keep: the collector exists, ids are handed out once, the alias index
      names accounts, and the supply fits `i64`. A balance set over the RPC port need not keep the last. */
  ghost predicate Sound(w: World) {
    && FEE_COLLECTOR in w.accounts
    && w.nextId >= FIRST_USER_ID
    && (forall id :: id in w.accounts ==> id < w.nextId)
    && (forall address :: address in w.byEvm ==> w.byEvm[address] in w.accounts)
    && Total(w.accounts) <= MAX_I64
  }

  lemma InsertAccountSound(w: World, account: Account)
    requires Sound(w) && Total(w.accounts) + account.balance <= MAX_I64
    ensures var w1 := InsertAccount(w.(nextId := w.nextId + 1), w.nextId, account);
            Sound(w1) && Total(w1.accounts) == Total(w.accounts) + account.balance
  {
    TotalUpdate(w.accounts, w.nextId, account);
  }

  lemma {:induction false} CreateHollowSound(w: World, hollow: seq<(Address, Int64)>)
    requires Sound(w) && forall i :: 0 <= i < |hollow| ==> hollow[i].1 > 0
    requires Total(w.accounts) + SumOf(hollow) <= MAX_I64
    ensures SumOf(hollow) >= 0
    ensures var w1 := CreateHollow(w, hollow);
            Sound(w1) && Total(w1.accounts) == Total(w.accounts) + SumOf(hollow)
  {
    if hollow != [] {
      var earlier, last := hollow[..|hollow| - 1], hollow[|hollow| - 1];
      CreateHollowSound(w, earlier);
      InsertAccountSound(CreateHollow(w, earlier), HollowAccount(last.0, last.1));
    }
  }

  /** What resolving a list yields: known accounts, hollow credits, and the whole sum. */
  lemma {:induction false} ResolveFacts(w: World, amounts: seq<(AccountRef, Int64)>)
    requires Resolve(w, amounts).Ok?
    ensures var r := Resolve(w, amounts).value;
            && SumOf(r.known) + SumOf(r.hollow) == SumOf(amounts)
            && (forall i :: 0 <= i < |r.known| ==> IsLive(w.accounts, r.known[i].0))
            && (forall i :: 0 <= i < |r.hollow| ==> r.hollow[i].1 > 0 && r.hollow[i].0 !in w.byEvm)
            && Distinct(r.hollow)
  {
    if amounts != [] {
      var earlier, last := amounts[..|amounts| - 1], amounts[|amounts| - 1];
      ResolveFacts(w, earlier);
      ResolveOneFacts(w, Resolve(w, earlier).value, last);
    }
  }

  lemma ResolveOneFacts(w: World, so: Resolved, entry: (AccountRef, Int64))
    requires ResolveOne(w, so, entry).Ok? && Distinct(so.hollow)
    requires forall i :: 0 <= i < |so.known| ==> IsLive(w.accounts, so.known[i].0)
    requires forall i :: 0 <= i < |so.hollow| ==> so.hollow[i].1 > 0 && so.hollow[i].0 !in w.byEvm
    ensures var r := ResolveOne(w, so, entry).value;
            && SumOf(r.known) + SumOf(r.hollow) == SumOf(so.known) + SumOf(so.hollow) + entry.1
            && (forall i :: 0 <= i < |r.known| ==> IsLive(w.accounts, r.known[i].0))
            && (forall i :: 0 <= i < |r.hollow| ==> r.hollow[i].1 > 0 && r.hollow[i].0 !in w.byEvm)
            && Distinct(r.hollow)
  {
    SumAppend(so.known, so.hollow, entry.1);
    hide SumOf;
  }

  lemma SumAppend(known: seq<(Id, Int64)>, hollow: seq<(Address, Int64)>, amount: Int64)
    ensures forall id :: SumOf(known + [(id, amount)]) == SumOf(known) + amount
    ensures forall address :: SumOf(hollow + [(address, amount)]) == SumOf(hollow) + amount
  {
  }

  lemma TransferConserves(w: World, amounts: seq<(AccountRef, Int64)>)
    requires Sound(w) && ApplyTransfer(w, amounts).Ok?
    ensures var w1 := ApplyTransfer(w, amounts).value;
            Sound(w1) && Total(w1.accounts) == Total(w.accounts)
  {
    ResolveFacts(w, amounts);
    var r := Resolve(w, amounts).value;
    AdjustAllTotal(w.accounts, r.known);
    DebitsLeaveRoom(w, r.known, r.hollow);
    CreateHollowSound(w.(accounts := AdjustAll(w.accounts, r.known)), r.hollow);
  }

  lemma DebitsLeaveRoom(w: World, known: seq<(Id, Int64)>, hollow: seq<(Address, Int64)>)
    requires forall i :: 0 <= i < |hollow| ==> hollow[i].1 > 0
    requires SumOf(known) + SumOf(hollow) == 0
    ensures SumOf(known) <= 0
  {
    PositiveSum(hollow);
  }

  lemma {:induction false} PositiveSum(hollow: seq<(Address, Int64)>)
    requires forall i :: 0 <= i < |hollow| ==> hollow[i].1 > 0
    ensures SumOf(hollow) >= 0
  {
    if hollow != [] { PositiveSum(hollow[..|hollow| - 1]); }
  }

  /** Moving nothing changes nothing, whoever the ends are. */
  lemma MoveNothing(accounts: Accounts, from: Id, to: Id)
    requires Total(accounts) <= MAX_I64
    ensures Move(accounts, from, to, 0) == accounts
  {
    BalanceWithinTotal(accounts, from);
    BalanceWithinTotal(accounts, to);
    assert Adjust(accounts, from, 0) == accounts && Adjust(accounts, to, 0) == accounts;
  }

  lemma CreateConserves(w: World, payer: Id, body: Body, at: Timestamp)
    requires Sound(w) && body.CreateAccount? && ApplyBody(w, payer, body, at).Ok?
    ensures var w1 := ApplyBody(w, payer, body, at).value;
            Sound(w1) && Total(w1.accounts) == Total(w.accounts)
  {
    var account := Account(Some(body.key), body.alias, 0, false);
    var w1 := InsertAccount(w.(nextId := w.nextId + 1), w.nextId, account);
    InsertAccountSound(w, account);
    if payer in w.accounts {
      MoveTotal(w1.accounts, payer, w.nextId, body.initialBalance);
    } else {
      MoveNothing(w1.accounts, payer, w.nextId);
    }
    hide Total, Move;
  }

  lemma DeleteConserves(w: World, payer: Id, body: Body, at: Timestamp)
    requires Sound(w) && body.Delete? && ApplyBody(w, payer, body, at).Ok?
    ensures var w1 := ApplyBody(w, payer, body, at).value;
            Sound(w1) && Total(w1.accounts) == Total(w.accounts)
  {
    var account, to, balance := body.account, body.transferTo, BalanceOf(w.accounts, body.account);
    MoveTotal(w.accounts, account, to, balance);
    var moved := Move(w.accounts, account, to, balance);
    TotalUpdate(moved, account, moved[account].(deleted := true));
    hide Total;
  }

  lemma BodyConserves(w: World, payer: Id, body: Body, at: Timestamp)
    requires Sound(w) && !body.Ethereum?
    requires ApplyBody(w, payer, body, at).Ok?
    ensures var w1 := ApplyBody(w, payer, body, at).value;
            Sound(w1) && Total(w1.accounts) == Total(w.accounts)
  {
    hide Total, Move;
    match body
    case CreateAccount(_, _, _) => CreateConserves(w, payer, body, at);
    case Transfer(amounts) => TransferConserves(w, amounts);
    case Delete(_, _) => DeleteConserves(w, payer, body, at);
    case CreateTopic(_) =>
    case SubmitMessage(_, _) =>
  }

  /** Accounts and topics may change; the histories do not. */
  ghost predicate KeepsHistory(w: World, w1: World) {
    && w1.records == w.records && w1.byId == w.byId && w1.blocks == w.blocks
    && w1.rejections == w.rejections && w1.dropped == w.dropped && w1.maxRejections == w.maxRejections
  }

  lemma {:induction false} CreateHollowKeepsHistory(w: World, hollow: seq<(Address, Int64)>)
    ensures KeepsHistory(w, CreateHollow(w, hollow))
  {
    if hollow != [] { CreateHollowKeepsHistory(w, hollow[..|hollow| - 1]); }
  }

  lemma BodyKeepsHistory(w: World, payer: Id, body: Body, at: Timestamp)
    requires !body.Ethereum?
    ensures match ApplyBody(w, payer, body, at)
            case Ok(w1) => KeepsHistory(w, w1)
            case Err(_) => true
  {
    if body.Transfer? && Resolve(w, body.amounts).Ok? {
      var r := Resolve(w, body.amounts).value;
      CreateHollowKeepsHistory(w.(accounts := AdjustAll(w.accounts, r.known)), r.hollow);
    }
  }

  /** What of the fee the payer does not have. */
  function Shortfall(accounts: Accounts, payer: Id): nat {
    if BalanceOf(accounts, payer) >= HAPI_FEE then 0 else HAPI_FEE - BalanceOf(accounts, payer)
  }

  /** What is left of a balance after the fee. */
  function LessFee(balance: nat): nat {
    if balance >= HAPI_FEE then balance - HAPI_FEE else 0
  }

  /** The payer gives what it has of the fee, the collector gets all of it. */
  lemma FeeMintsShortfall(w: World, payer: Id)
    requires Sound(w) && Total(w.accounts) + Shortfall(w.accounts, payer) <= MAX_I64
    ensures var charged := ChargeFee(w, payer);
            && Sound(charged) && Total(charged.accounts) == Total(w.accounts) + Shortfall(w.accounts, payer)
            && charged.accounts.Keys == w.accounts.Keys
            && forall id :: BalanceOf(charged.accounts, id)
                            == (if id == payer then LessFee(BalanceOf(w.accounts, id)) else BalanceOf(w.accounts, id))
                               + (if id == FEE_COLLECTOR then HAPI_FEE else 0)
  {
    SmallAmount(HAPI_FEE);
    var debited := Adjust(w.accounts, payer, 0 - HAPI_FEE);
    FeeDebited(w.accounts, payer);
    BalanceWithinTotal(w.accounts, payer);
    hide Total, BalanceOf;
    BalanceWithinTotal(debited, FEE_COLLECTOR);
    FeeCollected(debited);
    hide Adjust;
  }

  lemma FeeDebited(accounts: Accounts, payer: Id)
    requires Total(accounts) <= MAX_I64
    ensures var debited := Adjust(accounts, payer, 0 - HAPI_FEE);
            && debited.Keys == accounts.Keys
            && Total(debited) == Total(accounts) - BalanceOf(accounts, payer) + LessFee(BalanceOf(accounts, payer))
            && forall id :: BalanceOf(debited, id)
                            == (if id == payer then LessFee(BalanceOf(accounts, id)) else BalanceOf(accounts, id))
  {
    BalanceWithinTotal(accounts, payer);
    if payer in accounts { AdjustTotalTo(accounts, payer, 0 - HAPI_FEE, LessFee(BalanceOf(accounts, payer))); }
    hide Total;
  }

  lemma FeeCollected(accounts: Accounts)
    requires FEE_COLLECTOR in accounts && BalanceOf(accounts, FEE_COLLECTOR) + HAPI_FEE <= MAX_U64
    ensures var collected := Adjust(accounts, FEE_COLLECTOR, HAPI_FEE);
            && collected.Keys == accounts.Keys && Total(collected) == Total(accounts) + HAPI_FEE
            && forall id :: BalanceOf(collected, id)
                            == BalanceOf(accounts, id) + if id == FEE_COLLECTOR then HAPI_FEE else 0
  {
    AdjustTotal(accounts, FEE_COLLECTOR, HAPI_FEE);
  }

  /** `apply_hapi` itself does not look at the payer's balance: the fee keeps the supply exactly when
      the payer exists and can pay it. The prechecks of a submission see to that; a caller that goes
      around them mints the shortfall. */
  lemma FeeConservesIffPaid(w: World, payer: Id)
    requires Sound(w) && Total(w.accounts) + HAPI_FEE <= MAX_I64
    ensures Total(ChargeFee(w, payer).accounts) == Total(w.accounts)
            <==> payer in w.accounts && w.accounts[payer].balance >= HAPI_FEE
  {
    FeeMintsShortfall(w, payer);
  }

  lemma AdjustTotalTo(accounts: Accounts, id: Id, amount: int, balance: nat)
    requires id in accounts && Adjust(accounts, id, amount) == accounts[id := accounts[id].(balance := balance)]
    ensures Total(Adjust(accounts, id, amount)) == Total(accounts) - accounts[id].balance + balance
  {
    TotalUpdate(accounts, id, accounts[id].(balance := balance));
  }

  /** Every HAPI body, applied or failed, moves the supply by what of the fee the payer does not have;
      a failed one charges the fee and does nothing else; either leaves exactly one record. */
  lemma HapiConserves(w: World, tx: Transaction, now: Timestamp, sendRaw: SendRaw)
    requires Sound(w) && !tx.body.Ethereum?
    requires Total(w.accounts) + Shortfall(w.accounts, tx.id.payer) <= MAX_I64
    ensures var (w1, record) := Applied(w, tx, now, sendRaw);
            && Sound(w1) && Total(w1.accounts) == Total(w.accounts) + Shortfall(w.accounts, tx.id.payer)
            && w1.records == w.records + [record] && record.id == tx.id && record.fee == HAPI_FEE
            && (record.status != Success ==>
                  && w1.accounts == ChargeFee(w, tx.id.payer).accounts
                  && w1.topics == w.topics && w1.byEvm == w.byEvm && w1.nextId == w.nextId)
  {
    var at := NextConsensus(w, now);
    var stamped := w.(lastConsensus := at);
    FeeMintsShortfall(stamped, tx.id.payer);
    var charged := ChargeFee(stamped, tx.id.payer);
    if ApplyBody(charged, tx.id.payer, tx.body, at).Ok? {
      BodyConserves(charged, tx.id.payer, tx.body, at);
    }
    BodyKeepsHistory(charged, tx.id.payer, tx.body, at);
    hide Total, Move, ApplyBody, Sound, Shortfall;
  }

  // ---- where the tinybar go ---------------------------------------------------------------------

  /** The account a reference names now. */
  function NamedBy(w: World, so: AccountRef): Option<Id> {
    match so
    case ById(id) => Some(id)
    case ByAlias(address) => if address in w.byEvm then Some(w.byEvm[address]) else None
  }

  /** Everything the list gives to, less everything it takes from, one account. */
  function Net(w: World, amounts: seq<(AccountRef, Int64)>, id: Id): int {
    if amounts == [] then 0
    else
      var (so, amount) := amounts[|amounts| - 1];
      Net(w, amounts[..|amounts| - 1], id) + (if NamedBy(w, so) == Some(id) then amount else 0)
  }

  function KnownNet(known: seq<(Id, Int64)>, id: Id): int {
    if known == [] then 0
    else
      var (named, amount) := known[|known| - 1];
      KnownNet(known[..|known| - 1], id) + (if named == id then amount else 0)
  }

  lemma {:induction false} ResolveNet(w: World, amounts: seq<(AccountRef, Int64)>, id: Id)
    requires Resolve(w, amounts).Ok?
    ensures KnownNet(Resolve(w, amounts).value.known, id) == Net(w, amounts, id)
  {
    if amounts != [] {
      var earlier, last := amounts[..|amounts| - 1], amounts[|amounts| - 1];
      ResolveNet(w, earlier, id);
      var known := Resolve(w, earlier).value.known;
      if NamedBy(w, last.0).Some? {
        var named := NamedBy(w, last.0).value;
        assert (known + [(named, last.1)])[..|known|] == known;
      }
    }
  }

  lemma {:induction false} AdjustAllNet(accounts: Accounts, amounts: seq<(Id, Int64)>, id: Id)
    requires forall i :: 0 <= i < |amounts| ==> amounts[i].0 in accounts
    requires Distinct(amounts) && Funded(accounts, amounts) && Total(accounts) <= MAX_I64
    ensures BalanceOf(AdjustAll(accounts, amounts), id) == BalanceOf(accounts, id) + KnownNet(amounts, id)
  {
    if amounts != [] {
      var earlier, last := amounts[..|amounts| - 1], amounts[|amounts| - 1];
      AdjustAllNet(accounts, earlier, id);
      AdjustAllTotal(accounts, earlier);
      var before := AdjustAll(accounts, earlier);
      assert BalanceOf(before, last.0) == BalanceOf(accounts, last.0);
      BalanceWithinTotal(accounts, last.0);
      AdjustTotal(before, last.0, last.1);
    }
  }

  /** The accounts from `first` on are the hollow ones, in list order. */
  ghost predicate Hollow(accounts: Accounts, first: Id, hollow: seq<(Address, Int64)>) {
    forall i :: 0 <= i < |hollow| ==> HollowAt(accounts, first + i, hollow[i])
  }

  ghost predicate HollowAt(accounts: Accounts, id: Id, entry: (Address, Int64)) {
    id in accounts && accounts[id] == HollowAccount(entry.0, entry.1)
  }

  ghost predicate Extends(after: Accounts, before: Accounts, nextId: Id) {
    forall id :: id in before && id < nextId ==> id in after && after[id] == before[id]
  }

  lemma {:induction false} CreateHollowExtends(w: World, hollow: seq<(Address, Int64)>)
    ensures var w1 := CreateHollow(w, hollow);
            w1.nextId == w.nextId + |hollow| && Extends(w1.accounts, w.accounts, w.nextId)
  {
    if hollow != [] {
      hide OpenHollow;
      CreateHollowExtends(w, hollow[..|hollow| - 1]);
      OpenHollowAdds(CreateHollow(w, hollow[..|hollow| - 1]), hollow[|hollow| - 1]);
    }
  }

  lemma {:induction false} CreateHollowAdds(w: World, hollow: seq<(Address, Int64)>)
    ensures Hollow(CreateHollow(w, hollow).accounts, w.nextId, hollow)
  {
    if hollow != [] {
      hide OpenHollow, HollowAccount, Hollow;
      var earlier, last := hollow[..|hollow| - 1], hollow[|hollow| - 1];
      CreateHollowAdds(w, earlier);
      CreateHollowExtends(w, earlier);
      var w1 := CreateHollow(w, earlier);
      OpenHollowAdds(w1, last);
      HollowGrows(w1.accounts, OpenHollow(w1, last).accounts, w.nextId, earlier, last);
      assert earlier + [last] == hollow;
    }
  }

  lemma OpenHollowAdds(w: World, entry: (Address, Int64))
    ensures OpenHollow(w, entry).nextId == w.nextId + 1
    ensures OpenHollow(w, entry).accounts == w.accounts[w.nextId := HollowAccount(entry.0, entry.1)]
  {
  }

  lemma HollowGrows(before: Accounts, after: Accounts, first: Id, earlier: seq<(Address, Int64)>,
                    last: (Address, Int64))
    requires Hollow(before, first, earlier)
    requires after == before[first + |earlier| := HollowAccount(last.0, last.1)]
    ensures Hollow(after, first, earlier + [last])
  {
  }

  /** An accepted transfer gives every account exactly what the list says in all, and opens one
      hollow account, with its credit, for each alias nobody held. */
  lemma TransferMovesNet(w: World, amounts: seq<(AccountRef, Int64)>, id: Id)
    requires Sound(w) && ApplyTransfer(w, amounts).Ok? && id in w.accounts
    ensures var w1, hollow := ApplyTransfer(w, amounts).value, Resolve(w, amounts).value.hollow;
            && BalanceOf(w1.accounts, id) == w.accounts[id].balance + Net(w, amounts, id)
            && w1.nextId == w.nextId + |hollow| && Hollow(w1.accounts, w.nextId, hollow)
  {
    ResolveFacts(w, amounts);
    var r := Resolve(w, amounts).value;
    AdjustAllTotal(w.accounts, r.known);
    var adjusted := AdjustAll(w.accounts, r.known);
    ResolveNet(w, amounts, id);
    AdjustAllNet(w.accounts, r.known, id);
    assert id in adjusted && id < w.nextId;
    hide Resolve, AdjustAll, CreateHollow, Net, KnownNet, Total, Hollow;
    CreateHollowAdds(w.(accounts := adjusted), r.hollow);
    CreateHollowExtends(w.(accounts := adjusted), r.hollow);
  }

  /** The two ends of a move. */
  lemma MoveEffect(accounts: Accounts, from: Id, to: Id, amount: nat, id: Id)
    requires from in accounts && to in accounts && amount <= accounts[from].balance
    requires Total(accounts) <= MAX_I64
    ensures BalanceOf(Move(accounts, from, to, amount), id)
         == BalanceOf(accounts, id) - (if id == from then amount else 0) + (if id == to then amount else 0)
  {
    BalanceWithinTotal(accounts, from);
    SmallAmount(amount);
    var debit: int := 0 - amount;
    AdjustTotal(accounts, from, debit);
    var debited := Adjust(accounts, from, debit);
    BalanceWithinTotal(debited, to);
    AdjustTotal(debited, to, amount);
  }

  // ---- snapshots --------------------------------------------------------------------------------

  /** The chain with its snapshots. */
  datatype Chained = Chained(world: World, snapshots: map<nat, World>, nextSnapshot: nat)

  function TakeSnapshot(c: Chained): Chained {
    c.(snapshots := c.snapshots[c.nextSnapshot := c.world], nextSnapshot := c.nextSnapshot + 1)
  }

  function RevertTo(c: Chained, id: nat): Chained {
    if id !in c.snapshots then c
    else c.(world := c.snapshots[id], snapshots := map k | k in c.snapshots && k < id :: c.snapshots[k])
  }

  /** Ids are never handed out twice. */
  ghost predicate IdsAreSpent(c: Chained) {
    forall k :: k in c.snapshots ==> k < c.nextSnapshot
  }

  /** What anyone with the RPC port can do to the chain between two points: transactions of any kind,
      `evm_snapshot` and `evm_revert`. */
  datatype Op = Change(world: World) | Snapshot | Revert(id: nat)

  function Perform(c: Chained, op: Op): Chained {
    match op
    case Change(world) => c.(world := world)
    case Snapshot => TakeSnapshot(c)
    case Revert(id) => RevertTo(c, id)
  }

  function PerformAll(c: Chained, ops: seq<Op>): Chained {
    if ops == [] then c else Perform(PerformAll(c, ops[..|ops| - 1]), ops[|ops| - 1])
  }

  /** Some `evm_revert` among the ops succeeded on this snapshot or an older one. */
  ghost predicate Undercut(c: Chained, ops: seq<Op>, id: nat) {
    exists i :: 0 <= i < |ops| && ops[i].Revert? && ops[i].id <= id
                && ops[i].id in PerformAll(c, ops[..i]).snapshots
  }

  lemma {:induction false} UndercutStep(c: Chained, ops: seq<Op>, id: nat)
    requires ops != []
    ensures var earlier, last := ops[..|ops| - 1], ops[|ops| - 1];
            Undercut(c, ops, id)
            <==> (Undercut(c, earlier, id)
                  || (last.Revert? && last.id <= id && last.id in PerformAll(c, earlier).snapshots))
  {
    var earlier, last := ops[..|ops| - 1], ops[|ops| - 1];
    if Undercut(c, earlier, id) {
      var i :| 0 <= i < |earlier| && earlier[i].Revert? && earlier[i].id <= id
               && earlier[i].id in PerformAll(c, earlier[..i]).snapshots;
      assert earlier[..i] == ops[..i] && ops[i] == earlier[i];
    }
    if Undercut(c, ops, id) {
      var i :| 0 <= i < |ops| && ops[i].Revert? && ops[i].id <= id
               && ops[i].id in PerformAll(c, ops[..i]).snapshots;
      if i < |earlier| { assert earlier[..i] == ops[..i] && ops[i] == earlier[i]; }
    }
  }

  /** A snapshot survives whatever is done after it, with the contents it was taken of, exactly when
      no later revert succeeded on it or on an older one. */
  lemma {:induction false} SnapshotSurvives(c: Chained, ops: seq<Op>)
    requires IdsAreSpent(c)
    ensures var id, after := c.nextSnapshot, PerformAll(TakeSnapshot(c), ops);
            && IdsAreSpent(after) && after.nextSnapshot > id
            && (id in after.snapshots <==> !Undercut(TakeSnapshot(c), ops, id))
            && (id in after.snapshots ==> after.snapshots[id] == c.world)
  {
    if ops != [] {
      SnapshotSurvives(c, ops[..|ops| - 1]);
      UndercutStep(TakeSnapshot(c), ops, c.nextSnapshot);
    }
  }

  /** Reverting to it then restores those contents, and otherwise changes nothing at all. */
  lemma RevertRestores(c: Chained, ops: seq<Op>)
    requires IdsAreSpent(c)
    ensures var id, after := c.nextSnapshot, PerformAll(TakeSnapshot(c), ops);
            if Undercut(TakeSnapshot(c), ops, id) then RevertTo(after, id) == after
            else RevertTo(after, id).world == c.world
    ensures IdsAreSpent(RevertTo(PerformAll(TakeSnapshot(c), ops), c.nextSnapshot))
  {
    SnapshotSurvives(c, ops);
  }

  // ---- the object -------------------------------------------------------------------------------

  class Chain {
    var world: World
    var snapshots: map<nat, World>
    var nextSnapshot: nat

    ghost function Value(): Chained
      reads this
    {
      Chained(world, snapshots, nextSnapshot)
    }

    constructor (world: World)
      ensures Value() == Chained(world, map[], 0)
    {
      this.world, snapshots, nextSnapshot := world, map[], 0;
    }

    /** `snapshot`. */
    method Snapshot() returns (id: nat)
      modifies this
      ensures id == old(nextSnapshot) && Value() == TakeSnapshot(old(Value()))
    {
      id := nextSnapshot;
      nextSnapshot := nextSnapshot + 1;
      snapshots := snapshots[id := world];
    }

    /** `revert`. */
    method Revert(id: nat) returns (restored: bool)
      modifies this
      ensures restored == (id in old(snapshots)) && Value() == RevertTo(old(Value()), id)
    {
      if id !in snapshots {
        return false;
      }
      world := snapshots[id];
      snapshots := map k | k in snapshots && k < id :: snapshots[k];
      restored := true;
    }

    /** `reject`, one refusal dropped at a time. */
    method Reject(r: Rejection)
      modifies this`world
      ensures world == Rejected(old(world), r)
    {
      hide Text.Fitting, Text.Utf8Length;
      var kept := r;
      if Text.Utf8Length(r.message) > MAX_REJECTION_MESSAGE_BYTES {
        kept := r.(message := Text.Fitting(r.message, MAX_REJECTION_MESSAGE_BYTES) + "\U{2026}");
      }
      var rejections, dropped, max := world.rejections + [kept], world.dropped, world.maxRejections;
      ghost var all := rejections;
      while max != 0 && |rejections| > max
        invariant max == 0 ==> rejections == all
        invariant Newest(rejections, max) == Newest(all, max)
        invariant dropped + |rejections| == world.dropped + |all| && world == old(world)
        decreases |rejections|
      {
        NewestOfRest(rejections, max);
        hide Newest;
        rejections := rejections[1..];
        dropped := dropped + 1;
      }
      world := world.(rejections := rejections, dropped := dropped);
    }

    /** `apply_hapi`. */
    method ApplyHapi(tx: Transaction, now: Timestamp, sendRaw: SendRaw) returns (record: Record)
      modifies this`world
      ensures (world, record) == Applied(old(world), tx, now, sendRaw)
    {
      var kind := KindOf(tx.body);
      var at := now;
      if !tx.body.Ethereum? {
        at := NextConsensus(world, now);
        world := world.(lastConsensus := at);
      }
      world := ChargeFee(world, tx.id.payer);
      var status, hash := Success, [];
      if tx.body.Ethereum? {
        match sendRaw(world, tx.body.rlp, now) {
          case Unminable(lastConsensus) =>
            at := NextConsensus(world.(lastConsensus := lastConsensus), now);
            world := world.(lastConsensus := at);
            status := InvalidTransactionBody;
          case Mined(accounts, byEvm, nextId, blocks, txs, lastConsensus, mined, success, minedAt) =>
            world := world.(accounts := accounts, byEvm := byEvm, nextId := nextId, blocks := blocks,
                            txs := txs, lastConsensus := lastConsensus);
            at, hash := minedAt, mined;
            if !success { status := ContractRevertExecuted; }
        }
      } else {
        match ApplyBody(world, tx.id.payer, tx.body, at) {
          case Ok(applied) => world := applied;
          case Err(failure) => status := failure;
        }
      }
      record := Record(tx.id, kind, at, status, HAPI_FEE, hash);
      world := world.(byId := world.byId[record.id := |world.records|], records := world.records + [record]);
    }
  }
}
