/** What a submitted message asks for and what it gets: `submit` of `src/hapi/wire.rs` from the message
    to the chain, stated without the functions that decode, check and apply it. */
module Requests {
  import opened Wrappers
  import opened Evm
  import opened State
  import opened Wire
  import opened Effects
  import Text

  // ---- what a message says ----------------------------------------------------------------------

  /** An account number, signed on the wire and unsigned on the chain. */
  ghost predicate Unsigned(num: Int64, n: nat) {
    n == if num >= 0 then num else num + 0x1_0000_0000_0000_0000
  }

  ghost predicate Numbers(id: Option<AccountIdMsg>, n: Id) {
    match id
    case Some(AccountIdMsg(Some(AccountNum(num)))) => Unsigned(num, n)
    case _ => false
  }

  /** An account by number, or by an alias of twenty bytes. */
  ghost predicate Reads(id: Option<AccountIdMsg>, so: AccountRef) {
    match id
    case Some(AccountIdMsg(Some(AccountNum(num)))) => so.ById? && Unsigned(num, so.id)
    case Some(AccountIdMsg(Some(Alias(bytes)))) => |bytes| == 20 && so == ByAlias(bytes)
    case _ => false
  }

  ghost predicate Identifies(msg: Option<TransactionIdMsg>, id: TxId) {
    && msg.Some? && Numbers(msg.value.accountId, id.payer) && msg.value.validStart.Some?
    && msg.value.validStart.value.seconds == id.validStart.secs
    && msg.value.validStart.value.nanos == id.validStart.nanos
    && msg.value.nonce == id.nonce && msg.value.scheduled == id.scheduled
  }

  /** An Ed25519 key of 32 bytes or an ECDSA key of 33. */
  ghost predicate Usable(form: Option<KeyForm>, key: Key) {
    match form
    case Some(Ed25519Bytes(bytes)) => |bytes| == 32 && key == Ed25519(bytes)
    case Some(EcdsaBytes(bytes)) => |bytes| == 33 && key == EcdsaSecp256k1(bytes)
    case _ => false
  }

  ghost predicate Holds(form: Option<KeyForm>, key: Option<Key>) {
    if key.Some? then Usable(form, key.value) else forall other :: !Usable(form, other)
  }

  ghost predicate Readable(id: Option<AccountIdMsg>) {
    exists so :: Reads(id, so)
  }

  ghost predicate Numbered(id: Option<AccountIdMsg>) {
    exists n :: Numbers(id, n)
  }

  ghost predicate ReadsAll(amounts: seq<AmountMsg>, entries: Entries) {
    && |amounts| == |entries|
    && forall i :: 0 <= i < |amounts| ==> Reads(amounts[i].accountId, entries[i].0)
                                          && entries[i].1 == amounts[i].amount
  }

  /** The message of an envelope, when it can be read. */
  function MessageOf(envelope: Envelope, node: Node): Option<BodyMsg> {
    match node.decodeSigned(envelope.signedBytes)
    case Some(signed) => node.decodeBody(signed.bodyBytes)
    case None => None
  }

  // ---- what is wrong with it --------------------------------------------------------------------

  /** What is wrong with the data, whatever the chain holds. */
  ghost function DataFault(data: Option<Data>): Option<Status> {
    match data
    case None => Some(InvalidTransactionBody)
    case Some(CryptoCreate(key, _, alias)) =>
      if forall k :: !Usable(key, k) then Some(KeyRequired)
      else if |alias| != 0 && |alias| != 20 then Some(BadEncoding)
      else None
    case Some(CryptoTransferList(hasTokenTransfers, amounts)) =>
      if hasTokenTransfers then Some(NotSupported)
      else if exists amount <- amounts :: !Readable(amount.accountId) then Some(InvalidAccountId)
      else None
    case Some(CryptoDeleteAccount(account, transferTo)) =>
      if !Numbered(account) then Some(InvalidAccountId)
      else if !Numbered(transferTo) then Some(InvalidTransferAccountId)
      else None
    case Some(TopicCreate(_)) => None
    case Some(TopicMessage(topic, _)) => if topic.None? then Some(InvalidTopicId) else None
    case Some(EthereumData(hasCallData, _)) => if hasCallData then Some(NotSupported) else None
    case Some(OtherData) => Some(NotSupported)
  }

  function KindAsked(data: Data): Option<Kind> {
    match data
    case CryptoCreate(_, _, _) => Some(CryptoCreateAccount)
    case CryptoTransferList(_, _) => Some(CryptoTransfer)
    case CryptoDeleteAccount(_, _) => Some(CryptoDelete)
    case TopicCreate(_) => Some(ConsensusCreateTopic)
    case TopicMessage(_, _) => Some(ConsensusSubmitMessage)
    case EthereumData(_, _) => Some(EthereumTransaction)
    case OtherData => None
  }

  /** The body is the one the data describes. */
  ghost predicate Describes(data: Data, body: Body) {
    match data
    case CryptoCreate(key, initialBalance, alias) =>
      && body.CreateAccount? && Usable(key, body.key) && body.initialBalance == initialBalance
      && (|alias| == 0 || |alias| == 20) && body.alias == if |alias| == 0 then None else Some(alias)
    case CryptoTransferList(hasTokenTransfers, amounts) =>
      !hasTokenTransfers && body.Transfer? && ReadsAll(amounts, body.amounts)
    case CryptoDeleteAccount(account, transferTo) =>
      body.Delete? && Numbers(account, body.account) && Numbers(transferTo, body.transferTo)
    case TopicCreate(submitKey) => body.CreateTopic? && Holds(submitKey, body.submitKey)
    case TopicMessage(topic, message) =>
      body.SubmitMessage? && topic.Some? && Unsigned(topic.value, body.topic) && body.message == message
    case EthereumData(hasCallData, rlp) => !hasCallData && body == Ethereum(rlp)
    case OtherData => false
  }

  // ---- the converters agree ---------------------------------------------------------------------

  lemma UnsignedIs(num: Int64)
    ensures Unsigned(num, AsU64(num))
    ensures forall n :: Unsigned(num, n) ==> n == AsU64(num)
  {
    assert num < 0 ==> (num + TWO64) % TWO64 == num % TWO64;
  }

  lemma NumbersIs(id: Option<AccountIdMsg>, n: Id)
    ensures Numbers(id, n) <==> AccountId(id) == Some(n)
    ensures Numbered(id) <==> AccountId(id).Some?
  {
    match id
    case Some(AccountIdMsg(Some(AccountNum(num)))) =>
      UnsignedIs(num);
      hide AsU64, Unsigned;
      assert Numbers(id, AsU64(num));
    case _ =>
  }

  lemma ReadsIs(id: Option<AccountIdMsg>, so: AccountRef)
    ensures Reads(id, so) <==> AccountRefOf(id) == Some(so)
    ensures Readable(id) <==> AccountRefOf(id).Some?
  {
    match id
    case Some(AccountIdMsg(Some(AccountNum(num)))) =>
      UnsignedIs(num);
      hide AsU64, Unsigned;
      assert Reads(id, ById(AsU64(num)));
    case Some(AccountIdMsg(Some(Alias(bytes)))) =>
      if |bytes| == 20 { assert Reads(id, ByAlias(bytes)); }
    case _ =>
  }

  lemma IdentifiesIs(msg: Option<TransactionIdMsg>, id: TxId)
    ensures Identifies(msg, id) <==> TransactionId(msg) == Some(id)
  {
    if msg.Some? { NumbersIs(msg.value.accountId, id.payer); }
    hide Numbers, AccountId;
  }

  lemma UsableIs(form: Option<KeyForm>, key: Key)
    ensures Usable(form, key) <==> KeyFrom(form) == Some(key)
    ensures (forall k :: !Usable(form, k)) <==> KeyFrom(form).None?
    ensures Holds(form, KeyFrom(form))
  {
    if KeyFrom(form).Some? { assert Usable(form, KeyFrom(form).value); }
  }

  lemma {:induction false} ReadsAllIs(amounts: seq<AmountMsg>)
    ensures match DecodeAmounts(amounts)
            case Ok(entries) => ReadsAll(amounts, entries)
            case Err(status) => status == InvalidAccountId && exists amount <- amounts :: !Readable(amount.accountId)
    ensures DecodeAmounts(amounts).Ok? ==> forall amount <- amounts :: Readable(amount.accountId)
  {
    if amounts != [] {
      ReadsAllIs(amounts[1..]);
      ReadsIs(amounts[0].accountId, if AccountRefOf(amounts[0].accountId).Some?
                                    then AccountRefOf(amounts[0].accountId).value else ById(0));
      hide AccountRefOf, Reads, Readable;
      assert amounts == [amounts[0]] + amounts[1..];
      if AccountRefOf(amounts[0].accountId).None? { assert amounts[0] in amounts; }
    }
  }

  /** Decoding yields the body the data describes, or what is wrong with the data. */
  lemma DecodeIs(data: Option<Data>)
    ensures match DecodeBody(data)
            case Ok(body) =>
              && data.Some? && DataFault(data).None? && Describes(data.value, body)
              && KindAsked(data.value) == Some(KindOf(body))
            case Err(status) => DataFault(data) == Some(status)
  {
    match data
    case Some(CryptoCreate(key, _, _)) =>
      if KeyFrom(key).Some? { UsableIs(key, KeyFrom(key).value); } else { UsableIs(key, Ed25519([])); }
      hide KeyFrom, Usable;
    case Some(CryptoTransferList(_, amounts)) =>
      ReadsAllIs(amounts);
      hide ReadsAll, Readable, DecodeAmounts;
    case Some(CryptoDeleteAccount(account, transferTo)) =>
      NumbersIs(account, if AccountId(account).Some? then AccountId(account).value else 0);
      NumbersIs(transferTo, if AccountId(transferTo).Some? then AccountId(transferTo).value else 0);
      hide AccountId, Numbers, Numbered;
    case Some(TopicCreate(submitKey)) =>
      UsableIs(submitKey, Ed25519([]));
      hide KeyFrom, Usable;
    case Some(TopicMessage(topic, _)) =>
      if topic.Some? { UnsignedIs(topic.value); }
      hide AsU64, Unsigned;
    case _ =>
  }

  // ---- who has to have signed -------------------------------------------------------------------

  ghost predicate Has(c: World, id: Id, key: Key) {
    id in c.accounts && c.accounts[id].key == Some(key)
  }

  /** The data calls for this key: the payer's, a debited account's, a deleted account's, a topic's. */
  ghost predicate CallsFor(c: World, payer: Id, data: Data, key: Key) {
    || Has(c, payer, key)
    || (match data
        case CryptoTransferList(_, amounts) =>
          exists i, so, id :: 0 <= i < |amounts| && amounts[i].amount < 0 && Reads(amounts[i].accountId, so)
                              && Names(c, so, id) && Has(c, id, key)
        case CryptoDeleteAccount(account, _) => exists id :: Numbers(account, id) && Has(c, id, key)
        case TopicMessage(topic, _) =>
          topic.Some? && exists id :: Unsigned(topic.value, id) && id in c.topics
                                      && c.topics[id].submitKey == Some(key)
        case _ => false)
  }

  lemma CallsForIs(c: World, payer: Id, data: Data, body: Body, key: Key)
    requires Describes(data, body)
    ensures CallsFor(c, payer, data, key) <==> MustSignKey(c, payer, body, key)
  {
    if CallsFor(c, payer, data, key) { CalledMustSign(c, payer, data, body, key); }
    if MustSignKey(c, payer, body, key) && !Has(c, payer, key) { MustSignIsCalled(c, payer, data, body, key); }
  }

  lemma CalledMustSign(c: World, payer: Id, data: Data, body: Body, key: Key)
    requires Describes(data, body) && CallsFor(c, payer, data, key)
    ensures MustSignKey(c, payer, body, key)
  {
    if Has(c, payer, key) {
      assert MustSign(c, payer, body, payer);
    } else {
      match data
      case CryptoTransferList(_, amounts) =>
        var i, so, id: Id :| 0 <= i < |amounts| && amounts[i].amount < 0 && Reads(amounts[i].accountId, so)
                         && Names(c, so, id) && Has(c, id, key);
        ReadsIs(amounts[i].accountId, so);
        ReadsIs(amounts[i].accountId, body.amounts[i].0);
        assert NamedBy(c, body.amounts[i].0) == Some(id);
        assert MustSign(c, payer, body, id);
      case CryptoDeleteAccount(account, _) =>
        var id: Id :| Numbers(account, id) && Has(c, id, key);
        NumbersIs(account, id);
        NumbersIs(account, body.account);
        assert MustSign(c, payer, body, id);
      case TopicMessage(topic, _) =>
    }
  }

  lemma MustSignIsCalled(c: World, payer: Id, data: Data, body: Body, key: Key)
    requires Describes(data, body) && MustSignKey(c, payer, body, key) && !Has(c, payer, key)
    ensures CallsFor(c, payer, data, key)
  {
    if id: Id :| MustSign(c, payer, body, id) && id in c.accounts && c.accounts[id].key == Some(key) {
      assert Has(c, id, key);
      if body.Transfer? {
        var i :| 0 <= i < |body.amounts| && body.amounts[i].1 < 0 && NamedBy(c, body.amounts[i].0) == Some(id);
        assert Reads(data.amounts[i].accountId, body.amounts[i].0) && Names(c, body.amounts[i].0, id);
      }
    }
  }

  // ---- the first thing wrong --------------------------------------------------------------------

  /** The seconds a transaction stays valid: two minutes when it does not say. */
  ghost function Asked(msg: BodyMsg): int {
    if msg.validDuration.None? then 120 else msg.validDuration.value
  }

  ghost function WindowRefusal(start: int, seconds: int, now: int): Option<Status> {
    if seconds < 1 || seconds > 180 then Some(InvalidTransactionDuration)
    else if start > now + 60 then Some(InvalidTransactionStart)
    else if now > start + seconds then Some(TransactionExpired)
    else None
  }

  /** A message to an unknown topic is refused as such before any key is looked at. */
  ghost function SignatureRefusal(c: World, payer: Id, data: Data, signed: Signed, node: Node): Option<Status> {
    if data.TopicMessage? && data.topic.Some? && forall id :: Unsigned(data.topic.value, id) ==> id !in c.topics then
      Some(InvalidTopicId)
    else if exists key :: CallsFor(c, payer, data, key) && !node.signedBy(key, signed.bodyBytes, signed.signatures)
    then Some(InvalidSignature)
    else None
  }

  /** Everything asked of a message once its id is read, in order. */
  ghost function IdentifiedRefusal(c: World, msg: BodyMsg, id: TxId, signed: Signed, now: Timestamp, verify: bool,
                                   node: Node): Option<Status>
  {
    var window := WindowRefusal(id.validStart.secs, Asked(msg), now.secs);
    if window.Some? then window
    else if id in c.byId then Some(DuplicateTransaction)
    else if id.payer !in c.accounts then Some(PayerAccountNotFound)
    else if c.accounts[id.payer].deleted then Some(PayerAccountDeleted)
    else if Text.Utf8Length(msg.memo) > 100 then Some(MemoTooLong)
    else if DataFault(msg.data).Some? then DataFault(msg.data)
    else if verify && msg.data.Some? && SignatureRefusal(c, id.payer, msg.data.value, signed, node).Some? then
      SignatureRefusal(c, id.payer, msg.data.value, signed, node)
    else if c.accounts[id.payer].balance < 10000 then Some(InsufficientPayerBalance)
    else None
  }

  /** The first thing wrong with an envelope, in the order a client is told. */
  ghost function Refusal(c: World, envelope: Envelope, now: Timestamp, verify: bool, node: Node): Option<Status> {
    var signed := node.decodeSigned(envelope.signedBytes);
    var msg := MessageOf(envelope, node);
    if |envelope.signedBytes| == 0 then Some(InvalidTransaction)
    else if envelope.encodedLength > 6144 then Some(TransactionOversize)
    else if signed.None? then Some(InvalidTransaction)
    else if msg.None? then Some(InvalidTransactionBody)
    else if !Numbers(msg.value.nodeAccountId, 3) then Some(InvalidNodeAccount)
    else if forall id :: !Identifies(msg.value.transactionId, id) then Some(InvalidTransactionId)
    else
      var id :| Identifies(msg.value.transactionId, id);
      IdentifiedRefusal(c, msg.value, id, signed.value, now, verify, node)
  }

  lemma WindowIs(msg: BodyMsg, start: nat, now: nat)
    requires start <= MAX_I64 && now <= MAX_I64
    ensures WindowFault(start, ValidDuration(msg), now) == WindowRefusal(start, Asked(msg), now)
  {
    assert AsInt64(start) == start && AsInt64(now) == now;
    var difference: int := start - now;
    assert WrapInt64(difference) == difference;
    var duration := ValidDuration(msg);
    if duration <= MAX_VALID_DURATION_SECS { assert (start + duration) % TWO64 == start + duration; }
  }

  lemma SignatureIs(c: World, payer: Id, data: Data, body: Body, signed: Signed, node: Node)
    requires Describes(data, body)
    ensures SignatureFault(c, payer, body, signed, node) == SignatureRefusal(c, payer, data, signed, node)
  {
    forall key ensures CallsFor(c, payer, data, key) <==> MustSignKey(c, payer, body, key) {
      CallsForIs(c, payer, data, body, key);
    }
    forall key
      ensures Required(c, payer, body).Ok?
              ==> (key in Required(c, payer, body).value <==> MustSignKey(c, payer, body, key))
    {
      RequiredIsExact(c, payer, body, key);
    }
    if data.TopicMessage? { UnsignedIs(data.topic.value); }
    UnknownTopic(c, payer, body);
    hide Required, CallsFor, MustSignKey, Unsigned, AsU64;
  }

  lemma UnknownTopic(c: World, payer: Id, body: Body)
    ensures Required(c, payer, body).Err? <==> body.SubmitMessage? && body.topic !in c.topics
    ensures Required(c, payer, body).Err? ==> Required(c, payer, body).error == InvalidTopicId
  {
  }

  lemma IdentifiedIs(c: World, msg: BodyMsg, id: TxId, signed: Signed, now: Timestamp, verify: bool, node: Node)
    requires now.secs <= MAX_I64 && Identifies(msg.transactionId, id) && Numbers(msg.nodeAccountId, 3)
    ensures match CheckBody(c, msg, signed, now, verify, node)
            case Err(status) => IdentifiedRefusal(c, msg, id, signed, now, verify, node) == Some(status)
            case Ok(tx) =>
              && IdentifiedRefusal(c, msg, id, signed, now, verify, node).None?
              && msg.data.Some? && tx.id == id && Describes(msg.data.value, tx.body)
  {
    NumbersIs(msg.nodeAccountId, 3);
    IdentifiesIs(msg.transactionId, id);
    WindowIs(msg, id.validStart.secs, now.secs);
    DecodeIs(msg.data);
    if DecodeBody(msg.data).Ok? {
      SignatureIs(c, id.payer, msg.data.value, DecodeBody(msg.data).value, signed, node);
    }
    hide DecodeBody, AccountId, TransactionId, Numbers, WindowFault, WindowRefusal, SignatureFault;
    hide SignatureRefusal, DataFault, Describes, KindAsked, ValidDuration, Asked, Text.Utf8Length;
  }

  /** A submission is refused for the first thing wrong with it, and otherwise is what its message says. */
  lemma PrecheckIs(c: World, envelope: Envelope, now: Timestamp, verify: bool, node: Node)
    requires now.secs <= MAX_I64
    ensures match Precheck(c, envelope, now, verify, node)
            case Err(status) => Refusal(c, envelope, now, verify, node) == Some(status)
            case Ok(tx) =>
              && Refusal(c, envelope, now, verify, node).None?
              && MessageOf(envelope, node).Some? && MessageOf(envelope, node).value.data.Some?
              && Identifies(MessageOf(envelope, node).value.transactionId, tx.id)
              && Describes(MessageOf(envelope, node).value.data.value, tx.body)
  {
    var signed := node.decodeSigned(envelope.signedBytes);
    if MessageOf(envelope, node).Some? {
      var msg := MessageOf(envelope, node).value;
      NumbersIs(msg.nodeAccountId, 3);
      forall id ensures Identifies(msg.transactionId, id) <==> TransactionId(msg.transactionId) == Some(id) {
        IdentifiesIs(msg.transactionId, id);
      }
      if TransactionId(msg.transactionId).Some? && Numbers(msg.nodeAccountId, 3) {
        IdentifiedIs(c, msg, TransactionId(msg.transactionId).value, signed.value, now, verify, node);
      }
      CheckedFirst(c, msg, signed.value, now, verify, node);
    }
    hide CheckBody, IdentifiedRefusal, Numbers, TransactionId, AccountId, Describes, Identifies;
  }

  lemma CheckedFirst(c: World, msg: BodyMsg, signed: Signed, now: Timestamp, verify: bool, node: Node)
    ensures AccountId(msg.nodeAccountId) != Some(3)
            ==> CheckBody(c, msg, signed, now, verify, node) == Err(InvalidNodeAccount)
    ensures AccountId(msg.nodeAccountId) == Some(3) && TransactionId(msg.transactionId).None?
            ==> CheckBody(c, msg, signed, now, verify, node) == Err(InvalidTransactionId)
  {
  }

  // ---- what the chain does with it --------------------------------------------------------------

  /** What a message does to a chain on which its fee is paid. */
  ghost predicate DataDoes(c: World, w1: World, record: Record, data: Data, now: Timestamp, node: Node)
    requires record.id.payer in c.accounts
  {
    var status, payer, at := record.status, record.id.payer, record.at;
    match data
    case CryptoCreate(key, initialBalance, alias) =>
      exists k :: Usable(key, k) && CreateDoes(c, w1, status, payer, k, initialBalance,
                                               if |alias| == 0 then None else Some(alias))
    case CryptoTransferList(_, amounts) =>
      exists entries :: ReadsAll(amounts, entries) && TransferDoes(c, w1, status, entries)
    case CryptoDeleteAccount(account, transferTo) =>
      exists id, to :: Numbers(account, id) && Numbers(transferTo, to) && DeleteDoes(c, w1, status, id, to)
    case TopicCreate(submitKey) =>
      exists key :: Holds(submitKey, key) && TopicDoes(c, w1, status, key)
    case TopicMessage(topic, message) =>
      topic.Some? && exists id :: Unsigned(topic.value, id) && MessageDoes(c, w1, status, payer, at, id, message)
    case EthereumData(_, rlp) => CallDoes(c, w1, record, now, node.sendRaw(c, rlp, now))
    case OtherData => false
  }

  lemma AcceptedIs(w: World, envelope: Envelope, now: Timestamp, verify: bool, node: Node)
    ensures match Precheck(w, envelope, now, verify, node)
            case Err(_) => true
            case Ok(tx) =>
              && MessageOf(envelope, node).Some? && MessageOf(envelope, node).value.data.Some?
              && var msg := MessageOf(envelope, node).value;
              && Identifies(msg.transactionId, tx.id) && Describes(msg.data.value, tx.body)
              && KindAsked(msg.data.value) == Some(KindOf(tx.body))
  {
    if Precheck(w, envelope, now, verify, node).Ok? {
      var msg := MessageOf(envelope, node).value;
      var tx := Precheck(w, envelope, now, verify, node).value;
      IdentifiesIs(msg.transactionId, tx.id);
      DecodeIs(msg.data);
    }
    hide DecodeBody, TransactionId, AccountId, Identifies, Describes, KindAsked, DataFault, WindowFault;
    hide SignatureFault, PayerFault, ValidDuration, Text.Utf8Length;
  }

  lemma DescribedDoes(c: World, w1: World, record: Record, data: Data, body: Body, now: Timestamp, node: Node)
    requires record.id.payer in c.accounts && Describes(data, body)
    requires if body.Ethereum? then CallDoes(c, w1, record, now, node.sendRaw(c, body.rlp, now))
             else BodyDoes(c, w1, record.status, record.id.payer, body, record.at)
    ensures DataDoes(c, w1, record, data, now, node)
  {
    hide CallDoes, TransferDoes, CreateDoes, DeleteDoes, TopicDoes, MessageDoes, ReadsAll, Numbers, Usable;
    hide Holds, Unsigned;
  }

  /** An accepted submission does what its message says: the fee from the payer, the effect on the accounts
      and topics it names, and one record of it. */
  lemma AcceptedDoes(w: World, envelope: Envelope, now: Timestamp, verify: bool, node: Node) returns (c: World)
    requires Sound(w) && Submitted(w, envelope, now, verify, node).1.Ok?
    ensures MessageOf(envelope, node).Some? && MessageOf(envelope, node).value.data.Some?
    ensures var msg := MessageOf(envelope, node).value;
            var (w1, outcome) := Submitted(w, envelope, now, verify, node);
            var record := outcome.value;
            && Identifies(msg.transactionId, record.id) && KindAsked(msg.data.value) == Some(record.kind)
            && Paid(w, record.id.payer, c.accounts) && record.id.payer in c.accounts
            && Recorded(w, w1, record)
            && (if record.kind == EthereumTransaction then c == w.(accounts := c.accounts)
                else
                  && c == w.(accounts := c.accounts, lastConsensus := record.at)
                  && Stamped(w.lastConsensus, now, record.at) && w1.lastConsensus == record.at)
            && DataDoes(c, w1, record, msg.data.value, now, node)
  {
    hide Paid, Recorded, DataDoes, Describes, CallDoes, BodyDoes, Identifies, Sound;
    PrecheckFacts(w, envelope, now, verify, node);
    AcceptedIs(w, envelope, now, verify, node);
    var tx := Precheck(w, envelope, now, verify, node).value;
    var (w1, record) := Applied(w, tx, now, node.sendRaw);
    assert Submitted(w, envelope, now, verify, node) == (w1, Ok(record));
    hide Precheck, Applied, MessageOf;
    if tx.body.Ethereum? {
      c := EthereumDoes(w, tx, now, node.sendRaw);
    } else {
      c := AppliedDoes(w, tx, now, node.sendRaw);
    }
    PaidKeeps(w, tx.id.payer, c.accounts);
    DescribedDoes(c, w1, record, MessageOf(envelope, node).value.data.value, tx.body, now, node);
  }

  lemma PaidKeeps(w: World, payer: Id, paid: Accounts)
    requires Paid(w, payer, paid) && payer in w.accounts
    ensures payer in paid
  {
  }

  // ---- what a refusal keeps ---------------------------------------------------------------------

  /** A refused submission is refused for the first thing wrong with it, and the refusal keeps what of the
      message could be read. */
  lemma RefusedFor(w: World, envelope: Envelope, now: Timestamp, verify: bool, node: Node) returns (kept: Rejection)
    requires now.secs <= MAX_I64
    ensures Submitted(w, envelope, now, verify, node).1.Err?
            <==> Refusal(w, envelope, now, verify, node).Some?
    ensures match Submitted(w, envelope, now, verify, node).1
            case Ok(_) => true
            case Err(status) => Refusal(w, envelope, now, verify, node) == Some(status)
    ensures Submitted(w, envelope, now, verify, node).1.Err? ==>
              var w1 := Submitted(w, envelope, now, verify, node).0;
              && w1.rejections != [] && w1.rejections[|w1.rejections| - 1] == kept
              && kept.at == now && kept.status == Refusal(w, envelope, now, verify, node)
              && kept.from == None && kept.message == ""
              && KeepsKind(MessageOf(envelope, node), kept.kind) && KeepsPayer(MessageOf(envelope, node), kept.payer)
  {
    PrecheckIs(w, envelope, now, verify, node);
    hide Precheck, Refusal, Applied;
    var (kind, payer) := Identify(envelope, node);
    IdentifyIs(envelope, node);
    hide Identify, KeepsKind, KeepsPayer, MessageOf;
    match Precheck(w, envelope, now, verify, node)
    case Ok(_) => kept := Rejection(now, kind, payer, None, None, "");
    case Err(status) =>
      kept := Rejection(now, kind, payer, Some(status), None, "");
      RefusalIsNewest(w, kept);
  }

  ghost predicate KeepsKind(msg: Option<BodyMsg>, kind: Option<Kind>) {
    kind == if msg.Some? && DataFault(msg.value.data).None? && msg.value.data.Some?
            then KindAsked(msg.value.data.value) else None
  }

  ghost predicate KeepsPayer(msg: Option<BodyMsg>, payer: Option<Id>) {
    if payer.Some? then msg.Some? && exists id :: Identifies(msg.value.transactionId, id) && id.payer == payer.value
    else msg.Some? ==> forall id :: !Identifies(msg.value.transactionId, id)
  }

  lemma IdentifyIs(envelope: Envelope, node: Node)
    ensures var (kind, payer) := Identify(envelope, node);
            KeepsKind(MessageOf(envelope, node), kind) && KeepsPayer(MessageOf(envelope, node), payer)
  {
    if MessageOf(envelope, node).Some? {
      var msg := MessageOf(envelope, node).value;
      DecodeIs(msg.data);
      forall id ensures Identifies(msg.transactionId, id) <==> TransactionId(msg.transactionId) == Some(id) {
        IdentifiesIs(msg.transactionId, id);
      }
      if TransactionId(msg.transactionId).Some? {
        assert Identifies(msg.transactionId, TransactionId(msg.transactionId).value);
      }
    }
    hide DecodeBody, TransactionId, Identifies, DataFault, KindAsked, KindOf;
  }
}
