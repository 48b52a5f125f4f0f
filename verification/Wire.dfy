/** `src/hapi/wire.rs`: what a node does with a submitted transaction before consensus. Protobuf
    decoding, signature checks and the EVM are functions handed in: any will do. */
module Wire {
  import opened Wrappers
  import opened Evm
  import opened State
  import Text

  const FUTURE_TOLERANCE_SECS := 60
  const MAX_VALID_DURATION_SECS: nat := 180
  const MAX_TRANSACTION_BYTES := 6144
  const MAX_MEMO_BYTES := 100
  const TWO64 := 0x1_0000_0000_0000_0000

  // ---- messages, as protobuf decodes them -------------------------------------------------------

  type Int32 = n: int | -0x8000_0000 <= n < 0x8000_0000

  datatype AccountForm = AccountNum(num: Int64) | Alias(bytes: Bytes)
  datatype AccountIdMsg = AccountIdMsg(account: Option<AccountForm>)
  datatype TimestampMsg = TimestampMsg(seconds: Int64, nanos: Int32)
  datatype TransactionIdMsg = TransactionIdMsg(accountId: Option<AccountIdMsg>,
                                               validStart: Option<TimestampMsg>,
                                               nonce: int, scheduled: bool)
  datatype KeyForm = Ed25519Bytes(bytes: Bytes) | EcdsaBytes(bytes: Bytes) | OtherKey
  datatype AmountMsg = AmountMsg(accountId: Option<AccountIdMsg>, amount: Int64)

  datatype Data =
    | CryptoCreate(key: Option<KeyForm>, initialBalance: nat, alias: Bytes)
    | CryptoTransferList(hasTokenTransfers: bool, amounts: seq<AmountMsg>)
    | CryptoDeleteAccount(account: Option<AccountIdMsg>, transferTo: Option<AccountIdMsg>)
    | TopicCreate(submitKey: Option<KeyForm>)
    | TopicMessage(topic: Option<Int64>, message: Bytes)
    | EthereumData(hasCallData: bool, rlp: Bytes)
    | OtherData

  datatype BodyMsg = BodyMsg(nodeAccountId: Option<AccountIdMsg>,
                             transactionId: Option<TransactionIdMsg>,
                             validDuration: Option<Int64>, memo: string, data: Option<Data>)

  type Signatures = seq<(Bytes, Bytes)>

  datatype Signed = Signed(bodyBytes: Bytes, signatures: Signatures)

  datatype Envelope = Envelope(signedBytes: Bytes, encodedLength: nat)

  /** The parts of a node that this model takes as given. */
  datatype Node = Node(
    decodeSigned: Bytes -> Option<Signed>,
    decodeBody: Bytes -> Option<BodyMsg>,
    signedBy: (Key, Bytes, Signatures) -> bool,
    sendRaw: SendRaw)

  // ---- converters -------------------------------------------------------------------------------

  function AsU64(n: int): nat {
    n % TWO64
  }

  /** `account_id`: an account named by number. */
  function AccountId(id: Option<AccountIdMsg>): Option<Id> {
    match id
    case Some(AccountIdMsg(Some(AccountNum(num)))) => Some(AsU64(num))
    case _ => None
  }

  /** `account_ref`: a number, or a 20-byte alias. */
  function AccountRefOf(id: Option<AccountIdMsg>): Option<AccountRef> {
    match id
    case Some(AccountIdMsg(Some(AccountNum(num)))) => Some(ById(AsU64(num)))
    case Some(AccountIdMsg(Some(Alias(bytes)))) =>
      if |bytes| == 20 then Some(ByAlias(bytes)) else None
    case _ => None
  }

  /** `timestamp`: seconds and nanoseconds must not be negative. */
  function TimestampOf(stamp: Option<TimestampMsg>): Option<Timestamp> {
    match stamp
    case Some(TimestampMsg(seconds, nanos)) =>
      if seconds >= 0 && nanos >= 0 then Some(Timestamp(seconds, nanos)) else None
    case None => None
  }

  /** `transaction_id`. */
  function TransactionId(id: Option<TransactionIdMsg>): Option<TxId> {
    match id
    case None => None
    case Some(msg) =>
      var payer, start := AccountId(msg.accountId), TimestampOf(msg.validStart);
      if payer.Some? && start.Some? then Some(TxId(payer.value, start.value, msg.nonce, msg.scheduled))
      else None
  }

  function AsInt32(n: nat): Int32 {
    var low := n % 0x1_0000_0000;
    if low < 0x8000_0000 then low else low - 0x1_0000_0000
  }

  /** `to_transaction_id`. */
  function ToTransactionId(id: TxId): TransactionIdMsg {
    TransactionIdMsg(Some(AccountIdMsg(Some(AccountNum(AsInt64(id.payer))))),
                     Some(TimestampMsg(AsInt64(id.validStart.secs), AsInt32(id.validStart.nanos))),
                     id.nonce, id.scheduled)
  }

  /** A transaction id survives the wire exactly when its start fits the signed wire fields; every
      entity id does, though it passes through a signed field too. */
  lemma TransactionIdRoundTrip(id: TxId)
    requires id.payer < TWO64 && id.validStart.secs < TWO64 && id.validStart.nanos < 0x1_0000_0000
    ensures TransactionId(Some(ToTransactionId(id))) == Some(id)
            <==> id.validStart.secs <= MAX_I64 && id.validStart.nanos < 0x8000_0000
    ensures AccountId(ToTransactionId(id).accountId) == Some(id.payer)
  {
    assert id.payer % TWO64 == id.payer;
    assert id.payer > MAX_I64 ==> (id.payer - TWO64) % TWO64 == id.payer;
  }

  /** `key_from`. */
  function KeyFrom(key: Option<KeyForm>): Option<Key> {
    match key
    case Some(Ed25519Bytes(bytes)) => if |bytes| == 32 then Some(Ed25519(bytes)) else None
    case Some(EcdsaBytes(bytes)) => if |bytes| == 33 then Some(EcdsaSecp256k1(bytes)) else None
    case _ => None
  }

  function DecodeAmounts(amounts: seq<AmountMsg>): Result<seq<(AccountRef, Int64)>, Status> {
    if amounts == [] then Ok([])
    else match AccountRefOf(amounts[0].accountId)
      case None => Err(InvalidAccountId)
      case Some(so) =>
        match DecodeAmounts(amounts[1..])
        case Err(status) => Err(status)
        case Ok(rest) => Ok([(so, amounts[0].amount)] + rest)
  }

  /** `decode_body`. */
  function DecodeBody(data: Option<Data>): Result<Body, Status> {
    match data
    case None => Err(InvalidTransactionBody)
    case Some(CryptoCreate(key, initialBalance, alias)) =>
      if KeyFrom(key).None? then Err(KeyRequired)
      else if |alias| == 0 then Ok(CreateAccount(KeyFrom(key).value, initialBalance, None))
      else if |alias| == 20 then Ok(CreateAccount(KeyFrom(key).value, initialBalance, Some(alias)))
      else Err(BadEncoding)
    case Some(CryptoTransferList(hasTokenTransfers, amounts)) =>
      if hasTokenTransfers then Err(NotSupported)
      else (match DecodeAmounts(amounts)
            case Err(status) => Err(status)
            case Ok(list) => Ok(Transfer(list)))
    case Some(CryptoDeleteAccount(account, transferTo)) =>
      if AccountId(account).None? then Err(InvalidAccountId)
      else if AccountId(transferTo).None? then Err(InvalidTransferAccountId)
      else Ok(Delete(AccountId(account).value, AccountId(transferTo).value))
    case Some(TopicCreate(submitKey)) => Ok(CreateTopic(KeyFrom(submitKey)))
    case Some(TopicMessage(topic, message)) =>
      if topic.None? then Err(InvalidTopicId) else Ok(SubmitMessage(AsU64(topic.value), message))
    case Some(EthereumData(hasCallData, rlp)) =>
      if hasCallData then Err(NotSupported) else Ok(Ethereum(rlp))
    case Some(OtherData) => Err(NotSupported)
  }

  // ---- who must sign ----------------------------------------------------------------------------

  function KeyOf(w: World, id: Id): seq<Key> {
    if id in w.accounts && w.accounts[id].key.Some? then [w.accounts[id].key.value] else []
  }

  /** The keys of the debited accounts other than the payer, in list order. */
  function DebitKeys(w: World, payer: Id, amounts: seq<(AccountRef, Int64)>): seq<Key> {
    if amounts == [] then []
    else
      var (so, amount) := amounts[|amounts| - 1];
      DebitKeys(w, payer, amounts[..|amounts| - 1])
      + (if amount < 0 && NamedBy(w, so).Some? && NamedBy(w, so).value != payer
         then KeyOf(w, NamedBy(w, so).value) else [])
  }

  function Required(w: World, payer: Id, body: Body): Result<seq<Key>, Status> {
    match body
    case Transfer(amounts) => Ok(KeyOf(w, payer) + DebitKeys(w, payer, amounts))
    case Delete(account, _) =>
      Ok(KeyOf(w, payer) + (if account != payer then KeyOf(w, account) else []))
    case SubmitMessage(topic, _) =>
      if topic !in w.topics then Err(InvalidTopicId)
      else Ok(KeyOf(w, payer) + (if w.topics[topic].submitKey.Some? then [w.topics[topic].submitKey.value]
                                 else []))
    case _ => Ok(KeyOf(w, payer))
  }

  lemma DebitKeysStep(w: World, payer: Id, amounts: seq<(AccountRef, Int64)>, i: nat)
    requires i <= |amounts|
    ensures i == 0 ==> DebitKeys(w, payer, amounts[..i]) == []
    ensures i < |amounts| ==>
              var (so, amount) := amounts[i];
              DebitKeys(w, payer, amounts[..i + 1])
              == DebitKeys(w, payer, amounts[..i])
                 + (if amount < 0 && NamedBy(w, so).Some? && NamedBy(w, so).value != payer
                    then KeyOf(w, NamedBy(w, so).value) else [])
  {
    if i < |amounts| { assert amounts[..i + 1][..i] == amounts[..i]; }
  }

  /** `required_keys`. */
  method RequiredKeys(w: World, payer: Id, body: Body) returns (keys: Result<seq<Key>, Status>)
    ensures keys == Required(w, payer, body)
  {
    hide NamedBy, DebitKeys;
    var found: seq<Key> := [];
    if payer in w.accounts && w.accounts[payer].key.Some? {
      found := found + [w.accounts[payer].key.value];
    }
    assert found == KeyOf(w, payer);
    assert found + [] == found;
    match body {
      case Transfer(amounts) =>
        assert DebitKeys(w, payer, amounts[..0]) == [] by { DebitKeysStep(w, payer, amounts, 0); }
        for i := 0 to |amounts|
          invariant found == KeyOf(w, payer) + DebitKeys(w, payer, amounts[..i])
        {
          DebitKeysStep(w, payer, amounts, i);
          var (so, amount) := amounts[i];
          if amount < 0 {
            var id := NamedBy(w, so);
            if id.Some? && id.value != payer && id.value in w.accounts && w.accounts[id.value].key.Some? {
              found := found + [w.accounts[id.value].key.value];
            }
          }
        }
        assert amounts[..|amounts|] == amounts;
      case Delete(account, _) =>
        if account != payer && account in w.accounts && w.accounts[account].key.Some? {
          found := found + [w.accounts[account].key.value];
        }
      case SubmitMessage(topic, _) =>
        if topic !in w.topics { return Err(InvalidTopicId); }
        if w.topics[topic].submitKey.Some? {
          found := found + [w.topics[topic].submitKey.value];
        }
      case _ =>
    }
    keys := Ok(found);
  }

  /** Whose signature a body calls for: the payer, anyone it debits, an account it deletes. */
  ghost predicate MustSign(w: World, payer: Id, body: Body, id: Id) {
    || id == payer
    || (body.Transfer? && exists i :: 0 <= i < |body.amounts| && body.amounts[i].1 < 0
                                      && NamedBy(w, body.amounts[i].0) == Some(id))
    || (body.Delete? && body.account == id)
  }

  ghost predicate MustSignKey(w: World, payer: Id, body: Body, key: Key) {
    || (exists id: Id :: MustSign(w, payer, body, id) && id in w.accounts && w.accounts[id].key == Some(key))
    || (body.SubmitMessage? && body.topic in w.topics && w.topics[body.topic].submitKey == Some(key))
  }

  lemma {:induction false} DebitKeysAreExact(w: World, payer: Id, amounts: seq<(AccountRef, Int64)>,
                                             key: Key)
    ensures (key in DebitKeys(w, payer, amounts) || key in KeyOf(w, payer))
            <==> MustSignKey(w, payer, Transfer(amounts), key)
  {
    if amounts != [] {
      var earlier, last := amounts[..|amounts| - 1], amounts[|amounts| - 1];
      DebitKeysAreExact(w, payer, earlier, key);
      MustSignMore(w, payer, earlier, last, key);
      assert earlier + [last] == amounts;
    } else if key in KeyOf(w, payer) {
      assert MustSign(w, payer, Transfer(amounts), payer);
    }
  }

  lemma MustSignMore(w: World, payer: Id, earlier: seq<(AccountRef, Int64)>,
                     last: (AccountRef, Int64), key: Key)
    ensures MustSignKey(w, payer, Transfer(earlier + [last]), key)
            <==> (MustSignKey(w, payer, Transfer(earlier), key)
                  || (last.1 < 0 && NamedBy(w, last.0).Some? && key in KeyOf(w, NamedBy(w, last.0).value)))
  {
    var all := earlier + [last];
    forall id: Id ensures MustSign(w, payer, Transfer(all), id)
                      <==> (MustSign(w, payer, Transfer(earlier), id)
                            || (last.1 < 0 && NamedBy(w, last.0) == Some(id)))
    {
      if last.1 < 0 && NamedBy(w, last.0) == Some(id) { assert all[|earlier|] == last; }
      if i :| 0 <= i < |earlier| && earlier[i].1 < 0 && NamedBy(w, earlier[i].0) == Some(id) {
        assert all[i] == earlier[i];
      }
      if i :| 0 <= i < |all| && all[i].1 < 0 && NamedBy(w, all[i].0) == Some(id) {
        if i < |earlier| { assert all[i] == earlier[i]; }
      }
    }
  }

  /** The computed keys are exactly the keys that must sign. */
  lemma RequiredIsExact(w: World, payer: Id, body: Body, key: Key)
    ensures match Required(w, payer, body)
            case Ok(keys) => key in keys <==> MustSignKey(w, payer, body, key)
            case Err(_) => body.SubmitMessage? && body.topic !in w.topics
  {
    if body.Transfer? {
      DebitKeysAreExact(w, payer, body.amounts, key);
    } else {
      if key in KeyOf(w, payer) { assert MustSign(w, payer, body, payer); }
      if body.Delete? { assert MustSign(w, payer, body, body.account); }
    }
  }

  // ---- the prechecks ----------------------------------------------------------------------------

  /** `i64` arithmetic of a release build. */
  function WrapInt64(n: int): Int64 {
    var low := n % TWO64;
    if low <= MAX_I64 then low else low - TWO64
  }

  function ValidDuration(msg: BodyMsg): nat {
    match msg.validDuration
    case None => 120
    case Some(seconds) => if seconds < 0 then 0 else seconds
  }

  /** The window checks, in order. */
  function WindowFault(start: nat, duration: nat, now: nat): Option<Status> {
    if duration == 0 || duration > MAX_VALID_DURATION_SECS then Some(InvalidTransactionDuration)
    else if WrapInt64(AsInt64(start) - AsInt64(now)) > FUTURE_TOLERANCE_SECS then
      Some(InvalidTransactionStart)
    else if (start + duration) % TWO64 < now then Some(TransactionExpired)
    else None
  }

  function PayerFault(w: World, payer: Id): Option<Status> {
    if payer !in w.accounts then Some(PayerAccountNotFound)
    else if w.accounts[payer].deleted then Some(PayerAccountDeleted)
    else None
  }

  function SignatureFault(w: World, payer: Id, body: Body, signed: Signed, node: Node): Option<Status> {
    match Required(w, payer, body)
    case Err(status) => Some(status)
    case Ok(keys) =>
      if forall i | 0 <= i < |keys| :: node.signedBy(keys[i], signed.bodyBytes, signed.signatures) then None
      else Some(InvalidSignature)
  }

  /** Everything after the two envelopes are decoded. */
  function CheckBody(w: World, msg: BodyMsg, signed: Signed, now: Timestamp, verify: bool, node: Node)
    : Result<Transaction, Status>
  {
    if AccountId(msg.nodeAccountId) != Some(NODE) then Err(InvalidNodeAccount)
    else match TransactionId(msg.transactionId)
      case None => Err(InvalidTransactionId)
      case Some(id) =>
        var duration := ValidDuration(msg);
        var window := WindowFault(id.validStart.secs, duration, now.secs);
        if window.Some? then Err(window.value)
        else if id in w.byId then Err(DuplicateTransaction)
        else if PayerFault(w, id.payer).Some? then Err(PayerFault(w, id.payer).value)
        else if Text.Utf8Length(msg.memo) > MAX_MEMO_BYTES then Err(MemoTooLong)
        else match DecodeBody(msg.data)
          case Err(status) => Err(status)
          case Ok(body) =>
            var unsigned := if verify then SignatureFault(w, id.payer, body, signed, node) else None;
            if unsigned.Some? then Err(unsigned.value)
            else if BalanceOf(w.accounts, id.payer) < HAPI_FEE then Err(InsufficientPayerBalance)
            else Ok(Transaction(id, msg.memo, duration, body))
  }

  /** The whole chain of prechecks: the transaction to apply, or the first thing wrong with it. */
  function Precheck(w: World, envelope: Envelope, now: Timestamp, verify: bool, node: Node)
    : Result<Transaction, Status>
  {
    if envelope.signedBytes == [] then Err(InvalidTransaction)
    else if envelope.encodedLength > MAX_TRANSACTION_BYTES then Err(TransactionOversize)
    else match node.decodeSigned(envelope.signedBytes)
      case None => Err(InvalidTransaction)
      case Some(signed) =>
        match node.decodeBody(signed.bodyBytes)
        case None => Err(InvalidTransactionBody)
        case Some(msg) => CheckBody(w, msg, signed, now, verify, node)
  }

  /** `identify`: what can still be read off a refused envelope. */
  function Identify(envelope: Envelope, node: Node): (Option<Kind>, Option<Id>) {
    match node.decodeSigned(envelope.signedBytes)
    case None => (None, None)
    case Some(signed) =>
      match node.decodeBody(signed.bodyBytes)
      case None => (None, None)
      case Some(msg) =>
        var kind := match DecodeBody(msg.data)
                    case Ok(body) => Some(KindOf(body))
                    case Err(_) => None;
        var id := TransactionId(msg.transactionId);
        (kind, if id.Some? then Some(id.value.payer) else None)
  }

  /** One submission as a step of the chain's contents. */
  function Submitted(w: World, envelope: Envelope, now: Timestamp, verify: bool, node: Node)
    : (World, Result<Record, Status>)
  {
    match Precheck(w, envelope, now, verify, node)
    case Ok(tx) =>
      var (w1, record) := Applied(w, tx, now, node.sendRaw);
      (w1, Ok(record))
    case Err(status) =>
      var (kind, payer) := Identify(envelope, node);
      (Rejected(w, Rejection(now, kind, payer, Some(status), None, "")), Err(status))
  }

  /** The signature loop of `precheck_and_apply`. */
  method VerifySignatures(w: World, payer: Id, body: Body, signed: Signed, node: Node)
    returns (fault: Option<Status>)
    ensures fault == SignatureFault(w, payer, body, signed, node)
  {
    var required := RequiredKeys(w, payer, body);
    if required.Err? { return Some(required.error); }
    var keys := required.value;
    for i := 0 to |keys|
      invariant forall j | 0 <= j < i :: node.signedBy(keys[j], signed.bodyBytes, signed.signatures)
    {
      if !node.signedBy(keys[i], signed.bodyBytes, signed.signatures) {
        return Some(InvalidSignature);
      }
    }
    fault := None;
  }

  /** `precheck_and_apply`. */
  method PrecheckAndApply(chain: Chain, envelope: Envelope, now: Timestamp, verify: bool, node: Node)
    returns (outcome: Result<Record, Status>)
    modifies chain`world
    ensures match Precheck(old(chain.world), envelope, now, verify, node)
            case Ok(tx) => (var (w1, record) := Applied(old(chain.world), tx, now, node.sendRaw);
                            chain.world == w1 && outcome == Ok(record))
            case Err(status) => chain.world == old(chain.world) && outcome == Err(status)
  {
    hide Applied, DecodeBody, SignatureFault, AccountId, TransactionId, ValidDuration, WrapInt64, AsInt64;
    if envelope.signedBytes == [] { return Err(InvalidTransaction); }
    if envelope.encodedLength > MAX_TRANSACTION_BYTES { return Err(TransactionOversize); }
    var signed := node.decodeSigned(envelope.signedBytes);
    if signed.None? { return Err(InvalidTransaction); }
    var msg := node.decodeBody(signed.value.bodyBytes);
    if msg.None? { return Err(InvalidTransactionBody); }
    if AccountId(msg.value.nodeAccountId) != Some(NODE) { return Err(InvalidNodeAccount); }
    var id := TransactionId(msg.value.transactionId);
    if id.None? { return Err(InvalidTransactionId); }
    var duration := ValidDuration(msg.value);
    var start := id.value.validStart.secs;
    if duration == 0 || duration > MAX_VALID_DURATION_SECS { return Err(InvalidTransactionDuration); }
    if WrapInt64(AsInt64(start) - AsInt64(now.secs)) > FUTURE_TOLERANCE_SECS {
      return Err(InvalidTransactionStart);
    }
    if (start + duration) % TWO64 < now.secs { return Err(TransactionExpired); }
    if id.value in chain.world.byId { return Err(DuplicateTransaction); }
    var payer := id.value.payer;
    if payer !in chain.world.accounts { return Err(PayerAccountNotFound); }
    if chain.world.accounts[payer].deleted { return Err(PayerAccountDeleted); }
    if Text.Utf8Length(msg.value.memo) > MAX_MEMO_BYTES { return Err(MemoTooLong); }
    var body := DecodeBody(msg.value.data);
    if body.Err? { return Err(body.error); }
    if verify {
      var fault := VerifySignatures(chain.world, payer, body.value, signed.value, node);
      if fault.Some? { return Err(fault.value); }
    }
    if BalanceOf(chain.world.accounts, payer) < HAPI_FEE { return Err(InsufficientPayerBalance); }
    var record := chain.ApplyHapi(Transaction(id.value, msg.value.memo, duration, body.value), now, node.sendRaw);
    outcome := Ok(record);
  }

  /** `submit`. */
  method Submit(chain: Chain, envelope: Envelope, now: Timestamp, verify: bool, node: Node)
    returns (outcome: Result<Record, Status>)
    modifies chain`world
    ensures (chain.world, outcome) == Submitted(old(chain.world), envelope, now, verify, node)
  {
    outcome := PrecheckAndApply(chain, envelope, now, verify, node);
    if outcome.Err? {
      var (kind, payer) := Identify(envelope, node);
      chain.Reject(Rejection(now, kind, payer, Some(outcome.error), None, ""));
    }
  }

  // ---- what a submission can do -----------------------------------------------------------------

  /** How many refusals the chain has seen, dropped ones included. */
  function RefusalsSeen(w: World): nat {
    w.dropped + |w.rejections|
  }

  /** Applied once or refused once, never both and never neither. */
  lemma SubmitDoesOneThing(w: World, envelope: Envelope, now: Timestamp, verify: bool, node: Node)
    ensures var (w1, outcome) := Submitted(w, envelope, now, verify, node);
            match outcome
            case Ok(record) =>
              && w1.records == w.records + [record] && w1.byId == w.byId[record.id := |w.records|]
              && w1.rejections == w.rejections && w1.dropped == w.dropped
              && record.id !in w.byId
            case Err(status) =>
              && w1.(rejections := w.rejections, dropped := w.dropped) == w
              && RefusalsSeen(w1) == RefusalsSeen(w) + 1
              && w1.rejections != [] && w1.rejections[|w1.rejections| - 1].status == Some(status)
              && w1.rejections[|w1.rejections| - 1].at == now
  {
    match Precheck(w, envelope, now, verify, node)
    case Ok(tx) =>
      PrecheckFacts(w, envelope, now, verify, node);
      AppliedKeepsLog(w, tx, now, node.sendRaw);
    case Err(status) =>
      var (kind, payer) := Identify(envelope, node);
      RefusalIsNewest(w, Rejection(now, kind, payer, Some(status), None, ""));
  }

  lemma RefusalIsNewest(w: World, r: Rejection)
    ensures var w1 := Rejected(w, r);
            && w1.(rejections := w.rejections, dropped := w.dropped) == w
            && RefusalsSeen(w1) == RefusalsSeen(w) + 1
            && w1.rejections != [] && w1.rejections[|w1.rejections| - 1] == Clipped(r)
  {
  }

  /** What every accepted envelope has been through. */
  lemma PrecheckFacts(w: World, envelope: Envelope, now: Timestamp, verify: bool, node: Node)
    ensures match Precheck(w, envelope, now, verify, node)
            case Ok(tx) =>
              && tx.id.validStart.secs <= MAX_I64 && tx.id !in w.byId
              && WindowFault(tx.id.validStart.secs, tx.validDuration, now.secs).None?
              && tx.id.payer in w.accounts && !w.accounts[tx.id.payer].deleted
              && w.accounts[tx.id.payer].balance >= HAPI_FEE
            case Err(_) => true
  {
    hide WindowFault, DecodeBody, SignatureFault, ValidDuration, AccountId;
    if Precheck(w, envelope, now, verify, node).Ok? {
      var msg := node.decodeBody(node.decodeSigned(envelope.signedBytes).value.bodyBytes).value;
      DecodedStartFits(msg.transactionId);
    }
  }

  lemma DecodedStartFits(id: Option<TransactionIdMsg>)
    ensures TransactionId(id).Some? ==> TransactionId(id).value.validStart.secs <= MAX_I64
  {
  }

  lemma AppliedKeepsLog(w: World, tx: Transaction, now: Timestamp, sendRaw: SendRaw)
    ensures var (w1, record) := Applied(w, tx, now, sendRaw);
            && record.id == tx.id
            && w1.records == w.records + [record] && w1.byId == w.byId[tx.id := |w.records|]
            && w1.rejections == w.rejections && w1.dropped == w.dropped
  {
    if !tx.body.Ethereum? {
      var at := NextConsensus(w, now);
      BodyKeepsHistory(ChargeFee(w.(lastConsensus := at), tx.id.payer), tx.id.payer, tx.body, at);
    }
  }

  /** The validity window of every accepted transaction, in true arithmetic: decoded starts and any
      clock below 2^63 seconds never overflow the fixed-width checks. */
  lemma AcceptedWithinWindow(w: World, envelope: Envelope, now: Timestamp, verify: bool, node: Node)
    requires now.secs <= MAX_I64
    ensures match Precheck(w, envelope, now, verify, node)
            case Ok(tx) =>
              && tx.id.validStart.secs <= now.secs + FUTURE_TOLERANCE_SECS
              && now.secs <= tx.id.validStart.secs + tx.validDuration
              && 1 <= tx.validDuration <= MAX_VALID_DURATION_SECS
              && tx.id.payer in w.accounts && !w.accounts[tx.id.payer].deleted
              && w.accounts[tx.id.payer].balance >= HAPI_FEE && tx.id !in w.byId
            case Err(_) => true
  {
    var outcome := Precheck(w, envelope, now, verify, node);
    if outcome.Ok? {
      var tx := outcome.value;
      PrecheckFacts(w, envelope, now, verify, node);
      hide Precheck, CheckBody;
      WindowIsExact(tx.id.validStart.secs, tx.validDuration, now.secs);
    }
  }

  lemma WindowIsExact(start: nat, duration: nat, now: nat)
    requires start <= MAX_I64 && now <= MAX_I64
    ensures WindowFault(start, duration, now).None?
            <==> 1 <= duration <= MAX_VALID_DURATION_SECS && start <= now + FUTURE_TOLERANCE_SECS
                 && now <= start + duration
  {
    assert AsInt64(start) == start && AsInt64(now) == now;
    var difference: int := start - now;
    assert WrapInt64(difference) == difference;
    if duration <= MAX_VALID_DURATION_SECS { assert (start + duration) % TWO64 == start + duration; }
  }

  /** With verification on, everyone whose tinybar, account or topic the body touches has signed. */
  lemma AcceptedIsSigned(w: World, envelope: Envelope, now: Timestamp, node: Node, key: Key)
    requires Precheck(w, envelope, now, true, node).Ok?
    ensures var tx := Precheck(w, envelope, now, true, node).value;
            MustSignKey(w, tx.id.payer, tx.body, key)
            ==> (var signed := node.decodeSigned(envelope.signedBytes).value;
                 node.signedBy(key, signed.bodyBytes, signed.signatures))
  {
    var tx := Precheck(w, envelope, now, true, node).value;
    RequiredIsExact(w, tx.id.payer, tx.body, key);
  }

  /** Turning verification off accepts at least as much, with the same record and the same chain. */
  lemma VerificationOnlyRefuses(w: World, envelope: Envelope, now: Timestamp, node: Node)
    requires Precheck(w, envelope, now, true, node).Ok?
    ensures Submitted(w, envelope, now, true, node) == Submitted(w, envelope, now, false, node)
  {
    hide SignatureFault, DecodeBody, WindowFault, TransactionId, AccountId, ValidDuration, PayerFault, Applied;
  }

  function WithBalance(w: World, id: Id, balance: nat): World
    requires id in w.accounts
  {
    w.(accounts := w.accounts[id := w.accounts[id].(balance := balance)])
  }

  lemma {:induction false} KeysIgnoreBalances(w: World, id: Id, balance: nat, payer: Id,
                                              amounts: seq<(AccountRef, Int64)>)
    requires id in w.accounts
    ensures DebitKeys(WithBalance(w, id, balance), payer, amounts) == DebitKeys(w, payer, amounts)
  {
    if amounts != [] { KeysIgnoreBalances(w, id, balance, payer, amounts[..|amounts| - 1]); }
  }

  lemma FaultsIgnoreBalances(w: World, id: Id, balance: nat, payer: Id, body: Body, signed: Signed, node: Node)
    requires id in w.accounts
    ensures PayerFault(WithBalance(w, id, balance), payer) == PayerFault(w, payer)
    ensures SignatureFault(WithBalance(w, id, balance), payer, body, signed, node)
         == SignatureFault(w, payer, body, signed, node)
  {
    assert Required(WithBalance(w, id, balance), payer, body) == Required(w, payer, body) by {
      if body.Transfer? { KeysIgnoreBalances(w, id, balance, payer, body.amounts); }
    }
    hide Required;
  }

  /** The fee is asked about last: a payer who cannot pay it is told whatever else is wrong, and is
      refused for the fee exactly when there is nothing else. */
  lemma BrokePayersHearTheRest(w: World, payer: Id, poor: nat, rich: nat, envelope: Envelope, now: Timestamp,
                               verify: bool, node: Node)
    requires payer in w.accounts && poor < HAPI_FEE <= rich
    ensures var broke := Precheck(WithBalance(w, payer, poor), envelope, now, verify, node);
            var able := Precheck(WithBalance(w, payer, rich), envelope, now, verify, node);
            broke == if able.Ok? && able.value.id.payer == payer then Err(InsufficientPayerBalance) else able
  {
    var signed := node.decodeSigned(envelope.signedBytes);
    if signed.Some? && node.decodeBody(signed.value.bodyBytes).Some? {
      var msg := node.decodeBody(signed.value.bodyBytes).value;
      var id, body := TransactionId(msg.transactionId), DecodeBody(msg.data);
      if id.Some? && body.Ok? {
        FaultsIgnoreBalances(w, payer, poor, id.value.payer, body.value, signed.value, node);
        FaultsIgnoreBalances(w, payer, rich, id.value.payer, body.value, signed.value, node);
      } else if id.Some? {
        FaultsIgnoreBalances(w, payer, poor, id.value.payer, CreateTopic(None), signed.value, node);
        FaultsIgnoreBalances(w, payer, rich, id.value.payer, CreateTopic(None), signed.value, node);
      }
      hide SignatureFault, PayerFault, DecodeBody, TransactionId, WindowFault, AccountId, ValidDuration;
    }
  }

  // ---- runs of submissions ----------------------------------------------------------------------

  /** Each submission brings the node it meets: state of the EVM that this model does not hold may make
      two answers to one question differ. */
  datatype Submission = Submission(envelope: Envelope, now: Timestamp, verify: bool, node: Node)

  function Taken(w: World, s: Submission): (World, Result<Record, Status>) {
    Submitted(w, s.envelope, s.now, s.verify, s.node)
  }

  function Run(w: World, submissions: seq<Submission>): (World, seq<Result<Record, Status>>) {
    if |submissions| == 0 then (w, [])
    else
      var (w1, outcomes) := Run(w, submissions[..|submissions| - 1]);
      var (w2, outcome) := Taken(w1, submissions[|submissions| - 1]);
      (w2, outcomes + [outcome])
  }

  /** In every run accepted transactions have pairwise distinct ids, none of which the chain had, and
      there is one record per acceptance and one refusal per refused envelope. */
  lemma {:induction false} RunAcceptsOnce(w: World, submissions: seq<Submission>)
    ensures var (w1, outcomes) := Run(w, submissions);
            && |outcomes| == |submissions|
            && (forall i, j :: 0 <= i < j < |outcomes| && outcomes[i].Ok? && outcomes[j].Ok?
                  ==> outcomes[i].value.id != outcomes[j].value.id)
            && (forall i :: 0 <= i < |outcomes| && outcomes[i].Ok?
                  ==> outcomes[i].value.id !in w.byId && outcomes[i].value.id in w1.byId)
            && (forall id :: id in w.byId ==> id in w1.byId)
            && |w1.records| - |w.records| + RefusalsSeen(w1) - RefusalsSeen(w) == |submissions|
  {
    if |submissions| != 0 {
      var last := submissions[|submissions| - 1];
      RunAcceptsOnce(w, submissions[..|submissions| - 1]);
      var (w1, outcomes) := Run(w, submissions[..|submissions| - 1]);
      SubmitDoesOneThing(w1, last.envelope, last.now, last.verify, last.node);
    }
  }

  // ---- the supply over a run --------------------------------------------------------------------

  /** What running the transaction on the EVM does to the accounts' total: contracts hold balances of
      their own, so a call that pays one in lowers it and a call that pays one out raises it. */
  ghost function EvmChange(w: World, tx: Transaction, now: Timestamp, sendRaw: SendRaw): int {
    if !tx.body.Ethereum? then 0
    else
      var charged := ChargeFee(w, tx.id.payer);
      match sendRaw(charged, tx.body.rlp, now)
      case Mined(accounts, _, _, _, _, _, _, _, _) => Total(accounts) - Total(charged.accounts)
      case Unminable(_) => 0
  }

  /** The accounts it hands back are a chain's: ids below the next one, aliases of accounts, a collector. */
  ghost predicate EvmSound(w: World, tx: Transaction, now: Timestamp, sendRaw: SendRaw) {
    tx.body.Ethereum? ==>
      var charged := ChargeFee(w, tx.id.payer);
      match sendRaw(charged, tx.body.rlp, now)
      case Mined(accounts, byEvm, nextId, _, _, _, _, _, _) =>
        Sound(charged.(accounts := accounts, byEvm := byEvm, nextId := nextId))
      case Unminable(_) => true
  }

  ghost function SupplyChange(w: World, s: Submission): int {
    match Precheck(w, s.envelope, s.now, s.verify, s.node)
    case Ok(tx) => EvmChange(w, tx, s.now, s.node.sendRaw)
    case Err(_) => 0
  }

  ghost predicate StepSound(w: World, s: Submission) {
    match Precheck(w, s.envelope, s.now, s.verify, s.node)
    case Ok(tx) => EvmSound(w, tx, s.now, s.node.sendRaw)
    case Err(_) => true
  }

  /** One submission moves the supply by what its EVM call did to the accounts, and by nothing else. */
  lemma SubmitConserves(w: World, s: Submission)
    requires Sound(w) && StepSound(w, s)
    ensures Sound(Taken(w, s).0) && Total(Taken(w, s).0.accounts) == Total(w.accounts) + SupplyChange(w, s)
  {
    PrecheckFacts(w, s.envelope, s.now, s.verify, s.node);
    hide Precheck, Applied, Total, Identify;
    match Precheck(w, s.envelope, s.now, s.verify, s.node)
    case Err(_) =>
    case Ok(tx) =>
      FeeMintsShortfall(w, tx.id.payer);
      if tx.body.Ethereum? {
        EthereumMovesChange(w, tx, s.now, s.node.sendRaw);
      } else {
        HapiConserves(w, tx, s.now, s.node.sendRaw);
      }
  }

  lemma EthereumMovesChange(w: World, tx: Transaction, now: Timestamp, sendRaw: SendRaw)
    requires tx.body.Ethereum? && EvmSound(w, tx, now, sendRaw)
    requires Sound(w) && Sound(ChargeFee(w, tx.id.payer))
    requires Total(ChargeFee(w, tx.id.payer).accounts) == Total(w.accounts)
    ensures var (w1, _) := Applied(w, tx, now, sendRaw);
            Sound(w1) && Total(w1.accounts) == Total(w.accounts) + EvmChange(w, tx, now, sendRaw)
  {
    var charged := ChargeFee(w, tx.id.payer);
    hide ChargeFee, Total;
    match sendRaw(charged, tx.body.rlp, now)
    case Unminable(_) =>
    case Mined(accounts, byEvm, nextId, _, _, _, _, _, _) =>
      assert Sound(charged.(accounts := accounts, byEvm := byEvm, nextId := nextId));
  }

  ghost function SupplyChanges(w: World, submissions: seq<Submission>): int {
    if |submissions| == 0 then 0
    else
      var earlier := submissions[..|submissions| - 1];
      SupplyChanges(w, earlier) + SupplyChange(Run(w, earlier).0, submissions[|submissions| - 1])
  }

  ghost predicate RunSound(w: World, submissions: seq<Submission>) {
    |submissions| == 0
    || (var earlier := submissions[..|submissions| - 1];
        RunSound(w, earlier) && StepSound(Run(w, earlier).0, submissions[|submissions| - 1]))
  }

  /** Over any run the supply moves by exactly the sum of what the EVM calls of accepted submissions did
      to the accounts: fees, HAPI bodies, failures and refusals neither mint nor burn. */
  lemma {:induction false} RunConserves(w: World, submissions: seq<Submission>)
    requires Sound(w) && RunSound(w, submissions)
    ensures var w1 := Run(w, submissions).0;
            Sound(w1) && Total(w1.accounts) == Total(w.accounts) + SupplyChanges(w, submissions)
  {
    if |submissions| != 0 {
      hide Taken, SupplyChange, StepSound, Sound, Total;
      var earlier := submissions[..|submissions| - 1];
      RunConserves(w, earlier);
      SubmitConserves(Run(w, earlier).0, submissions[|submissions| - 1]);
    }
  }

  lemma HapiSubmitConserves(w: World, s: Submission)
    requires Taken(w, s).1.Ok? ==> Taken(w, s).1.value.kind != EthereumTransaction
    ensures StepSound(w, s) && SupplyChange(w, s) == 0
  {
    hide Precheck, Identify, Total;
  }

  /** So a run that accepts no Ethereum transaction keeps the supply, whatever the EVM is. */
  lemma {:induction false} HapiRunsConserve(w: World, submissions: seq<Submission>)
    requires Sound(w)
    requires forall outcome <- Run(w, submissions).1 :: outcome.Ok? ==> outcome.value.kind != EthereumTransaction
    ensures var w1 := Run(w, submissions).0; Sound(w1) && Total(w1.accounts) == Total(w.accounts)
  {
    if |submissions| != 0 {
      hide Taken, SupplyChange, StepSound, Sound, Total;
      var earlier, last := submissions[..|submissions| - 1], submissions[|submissions| - 1];
      var (w1, outcomes) := Run(w, earlier);
      assert Run(w, submissions).1 == outcomes + [Taken(w1, last).1];
      HapiRunsConserve(w, earlier);
      HapiSubmitConserves(w1, last);
      SubmitConserves(w1, last);
    }
  }
}
