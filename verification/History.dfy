/** What the chain's histories keep over any run of submissions: records found by id, consensus times
    that only move forward, topics that only grow. */
module History {
  import opened Wrappers
  import opened State
  import opened Wire

  // ---- the three histories ----------------------------------------------------------------------

  /** `hapi_by_id` finds every record by its id, and only records. */
  ghost predicate Indexed(w: World) {
    && (forall i :: 0 <= i < |w.records| ==> w.records[i].id in w.byId && w.byId[w.records[i].id] == i)
    && (forall id :: id in w.byId ==> w.byId[id] < |w.records| && w.records[w.byId[id]].id == id)
  }

  predicate NoLater(a: Timestamp, b: Timestamp) {
    a == b || Later(b, a)
  }

  /** Records in consensus order, no two at one instant, none after the chain's own last one. */
  ghost predicate Timed(records: seq<Record>, last: Timestamp) {
    && (forall i, j :: 0 <= i < j < |records| ==> Later(records[j].at, records[i].at))
    && (forall i :: 0 <= i < |records| ==> NoLater(records[i].at, last))
  }

  /** Messages numbered 1, 2, 3, ... in consensus order. */
  ghost predicate InSequence(messages: seq<Message>, last: Timestamp) {
    && (forall i :: 0 <= i < |messages| ==> messages[i].sequenceNumber == i + 1 && NoLater(messages[i].at, last))
    && (forall i, j :: 0 <= i < j < |messages| ==> Later(messages[j].at, messages[i].at))
  }

  ghost predicate TopicsInSequence(topics: map<Id, Topic>, nextId: Id, last: Timestamp) {
    forall t :: t in topics ==> t < nextId && InSequence(topics[t].messages, last)
  }

  ghost predicate Orderly(w: World) {
    Indexed(w) && Timed(w.records, w.lastConsensus) && TopicsInSequence(w.topics, w.nextId, w.lastConsensus)
  }

  /** Nothing that was there is gone or changed. */
  ghost predicate OnlyAdds(w: World, w1: World) {
    w.records <= w1.records && TopicsGrow(w.topics, w1.topics)
  }

  ghost predicate TopicsGrow(topics: map<Id, Topic>, after: map<Id, Topic>) {
    forall t :: t in topics ==> t in after && after[t].submitKey == topics[t].submitKey
                                && topics[t].messages <= after[t].messages
  }

  /** An EVM that hands out later instants and fresh ids only. */
  ghost predicate EvmMovesForward(sendRaw: SendRaw) {
    forall w, rlp, now ::
      match sendRaw(w, rlp, now)
      case Mined(_, _, nextId, _, _, lastConsensus, _, _, at) =>
        nextId >= w.nextId && lastConsensus == at && Later(at, w.lastConsensus)
      case Unminable(lastConsensus) => NoLater(w.lastConsensus, lastConsensus)
  }

  // ---- one step ---------------------------------------------------------------------------------

  lemma LaterIsTransitive(a: Timestamp, b: Timestamp, c: Timestamp)
    requires NoLater(a, b) && Later(c, b)
    ensures Later(c, a)
  {
  }

  lemma ConsensusMovesForward(w: World, at: Timestamp)
    ensures Later(NextConsensus(w, at), w.lastConsensus)
  {
  }

  lemma StoreKeepsOrder(w: World, record: Record, last: Timestamp)
    requires Indexed(w) && Timed(w.records, last) && record.id !in w.byId && Later(record.at, last)
    ensures Indexed(Store(w, record)) && Timed(Store(w, record).records, record.at)
  {
    var w1 := Store(w, record);
    forall i | 0 <= i < |w.records| ensures Later(record.at, w.records[i].at) {
      LaterIsTransitive(w.records[i].at, last, record.at);
    }
    forall i | 0 <= i < |w1.records|
      ensures w1.records[i].id in w1.byId && w1.byId[w1.records[i].id] == i
    {
      if i < |w.records| { assert w1.records[i] == w.records[i]; }
    }
  }

  lemma SequenceGrows(messages: seq<Message>, message: Message, last: Timestamp)
    requires InSequence(messages, last) && message.sequenceNumber == |messages| + 1 && Later(message.at, last)
    ensures InSequence(messages + [message], message.at)
  {
    forall i | 0 <= i < |messages| ensures Later(message.at, messages[i].at) {
      LaterIsTransitive(messages[i].at, last, message.at);
    }
  }

  lemma SequenceStays(messages: seq<Message>, last: Timestamp, later: Timestamp)
    requires InSequence(messages, last) && NoLater(last, later)
    ensures InSequence(messages, later)
  {
  }

  lemma TopicsStay(topics: map<Id, Topic>, nextId: Id, last: Timestamp, nextId': Id, later: Timestamp)
    requires TopicsInSequence(topics, nextId, last) && NoLater(last, later) && nextId <= nextId'
    ensures TopicsInSequence(topics, nextId', later)
  {
    forall t | t in topics ensures InSequence(topics[t].messages, later) {
      SequenceStays(topics[t].messages, last, later);
    }
  }

  lemma {:induction false} HollowKeepsTopics(w: World, hollow: seq<(Address, Int64)>)
    ensures var w1 := CreateHollow(w, hollow);
            w1.topics == w.topics && w1.nextId >= w.nextId && w1.lastConsensus == w.lastConsensus
  {
    if hollow != [] { HollowKeepsTopics(w, hollow[..|hollow| - 1]); }
  }

  lemma BodyKeepsTopics(w: World, payer: Id, body: Body, at: Timestamp, last: Timestamp)
    requires !body.Ethereum? && TopicsInSequence(w.topics, w.nextId, last) && Later(at, last)
    ensures match ApplyBody(w, payer, body, at)
            case Ok(w1) => TopicsInSequence(w1.topics, w1.nextId, at) && TopicsGrow(w.topics, w1.topics)
                           && w1.lastConsensus == w.lastConsensus
            case Err(_) => TopicsInSequence(w.topics, w.nextId, at)
  {
    TopicsStay(w.topics, w.nextId, last, w.nextId, at);
    if body.CreateTopic? {
      TopicAdded(w.topics, w.nextId, at, Topic(body.submitKey, []));
      hide TopicsInSequence, TopicsGrow;
    } else if body.SubmitMessage? {
      if ApplyBody(w, payer, body, at).Ok? { MessageAdded(w, payer, body, at, last); }
      hide TopicsInSequence, TopicsGrow;
    } else {
      TopicsUntouched(w, payer, body, at);
      hide TopicsInSequence, ApplyBody;
      if ApplyBody(w, payer, body, at).Ok? {
        TopicsStay(w.topics, w.nextId, last, ApplyBody(w, payer, body, at).value.nextId, at);
      }
    }
  }

  lemma EmptyInSequence(at: Timestamp)
    ensures InSequence([], at)
  {
  }

  lemma TopicAdded(topics: map<Id, Topic>, nextId: Id, at: Timestamp, topic: Topic)
    requires TopicsInSequence(topics, nextId, at) && topic.messages == []
    ensures TopicsInSequence(topics[nextId := topic], nextId + 1, at)
    ensures TopicsGrow(topics, topics[nextId := topic])
  {
    EmptyInSequence(at);
    hide InSequence;
  }

  lemma MessageAdded(w: World, payer: Id, body: Body, at: Timestamp, last: Timestamp)
    requires body.SubmitMessage? && TopicsInSequence(w.topics, w.nextId, last) && Later(at, last)
    requires ApplyBody(w, payer, body, at).Ok? && TopicsInSequence(w.topics, w.nextId, at)
    ensures var w1 := ApplyBody(w, payer, body, at).value;
            TopicsInSequence(w1.topics, w1.nextId, at) && TopicsGrow(w.topics, w1.topics)
  {
    var messages := w.topics[body.topic].messages;
    SequenceGrows(messages, Message(|messages| + 1, body.message, at, payer), last);
    hide InSequence;
  }

  lemma TopicsUntouched(w: World, payer: Id, body: Body, at: Timestamp)
    requires body.CreateAccount? || body.Transfer? || body.Delete?
    ensures match ApplyBody(w, payer, body, at)
            case Ok(w1) => w1.topics == w.topics && w1.nextId >= w.nextId && w1.lastConsensus == w.lastConsensus
            case Err(_) => true
  {
    hide AdjustAll;
    if body.Transfer? && Resolve(w, body.amounts).Ok? {
      var r := Resolve(w, body.amounts).value;
      HollowKeepsTopics(w.(accounts := AdjustAll(w.accounts, r.known)), r.hollow);
    }
  }

  lemma AppliedKeepsOrder(w: World, tx: Transaction, now: Timestamp, sendRaw: SendRaw)
    requires Orderly(w) && tx.id !in w.byId && EvmMovesForward(sendRaw)
    ensures var (w1, record) := Applied(w, tx, now, sendRaw);
            Orderly(w1) && OnlyAdds(w, w1) && Later(record.at, w.lastConsensus) && w1.lastConsensus == record.at
  {
    AppliedKeepsLog(w, tx, now, sendRaw);
    var (w1, record) := Applied(w, tx, now, sendRaw);
    if tx.body.Ethereum? {
      EthereumKeepsOrder(w, tx, now, sendRaw);
    } else {
      HapiKeepsOrder(w, tx, now, sendRaw);
    }
    hide Applied, NextConsensus, ApplyBody, TopicsInSequence, TopicsGrow, Later;
    StoreKeepsOrder(w, record, w.lastConsensus);
  }

  lemma HapiKeepsOrder(w: World, tx: Transaction, now: Timestamp, sendRaw: SendRaw)
    requires Orderly(w) && !tx.body.Ethereum?
    ensures var (w1, record) := Applied(w, tx, now, sendRaw);
            && TopicsInSequence(w1.topics, w1.nextId, record.at) && TopicsGrow(w.topics, w1.topics)
            && Later(record.at, w.lastConsensus) && w1.lastConsensus == record.at
  {
    var at := NextConsensus(w, now);
    ConsensusMovesForward(w, now);
    BodyKeepsTopics(ChargeFee(w.(lastConsensus := at), tx.id.payer), tx.id.payer, tx.body, at, w.lastConsensus);
    hide NextConsensus, ApplyBody, TopicsInSequence, Later;
  }

  lemma EthereumKeepsOrder(w: World, tx: Transaction, now: Timestamp, sendRaw: SendRaw)
    requires Orderly(w) && tx.body.Ethereum? && EvmMovesForward(sendRaw)
    ensures var (w1, record) := Applied(w, tx, now, sendRaw);
            && TopicsInSequence(w1.topics, w1.nextId, record.at) && TopicsGrow(w.topics, w1.topics)
            && Later(record.at, w.lastConsensus) && w1.lastConsensus == record.at
  {
    var charged := ChargeFee(w, tx.id.payer);
    var (w1, record) := Applied(w, tx, now, sendRaw);
    match sendRaw(charged, tx.body.rlp, now)
    case Mined(_, _, _, _, _, _, _, _, _) =>
      TopicsStay(w.topics, w.nextId, w.lastConsensus, w1.nextId, record.at);
    case Unminable(lastConsensus) =>
      var stamped := charged.(lastConsensus := lastConsensus);
      ConsensusMovesForward(stamped, now);
      LaterIsTransitive(w.lastConsensus, lastConsensus, record.at);
      TopicsStay(w.topics, w.nextId, w.lastConsensus, w1.nextId, record.at);
  }

  // ---- runs -------------------------------------------------------------------------------------

  lemma TakenKeepsOrder(w: World, s: Submission)
    requires Orderly(w) && EvmMovesForward(s.node.sendRaw)
    ensures Orderly(Taken(w, s).0) && OnlyAdds(w, Taken(w, s).0)
  {
    match Precheck(w, s.envelope, s.now, s.verify, s.node)
    case Ok(tx) =>
      PrecheckFacts(w, s.envelope, s.now, s.verify, s.node);
      AppliedKeepsOrder(w, tx, s.now, s.node.sendRaw);
    case Err(_) =>
  }

  lemma AddsTransitively(a: World, b: World, c: World)
    requires OnlyAdds(a, b) && OnlyAdds(b, c)
    ensures OnlyAdds(a, c)
  {
  }

  /** Over any run of submissions every record stays where its id finds it, consensus times strictly
      increase, and every topic keeps its messages and numbers new ones 1, 2, 3, ... after them. */
  lemma {:induction false} RunKeepsHistory(w: World, submissions: seq<Submission>)
    requires Orderly(w) && forall s <- submissions :: EvmMovesForward(s.node.sendRaw)
    ensures Orderly(Run(w, submissions).0) && OnlyAdds(w, Run(w, submissions).0)
  {
    if |submissions| != 0 {
      hide Taken, Orderly, OnlyAdds, EvmMovesForward;
      var earlier, last := submissions[..|submissions| - 1], submissions[|submissions| - 1];
      RunKeepsHistory(w, earlier);
      TakenKeepsOrder(Run(w, earlier).0, last);
      AddsTransitively(w, Run(w, earlier).0, Run(w, submissions).0);
    } else {
      assert OnlyAdds(w, w);
    }
  }
}
