/** The funded signer of `src/harness/chain.rs`: provisioned when a run starts, swept when it ends. Both
    go straight to `apply_hapi`, below the prechecks. */
module Signer {
  import opened Wrappers
  import opened Evm
  import opened State
  import opened Wire
  import Effects

  const OPERATOR: Id := FIRST_USER_ID

  // ---- a transaction id nobody has --------------------------------------------------------------

  function IdAt(t: Timestamp): TxId {
    TxId(OPERATOR, t, 0, false)
  }

  predicate NotBefore(a: Timestamp, b: Timestamp) {
    a == b || Later(a, b)
  }

  /** The first nanosecond from `t` on that no id in `used` names. */
  function FreeFrom(used: set<TxId>, t: Timestamp): Timestamp
    decreases |used|
  {
    if IdAt(t) in used then FreeFrom(used - {IdAt(t)}, NextNano(t)) else t
  }

  lemma NextNanoIsLater(t: Timestamp)
    ensures Later(NextNano(t), t)
  {
  }

  /** Ids of earlier instants do not matter to the search. */
  lemma {:induction false} FreeIgnoresEarlier(used: set<TxId>, past: set<TxId>, t: Timestamp)
    requires past <= used && forall id :: id in past ==> Later(t, id.validStart)
    ensures FreeFrom(used - past, t) == FreeFrom(used, t)
    decreases |used|
  {
    var id := IdAt(t);
    assert id !in past;
    if id in used {
      NextNanoIsLater(t);
      FreeIgnoresEarlier(used - {id}, past, NextNano(t));
      assert used - past - {id} == used - {id} - past;
    }
  }

  /** The id found is unused, no earlier than asked for, and every instant before it was taken. */
  lemma {:induction false} FreeIsFirst(used: set<TxId>, t: Timestamp) returns (taken: seq<Timestamp>)
    ensures var free := FreeFrom(used, t);
            && IdAt(free) !in used && NotBefore(free, t)
            && (forall i :: 0 <= i < |taken| ==>
                  IdAt(taken[i]) in used && (taken + [free])[i + 1] == NextNano(taken[i]))
            && (taken + [free])[0] == t
    decreases |used|
  {
    var id := IdAt(t);
    taken := [];
    if id in used {
      var rest, next := used - {id}, NextNano(t);
      var later := FreeIsFirst(rest, next);
      var free := FreeFrom(rest, next);
      NextNanoIsLater(t);
      assert IdAt(free) != id;
      taken := [t] + later;
      assert taken + [free] == [t] + (later + [free]);
      forall i | 0 <= i < |taken|
        ensures IdAt(taken[i]) in used && (taken + [free])[i + 1] == NextNano(taken[i])
      {
        if i > 0 { assert taken[i] == later[i - 1] && (taken + [free])[i + 1] == (later + [free])[i]; }
      }
    }
  }

  /** `unique_tx_id`. */
  method UniqueTxId(w: World, now: Timestamp) returns (id: TxId)
    ensures id == IdAt(FreeFrom(w.byId.Keys, now)) && id !in w.byId
  {
    id := IdAt(now);
    ghost var past: set<TxId> := {};
    assert w.byId.Keys - past == w.byId.Keys;
    while id in w.byId
      invariant id == IdAt(id.validStart) && past <= w.byId.Keys
      invariant forall p :: p in past ==> Later(id.validStart, p.validStart)
      invariant FreeFrom(w.byId.Keys - past, id.validStart) == FreeFrom(w.byId.Keys, now)
      decreases |w.byId.Keys - past|
    {
      NextNanoIsLater(id.validStart);
      assert w.byId.Keys - (past + {id}) == w.byId.Keys - past - {id};
      assert id in w.byId.Keys - past;
      past := past + {id};
      id := id.(validStart := NextNano(id.validStart));
    }
    assert id !in w.byId.Keys - past;
  }

  // ---- provision and sweep ----------------------------------------------------------------------

  function NoEvm(): SendRaw {
    (w: World, rlp: Bytes, now: Timestamp) => Unminable(w.lastConsensus)
  }

  function OperatorTransaction(w: World, now: Timestamp, memo: string, body: Body): Transaction {
    Transaction(IdAt(FreeFrom(w.byId.Keys, now)), memo, 120, body)
  }

  /** The operator does `body`. */
  function Done(w: World, now: Timestamp, memo: string, body: Body): (World, Record) {
    Applied(w, OperatorTransaction(w, now, memo, body), now, NoEvm())
  }

  datatype Provision = Provided(id: Id, reused: bool, toppedUp: Option<nat>, replacedDeleted: bool)
                     | NotProvided(status: Status)

  function Negate(n: int): Int64 {
    WrapInt64(-n)
  }

  /** The two entries of a top-up, in the arithmetic of `i64`. */
  function TopUp(account: Id, delta: nat): Body {
    Transfer([(ById(OPERATOR), Negate(AsInt64(delta))), (ById(account), AsInt64(delta))])
  }

  function Provisioned(w: World, onDisk: Option<Id>, funding: nat, key: Key, alias: Address, now: Timestamp)
    : (World, Provision)
  {
    if onDisk.Some? && IsLive(w.accounts, onDisk.value) then
      var id := onDisk.value;
      var balance := BalanceOf(w.accounts, id);
      if balance >= funding then (w, Provided(id, true, None, false))
      else
        var (w1, record) := Done(w, now, "hanvil run signer top-up", TopUp(id, funding - balance));
        (w1, if record.status == Success then Provided(id, true, Some(funding - balance), false)
             else NotProvided(record.status))
    else
      var (w1, record) := Done(w, now, "hanvil run signer", CreateAccount(key, funding, Some(alias)));
      (w1, if record.status == Success then Provided(w.nextId, false, None, onDisk.Some?)
           else NotProvided(record.status))
  }

  function Swept(w: World, sweepBack: bool, id: Id, now: Timestamp): (World, Option<Status>) {
    if !sweepBack then (w, None)
    else
      var (w1, record) := Done(w, now, "hanvil run signer sweep", Delete(id, OPERATOR));
      (w1, if record.status == Success then None else Some(record.status))
  }

  /** A transaction from the operator, on the chain object. */
  method Submit(chain: Chain, now: Timestamp, memo: string, body: Body) returns (record: Record)
    modifies chain`world
    ensures (chain.world, record) == Done(old(chain.world), now, memo, body)
  {
    var id := UniqueTxId(chain.world, now);
    record := chain.ApplyHapi(Transaction(id, memo, 120, body), now, NoEvm());
  }

  /** `provision`. */
  method ProvisionSigner(chain: Chain, onDisk: Option<Id>, funding: nat, key: Key, alias: Address,
                         now: Timestamp) returns (provision: Provision)
    modifies chain`world
    ensures (chain.world, provision) == Provisioned(old(chain.world), onDisk, funding, key, alias, now)
  {
    hide Done;
    var replacedDeleted := false;
    if onDisk.Some? {
      var id := onDisk.value;
      if IsLive(chain.world.accounts, id) {
        var balance := chain.world.accounts[id].balance;
        if balance < funding {
          var delta := funding - balance;
          var record := Submit(chain, now, "hanvil run signer top-up", TopUp(id, delta));
          if record.status != Success { return NotProvided(record.status); }
          return Provided(id, true, Some(delta), false);
        }
        return Provided(id, true, None, false);
      }
      replacedDeleted := true;
    }
    var created := chain.world.nextId;
    var record := Submit(chain, now, "hanvil run signer", CreateAccount(key, funding, Some(alias)));
    if record.status != Success { return NotProvided(record.status); }
    provision := Provided(created, false, None, replacedDeleted);
  }

  /** `sweep`: `None` is success. */
  method Sweep(chain: Chain, sweepBack: bool, id: Id, now: Timestamp) returns (failure: Option<Status>)
    modifies chain`world
    ensures (chain.world, failure) == Swept(old(chain.world), sweepBack, id, now)
  {
    hide Done;
    if !sweepBack { return None; }
    var record := Submit(chain, now, "hanvil run signer sweep", Delete(id, OPERATOR));
    failure := if record.status == Success then None else Some(record.status);
  }

  // ---- what they leave --------------------------------------------------------------------------

  /** The operator exists, as genesis makes it, and one more fee fits the supply. Whether the operator can
      pay that fee is left open. */
  ghost predicate Roomy(w: World) {
    Sound(w) && OPERATOR in w.accounts && Total(w.accounts) + HAPI_FEE <= MAX_I64
  }

  /** The chain after the operator's fee, on which the body is tried. */
  function Charged(w: World, now: Timestamp): World {
    ChargeFee(w.(lastConsensus := NextConsensus(w, now)), OPERATOR)
  }

  lemma ChargedFacts(w: World, now: Timestamp)
    requires Roomy(w)
    ensures var c := Charged(w, now);
            && Sound(c) && Total(c.accounts) == Total(w.accounts) + Shortfall(w.accounts, OPERATOR)
            && c.accounts.Keys == w.accounts.Keys && c.nextId == w.nextId && c.byEvm == w.byEvm
            && (forall id :: id in w.accounts ==> c.accounts[id].deleted == w.accounts[id].deleted)
            && (forall id :: BalanceOf(c.accounts, id)
                             == (var held := BalanceOf(w.accounts, id);
                                 if id == OPERATOR then LessFee(held) else held)
                                + (if id == FEE_COLLECTOR then HAPI_FEE else 0))
  {
    FeeMintsShortfall(w.(lastConsensus := NextConsensus(w, now)), OPERATOR);
    hide Total, Sound, LessFee, Shortfall, BalanceOf;
  }

  lemma DoneIsBody(w: World, now: Timestamp, memo: string, body: Body)
    requires Roomy(w) && !body.Ethereum?
    ensures var (w1, record) := Done(w, now, memo, body);
            var outcome := ApplyBody(Charged(w, now), OPERATOR, body, NextConsensus(w, now));
            && Sound(w1) && Total(w1.accounts) == Total(w.accounts) + Shortfall(w.accounts, OPERATOR)
            && record.status == (if outcome.Ok? then Success else outcome.error)
            && (record.status == Success <==> outcome.Ok?)
            && w1.accounts == (if outcome.Ok? then outcome.value.accounts else Charged(w, now).accounts)
            && w1.byEvm == (if outcome.Ok? then outcome.value.byEvm else w.byEvm)
            && w1.nextId == (if outcome.Ok? then outcome.value.nextId else w.nextId)
  {
    HapiConserves(w, OperatorTransaction(w, now, memo, body), now, NoEvm());
    hide Sound, Total, ApplyBody, Move, Shortfall;
    ErrorIsNotSuccess(Charged(w, now), OPERATOR, body, NextConsensus(w, now));
  }

  lemma ErrorIsNotSuccess(w: World, payer: Id, body: Body, at: Timestamp)
    requires !body.Ethereum?
    ensures ApplyBody(w, payer, body, at) != Err(Success)
  {
    if body.Transfer? { ResolveErrors(w, body.amounts); }
  }

  lemma {:induction false} ResolveErrors(w: World, amounts: seq<(AccountRef, Int64)>)
    ensures Resolve(w, amounts) != Err(Success)
  {
    if amounts != [] { ResolveErrors(w, amounts[..|amounts| - 1]); }
  }

  /** A top-up too large for `i64` turns its transfer around; nobody but the fee collector, who has just
      been paid a fee, could then afford it. */
  predicate Tame(id: Id, funding: nat) {
    id != FEE_COLLECTOR || funding <= MAX_I64
  }

  /** The old signer has enough, and nothing is submitted. */
  predicate Untouched(p: Provision) {
    p.Provided? && p.reused && p.toppedUp.None?
  }

  /** A signer handed out is a live account with at least the funding asked for; an old signer that has
      enough costs nothing and changes nothing; a refusal costs the fee and changes no other balance.
      Every other outcome moves the supply by what of the fee the operator does not have. */
  lemma SignerIsFunded(w: World, onDisk: Option<Id>, funding: nat, key: Key, alias: Address, now: Timestamp)
    requires Roomy(w) && funding <= MAX_U64
    ensures var (w1, p) := Provisioned(w, onDisk, funding, key, alias, now);
            && Sound(w1)
            && Total(w1.accounts) == Total(w.accounts) + (if Untouched(p) then 0 else Shortfall(w.accounts, OPERATOR))
            && (Untouched(p) ==> w1 == w)
            && match p
               case Provided(id, reused, toppedUp, replacedDeleted) =>
                 && IsLive(w1.accounts, id)
                 && (Tame(id, funding) ==> BalanceOf(w1.accounts, id) >= funding)
                 && (reused <==> onDisk == Some(id) && IsLive(w.accounts, id))
                 && (replacedDeleted <==> onDisk.Some? && !reused)
               case NotProvided(_) => w1.accounts == Charged(w, now).accounts
  {
    hide *;
    UntouchedParts(Provisioned(w, onDisk, funding, key, alias, now).1);
    RoomyIsSound(w);
    ProvisionedParts(w, onDisk, funding, key, alias, now);
    UnknownIsEmpty(w.accounts, w.nextId);
    if onDisk.Some? && IsLive(w.accounts, onDisk.value) {
      if BalanceOf(w.accounts, onDisk.value) < funding { TopUpRuns(w, onDisk.value, funding, now); }
    } else {
      CreateRuns(w, funding, key, alias, now);
    }
  }

  /** Provisioning keeps the supply exactly when it submits nothing or the operator can pay the fee. */
  lemma ProvisioningConservesIff(w: World, onDisk: Option<Id>, funding: nat, key: Key, alias: Address,
                                 now: Timestamp)
    requires Roomy(w) && funding <= MAX_U64
    ensures var (w1, p) := Provisioned(w, onDisk, funding, key, alias, now);
            Total(w1.accounts) == Total(w.accounts)
            <==> Untouched(p) || BalanceOf(w.accounts, OPERATOR) >= HAPI_FEE
  {
    SignerIsFunded(w, onDisk, funding, key, alias, now);
    hide Provisioned, Total, Roomy, Sound;
  }

  /** An operator with nothing is refused its new signer, and the fee it did not have exists now. */
  lemma ProvisioningMints(w: World, funding: nat, key: Key, alias: Address, now: Timestamp)
    requires Roomy(w) && 0 < funding <= MAX_U64 && w.accounts[OPERATOR].balance == 0
    ensures var (w1, p) := Provisioned(w, None, funding, key, alias, now);
            p.NotProvided? && Total(w1.accounts) == Total(w.accounts) + HAPI_FEE
  {
    SignerIsFunded(w, None, funding, key, alias, now);
    hide Roomy, Sound, Total;
    OperatorPaysForIt(w, None, funding, key, alias, now);
  }

  /** A signer that was created or topped up holds exactly the funding, and the operator paid exactly what
      it got, and of one fee what it had. */
  lemma OperatorPaysForIt(w: World, onDisk: Option<Id>, funding: nat, key: Key, alias: Address, now: Timestamp)
    requires Roomy(w) && funding <= MAX_U64
    ensures var (w1, p) := Provisioned(w, onDisk, funding, key, alias, now);
            p.Provided? && !Untouched(p) && Tame(p.id, funding) ==>
              && p.id != OPERATOR
              && BalanceOf(w1.accounts, p.id) == funding + (if p.id == FEE_COLLECTOR then HAPI_FEE else 0)
              && BalanceOf(w1.accounts, OPERATOR)
                 == LessFee(BalanceOf(w.accounts, OPERATOR)) - (funding - BalanceOf(w.accounts, p.id))
              && (!p.reused ==> p.id !in w.accounts && p.id in w1.accounts && w1.accounts[p.id].key == Some(key))
  {
    hide *;
    UntouchedParts(Provisioned(w, onDisk, funding, key, alias, now).1);
    ProvisionedParts(w, onDisk, funding, key, alias, now);
    UnknownIsEmpty(w.accounts, w.nextId);
    if onDisk.Some? && IsLive(w.accounts, onDisk.value) {
      if BalanceOf(w.accounts, onDisk.value) < funding { TopUpRuns(w, onDisk.value, funding, now); }
    } else {
      CreateRuns(w, funding, key, alias, now);
    }
  }

  lemma UntouchedParts(p: Provision)
    ensures Untouched(p) <==> p.Provided? && p.reused && p.toppedUp.None?
  {
  }

  lemma RoomyIsSound(w: World)
    requires Roomy(w)
    ensures Sound(w)
  {
  }

  lemma ProvisionedParts(w: World, onDisk: Option<Id>, funding: nat, key: Key, alias: Address, now: Timestamp)
    ensures Provisioned(w, onDisk, funding, key, alias, now)
         == if onDisk.Some? && IsLive(w.accounts, onDisk.value) then
              (if BalanceOf(w.accounts, onDisk.value) >= funding then (w, Provided(onDisk.value, true, None, false))
               else (var delta := funding - BalanceOf(w.accounts, onDisk.value);
                     var (w1, record) := Done(w, now, "hanvil run signer top-up", TopUp(onDisk.value, delta));
                     (w1, if record.status == Success then Provided(onDisk.value, true, Some(delta), false)
                          else NotProvided(record.status))))
            else (var (w1, record) := Done(w, now, "hanvil run signer", CreateAccount(key, funding, Some(alias)));
                  (w1, if record.status == Success then Provided(w.nextId, false, None, onDisk.Some?)
                       else NotProvided(record.status)))
  {
    hide Done, TopUp, IsLive, BalanceOf;
  }

  lemma UnknownIsEmpty(accounts: Accounts, id: Id)
    ensures id !in accounts ==> BalanceOf(accounts, id) == 0 && !IsLive(accounts, id)
  {
  }

  lemma ChargedKeepsLive(w: World, now: Timestamp, id: Id)
    requires Roomy(w) && IsLive(w.accounts, id)
    ensures IsLive(Charged(w, now).accounts, id) && OPERATOR in Charged(w, now).accounts
    ensures OPERATOR != FEE_COLLECTOR
  {
  }

  lemma TopUpIsTransfer(id: Id, delta: nat)
    ensures !TopUp(id, delta).Ethereum?
  {
  }

  lemma TopUpRuns(w: World, id: Id, funding: nat, now: Timestamp)
    requires Roomy(w) && IsLive(w.accounts, id) && BalanceOf(w.accounts, id) < funding <= MAX_U64
    ensures var delta := funding - BalanceOf(w.accounts, id);
            var (w1, record) := Done(w, now, "hanvil run signer top-up", TopUp(id, delta));
            && Sound(w1) && Total(w1.accounts) == Total(w.accounts) + Shortfall(w.accounts, OPERATOR)
            && (record.status != Success ==> w1.accounts == Charged(w, now).accounts)
            && (record.status == Success ==>
                  && id != OPERATOR && IsLive(w1.accounts, id)
                  && (Tame(id, funding) ==>
                        && BalanceOf(w1.accounts, id) == funding + (if id == FEE_COLLECTOR then HAPI_FEE else 0)
                        && BalanceOf(w1.accounts, OPERATOR) == LessFee(BalanceOf(w.accounts, OPERATOR)) - delta))
  {
    hide *;
    var delta := funding - BalanceOf(w.accounts, id);
    ChargedFacts(w, now);
    ChargedKeepsLive(w, now, id);
    TopUpIsTransfer(id, delta);
    DoneIsBody(w, now, "hanvil run signer top-up", TopUp(id, delta));
    TopUpFunds(Charged(w, now), id, delta, BalanceOf(w.accounts, id), NextConsensus(w, now));
  }

  lemma CreateRuns(w: World, funding: nat, key: Key, alias: Address, now: Timestamp)
    requires Roomy(w)
    ensures var (w1, record) := Done(w, now, "hanvil run signer", CreateAccount(key, funding, Some(alias)));
            && Sound(w1) && Total(w1.accounts) == Total(w.accounts) + Shortfall(w.accounts, OPERATOR)
            && (record.status != Success ==> w1.accounts == Charged(w, now).accounts)
            && w.nextId !in w.accounts && w.nextId != FEE_COLLECTOR && w.nextId != OPERATOR
            && (record.status == Success ==>
                  && IsLive(w1.accounts, w.nextId) && w.nextId in w1.accounts && OPERATOR in w1.accounts
                  && w1.accounts[w.nextId].key == Some(key)
                  && BalanceOf(w1.accounts, w.nextId) == funding
                  && BalanceOf(w1.accounts, OPERATOR) == LessFee(BalanceOf(w.accounts, OPERATOR)) - funding)
  {
    ChargedFacts(w, now);
    DoneIsBody(w, now, "hanvil run signer", CreateAccount(key, funding, Some(alias)));
    hide Done, Total, Charged;
    CreateFunds(Charged(w, now), funding, key, alias, NextConsensus(w, now));
  }

  lemma CreateFunds(c: World, funding: nat, key: Key, alias: Address, at: Timestamp)
    requires Sound(c) && OPERATOR in c.accounts
    ensures var outcome := ApplyBody(c, OPERATOR, CreateAccount(key, funding, Some(alias)), at);
            outcome.Ok? ==>
              var after := outcome.value.accounts;
              && c.nextId !in c.accounts && c.nextId != OPERATOR && c.nextId != FEE_COLLECTOR
              && IsLive(after, c.nextId) && after[c.nextId].key == Some(key) && OPERATOR in after
              && BalanceOf(after, c.nextId) == funding
              && BalanceOf(after, OPERATOR) == BalanceOf(c.accounts, OPERATOR) - funding
  {
    if ApplyBody(c, OPERATOR, CreateAccount(key, funding, Some(alias)), at).Ok? {
      var account := Account(Some(key), Some(alias), 0, false);
      InsertAccountSound(c, account);
      var grown := InsertAccount(c.(nextId := c.nextId + 1), c.nextId, account).accounts;
      MoveEffect(grown, OPERATOR, c.nextId, funding, c.nextId);
      MoveEffect(grown, OPERATOR, c.nextId, funding, OPERATOR);
    }
  }

  lemma ResolvePair(c: World, first: Id, a: Int64, second: Id, b: Int64)
    ensures var amounts := [(ById(first), a), (ById(second), b)];
            && SumOf(amounts) == a + b
            && (Resolve(c, amounts).Ok? <==> IsLive(c.accounts, first) && IsLive(c.accounts, second))
            && (Resolve(c, amounts).Ok? ==> Resolve(c, amounts) == Ok(Resolved([(first, a), (second, b)], [])))
  {
    var amounts: seq<(AccountRef, Int64)> := [(ById(first), a), (ById(second), b)];
    assert amounts[..1] == [(ById(first), a)] && amounts[..1][..0] == [];
    assert SumOf(amounts[..1]) == a;
    var known: seq<(Id, Int64)> := [(first, a)];
    assert [] + known == known && known + [(second, b)] == [(first, a), (second, b)];
    assert IsLive(c.accounts, first) ==> Resolve(c, amounts[..1]) == Ok(Resolved(known, []));
  }

  lemma AdjustPair(accounts: Accounts, first: Id, a: Int64, second: Id, b: Int64)
    requires first in accounts && second in accounts && first != second
    requires 0 <= accounts[first].balance + a <= MAX_U64 && 0 <= accounts[second].balance + b <= MAX_U64
    ensures var after := AdjustAll(accounts, [(first, a), (second, b)]);
            && first in after && after[first] == accounts[first].(balance := accounts[first].balance + a)
            && second in after && after[second] == accounts[second].(balance := accounts[second].balance + b)
  {
    var amounts: seq<(Id, Int64)> := [(first, a), (second, b)];
    assert amounts[..1] == [(first, a)] && amounts[..1][..0] == [];
    assert AdjustAll(accounts, amounts[..1]) == Adjust(accounts, first, a);
    assert AdjustAll(accounts, amounts) == Adjust(Adjust(accounts, first, a), second, b);
  }

  lemma WideTopUp(delta: nat)
    requires MAX_I64 < delta <= MAX_U64
    ensures AsInt64(delta) == delta - TWO64
    ensures Negate(AsInt64(delta)) + AsInt64(delta) == 0 ==> Negate(AsInt64(delta)) == TWO64 - delta
  {
  }

  lemma TopUpFunds(c: World, id: Id, delta: nat, owned: nat, at: Timestamp)
    requires Sound(c) && OPERATOR in c.accounts && IsLive(c.accounts, id)
    requires 0 < delta && delta + owned <= MAX_U64
    requires BalanceOf(c.accounts, id) == (if id == OPERATOR then LessFee(owned) else owned)
                                        + (if id == FEE_COLLECTOR then HAPI_FEE else 0)
    ensures var outcome := ApplyBody(c, OPERATOR, TopUp(id, delta), at);
            outcome.Ok? ==>
              var after := outcome.value.accounts;
              && id != OPERATOR && IsLive(after, id)
              && (Tame(id, delta + owned) ==>
                    && BalanceOf(after, id) == BalanceOf(c.accounts, id) + delta
                    && BalanceOf(after, OPERATOR) == BalanceOf(c.accounts, OPERATOR) - delta)
  {
    var a, b := Negate(AsInt64(delta)), AsInt64(delta);
    ResolvePair(c, OPERATOR, a, id, b);
    var known := [(OPERATOR, a), (id, b)];
    if ApplyBody(c, OPERATOR, TopUp(id, delta), at).Ok? {
      assert known[0].0 != known[1].0;
      assert a < 0 ==> -a <= BalanceOf(c.accounts, known[0].0);
      assert b < 0 ==> -b <= BalanceOf(c.accounts, known[1].0);
      BalanceWithinTotal(c.accounts, OPERATOR);
      BalanceWithinTotal(c.accounts, id);
      if delta > MAX_I64 { WideTopUp(delta); } else { SmallAmount(delta); }
      hide Negate, AsInt64, Resolve, Total;
      AdjustPair(c.accounts, OPERATOR, a, id, b);
    }
  }

  /** A sweep that succeeds leaves the signer deleted and empty and gives the operator all it held; one
      that fails costs the fee and changes no other balance; one that is switched off changes nothing.
      The supply moves by what of the fee the operator does not have. */
  lemma SweepReturnsAll(w: World, sweepBack: bool, id: Id, now: Timestamp)
    requires Roomy(w)
    ensures var (w1, failure) := Swept(w, sweepBack, id, now);
            && Sound(w1)
            && Total(w1.accounts) == Total(w.accounts) + (if sweepBack then Shortfall(w.accounts, OPERATOR) else 0)
            && (!sweepBack ==> w1 == w && failure.None?)
            && (failure.Some? ==> w1.accounts == Charged(w, now).accounts)
            && (sweepBack && failure.None? ==>
                  && id in w1.accounts && w1.accounts[id].deleted && w1.accounts[id].balance == 0
                  && BalanceOf(w1.accounts, OPERATOR)
                     == LessFee(BalanceOf(w.accounts, OPERATOR)) + BalanceOf(Charged(w, now).accounts, id))
  {
    if sweepBack {
      var at := NextConsensus(w, now);
      ChargedFacts(w, now);
      DoneIsBody(w, now, "hanvil run signer sweep", Delete(id, OPERATOR));
      hide Done, Applied;
      var c := Charged(w, now);
      if ApplyBody(c, OPERATOR, Delete(id, OPERATOR), at).Ok? {
        MoveEffect(c.accounts, id, OPERATOR, BalanceOf(c.accounts, id), id);
        MoveEffect(c.accounts, id, OPERATOR, BalanceOf(c.accounts, id), OPERATOR);
      }
    }
  }

  /** Sweeping keeps the supply exactly when it is switched off or the operator can pay the fee. */
  lemma SweepConservesIff(w: World, sweepBack: bool, id: Id, now: Timestamp)
    requires Roomy(w)
    ensures Total(Swept(w, sweepBack, id, now).0.accounts) == Total(w.accounts)
            <==> !sweepBack || BalanceOf(w.accounts, OPERATOR) >= HAPI_FEE
  {
    SweepReturnsAll(w, sweepBack, id, now);
    hide Swept, Total, Roomy, Sound;
  }

  /** A run that gives its new signer nothing to do costs the operator two fees, or what it has of them,
      and nothing else. */
  lemma CreateThenSweep(w: World, onDisk: Option<Id>, funding: nat, key: Key, alias: Address,
                        now: Timestamp, w1: World, id: Id, replaced: bool, later: Timestamp)
    requires Roomy(w) && funding <= MAX_U64 && Total(w.accounts) + 2 * HAPI_FEE <= MAX_I64
    ensures Provisioned(w, onDisk, funding, key, alias, now) == (w1, Provided(id, false, None, replaced))
            && Swept(w1, true, id, later).1.None? ==>
              var w2, owned := Swept(w1, true, id, later).0, BalanceOf(w.accounts, OPERATOR);
              && LessFee(owned) >= funding
              && BalanceOf(w2.accounts, OPERATOR) == LessFee(LessFee(owned) - funding) + funding
              && (BalanceOf(w2.accounts, OPERATOR) == owned - 2 * HAPI_FEE <==> owned - funding >= 2 * HAPI_FEE)
              && id in w2.accounts && w2.accounts[id].deleted
  {
    if Provisioned(w, onDisk, funding, key, alias, now) == (w1, Provided(id, false, None, replaced)) {
      CreatedIsRoomy(w, onDisk, funding, key, alias, now);
      hide Provisioned, Swept, Roomy, Sound, Total, Shortfall;
      CreatedSignerIsTame(w, onDisk, funding, key, alias, now);
      OperatorPaysForIt(w, onDisk, funding, key, alias, now);
      UnknownIsEmpty(w.accounts, id);
      SweepReturnsAll(w1, true, id, later);
      ChargedFacts(w1, later);
    }
  }

  lemma CreatedIsRoomy(w: World, onDisk: Option<Id>, funding: nat, key: Key, alias: Address, now: Timestamp)
    requires Roomy(w) && funding <= MAX_U64 && Total(w.accounts) + 2 * HAPI_FEE <= MAX_I64
    ensures var (w1, p) := Provisioned(w, onDisk, funding, key, alias, now);
            p.Provided? && !p.reused ==> Roomy(w1)
  {
    SignerIsFunded(w, onDisk, funding, key, alias, now);
    CreateRuns(w, funding, key, alias, now);
    hide Done, Sound, Total;
  }

  lemma CreatedSignerIsTame(w: World, onDisk: Option<Id>, funding: nat, key: Key, alias: Address, now: Timestamp)
    requires Roomy(w)
    ensures var p := Provisioned(w, onDisk, funding, key, alias, now).1;
            p.Provided? && !p.reused ==> Tame(p.id, funding) && p.id != FEE_COLLECTOR && p.id != OPERATOR
  {
    CreateRuns(w, funding, key, alias, now);
    hide Done, Sound;
  }

  // ---- what they did ----------------------------------------------------------------------------

  /** One transaction of the operator's, under an id nobody had, from now on; what it did, and its record. */
  ghost predicate Did(w: World, now: Timestamp, w1: World, record: Record, body: Body) {
    && Effects.Recorded(w, w1, record) && Effects.Stamped(w.lastConsensus, now, record.at)
    && record.id.payer == 1002 && record.id !in w.byId && !record.id.scheduled && record.id.nonce == 0
    && (record.id.validStart == now || Later(record.id.validStart, now))
    && record.kind == KindOf(body)
    && OPERATOR in Charged(w, now).accounts
    && Effects.BodyDoes(Charged(w, now), w1, record.status, OPERATOR, body, record.at)
  }

  lemma DoneDid(w: World, now: Timestamp, memo: string, body: Body)
    requires Roomy(w) && !body.Ethereum?
    ensures var (w1, record) := Done(w, now, memo, body); Did(w, now, w1, record, body)
  {
    ChargedFacts(w, now);
    var tx := OperatorTransaction(w, now, memo, body);
    var _ := FreeIsFirst(w.byId.Keys, now);
    hide Effects.BodyDoes, ChargeFee, Sound, FreeFrom;
    Effects.AppliedOn(w, tx, now, NoEvm());
    assert Done(w, now, memo, body).1.at == NextConsensus(w, now);
  }

  /** Provisioning, told by its record: an old signer with enough is left alone; an old signer with less is
      sent the difference; otherwise an account with the key, the alias and the funding is opened. */
  lemma ProvisionTells(w: World, onDisk: Option<Id>, funding: nat, key: Key, alias: Address, now: Timestamp)
    returns (record: Record)
    requires Roomy(w)
    ensures var (w1, p) := Provisioned(w, onDisk, funding, key, alias, now);
            var held := if onDisk.Some? then BalanceOf(w.accounts, onDisk.value) else 0;
            if onDisk.Some? && IsLive(w.accounts, onDisk.value) && held >= funding then
              w1 == w && p == Provided(onDisk.value, true, None, false)
            else if onDisk.Some? && IsLive(w.accounts, onDisk.value) then
              && Did(w, now, w1, record, TopUp(onDisk.value, funding - held))
              && p == if record.status == Success then Provided(onDisk.value, true, Some(funding - held), false)
                      else NotProvided(record.status)
            else
              && Did(w, now, w1, record, CreateAccount(key, funding, Some(alias)))
              && p == if record.status == Success then Provided(w.nextId, false, None, onDisk.Some?)
                      else NotProvided(record.status)
  {
    hide Did, Done;
    if onDisk.Some? && IsLive(w.accounts, onDisk.value) {
      var body := TopUp(onDisk.value, if BalanceOf(w.accounts, onDisk.value) < funding
                                      then funding - BalanceOf(w.accounts, onDisk.value) else 0);
      DoneDid(w, now, "hanvil run signer top-up", body);
      record := Done(w, now, "hanvil run signer top-up", body).1;
    } else {
      DoneDid(w, now, "hanvil run signer", CreateAccount(key, funding, Some(alias)));
      record := Done(w, now, "hanvil run signer", CreateAccount(key, funding, Some(alias))).1;
    }
  }

  /** A sweep that is wanted deletes the signer in favour of the operator, and fails with the record's status. */
  lemma SweepTells(w: World, sweepBack: bool, id: Id, now: Timestamp) returns (record: Record)
    requires Roomy(w)
    ensures var (w1, failure) := Swept(w, sweepBack, id, now);
            if !sweepBack then w1 == w && failure.None?
            else
              && Did(w, now, w1, record, Delete(id, OPERATOR))
              && failure == if record.status == Success then None else Some(record.status)
  {
    hide Did, Done;
    DoneDid(w, now, "hanvil run signer sweep", Delete(id, OPERATOR));
    record := Done(w, now, "hanvil run signer sweep", Delete(id, OPERATOR)).1;
  }

  /** What a top-up lists, whenever the amount fits. */
  lemma TopUpLists(account: Id, delta: nat)
    requires delta <= MAX_I64
    ensures TopUp(account, delta) == Transfer([(ById(OPERATOR), 0 - delta), (ById(account), delta)])
  {
    SmallAmount(delta);
    var debit: int := 0 - delta;
    assert WrapInt64(debit) == debit;
  }
}
