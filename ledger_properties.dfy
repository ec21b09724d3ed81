/**
 * What the ledger engine promises: validation before any lookup, idempotent
 * replays, cross-type exclusivity, the insufficient-funds rule, the one-way
 * revert, how each operation moves the balance, and that the store invariant
 * is kept by every operation.
 */
module LedgerProperties {
  import opened Wrappers
  import opened Transactions
  import opened Balance
  import opened Ledger

  // ---------------------------------------------------------------- validation

  /** An invalid request is refused with its validation failure and changes nothing, whatever the store holds. */
  lemma InvalidRequestRejected(st: Store, request: TransactionRequest, now: Time)
    requires request.amount <= 0 || request.dateTime > now
    ensures Credit(st, request, now) == Step(st, Err(Validation(Validate(request, now).value)))
    ensures Debit(st, request, now) == Step(st, Err(Validation(Validate(request, now).value)))
    ensures request.amount <= 0 ==> Credit(st, request, now).result == Err(Validation(NonPositiveAmount))
  {
  }

  // ---------------------------------------------------------------- replays

  /** A credit whose id is already a credit inserts nothing and answers with the stored insert time. */
  lemma CreditReplay(st: Store, request: TransactionRequest, now: Time, i: nat)
    requires WellFormed(st)
    requires Validate(request, now).None?
    requires i < |st.credits| && st.credits[i].id == request.id
    ensures Credit(st, request, now)
         == Step(st, Ok(TransactionResponse(st.credits[i].insertDateTime, ClientBalance(st, request.clientId))))
  {
  }

  /** A debit whose id is already a debit inserts nothing and answers with the stored insert time. */
  lemma DebitReplay(st: Store, request: TransactionRequest, now: Time, i: nat)
    requires WellFormed(st)
    requires Validate(request, now).None?
    requires i < |st.debits| && st.debits[i].id == request.id
    ensures Debit(st, request, now)
         == Step(st, Ok(TransactionResponse(st.debits[i].insertDateTime, ClientBalance(st, request.clientId))))
  {
  }

  /**
   * Submitting the same credit twice (the clock not going backwards) makes
   * the second call a pure replay: no change, the same insert time and balance.
   */
  lemma CreditIdempotent(st: Store, request: TransactionRequest, now1: Time, now2: Time)
    requires now1 <= now2
    requires Credit(st, request, now1).result.Ok?
    ensures Credit(Credit(st, request, now1).store, request, now2) == Credit(st, request, now1)
  {
    if IndexOf(st.credits, request.id).None? {
      IndexOfAppend(st.credits, NewRecord(request, now1));
    }
  }

  /** The debit side of CreditIdempotent. */
  lemma DebitIdempotent(st: Store, request: TransactionRequest, now1: Time, now2: Time)
    requires now1 <= now2
    requires Debit(st, request, now1).result.Ok?
    ensures Debit(Debit(st, request, now1).store, request, now2) == Debit(st, request, now1)
  {
    if IndexOf(st.debits, request.id).None? {
      IndexOfAppend(st.debits, NewRecord(request, now1));
    }
  }

  // ---------------------------------------------------------------- cross-type exclusivity

  /** An id owned by a debit can never become a credit, and the other way round; nothing changes. */
  lemma CrossTypeExclusive(st: Store, request: TransactionRequest, now: Time)
    requires WellFormed(st)
    requires Validate(request, now).None?
    ensures (exists j :: 0 <= j < |st.debits| && st.debits[j].id == request.id)
            ==> Credit(st, request, now) == Step(st, Err(CrossType(DebitKind)))
    ensures (exists j :: 0 <= j < |st.credits| && st.credits[j].id == request.id)
            ==> Debit(st, request, now) == Step(st, Err(CrossType(CreditKind)))
  {
  }

  // ---------------------------------------------------------------- inserts

  /**
   * A new credit appends exactly one active record stamped `now`; the answer
   * is the client's previous balance plus the amount, and no other client's
   * balance moves.
   */
  lemma CreditInsert(st: Store, request: TransactionRequest, now: Time)
    requires Validate(request, now).None?
    requires IndexOf(st.credits, request.id).None? && IndexOf(st.debits, request.id).None?
    ensures Credit(st, request, now).store == Store(st.credits + [NewRecord(request, now)], st.debits)
    ensures Credit(st, request, now).result
         == Ok(TransactionResponse(now, ClientBalance(st, request.clientId) + request.amount))
    ensures forall c :: c != request.clientId
              ==> ClientBalance(Credit(st, request, now).store, c) == ClientBalance(st, c)
  {
    var t := NewRecord(request, now);
    ActiveSumAppend(st.credits, t, request.clientId);
    forall c | c != request.clientId
      ensures ClientBalance(Credit(st, request, now).store, c) == ClientBalance(st, c)
    {
      ActiveSumAppend(st.credits, t, c);
    }
  }

  /**
   * A new debit with enough funds (equality allowed) appends exactly one
   * active record; the answer is the previous balance minus the amount,
   * never negative, and no other client's balance moves.
   */
  lemma DebitInsert(st: Store, request: TransactionRequest, now: Time)
    requires Validate(request, now).None?
    requires IndexOf(st.credits, request.id).None? && IndexOf(st.debits, request.id).None?
    requires ClientBalance(st, request.clientId) >= request.amount
    ensures Debit(st, request, now).store == Store(st.credits, st.debits + [NewRecord(request, now)])
    ensures Debit(st, request, now).result
         == Ok(TransactionResponse(now, ClientBalance(st, request.clientId) - request.amount))
    ensures Debit(st, request, now).result.value.clientBalance >= 0
    ensures forall c :: c != request.clientId
              ==> ClientBalance(Debit(st, request, now).store, c) == ClientBalance(st, c)
  {
    var t := NewRecord(request, now);
    ActiveSumAppend(st.debits, t, request.clientId);
    forall c | c != request.clientId
      ensures ClientBalance(Debit(st, request, now).store, c) == ClientBalance(st, c)
    {
      ActiveSumAppend(st.debits, t, c);
    }
  }

  /** A new debit above the current balance is refused with that balance and changes nothing. */
  lemma DebitInsufficientFunds(st: Store, request: TransactionRequest, now: Time)
    requires Validate(request, now).None?
    requires forall i :: 0 <= i < |st.credits| ==> st.credits[i].id != request.id
    requires forall i :: 0 <= i < |st.debits| ==> st.debits[i].id != request.id
    ensures Debit(st, request, now).result.Err? <==> ClientBalance(st, request.clientId) < request.amount
    ensures ClientBalance(st, request.clientId) < request.amount ==>
              Debit(st, request, now)
              == Step(st, Err(InsufficientFunds(ClientBalance(st, request.clientId), request.amount)))
  {
  }

  /** Every successful debit leaves its client with a balance of at least zero. */
  lemma DebitNeverOverdraws(st: Store, request: TransactionRequest, now: Time)
    requires Debit(st, request, now).result.Ok?
    requires IndexOf(st.debits, request.id).None?
    ensures Debit(st, request, now).result.value.clientBalance >= 0
  {
    DebitInsert(st, request, now);
  }

  // ---------------------------------------------------------------- reverts

  /**
   * Reverting an active credit flips that record alone to reverted at `now`;
   * its client's balance falls by the amount and may become negative.
   */
  lemma RevertActiveCredit(st: Store, i: nat, now: Time)
    requires WellFormed(st)
    requires i < |st.credits| && !st.credits[i].isReverted
    ensures Revert(st, st.credits[i].id, now).store
         == Store(st.credits[i := Reverted(st.credits[i], now)], st.debits)
    ensures Revert(st, st.credits[i].id, now).result
         == Ok(RevertResponse(now, ClientBalance(st, st.credits[i].clientId) - st.credits[i].amount))
    ensures forall c :: c != st.credits[i].clientId
              ==> ClientBalance(Revert(st, st.credits[i].id, now).store, c) == ClientBalance(st, c)
  {
    IndexOfDistinct(st.credits, i);
    ActiveSumRevert(st.credits, i, now, st.credits[i].clientId);
    forall c | c != st.credits[i].clientId
      ensures ClientBalance(Revert(st, st.credits[i].id, now).store, c) == ClientBalance(st, c)
    {
      ActiveSumRevert(st.credits, i, now, c);
    }
  }

  /** Reverting an active debit flips that record alone; its client's balance rises by the amount. */
  lemma RevertActiveDebit(st: Store, i: nat, now: Time)
    requires WellFormed(st)
    requires i < |st.debits| && !st.debits[i].isReverted
    ensures Revert(st, st.debits[i].id, now).store
         == Store(st.credits, st.debits[i := Reverted(st.debits[i], now)])
    ensures Revert(st, st.debits[i].id, now).result
         == Ok(RevertResponse(now, ClientBalance(st, st.debits[i].clientId) + st.debits[i].amount))
    ensures forall c :: c != st.debits[i].clientId
              ==> ClientBalance(Revert(st, st.debits[i].id, now).store, c) == ClientBalance(st, c)
  {
    assert IndexOf(st.credits, st.debits[i].id).None?;
    IndexOfDistinct(st.debits, i);
    ActiveSumRevert(st.debits, i, now, st.debits[i].clientId);
    forall c | c != st.debits[i].clientId
      ensures ClientBalance(Revert(st, st.debits[i].id, now).store, c) == ClientBalance(st, c)
    {
      ActiveSumRevert(st.debits, i, now, c);
    }
  }

  /** Reverting an already reverted record changes nothing and answers with its stored revert time. */
  lemma RevertReplay(st: Store, id: Guid, now: Time)
    requires WellFormed(st)
    ensures forall i :: 0 <= i < |st.credits| && st.credits[i].id == id && st.credits[i].isReverted ==>
              Revert(st, id, now)
              == Step(st, Ok(RevertResponse(st.credits[i].revertDateTime.value, ClientBalance(st, st.credits[i].clientId))))
    ensures forall i :: 0 <= i < |st.debits| && st.debits[i].id == id && st.debits[i].isReverted ==>
              Revert(st, id, now)
              == Step(st, Ok(RevertResponse(st.debits[i].revertDateTime.value, ClientBalance(st, st.debits[i].clientId))))
  {
  }

  /** Revert fails with NotFound exactly when the id is in neither table, and then changes nothing. */
  lemma RevertNotFound(st: Store, id: Guid, now: Time)
    requires WellFormed(st)
    ensures Revert(st, id, now).result == Err(NotFound)
        <==> ((forall i :: 0 <= i < |st.credits| ==> st.credits[i].id != id)
           && (forall i :: 0 <= i < |st.debits| ==> st.debits[i].id != id))
    ensures Revert(st, id, now).result.Err? ==> Revert(st, id, now).store == st
  {
  }

  /**
   * Reverting twice (the clock not going backwards) makes the second call a
   * pure replay: no change, the same revert time and balance.
   */
  lemma RevertIdempotent(st: Store, id: Guid, now1: Time, now2: Time)
    requires WellFormed(st)
    ensures WellFormed(Revert(st, id, now1).store)
    ensures Revert(Revert(st, id, now1).store, id, now2) == Revert(st, id, now1)
  {
    RevertPreservesWellFormed(st, id, now1);
    var s1 := Revert(st, id, now1);
    match IndexOf(st.credits, id)
    case Some(i) =>
      if !st.credits[i].isReverted {
        IndexOfUpdateSameId(st.credits, i, Reverted(st.credits[i], now1), id);
      }
    case None =>
      match IndexOf(st.debits, id)
      case Some(i) =>
        if !st.debits[i].isReverted {
          IndexOfUpdateSameId(st.debits, i, Reverted(st.debits[i], now1), id);
        }
      case None =>
  }

  // ---------------------------------------------------------------- the store invariant

  /** A credit keeps every record well formed and ids unique across both tables. */
  lemma CreditPreservesWellFormed(st: Store, request: TransactionRequest, now: Time)
    requires WellFormed(st)
    ensures WellFormed(Credit(st, request, now).store)
  {
  }

  /** A debit keeps every record well formed and ids unique across both tables. */
  lemma DebitPreservesWellFormed(st: Store, request: TransactionRequest, now: Time)
    requires WellFormed(st)
    ensures WellFormed(Debit(st, request, now).store)
  {
  }

  /** A revert keeps every record well formed and ids unique across both tables. */
  lemma RevertPreservesWellFormed(st: Store, id: Guid, now: Time)
    requires WellFormed(st)
    ensures WellFormed(Revert(st, id, now).store)
  {
  }

  // ---------------------------------------------------------------- a history

  /**
   * Credit 100, debit 40, revert the credit: the balance is -40, since a
   * revert does not re-check the debits that relied on it, and a further
   * debit of 1 is refused for insufficient funds.
   */
  lemma RevertCanLeaveBalanceNegative()
    ensures var s1 := Credit(Store([], []), TransactionRequest(1, 7, 0, 100), 10);
            var s2 := Debit(s1.store, TransactionRequest(2, 7, 0, 40), 11);
            WellFormed(s2.store) &&
            var s3 := Revert(s2.store, 1, 12);
            var s4 := Debit(s3.store, TransactionRequest(3, 7, 0, 1), 13);
            && s1.result == Ok(TransactionResponse(10, 100))
            && s2.result == Ok(TransactionResponse(11, 60))
            && s3.result == Ok(RevertResponse(12, -40))
            && s4 == Step(s3.store, Err(InsufficientFunds(-40, 1)))
  {
  }
}
