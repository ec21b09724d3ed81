/**
 * The ledger engine as a state machine: each operation takes the store (the
 * credit and debit tables) and returns the new store with the response or the
 * error the service produces. Each operation is one atomic step.
 */
module Ledger {
  import opened Wrappers
  import opened Transactions
  import opened Balance

  datatype Store = Store(credits: seq<Transaction>, debits: seq<Transaction>)

  /** The store after an operation, and what the operation answered. */
  datatype Step<T> = Step(store: Store, result: Result<T, Error>)

  function ClientBalance(st: Store, clientId: Guid): Money
  {
    CalculateClientBalance(st.credits, st.debits, clientId)
  }

  /**
   * The store invariant: every record is well formed and ids are unique
   * across the two tables combined.
   */
  predicate WellFormed(st: Store)
  {
    && ValidRecords(st.credits)
    && ValidRecords(st.debits)
    && DistinctIds(st.credits)
    && DistinctIds(st.debits)
    && DisjointIds(st.credits, st.debits)
  }

  /**
   * ProcessCredit: validate; replay a known credit id; refuse an id owned by
   * a debit; otherwise insert a new active credit stamped `now`.
   */
  function Credit(st: Store, request: TransactionRequest, now: Time): (s: Step<TransactionResponse>)
    ensures s.store.debits == st.debits
    ensures s.store == st || s.store.credits == st.credits + [NewRecord(request, now)]
    ensures s.result.Err? ==> s.store == st
  {
    match Validate(request, now)
    case Some(failure) => Step(st, Err(Validation(failure)))
    case None =>
      match IndexOf(st.credits, request.id)
      case Some(i) =>
        Step(st, Ok(TransactionResponse(st.credits[i].insertDateTime, ClientBalance(st, request.clientId))))
      case None =>
        if IndexOf(st.debits, request.id).Some? then Step(st, Err(CrossType(DebitKind)))
        else
          var st2 := st.(credits := st.credits + [NewRecord(request, now)]);
          Step(st2, Ok(TransactionResponse(now, ClientBalance(st2, request.clientId))))
  }

  /**
   * ProcessDebit: the mirror of Credit, and a new debit is refused when the
   * client's current balance is below the amount.
   */
  function Debit(st: Store, request: TransactionRequest, now: Time): (s: Step<TransactionResponse>)
    ensures s.store.credits == st.credits
    ensures s.store == st || s.store.debits == st.debits + [NewRecord(request, now)]
    ensures s.result.Err? ==> s.store == st
  {
    match Validate(request, now)
    case Some(failure) => Step(st, Err(Validation(failure)))
    case None =>
      match IndexOf(st.debits, request.id)
      case Some(i) =>
        Step(st, Ok(TransactionResponse(st.debits[i].insertDateTime, ClientBalance(st, request.clientId))))
      case None =>
        if IndexOf(st.credits, request.id).Some? then Step(st, Err(CrossType(CreditKind)))
        else
          var currentBalance := ClientBalance(st, request.clientId);
          if currentBalance < request.amount then
            Step(st, Err(InsufficientFunds(currentBalance, request.amount)))
          else
            var st2 := st.(debits := st.debits + [NewRecord(request, now)]);
            Step(st2, Ok(TransactionResponse(now, ClientBalance(st2, request.clientId))))
  }

  /**
   * RevertTransaction: look the id up among credits, then among debits; a
   * reverted record is replayed with its stored revert time, an active one is
   * reverted at `now`; an id in neither table is not found.
   */
  function Revert(st: Store, id: Guid, now: Time): (s: Step<RevertResponse>)
    requires WellFormed(st)
    ensures s.result.Err? ==> s.store == st && s.result.error == NotFound
    ensures |s.store.credits| == |st.credits| && Extends(st.credits, s.store.credits)
    ensures |s.store.debits| == |st.debits| && Extends(st.debits, s.store.debits)
  {
    match IndexOf(st.credits, id)
    case Some(i) =>
      var t := st.credits[i];
      if t.isReverted then
        Step(st, Ok(RevertResponse(t.revertDateTime.value, ClientBalance(st, t.clientId))))
      else
        var st2 := st.(credits := st.credits[i := Reverted(t, now)]);
        Step(st2, Ok(RevertResponse(now, ClientBalance(st2, t.clientId))))
    case None =>
      match IndexOf(st.debits, id)
      case Some(i) =>
        var t := st.debits[i];
        if t.isReverted then
          Step(st, Ok(RevertResponse(t.revertDateTime.value, ClientBalance(st, t.clientId))))
        else
          var st2 := st.(debits := st.debits[i := Reverted(t, now)]);
          Step(st2, Ok(RevertResponse(now, ClientBalance(st2, t.clientId))))
      case None => Step(st, Err(NotFound))
  }

  /** GetBalance: the client's balance, stamped with the query time. */
  function GetBalance(st: Store, clientId: Guid, now: Time): (r: BalanceResponse)
    ensures r.balanceDateTime == now
    ensures r.clientBalance == Tally(st.credits, clientId) - Tally(st.debits, clientId)
  {
    BalanceResponse(now, ClientBalance(st, clientId))
  }
}
