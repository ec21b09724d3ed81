/**
 * The transaction service: the two tables as fields and the engine's
 * operations as methods that read and update them step by step. Each method
 * is proved to do exactly what the corresponding Ledger function says.
 */
module Service {
  import opened Wrappers
  import opened Transactions
  import opened Balance
  import opened Ledger
  import LedgerProperties

  class TransactionService {
    var credits: seq<Transaction>
    var debits: seq<Transaction>

    /** The tables as a store value. */
    function Model(): Store
      reads this
    {
      Store(credits, debits)
    }

    ghost predicate Valid()
      reads this
    {
      WellFormed(Model())
    }

    /** A service over the tables the injected database context already holds. */
    constructor (credits0: seq<Transaction>, debits0: seq<Transaction>)
      requires WellFormed(Store(credits0, debits0))
      ensures Valid() && Model() == Store(credits0, debits0)
    {
      credits := credits0;
      debits := debits0;
    }

    method ProcessCredit(request: TransactionRequest, now: Time) returns (r: Result<TransactionResponse, Error>)
      requires Valid()
      modifies this
      ensures Valid()
      ensures Step(Model(), r) == Credit(old(Model()), request, now)
    {
      LedgerProperties.CreditPreservesWellFormed(Model(), request, now);
      var failure := Validate(request, now);
      if failure.Some? {
        return Err(Validation(failure.value));
      }
      var inCredit := IndexOf(credits, request.id);
      var existsInDebit := IndexOf(debits, request.id).Some?;
      if inCredit.Some? {
        var existingCredit := credits[inCredit.value];
        var balance := CalculateClientBalance(credits, debits, request.clientId);
        return Ok(TransactionResponse(existingCredit.insertDateTime, balance));
      }
      if existsInDebit {
        return Err(CrossType(DebitKind));
      }
      var creditTransaction := NewRecord(request, now);
      credits := credits + [creditTransaction];
      var newBalance := CalculateClientBalance(credits, debits, request.clientId);
      return Ok(TransactionResponse(creditTransaction.insertDateTime, newBalance));
    }

    method ProcessDebit(request: TransactionRequest, now: Time) returns (r: Result<TransactionResponse, Error>)
      requires Valid()
      modifies this
      ensures Valid()
      ensures Step(Model(), r) == Debit(old(Model()), request, now)
    {
      LedgerProperties.DebitPreservesWellFormed(Model(), request, now);
      var failure := Validate(request, now);
      if failure.Some? {
        return Err(Validation(failure.value));
      }
      var existsInCredit := IndexOf(credits, request.id).Some?;
      var inDebit := IndexOf(debits, request.id);
      if inDebit.Some? {
        var existingDebit := debits[inDebit.value];
        var balance := CalculateClientBalance(credits, debits, request.clientId);
        return Ok(TransactionResponse(existingDebit.insertDateTime, balance));
      }
      if existsInCredit {
        return Err(CrossType(CreditKind));
      }
      var currentBalance := CalculateClientBalance(credits, debits, request.clientId);
      if currentBalance < request.amount {
        return Err(InsufficientFunds(currentBalance, request.amount));
      }
      var debitTransaction := NewRecord(request, now);
      debits := debits + [debitTransaction];
      var newBalance := CalculateClientBalance(credits, debits, request.clientId);
      return Ok(TransactionResponse(debitTransaction.insertDateTime, newBalance));
    }

    method RevertTransaction(transactionId: Guid, now: Time) returns (r: Result<RevertResponse, Error>)
      requires Valid()
      modifies this
      ensures Valid()
      ensures Step(Model(), r) == Revert(old(Model()), transactionId, now)
    {
      LedgerProperties.RevertPreservesWellFormed(Model(), transactionId, now);
      var inCredit := IndexOf(credits, transactionId);
      if inCredit.Some? {
        var creditTransaction := credits[inCredit.value];
        if creditTransaction.isReverted {
          var balance := CalculateClientBalance(credits, debits, creditTransaction.clientId);
          return Ok(RevertResponse(creditTransaction.revertDateTime.value, balance));
        }
        credits := credits[inCredit.value := Reverted(creditTransaction, now)];
        var newBalance := CalculateClientBalance(credits, debits, creditTransaction.clientId);
        return Ok(RevertResponse(credits[inCredit.value].revertDateTime.value, newBalance));
      }
      var inDebit := IndexOf(debits, transactionId);
      if inDebit.Some? {
        var debitTransaction := debits[inDebit.value];
        if debitTransaction.isReverted {
          var balance := CalculateClientBalance(credits, debits, debitTransaction.clientId);
          return Ok(RevertResponse(debitTransaction.revertDateTime.value, balance));
        }
        debits := debits[inDebit.value := Reverted(debitTransaction, now)];
        var newBalance := CalculateClientBalance(credits, debits, debitTransaction.clientId);
        return Ok(RevertResponse(debits[inDebit.value].revertDateTime.value, newBalance));
      }
      return Err(NotFound);
    }

    /** Reads the tables only; the answer is the balance stamped with the query time. */
    method GetBalance(clientId: Guid, now: Time) returns (r: BalanceResponse)
      ensures r == Ledger.GetBalance(Model(), clientId, now)
      ensures r.clientBalance == Tally(credits, clientId) - Tally(debits, clientId)
    {
      var balance := CalculateClientBalance(credits, debits, clientId);
      return BalanceResponse(now, balance);
    }
  }

  /**
   * A caller's view: replaying a credit and reverting twice give the same
   * answers, and an id taken by a credit cannot be reused for a debit.
   */
  method ReplayScenario(request: TransactionRequest, now: Time)
    requires Validate(request, now).None?
  {
    var service := new TransactionService([], []);
    var first := service.ProcessCredit(request, now);
    LedgerProperties.CreditInsert(Store([], []), request, now);
    var second := service.ProcessCredit(request, now + 1);
    LedgerProperties.CreditIdempotent(Store([], []), request, now, now + 1);
    assert first.Ok? && second == first;
    var debit := service.ProcessDebit(request, now + 2);
    assert debit == Err(CrossType(CreditKind));
  }
}
