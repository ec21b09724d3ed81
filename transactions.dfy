/**
 * The records of the ledger, the request and response shapes, request
 * validation and lookup of a record by its id.
 */
module Transactions {
  import opened Wrappers

  /** A GUID, abstracted to a number. */
  type Guid = int

  /** A UTC timestamp, abstracted to a tick count. */
  type Time = int

  /** A decimal(18,2) amount, counted in cents. */
  type Money = int

  /** The two record tables; a record's kind is the table it lives in. */
  datatype Kind = CreditKind | DebitKind

  /** One stored credit or debit (both tables share this shape). */
  datatype Transaction = Transaction(
    id: Guid,
    clientId: Guid,
    dateTime: Time,
    amount: Money,
    insertDateTime: Time,
    isReverted: bool,
    revertDateTime: Option<Time>)

  datatype TransactionRequest = TransactionRequest(id: Guid, clientId: Guid, dateTime: Time, amount: Money)

  datatype TransactionResponse = TransactionResponse(insertDateTime: Time, clientBalance: Money)

  datatype RevertResponse = RevertResponse(revertDateTime: Time, clientBalance: Money)

  datatype BalanceResponse = BalanceResponse(balanceDateTime: Time, clientBalance: Money)

  /** Why a request was refused by validation. */
  datatype ValidationFailure = NonPositiveAmount | FutureDateTime

  /** The engine's error outcomes. */
  datatype Error =
    | Validation(failure: ValidationFailure)
      // the id is already owned by a record of the other kind
    | CrossType(owner: Kind)
    | InsufficientFunds(currentBalance: Money, required: Money)
    | NotFound

  /**
   * Request validation: the amount must be positive (checked first) and the
   * business time must not lie after `now`.
   */
  function Validate(request: TransactionRequest, now: Time): (r: Option<ValidationFailure>)
    ensures r.None? <==> request.amount > 0 && request.dateTime <= now
    ensures request.amount <= 0 ==> r == Some(NonPositiveAmount)
    ensures r == Some(FutureDateTime) <==> request.amount > 0 && request.dateTime > now
  {
    if request.amount <= 0 then Some(NonPositiveAmount)
    else if request.dateTime > now then Some(FutureDateTime)
    else None
  }

  /** The position of the first record with the given id, if any. */
  function IndexOf(s: seq<Transaction>, id: Guid): (r: Option<nat>)
    ensures r.Some? ==> r.value < |s| && s[r.value].id == id
    ensures r.Some? ==> forall k :: 0 <= k < r.value ==> s[k].id != id
    ensures r.None? <==> forall k :: 0 <= k < |s| ==> s[k].id != id
  {
    if |s| == 0 then None
    else if s[0].id == id then Some(0)
    else
      match IndexOf(s[1..], id)
      case None => None
      case Some(k) => Some(k + 1)
  }

  /** The record a successful request creates. */
  function NewRecord(request: TransactionRequest, now: Time): (r: Transaction)
    ensures Validate(request, now).None? ==> ValidRecord(r) && !r.isReverted
  {
    Transaction(request.id, request.clientId, request.dateTime, request.amount, now, false, None)
  }

  /** The record after its one-way revert at time `now`. */
  function Reverted(t: Transaction, now: Time): (r: Transaction)
    ensures r.isReverted && r.revertDateTime == Some(now)
    ensures !t.isReverted ==> Evolves(t, r)
    ensures ValidRecord(t) ==> ValidRecord(r)
  {
    t.(isReverted := true, revertDateTime := Some(now))
  }

  /**
   * The per-record invariants: a positive amount, a business time no later
   * than the insert time, and a revert time present exactly when reverted.
   */
  predicate ValidRecord(t: Transaction)
  {
    && t.amount > 0
    && t.dateTime <= t.insertDateTime
    && (t.isReverted <==> t.revertDateTime.Some?)
  }

  predicate ValidRecords(s: seq<Transaction>)
  {
    forall i :: 0 <= i < |s| ==> ValidRecord(s[i])
  }

  predicate DistinctIds(s: seq<Transaction>)
  {
    forall i, j :: 0 <= i < j < |s| ==> s[i].id != s[j].id
  }

  predicate DisjointIds(a: seq<Transaction>, b: seq<Transaction>)
  {
    forall i, j :: 0 <= i < |a| && 0 <= j < |b| ==> a[i].id != b[j].id
  }

  /** A record `t` may become `t2` only by keeping its identity and, if not yet reverted, by being reverted. */
  predicate Evolves(t: Transaction, t2: Transaction)
  {
    && t2.id == t.id
    && t2.clientId == t.clientId
    && t2.dateTime == t.dateTime
    && t2.amount == t.amount
    && t2.insertDateTime == t.insertDateTime
    && (t.isReverted ==> t2 == t)
  }

  /** `s2` keeps every record of `s` in place (possibly reverted) and may append new ones. */
  predicate Extends(s: seq<Transaction>, s2: seq<Transaction>)
  {
    && |s| <= |s2|
    && forall i :: 0 <= i < |s| ==> Evolves(s[i], s2[i])
  }

  /** A fresh id is found at the end of a table it was appended to. */
  lemma {:induction false} IndexOfAppend(s: seq<Transaction>, t: Transaction)
    requires IndexOf(s, t.id).None?
    ensures IndexOf(s + [t], t.id) == Some(|s|)
  {
    if |s| > 0 {
      assert (s + [t])[1..] == s[1..] + [t];
      assert IndexOf(s[1..], t.id).None?;
      IndexOfAppend(s[1..], t);
    }
  }

  /** With distinct ids, the record at position i is the one found for its id. */
  lemma IndexOfDistinct(s: seq<Transaction>, i: nat)
    requires DistinctIds(s) && i < |s|
    ensures IndexOf(s, s[i].id) == Some(i)
  {
  }

  /** Replacing a record by one with the same id leaves every lookup unchanged. */
  lemma {:induction false} IndexOfUpdateSameId(s: seq<Transaction>, i: nat, t: Transaction, id: Guid)
    requires i < |s| && t.id == s[i].id
    ensures IndexOf(s[i := t], id) == IndexOf(s, id)
  {
    if i > 0 {
      assert s[i := t][1..] == s[1..][i - 1 := t];
      IndexOfUpdateSameId(s[1..], i - 1, t, id);
    }
  }
}
