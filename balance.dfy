/**
 * The client balance: the sum of the amounts of a client's active credits
 * minus the sum of the amounts of the client's active debits.
 */
module Balance {
  import opened Transactions

  /** A record counts towards client c's balance when it belongs to c and is not reverted. */
  predicate IsActiveFor(t: Transaction, c: Guid)
  {
    t.clientId == c && !t.isReverted
  }

  /** The filter `Where(t => t.ClientId == c && !t.IsReverted)`, order kept. */
  function ActiveOf(s: seq<Transaction>, c: Guid): (r: seq<Transaction>)
    ensures |r| <= |s|
    ensures forall t :: t in r <==> t in s && IsActiveFor(t, c)
  {
    if |s| == 0 then []
    else if IsActiveFor(s[0], c) then [s[0]] + ActiveOf(s[1..], c)
    else ActiveOf(s[1..], c)
  }

  /** The aggregate `Sum(t => t.Amount)`. */
  function SumAmounts(s: seq<Transaction>): (r: Money)
    ensures (forall i :: 0 <= i < |s| ==> s[i].amount > 0) ==> r >= 0
    ensures (forall i :: 0 <= i < |s| ==> s[i].amount > 0) && |s| > 0 ==> r > 0
  {
    if |s| == 0 then 0 else s[0].amount + SumAmounts(s[1..])
  }

  /**
   * The balance as the service computes it from its two tables; it equals
   * the credit fold minus the debit fold.
   */
  function CalculateClientBalance(credits: seq<Transaction>, debits: seq<Transaction>, clientId: Guid): (r: Money)
    ensures r == Tally(credits, clientId) - Tally(debits, clientId)
  {
    SumActiveIsTally(credits, clientId);
    SumActiveIsTally(debits, clientId);
    SumAmounts(ActiveOf(credits, clientId)) - SumAmounts(ActiveOf(debits, clientId))
  }

  /** What one record adds to client c's total over its table. */
  function Contribution(t: Transaction, c: Guid): Money
  {
    if IsActiveFor(t, c) then t.amount else 0
  }

  /** Reference definition of a table's total for client c: a fold of the contributions. */
  function Tally(s: seq<Transaction>, c: Guid): Money
  {
    if |s| == 0 then 0 else Contribution(s[0], c) + Tally(s[1..], c)
  }

  /** Filter-then-sum equals the fold of contributions. */
  lemma {:induction false} SumActiveIsTally(s: seq<Transaction>, c: Guid)
    ensures SumAmounts(ActiveOf(s, c)) == Tally(s, c)
  {
    if |s| > 0 {
      SumActiveIsTally(s[1..], c);
      if IsActiveFor(s[0], c) {
        assert ([s[0]] + ActiveOf(s[1..], c))[1..] == ActiveOf(s[1..], c);
      }
    }
  }

  /** Appending a record adds exactly its contribution. */
  lemma {:induction false} TallyAppend(s: seq<Transaction>, t: Transaction, c: Guid)
    ensures Tally(s + [t], c) == Tally(s, c) + Contribution(t, c)
  {
    if |s| == 0 {
      assert Tally([t], c) == Contribution(t, c) + Tally([], c);
    } else {
      assert (s + [t])[1..] == s[1..] + [t];
      TallyAppend(s[1..], t, c);
    }
  }

  /** Replacing one record swaps its contribution for the new one's. */
  lemma {:induction false} TallyUpdate(s: seq<Transaction>, i: nat, t: Transaction, c: Guid)
    requires i < |s|
    ensures Tally(s[i := t], c) == Tally(s, c) - Contribution(s[i], c) + Contribution(t, c)
  {
    if i > 0 {
      assert s[i := t][1..] == s[1..][i - 1 := t];
      TallyUpdate(s[1..], i - 1, t, c);
    }
  }

  /** Appending a record to a table changes the table's total by the record's contribution. */
  lemma ActiveSumAppend(s: seq<Transaction>, t: Transaction, c: Guid)
    ensures SumAmounts(ActiveOf(s + [t], c)) == SumAmounts(ActiveOf(s, c)) + Contribution(t, c)
  {
    SumActiveIsTally(s + [t], c);
    SumActiveIsTally(s, c);
    TallyAppend(s, t, c);
  }

  /** Reverting an active record removes its amount from its own client's total only. */
  lemma ActiveSumRevert(s: seq<Transaction>, i: nat, now: Time, c: Guid)
    requires i < |s| && !s[i].isReverted
    ensures SumAmounts(ActiveOf(s[i := Reverted(s[i], now)], c))
         == SumAmounts(ActiveOf(s, c)) - (if s[i].clientId == c then s[i].amount else 0)
  {
    SumActiveIsTally(s[i := Reverted(s[i], now)], c);
    SumActiveIsTally(s, c);
    TallyUpdate(s, i, Reverted(s[i], now), c);
  }
}
