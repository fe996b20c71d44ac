/**
 * The calculate_interest task as imperative code: the staging loop over
 * the fetched account objects, and the database it commits to inside one
 * atomic block.
 */
module Tasks {
  import opened Accounts
  import opened Accrual

  /** An account object after the loop body has run on it. */
  function Settled(a: Account, thisMonth: Month, policy: Policy): Account {
    match Evaluate(a, thisMonth, policy)
    case Accrued(interest) => Credited(a, interest)
    case _ => a
  }

  /**
   * The `for account in accounts` loop. Each accruing account object has
   * its balance raised in place and is staged together with one INTEREST
   * transaction; an account whose lookup or calculation raises is left as
   * it was and the loop goes on.
   */
  method StageInterest(accounts: array<Account>, thisMonth: Month, policy: Policy)
    returns (created: seq<Transaction>, updated: seq<Account>)
    modifies accounts
    ensures Batch(created, updated) == Stage(old(accounts[..]), thisMonth, policy)
    ensures forall j :: 0 <= j < accounts.Length ==>
      accounts[j] == Settled(old(accounts[j]), thisMonth, policy)
  {
    ghost var fetched := accounts[..];
    created, updated := [], [];
    var i := 0;
    while i < accounts.Length
      invariant 0 <= i <= accounts.Length
      invariant Batch(created, updated) == Stage(fetched[..i], thisMonth, policy)
      invariant forall j :: 0 <= j < i ==> accounts[j] == Settled(fetched[j], thisMonth, policy)
      invariant forall j :: i <= j < accounts.Length ==> accounts[j] == fetched[j]
    {
      assert fetched[..i + 1] == fetched[..i] + [fetched[i]];
      StageSnoc(fetched[..i], fetched[i], thisMonth, policy);
      var account := accounts[i];
      assert account == fetched[i];
      match policy.months(account) {
        case None =>
          // the lookup raised: the error is caught and logged
        case Some(months) =>
          if thisMonth in months {
            match policy.rate(account.accountType, account.balance) {
              case None =>
                // the calculation raised: the error is caught and logged
              case Some(interest) =>
                accounts[i] := account.(balance := account.balance + interest);
                created := created + [Transaction(account.id, Interest, interest)];
                updated := updated + [accounts[i]];
            }
          }
      }
      assert accounts[i] == Settled(fetched[i], thisMonth, policy);
      assert Batch(created, updated) == Stage(fetched[..i + 1], thisMonth, policy);
      i := i + 1;
    }
    assert fetched[..accounts.Length] == fetched;
  }

  /**
   * Whether each bulk write would fail if it were issued. A write that is
   * not issued cannot fail.
   */
  datatype StorageFaults = StorageFaults(insertFails: bool, updateFails: bool)

  /** Whether a run that staged `b` commits under `faults`. */
  predicate Commits(b: Batch, faults: StorageFaults) {
    !(b.created != [] && faults.insertFails) && !(b.updated != [] && faults.updateFails)
  }

  /** The stored accounts and the transaction ledger. */
  class Database {
    var accounts: seq<Account>
    var ledger: seq<Transaction>

    /** Account identifiers are primary keys. */
    ghost predicate Valid()
      reads this
    {
      DistinctIds(accounts)
    }

    constructor (accounts0: seq<Account>, ledger0: seq<Transaction>)
      requires DistinctIds(accounts0)
      ensures Valid()
      ensures accounts == accounts0 && ledger == ledger0
    {
      accounts, ledger := accounts0, ledger0;
    }

    /** Transaction.objects.bulk_create(txs). */
    method BulkCreate(txs: seq<Transaction>)
      requires Valid()
      modifies this
      ensures Valid()
      ensures ledger == old(ledger) + txs
      ensures accounts == old(accounts)
    {
      ledger := ledger + txs;
    }

    /** UserBankAccount.objects.bulk_update(updated, ['balance']). */
    method BulkUpdateBalances(updated: seq<Account>)
      requires Valid()
      modifies this
      ensures Valid()
      ensures accounts == ApplyBalances(old(accounts), updated)
      ensures ledger == old(ledger)
    {
      var written := ApplyBalances(accounts, updated);
      assert forall j :: 0 <= j < |written| ==> written[j].id == accounts[j].id;
      accounts := written;
    }

    /**
     * calculate_interest run at `now`. Inside one atomic block: fetch the
     * eligible accounts, stage interest for them, then issue the bulk
     * insert and the bulk update, each only when its list is non-empty. A
     * failing write rolls the whole block back. Returns whether the block
     * committed.
     */
    method CalculateInterest(now: Timestamp, policy: Policy, faults: StorageFaults)
      returns (committed: bool)
      requires Valid()
      modifies this
      ensures Valid()
      ensures committed == Commits(Run(old(accounts), now, policy), faults)
      ensures committed ==>
        accounts == ApplyBalances(old(accounts), Run(old(accounts), now, policy).updated) &&
        ledger == old(ledger) + Run(old(accounts), now, policy).created
      ensures !committed ==> accounts == old(accounts) && ledger == old(ledger)
    {
      var thisMonth := now.month;
      // transaction.atomic(): remember the state to roll back to
      var savedAccounts, savedLedger := accounts, ledger;
      var fetched := EligibleAccounts(accounts, now);
      var objects := new Account[|fetched|](k requires 0 <= k < |fetched| => fetched[k]);
      assert objects[..] == fetched;
      var created, updated := StageInterest(objects, thisMonth, policy);
      committed := true;
      if created != [] {
        if faults.insertFails {
          committed := false;
        } else {
          BulkCreate(created);
        }
      }
      if committed && updated != [] {
        if faults.updateFails {
          committed := false;
        } else {
          BulkUpdateBalances(updated);
        }
      }
      if !committed {
        accounts, ledger := savedAccounts, savedLedger;
      }
    }
  }
}
