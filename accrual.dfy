/**
 * The interest-accrual batch as specification functions: the eligibility
 * filter applied when the accounts are fetched, the per-account decision,
 * the two staged lists built in lockstep, and the balance-only bulk update.
 * The imperative batch in module Tasks is proved against these.
 */
module Accrual {
  import opened Accounts

  /** Fetch filter: positive balance, interest started, initial deposit made. */
  predicate Eligible(a: Account, now: Timestamp) {
    a.balance > 0 &&
    a.interestStartDate.Some? && AtOrBefore(a.interestStartDate.value, now) &&
    a.initialDepositDate.Some?
  }

  /** The one-element result of filtering `a` alone. */
  function Kept(a: Account, now: Timestamp): seq<Account> {
    if Eligible(a, now) then [a] else []
  }

  /** The accounts the filtered query yields, in store order. */
  function EligibleAccounts(store: seq<Account>, now: Timestamp): (r: seq<Account>)
    ensures |r| <= |store|
    ensures forall a :: a in r <==> a in store && Eligible(a, now)
  {
    if store == [] then []
    else
      var prefix, last := store[..|store| - 1], store[|store| - 1];
      assert store == prefix + [last];
      EligibleAccounts(prefix, now) + Kept(last, now)
  }

  /** What happens to one account in one run. */
  datatype Outcome =
    | Ineligible          // filtered out by the query
    | OffMonth            // the current month is not an interest month
    | Failed              // an exception was raised and caught
    | Accrued(interest: int)

  /** The body of the per-account try block, for an account the query yielded. */
  function Evaluate(a: Account, thisMonth: Month, policy: Policy): Outcome {
    match policy.months(a)
    case None => Failed
    case Some(months) =>
      if thisMonth !in months then OffMonth
      else
        match policy.rate(a.accountType, a.balance)
        case None => Failed
        case Some(interest) => Accrued(interest)
  }

  /** The outcome of a run at `now` for an account of the store. */
  function Effect(a: Account, now: Timestamp, policy: Policy): Outcome {
    if Eligible(a, now) then Evaluate(a, now.month, policy) else Ineligible
  }

  /** The INTEREST transaction staged for `a`. */
  function InterestTransaction(a: Account, interest: int): Transaction {
    Transaction(a.id, Interest, interest)
  }

  /** The in-memory account after `balance += interest`. */
  function Credited(a: Account, interest: int): Account {
    a.(balance := a.balance + interest)
  }

  /** The two staged lists, created_transactions and updated_accounts. */
  datatype Batch = Batch(created: seq<Transaction>, updated: seq<Account>)

  function Concat(b1: Batch, b2: Batch): Batch {
    Batch(b1.created + b2.created, b1.updated + b2.updated)
  }

  /** The staged lists after the loop body has run on `a`. */
  function Step(b: Batch, a: Account, thisMonth: Month, policy: Policy): Batch {
    match Evaluate(a, thisMonth, policy)
    case Accrued(interest) =>
      Batch(b.created + [InterestTransaction(a, interest)], b.updated + [Credited(a, interest)])
    case _ => b
  }

  /**
   * The staged lists after the loop has run over `accounts`: one
   * transaction and one account per accrued account, appended in
   * iteration order.
   */
  function Stage(accounts: seq<Account>, thisMonth: Month, policy: Policy): (r: Batch)
    ensures |r.created| == |r.updated| <= |accounts|
    ensures forall k :: 0 <= k < |r.created| ==>
      r.created[k].kind == Interest &&
      r.created[k].account == r.updated[k].id &&
      r.updated[k].id in Ids(accounts)
  {
    if accounts == [] then Batch([], [])
    else
      var prefix, last := accounts[..|accounts| - 1], accounts[|accounts| - 1];
      assert accounts == prefix + [last];
      assert Ids(prefix) <= Ids(accounts);
      Step(Stage(prefix, thisMonth, policy), last, thisMonth, policy)
  }

  /** One run over the whole store at `now`: filter, then stage. */
  function Run(store: seq<Account>, now: Timestamp, policy: Policy): Batch {
    Stage(EligibleAccounts(store, now), now.month, policy)
  }

  /** The transactions of `txs` that belong to account `id`, in order. */
  function TxFor(txs: seq<Transaction>, id: AccountId): seq<Transaction> {
    if txs == [] then []
    else
      TxFor(txs[..|txs| - 1], id) +
      (if txs[|txs| - 1].account == id then [txs[|txs| - 1]] else [])
  }

  /** The entries of `updated` for account `id`, in order. */
  function UpdatesFor(updated: seq<Account>, id: AccountId): seq<Account> {
    if updated == [] then []
    else
      UpdatesFor(updated[..|updated| - 1], id) +
      (if updated[|updated| - 1].id == id then [updated[|updated| - 1]] else [])
  }

  /** The balance a bulk update writes for `a`: the first matching entry, if any. */
  function NewBalance(updated: seq<Account>, a: Account): int {
    var entries := UpdatesFor(updated, a.id);
    if entries == [] then a.balance else entries[0].balance
  }

  /** The stored accounts after bulk_update(updated, ['balance']). */
  function ApplyBalances(store: seq<Account>, updated: seq<Account>): (r: seq<Account>)
    ensures |r| == |store|
    ensures forall j :: 0 <= j < |store| ==> r[j] == store[j].(balance := r[j].balance)
    ensures forall j :: 0 <= j < |store| && UpdatesFor(updated, store[j].id) == [] ==> r[j] == store[j]
    ensures forall j :: 0 <= j < |store| && UpdatesFor(updated, store[j].id) != [] ==>
      r[j].balance == UpdatesFor(updated, store[j].id)[0].balance
  {
    seq(|store|, j requires 0 <= j < |store| => store[j].(balance := NewBalance(updated, store[j])))
  }

  // ---------------------------------------------------------------------
  // Small facts about the helpers

  lemma TxForAbsent(txs: seq<Transaction>, id: AccountId)
    requires forall k :: 0 <= k < |txs| ==> txs[k].account != id
    ensures TxFor(txs, id) == []
  {
    if txs != [] {
      TxForAbsent(txs[..|txs| - 1], id);
    }
  }

  lemma UpdatesForAbsent(updated: seq<Account>, id: AccountId)
    requires forall k :: 0 <= k < |updated| ==> updated[k].id != id
    ensures UpdatesFor(updated, id) == []
  {
    if updated != [] {
      UpdatesForAbsent(updated[..|updated| - 1], id);
    }
  }

  lemma TxForSnoc(txs: seq<Transaction>, t: Transaction, id: AccountId)
    ensures TxFor(txs + [t], id) == TxFor(txs, id) + (if t.account == id then [t] else [])
  {
    assert (txs + [t])[..|txs + [t]| - 1] == txs;
  }

  lemma UpdatesForSnoc(updated: seq<Account>, u: Account, id: AccountId)
    ensures UpdatesFor(updated + [u], id) == UpdatesFor(updated, id) + (if u.id == id then [u] else [])
  {
    assert (updated + [u])[..|updated + [u]| - 1] == updated;
  }

  /** The fetched accounts are rows of the store, so their keys are distinct. */
  lemma {:induction false} EligibleAccountsDistinct(store: seq<Account>, now: Timestamp)
    requires DistinctIds(store)
    ensures DistinctIds(EligibleAccounts(store, now))
  {
    if store != [] {
      var s, x := store[..|store| - 1], store[|store| - 1];
      assert store == s + [x];
      DistinctIdsSnoc(s, x);
      EligibleAccountsDistinct(s, now);
      var rest := EligibleAccounts(s, now);
      if Eligible(x, now) {
        DistinctIdsSnoc(rest, x);
        assert Ids(rest) <= Ids(s);
      }
    }
  }

  /** One more stored account extends the run's batch only if that account accrues. */
  lemma RunSnoc(s: seq<Account>, x: Account, now: Timestamp, policy: Policy)
    ensures Run(s + [x], now, policy) ==
      match Effect(x, now, policy)
      case Accrued(i) => Concat(Run(s, now, policy), Batch([InterestTransaction(x, i)], [Credited(x, i)]))
      case _ => Run(s, now, policy)
  {
    var t := s + [x];
    assert t[..|t| - 1] == s && t[|t| - 1] == x;
    var e := EligibleAccounts(s, now);
    assert EligibleAccounts(t, now) == e + Kept(x, now);
    if Eligible(x, now) {
      var ex := e + [x];
      assert ex[..|ex| - 1] == e && ex[|ex| - 1] == x;
      assert Stage(ex, now.month, policy) == Step(Stage(e, now.month, policy), x, now.month, policy);
    } else {
      assert e + [] == e;
    }
  }

  /** Every staged entry of a run belongs to an account of the store. */
  lemma RunIdsFromStore(store: seq<Account>, now: Timestamp, policy: Policy)
    ensures forall k :: 0 <= k < |Run(store, now, policy).updated| ==>
      Run(store, now, policy).updated[k].id in Ids(store)
  {
    var e := EligibleAccounts(store, now);
    assert Ids(e) <= Ids(store);
  }

  // ---------------------------------------------------------------------
  // The staged lists

  /** The positions, in `accounts`, of the accounts that accrue. */
  ghost function Origins(accounts: seq<Account>, thisMonth: Month, policy: Policy): seq<nat> {
    if accounts == [] then []
    else
      Origins(accounts[..|accounts| - 1], thisMonth, policy) +
      (if Evaluate(accounts[|accounts| - 1], thisMonth, policy).Accrued? then [|accounts| - 1] else [])
  }

  /**
   * `o` lists, in increasing order, the positions in `accounts` of the
   * accounts that accrue, and the k-th entries of both staged lists come
   * from the account at position o[k]: the transaction is an INTEREST
   * transaction for it and the account entry is its balance plus the
   * transaction's amount, which is what the account accrues.
   */
  ghost predicate Lockstep(accounts: seq<Account>, b: Batch, o: seq<nat>, thisMonth: Month, policy: Policy) {
    |o| == |b.created| == |b.updated| &&
    (forall k :: 0 <= k < |o| ==>
      o[k] < |accounts| &&
      Evaluate(accounts[o[k]], thisMonth, policy) == Accrued(b.created[k].amount) &&
      b.created[k] == InterestTransaction(accounts[o[k]], b.created[k].amount) &&
      b.updated[k] == Credited(accounts[o[k]], b.created[k].amount)) &&
    (forall k, l :: 0 <= k < l < |o| ==> o[k] < o[l]) &&
    (forall j :: 0 <= j < |accounts| && Evaluate(accounts[j], thisMonth, policy).Accrued? ==> j in o)
  }

  /** The two staged lists are built in lockstep, in iteration order. */
  lemma {:induction false} StageLockstep(accounts: seq<Account>, thisMonth: Month, policy: Policy)
    ensures Lockstep(accounts, Stage(accounts, thisMonth, policy), Origins(accounts, thisMonth, policy), thisMonth, policy)
  {
    if accounts != [] {
      var n := |accounts| - 1;
      var prefix, a := accounts[..n], accounts[n];
      assert accounts == prefix + [a];
      StageLockstep(prefix, thisMonth, policy);
      StageSnoc(prefix, a, thisMonth, policy);
      LockstepSnoc(prefix, a, Stage(prefix, thisMonth, policy), Origins(prefix, thisMonth, policy), thisMonth, policy);
    }
  }

  lemma StageSnoc(xs: seq<Account>, a: Account, thisMonth: Month, policy: Policy)
    ensures Stage(xs + [a], thisMonth, policy) == Step(Stage(xs, thisMonth, policy), a, thisMonth, policy)
    ensures Origins(xs + [a], thisMonth, policy) ==
      Origins(xs, thisMonth, policy) + (if Evaluate(a, thisMonth, policy).Accrued? then [|xs|] else [])
  {
    assert (xs + [a])[..|xs|] == xs;
  }

  lemma LockstepSnoc(accounts: seq<Account>, a: Account, b: Batch, o: seq<nat>, thisMonth: Month, policy: Policy)
    requires Lockstep(accounts, b, o, thisMonth, policy)
    ensures Lockstep(accounts + [a], Step(b, a, thisMonth, policy),
      o + (if Evaluate(a, thisMonth, policy).Accrued? then [|accounts|] else []), thisMonth, policy)
  {
    var t := accounts + [a];
    assert forall j :: 0 <= j < |accounts| ==> t[j] == accounts[j];
  }

  /** Staging over a concatenation concatenates the staged lists. */
  lemma {:induction false} StageAppend(xs: seq<Account>, ys: seq<Account>, thisMonth: Month, policy: Policy)
    ensures Stage(xs + ys, thisMonth, policy) ==
      Concat(Stage(xs, thisMonth, policy), Stage(ys, thisMonth, policy))
  {
    if ys == [] {
      assert xs + ys == xs;
    } else {
      var ys', y := ys[..|ys| - 1], ys[|ys| - 1];
      assert ys == ys' + [y];
      AppendAssoc(xs, ys', [y]);
      StageAppend(xs, ys', thisMonth, policy);
      StageSnoc(xs + ys', y, thisMonth, policy);
      StageSnoc(ys', y, thisMonth, policy);
      StepConcat(Stage(xs, thisMonth, policy), Stage(ys', thisMonth, policy), y, thisMonth, policy);
    }
  }

  lemma StepConcat(b1: Batch, b2: Batch, a: Account, thisMonth: Month, policy: Policy)
    ensures Step(Concat(b1, b2), a, thisMonth, policy) == Concat(b1, Step(b2, a, thisMonth, policy))
  {
    if Evaluate(a, thisMonth, policy).Accrued? {
      var i := Evaluate(a, thisMonth, policy).interest;
      AppendAssoc(b1.created, b2.created, [InterestTransaction(a, i)]);
      AppendAssoc(b1.updated, b2.updated, [Credited(a, i)]);
    }
  }

  /**
   * Failure isolation: an account that does not accrue (because it raised,
   * or because this is not one of its interest months) contributes nothing,
   * and the accounts after it are staged exactly as if it were absent.
   */
  lemma StageSkipsUnaccrued(xs: seq<Account>, a: Account, ys: seq<Account>, thisMonth: Month, policy: Policy)
    requires !Evaluate(a, thisMonth, policy).Accrued?
    ensures Stage(xs + [a] + ys, thisMonth, policy) == Stage(xs + ys, thisMonth, policy)
  {
    StageAppend(xs, [a], thisMonth, policy);
    StageAppend(xs + [a], ys, thisMonth, policy);
    StageAppend(xs, ys, thisMonth, policy);
    assert [a][..0] == [];
  }

  /** No account is staged twice and none gets two interest transactions in one run. */
  lemma StagedOnce(store: seq<Account>, now: Timestamp, policy: Policy)
    requires DistinctIds(store)
    ensures DistinctIds(Run(store, now, policy).updated)
    ensures var c := Run(store, now, policy).created;
      forall k, l :: 0 <= k < l < |c| ==> c[k].account != c[l].account
  {
    EligibleAccountsDistinct(store, now);
    StageLockstep(EligibleAccounts(store, now), now.month, policy);
  }

  /** The query keeps store order: filtering a concatenation concatenates the results. */
  lemma {:induction false} EligibleAccountsAppend(s: seq<Account>, t: seq<Account>, now: Timestamp)
    ensures EligibleAccounts(s + t, now) == EligibleAccounts(s, now) + EligibleAccounts(t, now)
  {
    if t == [] {
      assert s + t == s;
    } else {
      var t', y := t[..|t| - 1], t[|t| - 1];
      assert t == t' + [y];
      EligibleAccountsAppend(s, t', now);
      EligibleAccountsSnoc(s + t', y, now);
      EligibleAccountsSnoc(t', y, now);
      AppendAssoc(s, t', [y]);
      AppendAssoc(EligibleAccounts(s, now), EligibleAccounts(t', now), Kept(y, now));
    }
  }

  lemma EligibleAccountsSnoc(s: seq<Account>, x: Account, now: Timestamp)
    ensures EligibleAccounts(s + [x], now) == EligibleAccounts(s, now) + Kept(x, now)
  {
    assert (s + [x])[..|s|] == s;
  }

  /**
   * A run follows store order: the batch of a store made of two parts is
   * the first part's batch followed by the second part's.
   */
  lemma RunAppend(s: seq<Account>, t: seq<Account>, now: Timestamp, policy: Policy)
    ensures Run(s + t, now, policy) == Concat(Run(s, now, policy), Run(t, now, policy))
  {
    EligibleAccountsAppend(s, t, now);
    StageAppend(EligibleAccounts(s, now), EligibleAccounts(t, now), now.month, policy);
  }

  // ---------------------------------------------------------------------
  // Per-account effect of a whole run

  /**
   * For every stored account, a run stages exactly one INTEREST
   * transaction and one updated account when the account accrues, and
   * nothing otherwise.
   */
  lemma {:induction false} RunStaged(store: seq<Account>, now: Timestamp, policy: Policy, j: nat)
    requires DistinctIds(store)
    requires j < |store|
    ensures var b, a := Run(store, now, policy), store[j];
      match Effect(a, now, policy)
      case Accrued(i) =>
        TxFor(b.created, a.id) == [InterestTransaction(a, i)] &&
        UpdatesFor(b.updated, a.id) == [Credited(a, i)]
      case _ =>
        TxFor(b.created, a.id) == [] && UpdatesFor(b.updated, a.id) == []
  {
    var s, x := store[..|store| - 1], store[|store| - 1];
    assert store == s + [x];
    DistinctIdsSnoc(s, x);
    if j < |s| {
      RunStaged(s, now, policy, j);
      assert store[j] == s[j];
      RunStagedOther(s, x, now, policy, s[j].id);
    } else {
      RunStagedLast(s, x, now, policy);
    }
  }

  /** The last stored account adds nothing to another account's entries. */
  lemma RunStagedOther(s: seq<Account>, x: Account, now: Timestamp, policy: Policy, id: AccountId)
    requires id != x.id
    ensures TxFor(Run(s + [x], now, policy).created, id) == TxFor(Run(s, now, policy).created, id)
    ensures UpdatesFor(Run(s + [x], now, policy).updated, id) == UpdatesFor(Run(s, now, policy).updated, id)
  {
    RunSnoc(s, x, now, policy);
    var bs := Run(s, now, policy);
    if Effect(x, now, policy).Accrued? {
      var i := Effect(x, now, policy).interest;
      TxForSnoc(bs.created, InterestTransaction(x, i), id);
      UpdatesForSnoc(bs.updated, Credited(x, i), id);
    }
  }

  /** The entries of a new last stored account are its own contribution. */
  lemma RunStagedLast(s: seq<Account>, x: Account, now: Timestamp, policy: Policy)
    requires x.id !in Ids(s)
    ensures var b := Run(s + [x], now, policy);
      match Effect(x, now, policy)
      case Accrued(i) =>
        TxFor(b.created, x.id) == [InterestTransaction(x, i)] &&
        UpdatesFor(b.updated, x.id) == [Credited(x, i)]
      case _ =>
        TxFor(b.created, x.id) == [] && UpdatesFor(b.updated, x.id) == []
  {
    RunSnoc(s, x, now, policy);
    RunIdsFromStore(s, now, policy);
    var bs := Run(s, now, policy);
    TxForAbsent(bs.created, x.id);
    UpdatesForAbsent(bs.updated, x.id);
    if Effect(x, now, policy).Accrued? {
      var i := Effect(x, now, policy).interest;
      TxForSnoc(bs.created, InterestTransaction(x, i), x.id);
      UpdatesForSnoc(bs.updated, Credited(x, i), x.id);
    }
  }

  /**
   * After the run commits, an account that accrues holds its balance plus
   * the interest and carries exactly one INTEREST transaction of that
   * amount; every other account is stored as before and has none.
   */
  lemma RunEffect(store: seq<Account>, now: Timestamp, policy: Policy, j: nat)
    requires DistinctIds(store)
    requires j < |store|
    ensures var b, a := Run(store, now, policy), store[j];
      |ApplyBalances(store, b.updated)| == |store| &&
      match Effect(a, now, policy)
      case Accrued(i) =>
        TxFor(b.created, a.id) == [InterestTransaction(a, i)] &&
        ApplyBalances(store, b.updated)[j] == Credited(a, i)
      case _ =>
        TxFor(b.created, a.id) == [] && ApplyBalances(store, b.updated)[j] == a
  {
    RunStaged(store, now, policy, j);
  }

  /** An account the query filters out gets no transaction and keeps its record. */
  lemma IneligibleUntouched(store: seq<Account>, now: Timestamp, policy: Policy, j: nat)
    requires DistinctIds(store)
    requires j < |store| && !Eligible(store[j], now)
    ensures var b := Run(store, now, policy);
      TxFor(b.created, store[j].id) == [] &&
      UpdatesFor(b.updated, store[j].id) == [] &&
      ApplyBalances(store, b.updated)[j] == store[j]
  {
    RunStaged(store, now, policy, j);
  }

  /** An eligible account outside its interest months gets nothing and keeps its record. */
  lemma OffMonthUntouched(store: seq<Account>, now: Timestamp, policy: Policy, j: nat, months: set<int>)
    requires DistinctIds(store)
    requires j < |store| && Eligible(store[j], now)
    requires policy.months(store[j]) == Some(months) && now.month !in months
    ensures var b := Run(store, now, policy);
      TxFor(b.created, store[j].id) == [] &&
      UpdatesFor(b.updated, store[j].id) == [] &&
      ApplyBalances(store, b.updated)[j] == store[j]
  {
    RunStaged(store, now, policy, j);
  }

  /**
   * An eligible account whose interest-month lookup or interest
   * calculation raises gets no transaction and no persisted balance change.
   */
  lemma FailedUntouched(store: seq<Account>, now: Timestamp, policy: Policy, j: nat)
    requires DistinctIds(store)
    requires j < |store| && Eligible(store[j], now)
    requires policy.months(store[j]).None? ||
      (now.month in policy.months(store[j]).value &&
       policy.rate(store[j].accountType, store[j].balance).None?)
    ensures var b := Run(store, now, policy);
      TxFor(b.created, store[j].id) == [] &&
      UpdatesFor(b.updated, store[j].id) == [] &&
      ApplyBalances(store, b.updated)[j] == store[j]
  {
    RunStaged(store, now, policy, j);
  }

  /**
   * An eligible account in one of its interest months whose calculation
   * returns `interest` gets exactly one INTEREST transaction of that amount
   * and is stored with its original balance plus that amount.
   */
  lemma AccruedCredited(store: seq<Account>, now: Timestamp, policy: Policy, j: nat, interest: int)
    requires DistinctIds(store)
    requires j < |store| && Eligible(store[j], now)
    requires policy.months(store[j]).Some? && now.month in policy.months(store[j]).value
    requires policy.rate(store[j].accountType, store[j].balance) == Some(interest)
    ensures var b, a := Run(store, now, policy), store[j];
      TxFor(b.created, a.id) == [Transaction(a.id, Interest, interest)] &&
      UpdatesFor(b.updated, a.id) == [a.(balance := a.balance + interest)] &&
      ApplyBalances(store, b.updated)[j] == a.(balance := a.balance + interest)
  {
    assert Effect(store[j], now, policy) == Accrued(interest);
    RunStaged(store, now, policy, j);
  }

  /** Entries for accounts outside `s` do not change what a bulk update writes into `s`. */
  lemma ApplyBalancesIgnoresOthers(s: seq<Account>, updated: seq<Account>, u: Account)
    requires u.id !in Ids(s)
    ensures ApplyBalances(s, updated + [u]) == ApplyBalances(s, updated)
  {
    forall j | 0 <= j < |s|
      ensures ApplyBalances(s, updated + [u])[j] == ApplyBalances(s, updated)[j]
    {
      assert s[j] in s;
      UpdatesForSnoc(updated, u, s[j].id);
    }
  }

  /** A bulk update over one more stored account writes that account's new balance last. */
  lemma ApplyBalancesSnoc(s: seq<Account>, x: Account, updated: seq<Account>)
    ensures ApplyBalances(s + [x], updated) ==
      ApplyBalances(s, updated) + [x.(balance := NewBalance(updated, x))]
  {
    var t := s + [x];
    assert forall j :: 0 <= j < |s| ==> t[j] == s[j];
  }

  /**
   * Every balance change made by a committed run is recorded in the
   * ledger: the stored balances grow by exactly the sum of the staged
   * interest amounts.
   */
  lemma {:induction false} RunConservesMoney(store: seq<Account>, now: Timestamp, policy: Policy)
    requires DistinctIds(store)
    ensures var b := Run(store, now, policy);
      TotalBalance(ApplyBalances(store, b.updated)) == TotalBalance(store) + TotalAmount(b.created)
  {
    if store != [] {
      var s, x := store[..|store| - 1], store[|store| - 1];
      SplitLast(store);
      DistinctIdsSnoc(s, x);
      RunConservesMoney(s, now, policy);
      LastAccountConservesMoney(store, s, x, now, policy);
    }
  }

  /** The step of RunConservesMoney for the last stored account `x`. */
  lemma LastAccountConservesMoney(store: seq<Account>, s: seq<Account>, x: Account, now: Timestamp, policy: Policy)
    requires store == s + [x]
    requires x.id !in Ids(s)
    requires var bs := Run(s, now, policy);
      TotalBalance(ApplyBalances(s, bs.updated)) == TotalBalance(s) + TotalAmount(bs.created)
    ensures var b := Run(store, now, policy);
      TotalBalance(ApplyBalances(store, b.updated)) == TotalBalance(store) + TotalAmount(b.created)
  {
    RunSnoc(s, x, now, policy);
    RunIdsFromStore(s, now, policy);
    var bs, b := Run(s, now, policy), Run(s + [x], now, policy);
    UpdatesForAbsent(bs.updated, x.id);
    ApplyBalancesSnoc(s, x, b.updated);
    TotalBalanceSnoc(s, x);
    var x' := x.(balance := NewBalance(b.updated, x));
    TotalBalanceSnoc(ApplyBalances(s, b.updated), x');
    if Effect(x, now, policy).Accrued? {
      var i := Effect(x, now, policy).interest;
      var t, c := InterestTransaction(x, i), Credited(x, i);
      assert b.updated == bs.updated + [c] && b.created == bs.created + [t];
      ApplyBalancesIgnoresOthers(s, bs.updated, c);
      UpdatesForSnoc(bs.updated, c, x.id);
      TotalAmountSnoc(bs.created, t);
    }
  }

  lemma TotalBalanceSnoc(s: seq<Account>, x: Account)
    ensures TotalBalance(s + [x]) == TotalBalance(s) + x.balance
  {
    assert (s + [x])[..|s|] == s;
  }

  lemma TotalAmountSnoc(s: seq<Transaction>, t: Transaction)
    ensures TotalAmount(s + [t]) == TotalAmount(s) + t.amount
  {
    assert (s + [t])[..|s|] == s;
  }

  // ---------------------------------------------------------------------
  // A worked run

  /** A policy that accrues every month at 1%, in whole cents. */
  function OnePercentEveryMonth(): Policy {
    Policy(a => Some({1, 2, 3, 4, 5, 6, 7, 8, 9, 10, 11, 12}), (t, balance) => Some(balance / 100))
  }

  /**
   * A funded account holding 1000.00 under that policy ends at 1010.00 with
   * one INTEREST transaction of 10.00. The batch is not idempotent: a second
   * run in the same month accrues again, to 1020.10.
   */
  lemma RerunAccruesAgain(now: Timestamp)
    ensures
      var p, start := OnePercentEveryMonth(), Timestamp(now.year - 1, 1, 1, 0);
      var a := Account(7, 100000, 1, Some(start), Some(start));
      var b1 := Run([a], now, p);
      var s1 := ApplyBalances([a], b1.updated);
      var b2 := Run(s1, now, p);
      b1.created == [Transaction(7, Interest, 1000)] &&
      s1 == [a.(balance := 101000)] &&
      b2.created == [Transaction(7, Interest, 1010)] &&
      ApplyBalances(s1, b2.updated) == [a.(balance := 102010)]
  {
    var p, start := OnePercentEveryMonth(), Timestamp(now.year - 1, 1, 1, 0);
    var a := Account(7, 100000, 1, Some(start), Some(start));
    var a1 := a.(balance := 101000);
    var t1, t2 := Transaction(7, Interest, 1000), Transaction(7, Interest, 1010);
    OneAccountRun(a, now, p, 1000);
    assert Run([a], now, p) == Batch([t1], [a1]);
    OneAccountRun(a1, now, p, 1010);
  }

  /** A run over a single accruing account stages it once and stores it credited. */
  lemma OneAccountRun(a: Account, now: Timestamp, p: Policy, interest: int)
    requires Effect(a, now, p) == Accrued(interest)
    ensures Run([a], now, p) == Batch([InterestTransaction(a, interest)], [Credited(a, interest)])
    ensures ApplyBalances([a], [Credited(a, interest)]) == [Credited(a, interest)]
  {
    var c := Credited(a, interest);
    assert [a][..0] == [] && [c][..0] == [];
    assert EligibleAccounts([a], now) == [a];
    assert UpdatesFor([c], a.id) == [c];
    var r := ApplyBalances([a], [c]);
    assert r[0] == c;
  }
}
