/**
 * Data model of the banking application as seen by the interest-accrual
 * batch: accounts, their account-type policy, ledger transactions and the
 * clock value the batch runs at.
 *
 * Money is an integer number of cents.
 */
module Accounts {

  datatype Option<T> = None | Some(value: T)

  /** A calendar month, January = 1. */
  type Month = m: int | 1 <= m <= 12 witness 1

  /** A point in time; only its order and its month matter to the batch. */
  datatype Timestamp = Timestamp(year: int, month: Month, day: int, second: int)

  /** Lexicographic order on (year, month, day, second). */
  predicate AtOrBefore(a: Timestamp, b: Timestamp) {
    a.year < b.year ||
    (a.year == b.year && (a.month < b.month ||
    (a.month == b.month && (a.day < b.day ||
    (a.day == b.day && a.second <= b.second)))))
  }

  type AccountId = nat
  type AccountTypeId = nat

  /**
   * A user bank account. Both dates are nullable columns; a null
   * initial deposit date means the account was never funded.
   */
  datatype Account = Account(
    id: AccountId,
    balance: int,
    accountType: AccountTypeId,
    interestStartDate: Option<Timestamp>,
    initialDepositDate: Option<Timestamp>)

  /**
   * Transaction type tags. Only INTEREST is written by the batch; the other
   * tags of the ledger are kept abstract.
   */
  datatype TransactionType = Interest | OtherType(code: nat)

  /** A ledger record: owning account, type tag and amount. */
  datatype Transaction = Transaction(account: AccountId, kind: TransactionType, amount: int)

  /**
   * The account-type policy, whose bodies are not part of this model.
   * `months` is the account's get_interest_calculation_months() and
   * `rate` is account_type.calculate_interest(balance); None stands for
   * an exception raised by either.
   */
  datatype Policy = Policy(
    months: Account -> Option<set<int>>,
    rate: (AccountTypeId, int) -> Option<int>)

  /** The set of identifiers of the accounts in `s`. */
  function Ids(s: seq<Account>): set<AccountId> {
    set a | a in s :: a.id
  }

  /** No two accounts in `s` share an identifier (primary key). */
  predicate DistinctIds(s: seq<Account>) {
    forall i, j :: 0 <= i < j < |s| ==> s[i].id != s[j].id
  }

  /** Appending one account keeps the keys distinct exactly when its key is new. */
  lemma DistinctIdsSnoc(s: seq<Account>, x: Account)
    ensures DistinctIds(s + [x]) <==> DistinctIds(s) && x.id !in Ids(s)
  {
    var t := s + [x];
    if DistinctIds(t) {
      assert forall i, j :: 0 <= i < j < |s| ==> s[i] == t[i] && s[j] == t[j];
      forall a | a in s ensures a.id != x.id {
        var i :| 0 <= i < |s| && s[i] == a;
        assert t[i] == a && t[|s|] == x;
      }
    }
    if DistinctIds(s) && x.id !in Ids(s) {
      forall i, j | 0 <= i < j < |t| ensures t[i].id != t[j].id {
        if j == |s| {
          assert t[i] == s[i];
          assert s[i] in s;
        } else {
          assert t[i] == s[i] && t[j] == s[j];
        }
      }
    }
  }

  lemma AppendAssoc<T>(a: seq<T>, b: seq<T>, c: seq<T>)
    ensures a + b + c == a + (b + c)
  {
  }

  lemma SplitLast<T>(s: seq<T>)
    requires s != []
    ensures s == s[..|s| - 1] + [s[|s| - 1]]
  {
  }

  /** The sum of the balances of `s`. */
  function TotalBalance(s: seq<Account>): int {
    if s == [] then 0 else TotalBalance(s[..|s| - 1]) + s[|s| - 1].balance
  }

  /** The sum of the amounts of `s`. */
  function TotalAmount(s: seq<Transaction>): int {
    if s == [] then 0 else TotalAmount(s[..|s| - 1]) + s[|s| - 1].amount
  }
}
