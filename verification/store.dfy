/**
 The `account` table and the SQL statements the banking code issues against it.

 The table is a finite map from the key column, `email`, to the rest of the
 row. Each statement is modelled by its effect on that map: a SELECT is a
 lookup, an UPDATE with a WHERE guard touches zero or one row and reports how
 many it touched, an INSERT adds a key or fails on a duplicate key. A
 connection with auto-commit switched off is a pair of the last committed
 table and the table its own statements see.
 */
module AccountStore {
  import opened Wrappers

  /** One row of the `account` table, without its key. */
  datatype Account = Account(fullName: string, password: string, phone: string, balance: int)

  type Store = map<string, Account>

  /** Balance of a row inserted without an `account_balance` value: the
      column default, taken to be zero because the schema is not shown. */
  const DefaultBalance: int := 0

  /** What an UPDATE leaves behind: the table and the number of rows it matched. */
  datatype Update = Update(store: Store, rows: nat)

  /** Every balance in the table is non-negative. */
  predicate NonNegative(s: Store) {
    forall e :: e in s ==> s[e].balance >= 0
  }

  /** `t` has the same keys as `s` and agrees with it on every key except `key`. */
  predicate SameExcept(s: Store, t: Store, key: string) {
    && s.Keys == t.Keys
    && forall e :: e in s && e != key ==> t[e] == s[e]
  }

  /** `SELECT ... FROM account WHERE email = ?`. */
  function Select(s: Store, email: string): (r: Option<Account>)
    ensures r.None? <==> email !in s
    ensures r.Some? ==> r.value == s[email]
  {
    if email in s then Some(s[email]) else None
  }

  /** `UPDATE account SET account_balance = account_balance - ?
       WHERE email = ? AND account_balance >= ?`. */
  function GuardedDeduct(s: Store, email: string, amount: int): (u: Update)
    ensures u.rows <= 1
    ensures u.rows == 1 <==> email in s && s[email].balance >= amount
    ensures SameExcept(s, u.store, email)
    ensures u.rows == 1 ==> u.store[email] == s[email].(balance := s[email].balance - amount)
    ensures u.rows == 0 ==> u.store == s
    // The guard is what keeps the deduction from overdrawing, whatever the amount.
    ensures NonNegative(s) ==> NonNegative(u.store)
  {
    if email in s && s[email].balance >= amount then
      Update(s[email := s[email].(balance := s[email].balance - amount)], 1)
    else
      Update(s, 0)
  }

  /** `UPDATE account SET account_balance = account_balance + ? WHERE email = ?`. */
  function Credit(s: Store, email: string, amount: int): (u: Update)
    ensures u.rows <= 1
    ensures u.rows == 1 <==> email in s
    ensures SameExcept(s, u.store, email)
    ensures u.rows == 1 ==> u.store[email] == s[email].(balance := s[email].balance + amount)
    ensures u.rows == 0 ==> u.store == s
    ensures NonNegative(s) && amount >= 0 ==> NonNegative(u.store)
  {
    if email in s then
      Update(s[email := s[email].(balance := s[email].balance + amount)], 1)
    else
      Update(s, 0)
  }

  /** `INSERT INTO account ... VALUES (...)`; `None` is the unique-key
      violation the driver raises when the email is already present. */
  function Insert(s: Store, email: string, a: Account): (r: Option<Store>)
    ensures r.None? <==> email in s
    ensures r.Some? ==> r.value.Keys == s.Keys + {email}
    ensures r.Some? ==> r.value[email] == a
    ensures r.Some? ==> forall e :: e in s ==> r.value[e] == s[e]
    ensures r.Some? ==> |r.value| == |s| + 1
  {
    if email in s then None else Some(s[email := a])
  }

  /** A connection with auto-commit switched off. */
  datatype Txn = Txn(committed: Store, pending: Store)

  /** `setAutoCommit(false)`. */
  function Begin(s: Store): (t: Txn)
    ensures Commit(t) == s && Rollback(t) == s
  {
    Txn(s, s)
  }

  /** `commit()`: what the statements did becomes the table. */
  function Commit(t: Txn): Store {
    t.pending
  }

  /** `rollback()`: the table is as it was when the transaction began. */
  function Rollback(t: Txn): Store {
    t.committed
  }

  /** Once statements have changed what a transaction sees, a commit keeps
      their effect and a rollback restores the table as it was at the start. */
  lemma CommitKeepsRollbackDiscards(s: Store, pending: Store)
    ensures Commit(Begin(s).(pending := pending)) == pending
    ensures Rollback(Begin(s).(pending := pending)) == s
  {
  }

  /** A SELECT after an UPDATE or INSERT reads what that statement wrote. */
  lemma SelectReadsWrites(s: Store, email: string, amount: int, a: Account)
    ensures Select(GuardedDeduct(s, email, amount).store, email)
            == (if email in s then Some(GuardedDeduct(s, email, amount).store[email]) else None)
    ensures email in s && s[email].balance >= amount ==>
              Select(GuardedDeduct(s, email, amount).store, email).value.balance == s[email].balance - amount
    ensures email in s ==>
              Select(Credit(s, email, amount).store, email).value.balance == s[email].balance + amount
    ensures email !in s ==> Select(Insert(s, email, a).value, email) == Some(a)
  {
  }

  /** The sum of all balances in the table. */
  ghost function Total(s: Store): int
    decreases |s|
  {
    if s == map[] then 0
    else
      var e :| e in s;
      s[e].balance + Total(s - {e})
  }

  /** Any row may be taken out first when summing. */
  lemma {:induction false} TotalRemove(s: Store, key: string)
    requires key in s
    ensures Total(s) == s[key].balance + Total(s - {key})
    decreases |s|
  {
    var e :| e in s && Total(s) == s[e].balance + Total(s - {e});
    if e != key {
      assert s - {e} - {key} == s - {key} - {e};
      TotalRemove(s - {e}, key);
      TotalRemove(s - {key}, e);
    }
  }

  /** Replacing one row changes the sum by the difference of its balances. */
  lemma TotalUpdate(s: Store, key: string, a: Account)
    requires key in s
    ensures Total(s[key := a]) == Total(s) - s[key].balance + a.balance
  {
    TotalRemove(s, key);
    TotalRemove(s[key := a], key);
    assert s[key := a] - {key} == s - {key};
  }

  /** Adding a new row adds its balance to the sum. */
  lemma TotalAdd(s: Store, key: string, a: Account)
    requires key !in s
    ensures Total(s[key := a]) == Total(s) + a.balance
  {
    TotalRemove(s[key := a], key);
    assert s[key := a] - {key} == s;
  }

  /** A guarded deduction takes the amount out of the sum exactly when it
      touches a row. */
  lemma GuardedDeductTotal(s: Store, email: string, amount: int)
    ensures Total(GuardedDeduct(s, email, amount).store)
            == Total(s) - GuardedDeduct(s, email, amount).rows * amount
  {
    if email in s && s[email].balance >= amount {
      TotalUpdate(s, email, s[email].(balance := s[email].balance - amount));
    }
  }

  /** A credit adds the amount to the sum exactly when it touches a row. */
  lemma CreditTotal(s: Store, email: string, amount: int)
    ensures Total(Credit(s, email, amount).store)
            == Total(s) + Credit(s, email, amount).rows * amount
  {
    if email in s {
      TotalUpdate(s, email, s[email].(balance := s[email].balance + amount));
    }
  }
}
