/**
 The ledger operations of `Transaction`: withdraw, deposit, transfer and
 check-balance, each a pure function from the `account` table to the table
 it leaves and what it reports. Amounts are whole numbers.
 */
module Transaction {
  import opened Wrappers
  import opened AccountStore
  import opened Outcomes

  /** The amount check that opens withdraw, deposit and transfer: an amount
      is refused when it is not positive or is a multiple of neither 500 nor
      1000. The second alternative adds nothing, so the amounts accepted are
      the positive multiples of 500. */
  function ValidAmount(amount: int): (ok: bool)
    ensures ok <==> amount > 0 && amount % 500 == 0
  {
    MultipleOf1000IsMultipleOf500(amount);
    !(amount <= 0 || (amount % 500 != 0 && amount % 1000 != 0))
  }

  /** Every multiple of 1000 is a multiple of 500. */
  lemma MultipleOf1000IsMultipleOf500(amount: int)
    ensures amount % 1000 == 0 ==> amount % 500 == 0
  {
    if amount % 1000 == 0 {
      var q := amount / 1000;
      assert amount == 500 * (2 * q);
    }
  }

  /** Withdraw: read the balance, and when it covers the amount run the
      guarded deduction and report the balance read minus the amount. */
  function Withdraw(s: Store, email: string, amount: int): (r: Step)
    ensures !ValidAmount(amount) ==> r == Step(s, InvalidAmount)
    ensures ValidAmount(amount) && email !in s ==> r == Step(s, NotFound)
    ensures ValidAmount(amount) && email in s && s[email].balance < amount
            ==> r == Step(s, InsufficientFunds)
    ensures r.outcome.Withdrawn? <==> ValidAmount(amount) && email in s && s[email].balance >= amount
    ensures r.outcome.Withdrawn? ==>
              && SameExcept(s, r.store, email)
              && r.store[email] == s[email].(balance := s[email].balance - amount)
              && r.outcome.newBalance == r.store[email].balance
    ensures NonNegative(s) ==> NonNegative(r.store)
  {
    if !ValidAmount(amount) then Step(s, InvalidAmount)
    else
      match Select(s, email)
      case None => Step(s, NotFound)
      case Some(acct) =>
        if acct.balance >= amount then
          var u := GuardedDeduct(s, email, amount);
          Step(u.store, Withdrawn(acct.balance - amount))
        else
          Step(s, InsufficientFunds)
  }

  /** Deposit: an unguarded credit. The row count is not looked at, so an
      unknown email still reports success while changing nothing. */
  function Deposit(s: Store, email: string, amount: int): (r: Step)
    ensures r.outcome == (if ValidAmount(amount) then Ok else InvalidAmount)
    ensures ValidAmount(amount) && email in s ==>
              && SameExcept(s, r.store, email)
              && r.store[email] == s[email].(balance := s[email].balance + amount)
    ensures !ValidAmount(amount) || email !in s ==> r.store == s
    ensures NonNegative(s) ==> NonNegative(r.store)
  {
    if !ValidAmount(amount) then Step(s, InvalidAmount)
    else
      var u := Credit(s, email, amount);
      Step(u.store, Ok)
  }

  /** Transfer, inside one transaction: roll back when the sender's row
      exists and its balance is short; otherwise run the guarded deduction
      on the sender and the credit on the recipient, neither of whose row
      counts is looked at, and commit. */
  function Transfer(s: Store, sender: string, recipient: string, amount: int): (r: Step)
    ensures !ValidAmount(amount) ==> r == Step(s, InvalidAmount)
    ensures r.outcome == InsufficientFunds <==>
              ValidAmount(amount) && sender in s && s[sender].balance < amount
    ensures r.outcome == InsufficientFunds ==> r.store == s
    ensures r.outcome == Ok <==>
              ValidAmount(amount) && (sender in s ==> s[sender].balance >= amount)
    ensures r.outcome in {Ok, InvalidAmount, InsufficientFunds}
    ensures r.store.Keys == s.Keys
    ensures forall e :: e in s && e != sender && e != recipient ==> r.store[e] == s[e]
    ensures r.outcome == Ok && sender != recipient && sender in s ==>
              r.store[sender] == s[sender].(balance := s[sender].balance - amount)
    ensures r.outcome == Ok && sender != recipient && recipient in s ==>
              r.store[recipient] == s[recipient].(balance := s[recipient].balance + amount)
    ensures sender == recipient ==> r.store == s
    ensures NonNegative(s) ==> NonNegative(r.store)
  {
    if !ValidAmount(amount) then Step(s, InvalidAmount)
    else
      var t := Begin(s);
      var found := Select(t.pending, sender);
      if found.Some? && found.value.balance < amount then
        Step(Rollback(t), InsufficientFunds)
      else
        var deducted := t.(pending := GuardedDeduct(t.pending, sender, amount).store);
        var credited := deducted.(pending := Credit(deducted.pending, recipient, amount).store);
        Step(Commit(credited), Ok)
  }

  /** Check-balance: a read that reports the balance or that there is no row. */
  function CheckBalance(s: Store, email: string): (r: Outcome)
    ensures r.BalanceIs? <==> email in s
    ensures r.BalanceIs? ==> r.balance == s[email].balance
    ensures !r.BalanceIs? ==> r == NotFound
  {
    match Select(s, email)
    case Some(acct) => BalanceIs(acct.balance)
    case None => NotFound
  }

  /** The balance withdraw reports is the one a later check-balance reads. */
  lemma WithdrawReportsStoredBalance(s: Store, email: string, amount: int)
    requires Withdraw(s, email, amount).outcome.Withdrawn?
    ensures CheckBalance(Withdraw(s, email, amount).store, email)
            == BalanceIs(Withdraw(s, email, amount).outcome.newBalance)
  {
  }

  /** A deposit is seen by check-balance as the old balance plus the amount. */
  lemma DepositSeenByCheckBalance(s: Store, email: string, amount: int)
    requires ValidAmount(amount) && email in s
    ensures CheckBalance(Deposit(s, email, amount).store, email)
            == BalanceIs(s[email].balance + amount)
  {
  }

  /** Withdraw takes out exactly what it reports having taken out. */
  lemma WithdrawTotal(s: Store, email: string, amount: int)
    ensures Total(Withdraw(s, email, amount).store)
            == Total(s) - (if Withdraw(s, email, amount).outcome.Withdrawn? then amount else 0)
  {
    if ValidAmount(amount) && email in s && s[email].balance >= amount {
      GuardedDeductTotal(s, email, amount);
    }
  }

  /** Deposit adds the amount to the total exactly when the account exists. */
  lemma DepositTotal(s: Store, email: string, amount: int)
    ensures Total(Deposit(s, email, amount).store)
            == Total(s) + (if ValidAmount(amount) && email in s then amount else 0)
  {
    if ValidAmount(amount) {
      var u := Credit(s, email, amount);
      assert Deposit(s, email, amount).store == u.store;
      assert u.rows == (if email in s then 1 else 0);
      CreditTotal(s, email, amount);
    }
  }

  /** A deposit followed by a withdrawal of the same valid amount restores
      the table. */
  lemma DepositThenWithdraw(s: Store, email: string, amount: int)
    requires ValidAmount(amount)
    requires email in s ==> s[email].balance >= 0
    ensures Withdraw(Deposit(s, email, amount).store, email, amount).store == s
    ensures email in s ==>
              Withdraw(Deposit(s, email, amount).store, email, amount).outcome
              == Withdrawn(s[email].balance)
  {
    if email in s {
      var d := Deposit(s, email, amount).store;
      assert d == s[email := s[email].(balance := s[email].balance + amount)];
    }
  }

  /** Two withdrawals of an account's whole balance, one after the other:
      the first succeeds and leaves zero, the second finds insufficient funds. */
  lemma WithdrawWholeBalanceTwice(s: Store, email: string, amount: int)
    requires ValidAmount(amount) && email in s && s[email].balance == amount
    ensures Withdraw(s, email, amount).outcome == Withdrawn(0)
    ensures Withdraw(Withdraw(s, email, amount).store, email, amount)
            == Step(Withdraw(s, email, amount).store, InsufficientFunds)
    ensures CheckBalance(Withdraw(s, email, amount).store, email) == BalanceIs(0)
  {
  }

  /** How a committed transfer moves the total: it gains the amount when the
      recipient's row exists and loses it when the sender's row exists. */
  lemma {:induction false} TransferTotal(s: Store, sender: string, recipient: string, amount: int)
    ensures Total(Transfer(s, sender, recipient, amount).store)
            == Total(s)
               + (if Transfer(s, sender, recipient, amount).outcome == Ok && recipient in s then amount else 0)
               - (if Transfer(s, sender, recipient, amount).outcome == Ok && sender in s then amount else 0)
  {
    var r := Transfer(s, sender, recipient, amount);
    if r.outcome == Ok {
      var d := GuardedDeduct(s, sender, amount);
      var c := Credit(d.store, recipient, amount);
      assert r.store == c.store;
      GuardedDeductTotal(s, sender, amount);
      CreditTotal(d.store, recipient, amount);
      assert d.rows == (if sender in s then 1 else 0);
      assert c.rows == (if recipient in s then 1 else 0);
    }
  }

  /** Money is conserved by a transfer between two accounts that both exist,
      whatever the outcome. */
  lemma TransferConservesTotal(s: Store, sender: string, recipient: string, amount: int)
    requires sender in s && recipient in s
    ensures Total(Transfer(s, sender, recipient, amount).store) == Total(s)
  {
    TransferTotal(s, sender, recipient, amount);
  }

  /** With no row for the sender the balance check is skipped, the deduction
      matches nothing, and the recipient is still credited: money appears. */
  lemma TransferFromMissingSenderCreatesMoney(s: Store, sender: string, recipient: string, amount: int)
    requires ValidAmount(amount) && sender !in s && recipient in s
    ensures Transfer(s, sender, recipient, amount).outcome == Ok
    ensures Transfer(s, sender, recipient, amount).store[recipient].balance
            == s[recipient].balance + amount
    ensures Total(Transfer(s, sender, recipient, amount).store) == Total(s) + amount
  {
    TransferTotal(s, sender, recipient, amount);
  }

  /** With no row for the recipient the deduction still commits and the
      credit matches nothing: money disappears. */
  lemma TransferToMissingRecipientDestroysMoney(s: Store, sender: string, recipient: string, amount: int)
    requires ValidAmount(amount) && sender in s && recipient !in s
    requires s[sender].balance >= amount
    ensures Transfer(s, sender, recipient, amount).outcome == Ok
    ensures Transfer(s, sender, recipient, amount).store[sender].balance
            == s[sender].balance - amount
    ensures Total(Transfer(s, sender, recipient, amount).store) == Total(s) - amount
  {
    TransferTotal(s, sender, recipient, amount);
  }
}
