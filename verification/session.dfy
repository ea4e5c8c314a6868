/**
 Sequences of the operations a console session can issue, run one after
 another against the same table. The menu loops themselves are not modelled;
 this module only states what holds after any such sequence.
 */
module Session {
  import opened AccountStore
  import opened Outcomes
  import T = Transaction
  import U = User

  /** One operation, with the input lines the session would have read. */
  datatype Request =
    | Withdraw(email: string, amount: int)
    | Deposit(email: string, amount: int)
    | Transfer(sender: string, recipient: string, amount: int)
    | CheckBalance(email: string)
    | Register(fullNameLine: string, emailLine: string, passwordLine: string, phoneLine: string)
    | Login(emailLine: string, passwordLine: string)

  /** The effect of one request on the table. */
  function Apply(s: Store, req: Request): (r: Step)
    ensures NonNegative(s) ==> NonNegative(r.store)
    ensures s.Keys <= r.store.Keys
    ensures req.Withdraw? || req.Deposit? || req.Transfer? || req.Register? || r.store == s
  {
    match req
    case Withdraw(email, amount) => T.Withdraw(s, email, amount)
    case Deposit(email, amount) => T.Deposit(s, email, amount)
    case Transfer(sender, recipient, amount) => T.Transfer(s, sender, recipient, amount)
    case CheckBalance(email) => Step(s, T.CheckBalance(s, email))
    case Register(n, e, p, ph) =>
      var r := U.Register(s, n, e, p, ph);
      assert NonNegative(s) ==> NonNegative(r.store);
      r
    case Login(e, p) => Step(s, if U.Login(s, e, p) then Ok else LoginFailed)
  }

  /** The table left after running `reqs` in order. */
  function Run(s: Store, reqs: seq<Request>): Store
    decreases |reqs|
  {
    if reqs == [] then s else Run(Apply(s, reqs[0]).store, reqs[1..])
  }

  /** No sequence of operations drives a balance below zero. */
  lemma {:induction false} RunKeepsBalancesNonNegative(s: Store, reqs: seq<Request>)
    requires NonNegative(s)
    ensures NonNegative(Run(s, reqs))
    decreases |reqs|
  {
    if reqs != [] {
      RunKeepsBalancesNonNegative(Apply(s, reqs[0]).store, reqs[1..]);
    }
  }

  /** No request takes money in or out, and every transfer is between two
      accounts of `s`. */
  predicate MovesMoneyWithin(s: Store, reqs: seq<Request>) {
    forall i :: 0 <= i < |reqs| ==>
      && !reqs[i].Withdraw?
      && !reqs[i].Deposit?
      && (reqs[i].Transfer? ==> reqs[i].sender in s && reqs[i].recipient in s)
  }

  /** One request that moves money only within `s` keeps the sum of balances. */
  lemma ApplyConservesTotal(s: Store, req: Request)
    requires !req.Withdraw? && !req.Deposit?
    requires req.Transfer? ==> req.sender in s && req.recipient in s
    ensures Total(Apply(s, req).store) == Total(s)
  {
    match req {
      case Transfer(sender, recipient, amount) =>
        T.TransferConservesTotal(s, sender, recipient, amount);
      case Register(n, e, p, ph) =>
        if U.Register(s, n, e, p, ph).outcome == Ok {
          U.RegisterAddsOneAccount(s, n, e, p, ph);
        }
      case _ =>
    }
  }

  /** Transfers between existing accounts, registrations, balance checks and
      logins, in any number and order, leave the sum of all balances as it was. */
  lemma {:induction false} RunConservesTotal(s: Store, reqs: seq<Request>)
    requires MovesMoneyWithin(s, reqs)
    ensures Total(Run(s, reqs)) == Total(s)
    decreases |reqs|
  {
    if reqs != [] {
      var next := Apply(s, reqs[0]).store;
      ApplyConservesTotal(s, reqs[0]);
      assert MovesMoneyWithin(next, reqs[1..]) by {
        forall i | 0 <= i < |reqs[1..]|
          ensures reqs[1..][i].Transfer? ==> reqs[1..][i].sender in next && reqs[1..][i].recipient in next
        {
          assert reqs[1..][i] == reqs[i + 1];
        }
      }
      RunConservesTotal(next, reqs[1..]);
    }
  }
}
