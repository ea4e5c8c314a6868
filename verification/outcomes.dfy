/** What an operation reports on the console, and the table it leaves. */
module Outcomes {
  import opened AccountStore

  datatype Outcome =
    | Ok                          // "... successful."
    | Withdrawn(newBalance: int)  // "Withdrawal successful. New balance: ..."
    | BalanceIs(balance: int)     // "Your current balance is: ..."
    | InvalidAmount               // "Invalid amount. ..."
    | InsufficientFunds           // "Insufficient funds."
    | NotFound                    // no row for the email
    | Rejected                    // "All fields are required."
    | LoginFailed                 // "Invalid email or password. Please try again."
    | StorageError                // an SQLException reported by the driver

  datatype Step = Step(store: Store, outcome: Outcome)
}
