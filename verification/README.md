# ATM banking ledger, modelled in Dafny

This project models the money-movement and account logic of a console ATM
banking program, without JDBC and the console. The `account` table is a
finite map from email to a row holding the full name, password, phone number
and balance. Each SQL statement the program issues is a function on that map:

- a `SELECT` is a lookup;
- `UPDATE … WHERE email = ? AND account_balance >= ?` touches zero or one row;
- an `INSERT` adds a key or fails on a duplicate.

A connection with auto-commit switched off is a pair: the last committed table
and the table its own statements see. `commit` and `rollback` pick one of the two.

On top of the store, each operation is a pure function. It returns the table
it leaves and what it reports on the console:

- `Transaction`: the amount check, withdraw, deposit, transfer and check-balance;
- `User`: the trimming done when a line is read (Java's `String.trim`, modelled
  as its two loops), the required-field check, registration and the password
  check behind login.

`Session` runs any sequence of these requests against one table. It states
what holds after every such sequence.

Files: `wrappers.dfy` (`Option`), `store.dfy` (`AccountStore`),
`outcomes.dfy` (`Outcomes`), `transaction.dfy` (`Transaction`),
`user.dfy` (`User`), `session.dfy` (`Session`).

The model keeps the code's behaviour, including its quirks:

- **Transfer from a missing sender.** When no row exists for the sender, the
  balance check is skipped. The guarded deduction touches nothing, and the
  recipient is still credited and committed. Money appears
  (`TransferFromMissingSenderCreatesMoney`).
- **Transfer to a missing recipient.** The deduction commits and the credit
  touches nothing. Money disappears (`TransferToMissingRecipientDestroysMoney`).
- **Conservation.** The total is conserved only when both parties exist
  (`TransferConservesTotal`).
- **Deposit to a missing account.** It reports success and changes nothing.
- **Withdraw from a missing account.** It prints nothing. The model reports
  this case as `NotFound`.
- **No checks on the transfer.** Transfer never checks that the recipient's
  row exists. It never looks at the row counts its two UPDATEs report, so it
  commits whatever they did.

## Model

| member | source | states |
|---|---|---|
| AccountStore.Select | src/AtmBankingSystem/Transaction.java:82 | a SELECT by email finds a row exactly when the email is a key, and the row it finds is the one stored |
| AccountStore.SelectReadsWrites | src/AtmBankingSystem/Transaction.java:82-83 | a SELECT after the guarded deduction, the credit or an insert reads what that statement wrote: the reduced or increased balance, or the inserted row |
| AccountStore.Begin | src/AtmBankingSystem/Transaction.java:156 | switching auto-commit off starts a transaction in which a commit or a rollback, with nothing done yet, both leave the table as it was |
| AccountStore.CommitKeepsRollbackDiscards | src/AtmBankingSystem/Transaction.java:156-182 | once statements have run inside the transaction, a commit keeps what they did and a rollback restores the table from the start of the transaction |
| AccountStore.GuardedDeduct | src/AtmBankingSystem/Transaction.java:83 | the guarded deduction matches one row exactly when the email exists and its balance covers the amount; then only that row loses the amount, otherwise nothing changes; it can never make a non-negative table negative, whatever the amount |
| AccountStore.Credit | src/AtmBankingSystem/Transaction.java:124 | the credit matches one row exactly when the email exists, adds the amount to that row only, and otherwise changes nothing |
| AccountStore.Insert | src/AtmBankingSystem/User.java:88-103 | an insert fails exactly when the email is already a key; otherwise the table gains exactly that one key with the given row and every other row is kept |
| AccountStore.GuardedDeductTotal | src/AtmBankingSystem/Transaction.java:83 | the sum of all balances drops by the amount when the guarded deduction matched a row and is unchanged when it did not |
| AccountStore.CreditTotal | src/AtmBankingSystem/Transaction.java:124 | the sum of all balances rises by the amount when the credit matched a row and is unchanged when it did not |
| Transaction.ValidAmount | src/AtmBankingSystem/Transaction.java:77 | the amount check shared by withdraw, deposit and transfer accepts exactly the positive multiples of 500 |
| Transaction.MultipleOf1000IsMultipleOf500 | src/AtmBankingSystem/Transaction.java:77 | the multiple-of-1000 alternative of the amount check never accepts an amount the multiple-of-500 one refuses |
| Transaction.Withdraw | src/AtmBankingSystem/Transaction.java:77-101 | a bad amount, an unknown email or a short balance each leave the table unchanged with their own report; a withdrawal happens exactly when the amount is valid and covered, takes the amount from that account only, and reports the balance the table then holds; balances stay non-negative |
| Transaction.Deposit | src/AtmBankingSystem/Transaction.java:119-133 | a valid amount always reports success; it adds exactly the amount to an existing account and changes no other row, and changes nothing for an unknown email or a bad amount |
| Transaction.Transfer | src/AtmBankingSystem/Transaction.java:147-184 | a bad amount or a short existing sender leave the table unchanged (rollback); otherwise the transfer commits: an existing sender loses the amount, an existing recipient gains it, no other row changes, no row is added, a transfer to oneself changes nothing, and balances stay non-negative |
| Transaction.CheckBalance | src/AtmBankingSystem/Transaction.java:207-221 | reports the stored balance exactly when the email has a row, and "not found" otherwise |
| Transaction.WithdrawReportsStoredBalance | src/AtmBankingSystem/Transaction.java:90-97 | the new balance a withdrawal reports is the balance a later check-balance reads |
| Transaction.DepositSeenByCheckBalance | src/AtmBankingSystem/Transaction.java:124-129 | after a deposit, check-balance reads the old balance plus the amount |
| Transaction.WithdrawTotal | src/AtmBankingSystem/Transaction.java:82-97 | the sum of all balances drops by the amount exactly when a withdrawal is reported, and is unchanged otherwise |
| Transaction.DepositTotal | src/AtmBankingSystem/Transaction.java:119-128 | the sum of all balances rises by the amount exactly when the amount is valid and the account exists |
| Transaction.DepositThenWithdraw | src/AtmBankingSystem/Transaction.java:77-128 | depositing and then withdrawing the same valid amount restores the whole table, and the withdrawal reports the original balance |
| Transaction.WithdrawWholeBalanceTwice | src/AtmBankingSystem/Transaction.java:90-100 | withdrawing an account's whole balance twice in a row: the first succeeds and leaves zero, the second reports insufficient funds and changes nothing |
| Transaction.TransferTotal | src/AtmBankingSystem/Transaction.java:164-182 | a committed transfer adds the amount to the sum of balances when the recipient exists and takes it away when the sender exists; a refused one leaves the sum unchanged |
| Transaction.TransferConservesTotal | src/AtmBankingSystem/Transaction.java:173-182 | a transfer between two existing accounts never changes the sum of balances |
| Transaction.TransferFromMissingSenderCreatesMoney | src/AtmBankingSystem/Transaction.java:164-182 | with no sender row, a valid transfer reports success, credits the recipient, and the sum of balances grows by the amount |
| Transaction.TransferToMissingRecipientDestroysMoney | src/AtmBankingSystem/Transaction.java:173-182 | with no recipient row, a covered transfer reports success, debits the sender, and the sum of balances shrinks by the amount |
| User.SkipLeading | src/AtmBankingSystem/User.java:130 | the first trimming loop stops at the first non-blank character after the start point, or at the end, having passed only blanks |
| User.SkipTrailing | src/AtmBankingSystem/User.java:130 | the second trimming loop stops after the last non-blank character before the end point, never before the start point, having passed only blanks |
| User.Trim | src/AtmBankingSystem/User.java:130 | the trimmed line is the contiguous part of the input between a blank prefix and a blank suffix, does not begin or end with a blank, and is empty exactly when the line is all blanks |
| User.ReadInput | src/AtmBankingSystem/User.java:126-131 | a line read through `readInput` neither begins nor ends with a blank, is empty exactly when the line is all blanks, and is left unchanged by trimming again |
| User.IsInputInvalidOnReadLines | src/AtmBankingSystem/User.java:115-117 | on lines read through `readInput`, the required-field check fails exactly when the full-name, email or password line is all blanks; the phone line plays no part |
| User.TrimOfTrimmed | src/AtmBankingSystem/User.java:130 | trimming leaves a string that neither begins nor ends with a blank unchanged |
| User.TrimIdempotent | src/AtmBankingSystem/User.java:130 | trimming twice is the same as trimming once |
| User.TrimOfPadded | src/AtmBankingSystem/User.java:130 | trimming recovers a trimmed string from any blank padding on either side |
| User.ValidatePasswordInput | src/AtmBankingSystem/User.java:48-67 | the password check passes exactly when the email has a row whose stored password equals the input character for character; an unknown email fails |
| User.Login | src/AtmBankingSystem/User.java:22-38 | login passes exactly when the trimmed email has a row whose password equals the trimmed password line |
| User.Register | src/AtmBankingSystem/User.java:74-104 | registration is refused, with the table unchanged, exactly when the full-name, email or password line is all blanks (the phone may be blank); an email already present reports a storage error with the table unchanged; otherwise exactly one row is added under the trimmed email with the trimmed fields and the default balance |
| User.BlankFieldRejected | src/AtmBankingSystem/User.java:76-85 | a whitespace-only full name, email or password line is refused and the table is unchanged |
| User.RegisterAddsOneAccount | src/AtmBankingSystem/User.java:88-97 | a successful registration adds exactly one key, keeps every existing row, keeps balances non-negative and keeps the sum of balances |
| User.RegisterThenLogin | src/AtmBankingSystem/User.java:88-97 | right after a successful registration, the password check accepts the trimmed email and password and login with the same lines passes |
| Session.Apply | src/AtmBankingSystem/Transaction.java:45-63 | every single operation keeps balances non-negative, never removes an account, and only withdraw, deposit, transfer and registration can change the table |
| Session.RunKeepsBalancesNonNegative | src/AtmBankingSystem/Transaction.java:83 | no sequence of operations, however long, drives any balance below zero, because every deduction is guarded |
| Session.ApplyConservesTotal | src/AtmBankingSystem/Transaction.java:173-182 | a transfer between existing accounts, a registration, a balance check or a login keeps the sum of balances |
| Session.RunConservesTotal | src/AtmBankingSystem/Transaction.java:173-182 | any sequence of transfers between existing accounts, registrations, balance checks and logins keeps the sum of balances |

## Left out

- `Main.java`: connection setup, the main menu loop and `System.exit` are console and JDBC plumbing.
- `showAccountMenu` and the `handleAccountOperation` switch: the menus are console dispatch. `Session.Apply` maps a request to its operation but does not model the loop, the invalid-choice message or logging out.
- Console prompts and messages: each message is reduced to an `Outcome` value. The model records `NotFound` for a withdraw from a missing account, where the code prints nothing.
- Transfer's recipient is read with `Scanner.next`, a token without whitespace. The model takes it as a parameter.
- The amount and the balance are Java `double`s. The model uses whole numbers. The amount check only accepts multiples of 500, so no fractional amount is ever accepted. Floating-point rounding of very large balances is not modelled.
- Driver failures (`SQLException`): the only one modelled is the duplicate-email violation on insert, reported as `StorageError` with the table unchanged. A lost connection, the catch-and-rollback path of transfer, and a failing password lookup (which returns false) are not modelled.
- Concurrency: the model is single-threaded. In particular, it does not model the race between the SELECT and the guarded UPDATE in withdraw and transfer. In the model, a deduction whose balance check passed always matches its row.
- Password storage: passwords are stored and compared as plain text, as the code does.
- `readInput`'s null branch: `Scanner.nextLine` never returns null, and end of input is console I/O.
- Registration then opens the account menu. That is console flow and is not modelled.
- Email comparison: the schema is not shown, so the email column is assumed to compare strings exactly, as a binary collation does. Under a case-insensitive collation, which is MySQL's default, three things differ from the model. Lookups would match emails that differ only in case. The duplicate check on registration would refuse such an email. A transfer to a recipient typed in a different case would be an ordinary credit, not the missing-recipient case.
- User.Register: the schema is not shown, so two things are assumptions. First, email is taken to be the table's unique key, which makes a duplicate a driver error. Second, the balance of a new row is taken to be a column default of 0 (`DefaultBalance`).
