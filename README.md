# ATM ledger model

A Dafny model of the ledger at the heart of a small command-line ATM
simulator. The simulator has accounts protected by a four-digit PIN with a
three-strikes lockout. It supports deposits, capped withdrawals and
transfers between accounts, and it has one login session at a time.

When a transfer exceeds the sender's balance, the sender's whole balance
moves and the shortfall becomes a debt. The amount is added to the
sender's `debt`, but whom it is owed to is recorded only in the sender's
log. The sender's later deposits repay it, crediting the first
account in store order that the log says is still owed.

The model keeps the source's structure:

- `ledger.dfy` (module `Ledger`): the values an account is made of. This is
  the log entries as a datatype, the stored account record, the error
  messages, the PIN format, and the "has debt to" relation (a fold over the
  log).
- `database.dfy` (module `Database`): the account store. It is a value `Db`
  (a map from username to record, plus the order in which usernames were
  first saved) and a class `Store` holding those two fields. Reads return
  record values, so they are copies by construction. Each `saveAccount`
  overwrites one whole record.
- `account.dfy` (module `Accounts`): the account entity. There are pure
  steps on records (`VerifyStep`, `WithdrawStep`, `DepositStep`) and a class
  `Account` whose methods change its fields and the store. Each method is
  proved to implement its step.
- `atm.dfy` (module `Atm`): the session and transfer engine. The class `ATM`
  has the `currentUser` session. The pure `TransferStep` describes
  `#processTransfer` on the store, the sender's record and the target's
  copy, and `ATM.ProcessTransfer` is proved to implement it.
- `transfer_properties.dfy` (module `TransferProperties`): what a transfer
  does to the sender, the target and everyone else. It also covers the debt
  round trip and the sequences of the repository's two debt tests.

The session's account and the transfer target are detached copies of
their stored records, and each is written back at the points where the
source saves it. The model therefore reproduces two effects of that
aliasing, proved as lemmas:

- In a full transfer, the target's deposit may repay a debt to the sender,
  crediting the sender's stored record. The sender's final save then
  overwrites that credit (`RepaymentToSenderIsOverwritten`).
- A transfer to oneself ends with the target copy's balance plus the
  amount (`SelfTransfer`).

The repository's two debt tests call `atm.processTransfer`
(tests/transfer.test.js:44 and :60). The class defines only the private
`#processTransfer` (src/atm.js:103), so as written both tests fail at
that call, before any expectation. The model follows the code from there:

- The debt-creation test (tests/transfer.test.js:34-49) is modelled by
  `RachelBeforeTransfer` and `RachelTransfersToSteve`.
- `RachelRepaysSteve` continues that sequence with a deposit of 200, after
  which the stored Steve holds 200.
- The repayment test (tests/transfer.test.js:51-71) is modelled by
  `TomBeforeTransfer`, `TomTransfersToUma` and `TomRepaysUma`. The stored
  Uma reaches 200, as the test expects at :68. But that expectation reads the
  creditor copy the test holds, and the repayment never reaches that copy:
  it stays at 100.

The step functions (`VerifyStep`, `WithdrawStep`, `Deposited`, `Repaid`,
`DepositStep`, `OwesTo`, `Credits`, `ResolveTarget`, `TransferStep`,
`Shortfall`) carry no contract of their own beyond well-formedness. The
lemma and method rows below state what each of them promises, and stand for
them.

## Model

| member | source | states |
|---|---|---|
| Ledger.Initial | src/account.js:9-16 | a new account has the given name and PIN, balance, debt, daily total and failure count 0, not locked, empty log |
| Ledger.AllDigits | src/account.js:7 | the digit scan accepts a string exactly when every character is a decimal digit |
| Ledger.PinExamples | tests/account.test.js:17-25 | "1234" and "0000" are valid PINs; "abcd", "12345", "123" and "12a4" are not |
| Ledger.CreatedToAppend | src/account.js:107-110 | the debt created towards a user over a concatenated log is the sum over the two parts |
| Ledger.PaidTotalAppend | src/account.js:107-113 | the total paid over a concatenated log is the sum over the two parts |
| Ledger.AppendEntry | src/account.js:107-113 | appending one entry moves each running total by exactly that entry's contribution |
| Ledger.NoDebtEntriesTotals | src/account.js:103-117 | a log without debt entries has both totals 0 and owes nobody |
| Ledger.PaymentsAreNotMatchedToCreditors | src/account.js:111-116 | paid amounts count against every creditor: after 100 owed to B and 100 paid, 50 owed to C is not recognised |
| Database.EmptyIsEmpty | src/database.js:57-59 | the empty store is well formed, finds no account and lists no accounts |
| Database.Get | src/database.js:23-32 | a record is found exactly for a stored username, it is the stored one, and it carries that username |
| Database.Save | src/database.js:34-47 | after a save the saved record is found under its name, every other name reads as before, an existing name keeps the order and a new one is appended, and well-formedness is kept |
| Database.SaveOverwrites | src/database.js:35-46 | saving an existing username leaves the number of records unchanged |
| Database.SaveAdds | src/database.js:35-46 | saving a new username adds exactly one record |
| Database.AllRecords | src/database.js:49-55 | the scan has one record per stored name, in key order, each the stored record under its own name |
| Database.AllRecordsOncePerUser | src/database.js:49-55 | every stored account appears in the scan, and exactly once |
| Database.SaveSolvent | src/database.js:34-47 | saving a solvent record into a solvent store keeps every record solvent |
| Database.Store.constructor | src/database.js:11-17 | a store with nothing saved is empty |
| Database.Store.GetAccount | src/database.js:23-32 | the result is present exactly when the name is a key, and is then the stored record |
| Database.Store.GetAllAccounts | src/database.js:49-55 | one stored record per key, in key order |
| Database.Store.SaveAccount | src/database.js:34-47 | the new store is `Save` of the old one |
| Database.Store.Clear | src/database.js:57-59 | the store becomes empty |
| Accounts.VerifyLocked | src/account.js:20 | a locked account refuses every PIN with the lockout error and changes nothing |
| Accounts.VerifyUnlocked | src/account.js:21-38 | the right PIN answers true and resets the counter; a wrong one adds exactly one failure, answers false below three and locks with an error at three, changing nothing else |
| Accounts.LockedStaysLocked | src/account.js:20 | any series of attempts leaves a locked account as it is |
| Accounts.ConsecutiveFailures | src/account.js:26-37 | consecutive wrong PINs lock the account exactly when the failures reach three; the counter stops at three; balance and log are untouched |
| Accounts.ThreeStrikes | tests/account.test.js:74-98 | on a new account three wrong PINs answer false, false, then the lockout error, after which even the right PIN is refused |
| Accounts.WithdrawOutcome | src/account.js:72-79 | the cap error occurs exactly above 1000 whatever the balance; the balance error exactly when within the cap but above the balance; otherwise balance and daily total move by exactly the amount and one `Withdraw` entry is logged, and no other field changes |
| Accounts.WithdrawSolvent | src/account.js:73-76 | no successful withdrawal makes a solvent account insolvent, a negative amount included |
| Accounts.FirstCreditor | src/account.js:49-59 | the scan stops at the first record the log owes, and no earlier record is owed |
| Accounts.RepaidReadsLogOnly | src/account.js:49-53 | which creditor is paid depends only on the depositor's name and log |
| Accounts.DepositStep | src/account.js:41-70 | a successful deposit leaves a well-formed store |
| Accounts.DepositEffect | src/account.js:44-67 | with p = min(debt, amount): debt falls by p and stays non-negative, balance rises by amount - p, `DebtPaid` is logged only with debt and `Deposit` only when amount - p > 0, and with no debt the whole amount is credited |
| Accounts.DepositStore | src/account.js:41-69 | a non-positive deposit is refused; a positive one saves the depositor, credits p and one entry to the first creditor in store order and changes no other account |
| Accounts.DepositSolvent | src/account.js:44-67 | a positive deposit keeps the depositor and the whole store solvent |
| Accounts.DepositThenWithdraw | src/account.js:41-79 | without debt, a deposit of x and then a withdrawal of y within the cap and the new balance succeeds, leaves balance + x - y and logs `Deposit(x)` then `Withdraw(y)` |
| Accounts.ValidWithdrawal | tests/transaction.test.js:28-33 | a new account that deposits 1000 and withdraws 500 has balance 500 |
| Accounts.Account.FromRecord | src/database.js:27-28 | the fresh object holds exactly the stored record's fields |
| Accounts.Account.Create | src/account.js:6-17 | construction fails exactly for a PIN that is not four digits, with the message "PIN must be numbers and exactly 4 digits."; otherwise the new account is `Initial` |
| Accounts.Account.VerifyPin | src/account.js:19-39 | verdict and new fields are `VerifyStep`'s; the record is saved unless the account was already locked |
| Accounts.Account.LogTransaction | src/account.js:81-83 | exactly one entry is appended at the end and no other field changes |
| Accounts.Account.HasDebtTo | src/account.js:103-117 | the loop's answer is `OwesTo`: debt created to the user exceeds all debt paid |
| Accounts.Account.Withdraw | src/account.js:72-79 | a refused withdrawal changes nothing; an accepted one sets the fields to `WithdrawStep`'s record and saves it |
| Accounts.Account.PayFirstCreditor | src/account.js:49-59 | the store afterwards is `Repaid`: the first owed account in scan order, credited and saved, or nothing |
| Accounts.Account.Deposit | src/account.js:41-70 | a refused deposit changes nothing; otherwise fields and store are `DepositStep`'s |
| Atm.CreditsMembers | src/atm.js:43-48 | a credit is listed exactly when a scanned account with that name and debt carries debt and has debt to the user |
| Atm.ResolveTargetOutcome | src/atm.js:79-96 | a stored target is used as stored; an unknown one is created, as exactly one new record, only for a four-digit PIN, and otherwise the target-PIN error, with its own message "PIN must be exactly 4 digits.", changes nothing |
| Atm.TransferStep | src/atm.js:103-135 | a transfer leaves a well-formed store |
| Atm.PartialStep | src/atm.js:106-134 | a partial transfer leaves a well-formed store |
| Atm.PartialDb | src/atm.js:111-113 | the target's deposit in a partial transfer leaves a well-formed store |
| Atm.FullStep | src/atm.js:126-134 | a full transfer leaves a well-formed store |
| Atm.ATM.constructor | src/atm.js:5-7 | a new machine has no session |
| Atm.ATM.RequireLogin | src/atm.js:148-150 | fails with the no-session error exactly when nobody is logged in |
| Atm.ATM.Register | src/atm.js:9-15 | a duplicate name ("Account already exists.") or an invalid PIN fails and changes nothing; otherwise exactly the new initial record is saved |
| Atm.ATM.Login | src/atm.js:17-59 | an active session ("U is currently logged in.", naming the session's user) or an unknown name is refused with nothing changed; otherwise the saved `VerifyStep` decides, and only a true verdict starts the session and returns the credit list |
| Atm.ATM.CreditList | src/atm.js:43-48 | the loop builds `Credits` over the scan of the store |
| Atm.ATM.Deposit | src/atm.js:61-66 | no session fails and changes nothing; otherwise session and store follow `DepositStep`, and the new balance is returned |
| Atm.ATM.Withdraw | src/atm.js:68-72 | no session fails and changes nothing; otherwise session and store follow `WithdrawStep` |
| Atm.ATM.Transfer | src/atm.js:74-101 | no session fails and changes nothing; an unknown target with a bad PIN fails and changes nothing; otherwise the outcome is `TransferStep` from the resolved target |
| Atm.ATM.ProcessTransfer | src/atm.js:103-135 | status, store, sender and target copies are `TransferStep`'s |
| Atm.ATM.ProcessPartial | src/atm.js:106-134 | store and both copies are `PartialStep`'s |
| Atm.ATM.PayTarget | src/atm.js:111-113 | the target is deposited the moved balance only when it is positive |
| Atm.ATM.CloseShortfall | src/atm.js:115-134 | the sender's balance becomes 0, the transfer and the debt are logged in that order, and both copies are saved, the sender first |
| Atm.ATM.ProcessFull | src/atm.js:126-134 | status, store and both copies are `FullStep`'s |
| Atm.ATM.History | src/atm.js:137-140 | no session fails; otherwise the session's log |
| Atm.ATM.Balance | src/atm.js:152-160 | no session fails; otherwise the session's balance and debt |
| Atm.ATM.Logout | src/atm.js:142-146 | the session ends |
| TransferProperties.TransferOverLimit | src/atm.js:126-127 | a covered transfer above 1000 fails in the withdrawal and changes nothing |
| TransferProperties.NonPositiveTransfer | src/atm.js:126-128 | a non-positive transfer withdraws (raising the balance when negative), saves the sender, then fails in the target's deposit |
| TransferProperties.FullTransfer | src/atm.js:126-134 | the sender loses exactly the amount and logs withdrawal and transfer, the target gets a deposit of the amount, both are stored, and of the others only the target's first creditor can change |
| TransferProperties.FullTransferConserves | src/atm.js:126-131 | with a debt-free target the two balances keep their sum, in the copies and in the store, and no other account changes |
| TransferProperties.RepaymentToSenderIsOverwritten | src/atm.js:127-134 | when the target's deposit credits the sender's stored record, the sender's final save discards the credit and the two stored balances lose exactly the payment |
| TransferProperties.SelfTransfer | src/atm.js:126-134 | a self-transfer stores the target copy, the stored balance plus the amount, while the session's copy has lost the amount |
| TransferProperties.PartialTransfer | src/atm.js:106-122 | with balance b below the amount: status done, balance 0, debt up by amount - b, exactly the transfer and debt entries appended, no cap, daily total unchanged, sender stored |
| TransferProperties.PartialSender | src/atm.js:106-133 | the sender's copy after a partial transfer is the shortfall record, and it is stored |
| TransferProperties.PartialTransferTarget | src/atm.js:111-113 | the target receives a deposit of b only when b is positive, and is stored |
| TransferProperties.PartialTransferFrame | src/atm.js:106-122 | any third account changes only when b is positive, the target is in debt and that account is the target's first creditor in store order, which then gains the payment and one entry; every other account is unchanged |
| TransferProperties.TransferSolvent | src/atm.js:103-135 | transfers keep both copies and the whole store solvent |
| TransferProperties.OwesOnlyTarget | src/account.js:103-117 | after a partial transfer from a log with no debt entries, the sender has debt to the target and to nobody else |
| TransferProperties.RepaySoleCreditor | src/account.js:44-61 | a deposit of at least the debt by an account owing one stored creditor clears the debt, pays that creditor all of it and keeps the rest |
| TransferProperties.RepayAfterShortfall | src/account.js:44-61 | after a saved shortfall, a deposit of at least the shortfall repays the target exactly the shortfall |
| TransferProperties.DebtRoundTrip | src/atm.js:106-134 | a partial transfer from a debt-free sender, followed by a deposit of at least the shortfall, clears the debt (the repayment of src/account.js:44-61) and leaves the stored target with its balance plus the whole amount |
| TransferProperties.RachelBeforeTransfer | tests/transfer.test.js:39-40 | a new account depositing 200 and withdrawing 100 has balance 100 |
| TransferProperties.RachelTransfersToSteve | tests/transfer.test.js:34-49 | transferring 200 from that account to Steve gives the sender debt 100 and balance 0 and the stored Steve 100 |
| TransferProperties.RachelRepaysSteve | src/account.js:44-61 | the sender's next deposit of 200 clears the debt, leaves it 100 and brings the stored Steve to 200 |
| TransferProperties.TomBeforeTransfer | tests/transfer.test.js:52-57 | a new account Tom depositing 100 has balance 100 and a one-entry log |
| TransferProperties.TomTransfersToUma | tests/transfer.test.js:59-63 | transferring 200 from Tom to Uma leaves Tom owing 100 with balance 0 and the target copy at 100 |
| TransferProperties.TomRepaysUma | tests/transfer.test.js:65-68 | Tom's deposit of 200 clears the debt and leaves him 100; the stored Uma reaches 200, while the target copy the test reads does not |

## Left out

- PIN hashing: `hashedPin` holds the PIN itself and the PIN comparison is equality. src/security.js (bcrypt) is not part of this model.
- Persistence: the JSON file behind the store, its reads and writes, and the fallback to an empty store when the file is unreadable. The store is kept in memory.
- The readline command loop of src/main.js, console output, and the asynchronous callback style. The PIN that `login` prompts for and the PIN a new transfer target is given are parameters of `Login` and `Transfer`.
- Amount parsing and floating point: amounts are unbounded integers, so the `isNaN` guards of `deposit` and `transfer` never fire. The `parseFloat` of log details is not modelled.
- Log details as strings: entries are a datatype, so a username that makes one detail string contain another's pattern (in the substring matching of `hasDebtTo`) is not captured.
- Timestamps and the date formatting of `getHistory`: `History` returns the sequence of entries.
- Key order of the store: the scan order is the order in which usernames were first saved. The separate ordering JavaScript gives integer-like keys is not modelled.
- Atm.ATM.Logout: requires a session, because the source reads the session's name before clearing it and fails without one.
- Atm.ATM.Balance returns the balance and the debt instead of printing them.
- Atm.ATM.History returns the log entries instead of the formatted string `history()` returns.
- Store lookups of inherited object properties: the store is a plain map, so a name such as "constructor" or "toString" is found only if it was saved, and saving any name stores a record. In the source, `accounts[username]` on the parsed object also finds the properties every object inherits, and saving the prototype's own key replaces the prototype instead of storing a record (src/database.js:25, 36). So registering such a name fails as a duplicate, and logging in as "constructor" returns an account built from the inherited value. None of this is modelled.
