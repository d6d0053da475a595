/**
 * The values an account is made of: the entries of its transaction log, the
 * record the store keeps for it, the PIN format rule and the derived
 * "has debt to" relation, which is computed from the log alone.
 */
module Ledger {

  /** The failures the ledger reports; `Message` gives the text the source shows for each. */
  datatype Error =
    | InvalidPin
    | InvalidTargetPin
    | DuplicateAccount
    | AccountNotFound
    | AccountLocked
    | LockedAfterAttempts
    | IncorrectPin
    | NonPositiveDeposit
    | OverLimit
    | InsufficientBalance
    | AlreadyLoggedIn(user: string)
    | NoUserLoggedIn

  function Message(e: Error): string {
    match e
    case InvalidPin => "PIN must be numbers and exactly 4 digits."
    case InvalidTargetPin => "PIN must be exactly 4 digits."
    case DuplicateAccount => "Account already exists."
    case AccountNotFound => "Account not found."
    case AccountLocked => "Account is locked."
    case LockedAfterAttempts => "Account is locked due to multiple incorrect attempts."
    case IncorrectPin => "Incorrect PIN."
    case NonPositiveDeposit => "Deposit must be positive."
    case OverLimit => "Exceeds daily withdrawal limit."
    case InsufficientBalance => "Insufficient balance."
    case AlreadyLoggedIn(u) => u + " is currently logged in."
    case NoUserLoggedIn => "No user logged in."
  }

  datatype Result<T> = Ok(value: T) | Err(error: Error)

  /** The outcome of an operation that returns nothing but may fail. */
  datatype Status = Done | Failed(error: Error)

  /**
   * One transaction-log entry, by the kind of its detail line:
   * "Debt created to U: $N", "Debt paid: -$N", "Debt paid by U: +$N",
   * "Deposit: +$N", "Withdraw: -$N" and "Transfer to U: -$N".
   */
  datatype Entry =
    | DebtCreated(creditor: string, amount: int)
    | DebtPaid(amount: int)
    | DebtPaidBy(debtor: string, amount: int)
    | Deposit(amount: int)
    | Withdraw(amount: int)
    | TransferTo(recipient: string, amount: int)

  /** An account as the store keeps it: every field, and no identity. */
  datatype AccountRec = AccountRec(
    username: string,
    hashedPin: string,
    balance: int,
    history: seq<Entry>,
    dailyWithdrawn: int,
    debt: int,
    failedAttempts: int,
    locked: bool)

  /** The record of a freshly constructed account. */
  function Initial(username: string, pin: string): (a: AccountRec)
    ensures a.username == username && a.hashedPin == pin
    ensures a.balance == 0 && a.debt == 0 && a.dailyWithdrawn == 0
    ensures a.failedAttempts == 0 && !a.locked && a.history == []
  {
    AccountRec(username, pin, 0, [], 0, 0, 0, false)
  }

  /** Balance and debt are never negative. */
  predicate Solvent(a: AccountRec) {
    a.balance >= 0 && a.debt >= 0
  }

  // ---------------------------------------------------------------------
  // PIN format

  predicate IsDigit(c: char) {
    '0' <= c <= '9'
  }

  /** The digit scan the pattern performs, one character at a time. */
  function AllDigits(s: string): (b: bool)
    ensures b <==> forall i :: 0 <= i < |s| ==> IsDigit(s[i])
  {
    if s == [] then true
    else IsDigit(s[0]) && AllDigits(s[1..])
  }

  /** The anchored pattern of exactly four decimal digits. */
  predicate ValidPin(pin: string) {
    |pin| == 4 && AllDigits(pin)
  }

  lemma PinExamples()
    ensures ValidPin("1234") && ValidPin("0000")
    ensures !ValidPin("abcd") && !ValidPin("12345") && !ValidPin("123") && !ValidPin("12a4")
  {
    assert !IsDigit("12a4"[2]);
  }

  // ---------------------------------------------------------------------
  // The debt relation, derived from the log

  /** What one entry adds to the debt created towards `user`. */
  function CreatedBy(e: Entry, user: string): int {
    if e.DebtCreated? && e.creditor == user then e.amount else 0
  }

  /** What one entry adds to the total of debt paid, whoever it was paid to. */
  function PaidBy(e: Entry): int {
    if e.DebtPaid? then e.amount else 0
  }

  /** Sum of the amounts of all `DebtCreated(user, _)` entries. */
  function CreatedTo(log: seq<Entry>, user: string): int {
    if log == [] then 0
    else CreatedTo(log[..|log| - 1], user) + CreatedBy(log[|log| - 1], user)
  }

  /** Sum of the amounts of all `DebtPaid(_)` entries, for every creditor. */
  function PaidTotal(log: seq<Entry>): int {
    if log == [] then 0
    else PaidTotal(log[..|log| - 1]) + PaidBy(log[|log| - 1])
  }

  /** "has debt to": created towards `user` strictly exceeds all paid. */
  predicate OwesTo(log: seq<Entry>, user: string) {
    CreatedTo(log, user) > PaidTotal(log)
  }

  lemma {:induction false} CreatedToAppend(a: seq<Entry>, b: seq<Entry>, user: string)
    ensures CreatedTo(a + b, user) == CreatedTo(a, user) + CreatedTo(b, user)
    decreases |b|
  {
    if b == [] {
      assert a + b == a;
    } else {
      var b' := b[..|b| - 1];
      assert (a + b)[..|a + b| - 1] == a + b';
      CreatedToAppend(a, b', user);
    }
  }

  lemma {:induction false} PaidTotalAppend(a: seq<Entry>, b: seq<Entry>)
    ensures PaidTotal(a + b) == PaidTotal(a) + PaidTotal(b)
    decreases |b|
  {
    if b == [] {
      assert a + b == a;
    } else {
      var b' := b[..|b| - 1];
      assert (a + b)[..|a + b| - 1] == a + b';
      PaidTotalAppend(a, b');
    }
  }

  /** Appending one entry moves each total by exactly that entry's amount. */
  lemma AppendEntry(log: seq<Entry>, e: Entry, user: string)
    ensures CreatedTo(log + [e], user) == CreatedTo(log, user) + CreatedBy(e, user)
    ensures PaidTotal(log + [e]) == PaidTotal(log) + PaidBy(e)
  {
    assert (log + [e])[..|log + [e]| - 1] == log;
  }

  /** A log with no debt entries at all. */
  predicate NoDebtEntries(log: seq<Entry>) {
    forall i :: 0 <= i < |log| ==> !log[i].DebtCreated? && !log[i].DebtPaid?
  }

  lemma {:induction false} NoDebtEntriesTotals(log: seq<Entry>, user: string)
    requires NoDebtEntries(log)
    ensures CreatedTo(log, user) == 0 && PaidTotal(log) == 0
    ensures !OwesTo(log, user)
    decreases |log|
  {
    if log != [] {
      NoDebtEntriesTotals(log[..|log| - 1], user);
    }
  }

  /**
   * Paid entries are not matched to their creditor: once enough debt has
   * been paid to one creditor, a later debt to another creditor is not
   * recognised, although it is still outstanding.
   */
  lemma PaymentsAreNotMatchedToCreditors()
    ensures var log := [DebtCreated("B", 100), DebtPaid(100), DebtCreated("C", 50)];
            CreatedTo(log, "C") == 50 && PaidTotal(log) == 100 && !OwesTo(log, "C")
  {
    var log := [DebtCreated("B", 100), DebtPaid(100), DebtCreated("C", 50)];
    AppendEntry([DebtCreated("B", 100)], DebtPaid(100), "C");
    AppendEntry([DebtCreated("B", 100), DebtPaid(100)], DebtCreated("C", 50), "C");
    AppendEntry([], DebtCreated("B", 100), "C");
  }
}
