/**
 * The account entity: PIN verification with a three-strikes lockout,
 * deposits that first pay off debt and credit the creditor found by a scan
 * of the store, withdrawals under a per-call cap, and the append-only log.
 *
 * Each state-changing operation is a method of `Account` that is proved to
 * implement a function on account records (`VerifyStep`, `DepositStep`,
 * `WithdrawStep`); what the source promises is proved about those functions.
 */
module Accounts {
  import opened Ledger
  import opened Database

  /** The per-call withdrawal cap. */
  const WithdrawLimit: int := 1000

  /** The number of consecutive wrong PINs that locks an account. */
  const MaxAttempts: int := 3

  function Min(x: int, y: int): int {
    if x <= y then x else y
  }

  // ---------------------------------------------------------------------
  // PIN verification

  /**
   * `verifyPIN` on a record: the verdict (true, false, or one of the two
   * lockout errors) and the record afterwards.
   */
  function VerifyStep(a: AccountRec, input: string): (Result<bool>, AccountRec) {
    if a.locked then (Err(AccountLocked), a)
    else if input == a.hashedPin then (Ok(true), a.(failedAttempts := 0))
    else
      var n := a.failedAttempts + 1;
      var a' := a.(failedAttempts := n, locked := n >= MaxAttempts);
      (if a'.locked then Err(LockedAfterAttempts) else Ok(false), a')
  }

  /** A locked account refuses every PIN and changes no field. */
  lemma VerifyLocked(a: AccountRec, input: string)
    requires a.locked
    ensures VerifyStep(a, input) == (Err(AccountLocked), a)
  {
  }

  /**
   * An unlocked account: the correct PIN answers true and clears the
   * counter; a wrong one adds exactly one failure, answers false below the
   * limit and locks with an error when the count reaches it.  Nothing else
   * in the record changes.
   */
  lemma VerifyUnlocked(a: AccountRec, input: string)
    requires !a.locked
    ensures var (v, a') := VerifyStep(a, input);
      && (input == a.hashedPin ==> v == Ok(true) && a' == a.(failedAttempts := 0))
      && (input != a.hashedPin ==>
            && a'.failedAttempts == a.failedAttempts + 1
            && a' == a.(failedAttempts := a'.failedAttempts, locked := a'.locked)
            && (a'.locked <==> a'.failedAttempts >= MaxAttempts)
            && (v == Ok(false) <==> !a'.locked)
            && (v == Err(LockedAfterAttempts) <==> a'.locked))
  {
  }

  /** The record after a series of PIN attempts, one per element of `pins`. */
  function AfterAttempts(a: AccountRec, pins: seq<string>): AccountRec
    decreases |pins|
  {
    if pins == [] then a else AfterAttempts(VerifyStep(a, pins[0]).1, pins[1..])
  }

  lemma {:induction false} LockedStaysLocked(a: AccountRec, pins: seq<string>)
    requires a.locked
    ensures AfterAttempts(a, pins) == a
    decreases |pins|
  {
    if pins != [] {
      LockedStaysLocked(a, pins[1..]);
    }
  }

  /**
   * Consecutive wrong PINs: the counter climbs by one per attempt up to
   * the limit, and the account is locked exactly when the failures reach
   * three; fewer never lock it.
   */
  lemma {:induction false} ConsecutiveFailures(a: AccountRec, pins: seq<string>)
    requires !a.locked && 0 <= a.failedAttempts < MaxAttempts
    requires forall i :: 0 <= i < |pins| ==> pins[i] != a.hashedPin
    ensures AfterAttempts(a, pins).locked <==> a.failedAttempts + |pins| >= MaxAttempts
    ensures AfterAttempts(a, pins).failedAttempts == Min(a.failedAttempts + |pins|, MaxAttempts)
    ensures AfterAttempts(a, pins).balance == a.balance && AfterAttempts(a, pins).history == a.history
    decreases |pins|
  {
    if pins != [] {
      var b := VerifyStep(a, pins[0]).1;
      if b.locked {
        LockedStaysLocked(b, pins[1..]);
      } else {
        ConsecutiveFailures(b, pins[1..]);
      }
    }
  }

  /** Three wrong PINs on a new account: false, false, then the lockout error. */
  lemma ThreeStrikes(username: string, pin: string, w1: string, w2: string, w3: string)
    requires w1 != pin && w2 != pin && w3 != pin
    ensures var a0 := Initial(username, pin);
      var (v1, a1) := VerifyStep(a0, w1);
      var (v2, a2) := VerifyStep(a1, w2);
      var (v3, a3) := VerifyStep(a2, w3);
      && v1 == Ok(false) && a1.failedAttempts == 1 && !a1.locked
      && v2 == Ok(false) && a2.failedAttempts == 2 && !a2.locked
      && v3 == Err(LockedAfterAttempts) && a3.locked
      && VerifyStep(a3, pin) == (Err(AccountLocked), a3)
  {
  }

  // ---------------------------------------------------------------------
  // Withdrawal

  /** `withdraw` on a record. */
  function WithdrawStep(a: AccountRec, amount: int): Result<AccountRec> {
    if amount > WithdrawLimit then Err(OverLimit)
    else if a.balance < amount then Err(InsufficientBalance)
    else Ok(Withdrawn(a, amount))
  }

  /** The record after an accepted withdrawal of `amount`. */
  function Withdrawn(a: AccountRec, amount: int): AccountRec {
    a.(balance := a.balance - amount,
       dailyWithdrawn := a.dailyWithdrawn + amount,
       history := a.history + [Withdraw(amount)])
  }

  /**
   * The cap is checked first, whatever the balance; then the balance; a
   * successful withdrawal moves balance and counter by exactly the amount.
   */
  lemma WithdrawOutcome(a: AccountRec, amount: int)
    ensures WithdrawStep(a, amount) == Err(OverLimit) <==> amount > WithdrawLimit
    ensures WithdrawStep(a, amount) == Err(InsufficientBalance) <==>
              amount <= WithdrawLimit && a.balance < amount
    ensures WithdrawStep(a, amount).Ok? ==>
              var a' := WithdrawStep(a, amount).value;
              && a'.balance == a.balance - amount
              && a'.dailyWithdrawn == a.dailyWithdrawn + amount
              && a'.history == a.history + [Withdraw(amount)]
              && a'.debt == a.debt && a'.username == a.username && a'.locked == a.locked
              && a' == a.(balance := a'.balance, dailyWithdrawn := a'.dailyWithdrawn, history := a'.history)
  {
  }

  /** No withdrawal makes the balance negative, not even a negative one. */
  lemma WithdrawSolvent(a: AccountRec, amount: int)
    requires Solvent(a)
    ensures WithdrawStep(a, amount).Ok? ==> Solvent(WithdrawStep(a, amount).value)
  {
  }

  // ---------------------------------------------------------------------
  // Deposit and the debt resolver

  /** The part of a deposit that goes to pay debt. */
  function Payment(debt: int, amount: int): int {
    if debt > 0 then Min(debt, amount) else 0
  }

  /**
   * The position of the first record in `recs` that `log` owes to, or
   * `|recs|` when there is none: the scan with its early exit.
   */
  function FirstCreditor(log: seq<Entry>, recs: seq<AccountRec>): (k: nat)
    ensures k <= |recs|
    ensures forall j :: 0 <= j < k ==> !OwesTo(log, recs[j].username)
    ensures k < |recs| ==> OwesTo(log, recs[k].username)
    decreases |recs|
  {
    if recs == [] then 0
    else if OwesTo(log, recs[0].username) then 0
    else 1 + FirstCreditor(log, recs[1..])
  }

  /** A creditor's record after `debtor` has repaid it `p`. */
  function Credited(c: AccountRec, debtor: string, p: int): AccountRec {
    c.(balance := c.balance + p, history := c.history + [DebtPaidBy(debtor, p)])
  }

  /** The store after the debt resolver has credited `p` to `a`'s first creditor. */
  function Repaid(db: Db, a: AccountRec, p: int): Db
    requires WellFormed(db)
  {
    var recs := AllRecords(db);
    var k := FirstCreditor(a.history, recs);
    if k < |recs| then Save(db, Credited(recs[k], a.username, p)) else db
  }

  /** The resolver looks only at the depositor's name and log. */
  lemma RepaidReadsLogOnly(db: Db, a: AccountRec, b: AccountRec, p: int)
    requires WellFormed(db) && a.username == b.username && a.history == b.history
    ensures Repaid(db, a, p) == Repaid(db, b, p)
  {
  }

  /** The depositor's own record after a positive deposit of `amount`. */
  function Deposited(a: AccountRec, amount: int): (r: AccountRec)
    ensures r.username == a.username
  {
    var p := Payment(a.debt, amount);
    var paid := if a.debt > 0 then a.(debt := a.debt - p, history := a.history + [DebtPaid(p)]) else a;
    var rest := amount - p;
    if rest > 0 then paid.(balance := paid.balance + rest, history := paid.history + [Deposit(rest)])
    else paid
  }

  /** A new store together with a new record for the account that acted. */
  datatype Change = Change(db: Db, acct: AccountRec)

  /**
   * `deposit` on a record and a store: refuse a non-positive amount, else
   * pay debt (crediting the first creditor in store order), credit the
   * rest and save the depositor.
   */
  function DepositStep(db: Db, a: AccountRec, amount: int): (r: Result<Change>)
    requires WellFormed(db)
    ensures r.Ok? ==> WellFormed(r.value.db)
  {
    if amount <= 0 then Err(NonPositiveDeposit)
    else
      var a' := Deposited(a, amount);
      var db1 := if a.debt > 0 then Repaid(db, a, Payment(a.debt, amount)) else db;
      Ok(Change(Save(db1, a'), a'))
  }

  /** What a deposit does to the depositor. */
  lemma DepositEffect(a: AccountRec, amount: int)
    requires amount > 0 && a.debt >= 0
    ensures var p := Payment(a.debt, amount); var a' := Deposited(a, amount);
      && 0 <= p <= amount && p <= a.debt
      && a'.debt == a.debt - p && a'.debt >= 0
      && a'.balance == a.balance + (amount - p)
      && a'.history == a.history + (if a.debt > 0 then [DebtPaid(p)] else [])
                                 + (if amount - p > 0 then [Deposit(amount - p)] else [])
      && (amount >= a.debt ==> a'.debt == 0)
      && (a.debt == 0 ==> a'.balance == a.balance + amount && a'.history == a.history + [Deposit(amount)])
      && a'.username == a.username && a'.hashedPin == a.hashedPin && a'.locked == a.locked
      && a'.failedAttempts == a.failedAttempts && a'.dailyWithdrawn == a.dailyWithdrawn
  {
  }

  /**
   * What a deposit does to the store: a non-positive amount changes
   * nothing; otherwise the depositor's new record is saved, and of the other
   * accounts at most one changes: the first in store order that the
   * depositor owes, which gains exactly the payment and one entry.
   */
  lemma DepositStore(db: Db, a: AccountRec, amount: int, v: string)
    requires WellFormed(db)
    ensures amount <= 0 <==> DepositStep(db, a, amount) == Err(NonPositiveDeposit)
    ensures amount > 0 ==>
      var c := DepositStep(db, a, amount).value;
      var recs := AllRecords(db);
      var k := FirstCreditor(a.history, recs);
      var p := Payment(a.debt, amount);
      && c.acct == Deposited(a, amount)
      && WellFormed(c.db)
      && Get(c.db, a.username) == Some(c.acct)
      && (v != a.username ==>
            if a.debt > 0 && k < |recs| && recs[k].username == v
            then Get(c.db, v) == Some(Credited(db.records[v], a.username, p))
            else Get(c.db, v) == Get(db, v))
  {
  }

  /** Deposits keep every account solvent. */
  lemma DepositSolvent(db: Db, a: AccountRec, amount: int)
    requires WellFormed(db) && AllSolvent(db) && Solvent(a) && amount > 0
    ensures Solvent(DepositStep(db, a, amount).value.acct)
    ensures AllSolvent(DepositStep(db, a, amount).value.db)
  {
    var p := Payment(a.debt, amount);
    DepositEffect(a, amount);
    var a' := Deposited(a, amount);
    var db1 := if a.debt > 0 then Repaid(db, a, p) else db;
    if a.debt > 0 {
      var recs := AllRecords(db);
      var k := FirstCreditor(a.history, recs);
      if k < |recs| {
        SaveSolvent(db, Credited(recs[k], a.username, p));
      }
    }
    assert AllSolvent(db1);
    SaveSolvent(db1, a');
    assert DepositStep(db, a, amount) == Ok(Change(Save(db1, a'), a'));
  }

  /**
   * With no debt, a deposit of `x` followed by a withdrawal of `y` within
   * the cap and the new balance succeeds, leaves the balance moved by
   * x - y and logs both entries.
   */
  lemma DepositThenWithdraw(a: AccountRec, x: int, y: int)
    requires a.debt == 0 && a.balance >= 0 && x > 0 && y <= WithdrawLimit && y <= a.balance + x
    ensures WithdrawStep(Deposited(a, x), y).Ok?
    ensures WithdrawStep(Deposited(a, x), y).value.balance == a.balance + x - y
    ensures WithdrawStep(Deposited(a, x), y).value.history == a.history + [Deposit(x), Withdraw(y)]
  {
    DepositEffect(a, x);
    assert a.history + [Deposit(x)] + [Withdraw(y)] == a.history + [Deposit(x), Withdraw(y)];
  }

  /** A new account deposits 1000 and withdraws 500, leaving 500. */
  lemma ValidWithdrawal()
    ensures var a := WithdrawStep(Deposited(Initial("Kevin", "1234"), 1000), 500);
      a.Ok? && a.value.balance == 500
  {
    DepositThenWithdraw(Initial("Kevin", "1234"), 1000, 500);
  }

  // ---------------------------------------------------------------------
  // The entity

  class Account {
    const username: string
    var hashedPin: string
    var balance: int
    var history: seq<Entry>
    var dailyWithdrawn: int
    var debt: int
    var failedAttempts: int
    var locked: bool

    /** The record `saveAccount` writes for this account. */
    function Snapshot(): AccountRec
      reads this
    {
      AccountRec(username, hashedPin, balance, history, dailyWithdrawn, debt, failedAttempts, locked)
    }

    /** A fresh object holding a stored record's fields, as the store's reads build one. */
    constructor FromRecord(r: AccountRec)
      ensures Snapshot() == r
    {
      username, hashedPin, balance, history := r.username, r.hashedPin, r.balance, r.history;
      dailyWithdrawn, debt, failedAttempts, locked := r.dailyWithdrawn, r.debt, r.failedAttempts, r.locked;
    }

    /** `new Account(username, pin)`: refuses a PIN that is not four digits. */
    static method Create(username: string, pin: string) returns (r: Result<Account>)
      ensures r.Err? <==> !ValidPin(pin)
      ensures r.Err? ==> r.error == InvalidPin && Message(r.error) == "PIN must be numbers and exactly 4 digits."
      ensures r.Ok? ==> fresh(r.value) && r.value.Snapshot() == Initial(username, pin)
    {
      if !ValidPin(pin) {
        return Err(InvalidPin);
      }
      var a := new Account.FromRecord(Initial(username, pin));
      return Ok(a);
    }

    method VerifyPin(input: string, store: Store) returns (r: Result<bool>)
      requires store.Valid()
      modifies this, store
      ensures store.Valid()
      ensures (r, Snapshot()) == VerifyStep(old(Snapshot()), input)
      ensures store.State() == if old(locked) then old(store.State()) else Save(old(store.State()), Snapshot())
    {
      if locked {
        return Err(AccountLocked);
      }
      if input == hashedPin {
        failedAttempts := 0;
        store.SaveAccount(Snapshot());
        return Ok(true);
      }
      failedAttempts := failedAttempts + 1;
      if failedAttempts >= MaxAttempts {
        locked := true;
      }
      store.SaveAccount(Snapshot());
      if locked {
        return Err(LockedAfterAttempts);
      }
      return Ok(false);
    }

    method LogTransaction(e: Entry)
      modifies this
      ensures Snapshot() == old(Snapshot()).(history := old(history) + [e])
    {
      history := history + [e];
    }

    /** The loop with its two running totals. */
    method HasDebtTo(user: string) returns (owes: bool)
      ensures owes == OwesTo(history, user)
    {
      var totalDebt, totalPaid := 0, 0;
      for i := 0 to |history|
        invariant totalDebt == CreatedTo(history[..i], user)
        invariant totalPaid == PaidTotal(history[..i])
      {
        assert history[..i + 1][..i] == history[..i];
        match history[i]
        case DebtCreated(c, n) =>
          if c == user {
            totalDebt := totalDebt + n;
          }
        case DebtPaid(n) =>
          totalPaid := totalPaid + n;
        case _ =>
      }
      assert history[..|history|] == history;
      owes := totalDebt > totalPaid;
    }

    method Withdraw(amount: int, store: Store) returns (s: Status)
      requires store.Valid()
      modifies this, store
      ensures store.Valid()
      ensures var r := WithdrawStep(old(Snapshot()), amount);
        && (r.Err? ==> s == Failed(r.error) && Snapshot() == old(Snapshot()) && store.State() == old(store.State()))
        && (r.Ok? ==> s == Done && Snapshot() == r.value && store.State() == Save(old(store.State()), r.value))
    {
      if amount > WithdrawLimit {
        return Failed(OverLimit);
      }
      if balance < amount {
        return Failed(InsufficientBalance);
      }
      balance := balance - amount;
      dailyWithdrawn := dailyWithdrawn + amount;
      LogTransaction(Entry.Withdraw(amount));
      store.SaveAccount(Snapshot());
      return Done;
    }

    /**
     * The resolver's scan: credit `payment` to the first account in store
     * order that this account has debt to, and save it; this account itself
     * is not changed.
     */
    method PayFirstCreditor(payment: int, store: Store)
      requires store.Valid()
      modifies store
      ensures store.Valid()
      ensures store.State() == Repaid(old(store.State()), Snapshot(), payment)
    {
      var users := store.GetAllAccounts();
      ghost var found := |users|;
      var i := 0;
      while i < |users|
        invariant 0 <= i <= |users|
        invariant forall j :: 0 <= j < i ==> !OwesTo(history, users[j].username)
        invariant store.State() == old(store.State())
      {
        var owes := HasDebtTo(users[i].username);
        if owes {
          var user := new Account.FromRecord(users[i]);
          user.balance := user.balance + payment;
          user.LogTransaction(DebtPaidBy(username, payment));
          assert user.Snapshot() == Credited(users[i], username, payment);
          store.SaveAccount(user.Snapshot());
          found := i;
          break;
        }
        i := i + 1;
      }
      assert found == FirstCreditor(history, users);
      assert found < |users| ==> store.State() == Save(old(store.State()), Credited(users[found], username, payment));
    }

    method Deposit(amount: int, store: Store) returns (s: Status)
      requires store.Valid()
      modifies this, store
      ensures store.Valid()
      ensures var r := DepositStep(old(store.State()), old(Snapshot()), amount);
        && (r.Err? ==> s == Failed(r.error) && Snapshot() == old(Snapshot()) && store.State() == old(store.State()))
        && (r.Ok? ==> s == Done && Snapshot() == r.value.acct && store.State() == r.value.db)
    {
      if amount <= 0 {
        return Failed(NonPositiveDeposit);
      }
      ghost var a0, db0 := Snapshot(), store.State();
      var rest := amount;
      if debt > 0 {
        var payment := Min(debt, amount);
        debt := debt - payment;
        rest := rest - payment;

        PayFirstCreditor(payment, store);
        RepaidReadsLogOnly(db0, Snapshot(), a0, payment);
        LogTransaction(DebtPaid(payment));
      }
      assert store.State() == (if a0.debt > 0 then Repaid(db0, a0, Payment(a0.debt, amount)) else db0);
      if rest > 0 {
        balance := balance + rest;
        LogTransaction(Entry.Deposit(rest));
      }
      assert Snapshot() == Deposited(a0, amount);
      store.SaveAccount(Snapshot());
      return Done;
    }
  }
}
