/**
 * The session and transfer engine: at most one logged-in account
 * (`currentUser`), registration, login with the credit list, and the
 * transfer protocol, which either moves the whole amount or moves the
 * sender's balance and turns the shortfall into debt.
 *
 * The session's account is a detached copy of the stored record, and so is
 * the transfer target; each is written back by the saves the source makes,
 * at the points where it makes them.
 */
module Atm {
  import opened Ledger
  import opened Database
  import opened Accounts

  /** One line of the login-time credit list: who owes the new session, and how much debt they carry. */
  datatype Credit = Credit(debtor: string, debt: int)

  /** The credit list for `user` over a scan of records, in scan order. */
  function Credits(recs: seq<AccountRec>, user: string): seq<Credit>
    decreases |recs|
  {
    if recs == [] then []
    else
      var r := recs[|recs| - 1];
      Credits(recs[..|recs| - 1], user) +
        (if r.debt > 0 && OwesTo(r.history, user) then [Credit(r.username, r.debt)] else [])
  }

  /** A credit is listed exactly when some scanned account carries debt and has debt to `user`. */
  lemma {:induction false} CreditsMembers(recs: seq<AccountRec>, user: string, c: Credit)
    ensures c in Credits(recs, user) <==>
              exists i :: 0 <= i < |recs| && recs[i].username == c.debtor && recs[i].debt == c.debt &&
                          c.debt > 0 && OwesTo(recs[i].history, user)
    decreases |recs|
  {
    if recs != [] {
      var init := recs[..|recs| - 1];
      CreditsMembers(init, user, c);
      if c in Credits(init, user) {
        var i :| 0 <= i < |init| && init[i].username == c.debtor && init[i].debt == c.debt &&
                 c.debt > 0 && OwesTo(init[i].history, user);
        assert recs[i] == init[i];
      }
      if exists i :: 0 <= i < |recs| && recs[i].username == c.debtor && recs[i].debt == c.debt &&
                     c.debt > 0 && OwesTo(recs[i].history, user) {
        var i :| 0 <= i < |recs| && recs[i].username == c.debtor && recs[i].debt == c.debt &&
                 c.debt > 0 && OwesTo(recs[i].history, user);
        if i < |init| {
          assert init[i] == recs[i];
        }
      }
    }
  }

  /**
   * Phase one of a transfer: the stored target, or, when there is none, a
   * new account created with the PIN the user supplied.
   */
  function ResolveTarget(db: Db, name: string, newPin: string): Result<Change>
    requires WellFormed(db)
  {
    match Get(db, name)
    case Some(t) => Ok(Change(db, t))
    case None =>
      if !ValidPin(newPin) then Err(InvalidTargetPin)
      else Ok(Change(Save(db, Initial(name, newPin)), Initial(name, newPin)))
  }

  /**
   * An existing target is used as stored; an unknown one is created only
   * for a four-digit PIN, and otherwise nothing is created.
   */
  lemma ResolveTargetOutcome(db: Db, name: string, newPin: string)
    requires WellFormed(db)
    ensures name in db.records ==> ResolveTarget(db, name, newPin) == Ok(Change(db, db.records[name]))
    ensures name !in db.records ==>
              (ResolveTarget(db, name, newPin).Ok? <==> ValidPin(newPin))
    ensures name !in db.records && !ValidPin(newPin) ==>
              ResolveTarget(db, name, newPin) == Err(InvalidTargetPin) &&
              Message(ResolveTarget(db, name, newPin).error) == "PIN must be exactly 4 digits."
    ensures name !in db.records && ValidPin(newPin) ==>
              var c := ResolveTarget(db, name, newPin).value;
              && c.acct == Initial(name, newPin)
              && |c.db.records| == |db.records| + 1
              && Get(c.db, name) == Some(c.acct)
              && (forall u :: u != name ==> Get(c.db, u) == Get(db, u))
  {
    if name !in db.records && ValidPin(newPin) {
      SaveAdds(db, Initial(name, newPin));
    }
  }

  /** The outcome of phase two: status, store, and the sender's and target's copies. */
  datatype Transfer = Transfer(status: Status, db: Db, sender: AccountRec, target: AccountRec)

  /**
   * `#processTransfer` on the store, the sender's in-memory record and the
   * target's copy: the whole amount when the balance covers it, else the
   * partial transfer that records the shortfall as debt.
   */
  function TransferStep(db: Db, s: AccountRec, t: AccountRec, amount: int): (r: Transfer)
    requires WellFormed(db)
    ensures WellFormed(r.db)
  {
    if s.balance < amount then PartialStep(db, s, t, amount) else FullStep(db, s, t, amount)
  }

  /**
   * The partial transfer: the sender's whole balance goes to the target
   * (through a deposit, when it is positive), the shortfall is added to the
   * sender's debt, and both copies are saved, the sender first.
   */
  function PartialStep(db: Db, s: AccountRec, t: AccountRec, amount: int): (r: Transfer)
    requires WellFormed(db)
    ensures WellFormed(r.db)
  {
    var s2 := Shortfall(s, t.username, amount);
    var t1 := PartialTarget(t, s.balance);
    Transfer(Done, Save(Save(PartialDb(db, t, s.balance), s2), t1), s2, t1)
  }

  /** The target's copy after a partial transfer that moves balance `b`. */
  function PartialTarget(t: AccountRec, b: int): AccountRec {
    if b > 0 then Deposited(t, b) else t
  }

  /** The store after the target's deposit in a partial transfer that moves balance `b`. */
  function PartialDb(db: Db, t: AccountRec, b: int): (r: Db)
    requires WellFormed(db)
    ensures WellFormed(r)
  {
    if b > 0 then DepositStep(db, t, b).value.db else db
  }

  /** The sender's record after a partial transfer of `amount` to `target`. */
  function Shortfall(s: AccountRec, target: string, amount: int): AccountRec {
    var b := s.balance;
    s.(debt := s.debt + (amount - b), balance := 0,
       history := ShortfallLog(s.history, target, b, amount - b))
  }

  /** The log after a partial transfer: the amount moved, then the debt created. */
  function ShortfallLog(log: seq<Entry>, target: string, moved: int, owed: int): seq<Entry> {
    log + [TransferTo(target, moved)] + [DebtCreated(target, owed)]
  }

  /**
   * The full transfer: a withdrawal from the sender (saved), a deposit to
   * the target, then both copies are saved, the sender first.  A failure of
   * either leaves what was already saved.
   */
  function FullStep(db: Db, s: AccountRec, t: AccountRec, amount: int): (r: Transfer)
    requires WellFormed(db)
    ensures WellFormed(r.db)
  {
    match WithdrawStep(s, amount)
    case Err(e) => Transfer(Failed(e), db, s, t)
    case Ok(s1) =>
      var db1 := Save(db, s1);
      match DepositStep(db1, t, amount)
      case Err(e) => Transfer(Failed(e), db1, s1, t)
      case Ok(c) =>
        var s2 := s1.(history := s1.history + [TransferTo(t.username, amount)]);
        Transfer(Done, Save(Save(c.db, s2), c.acct), s2, c.acct)
  }

  class ATM {
    const store: Store
    var currentUser: Account?

    constructor (store: Store)
      ensures this.store == store && currentUser == null
    {
      this.store := store;
      currentUser := null;
    }

    /** `#requireLogin`. */
    method RequireLogin() returns (s: Status)
      ensures s == Failed(NoUserLoggedIn) <==> currentUser == null
      ensures s.Failed? ==> s == Failed(NoUserLoggedIn)
    {
      if currentUser == null {
        return Failed(NoUserLoggedIn);
      }
      return Done;
    }

    method Register(username: string, pin: string) returns (s: Status)
      requires store.Valid()
      modifies store
      ensures store.Valid()
      ensures username in old(store.records) ==>
                s == Failed(DuplicateAccount) && Message(s.error) == "Account already exists." &&
                store.State() == old(store.State())
      ensures username !in old(store.records) && !ValidPin(pin) ==>
                s == Failed(InvalidPin) && store.State() == old(store.State())
      ensures username !in old(store.records) && ValidPin(pin) ==>
                s == Done && store.State() == Save(old(store.State()), Initial(username, pin))
    {
      if store.GetAccount(username).Some? {
        return Failed(DuplicateAccount);
      }
      var created := Account.Create(username, pin);
      if created.Err? {
        return Failed(created.error);
      }
      store.SaveAccount(created.value.Snapshot());
      return Done;
    }

    /**
     * `login`, with the PIN the prompt would read supplied as `pin`.  On
     * success the result is the credit list the source prints.
     */
    method Login(username: string, pin: string) returns (r: Result<seq<Credit>>)
      requires store.Valid()
      modifies this, store
      ensures store.Valid()
      ensures old(currentUser) != null ==>
                && r == Err(AlreadyLoggedIn(old(currentUser).username))
                && Message(r.error) == old(currentUser).username + " is currently logged in."
                && currentUser == old(currentUser) && store.State() == old(store.State())
      ensures old(currentUser) == null && username !in old(store.records) ==>
                r == Err(AccountNotFound) && currentUser == null && store.State() == old(store.State())
      ensures old(currentUser) == null && username in old(store.records) ==>
                var stored := old(store.records)[username];
                var (v, a) := VerifyStep(stored, pin);
                && store.State() == (if stored.locked then old(store.State()) else Save(old(store.State()), a))
                && (v == Ok(true) ==>
                      && currentUser != null && fresh(currentUser) && currentUser.Snapshot() == a
                      && r == Ok(Credits(AllRecords(store.State()), username)))
                && (v == Ok(false) ==> r == Err(IncorrectPin) && currentUser == null)
                && (v.Err? ==> r == Err(v.error) && currentUser == null)
    {
      if currentUser != null {
        return Err(AlreadyLoggedIn(currentUser.username));
      }
      var found := store.GetAccount(username);
      if found.None? {
        return Err(AccountNotFound);
      }
      var account := new Account.FromRecord(found.value);
      var verdict := account.VerifyPin(pin, store);
      if verdict.Err? {
        return Err(verdict.error);
      }
      if !verdict.value {
        return Err(IncorrectPin);
      }
      currentUser := account;

      var credits := CreditList(username);
      return Ok(credits);
    }

    /** The login-time scan for accounts that carry debt and have debt to `username`. */
    method CreditList(username: string) returns (credits: seq<Credit>)
      requires store.Valid()
      ensures credits == Credits(AllRecords(store.State()), username)
    {
      var users := store.GetAllAccounts();
      credits := [];
      for i := 0 to |users|
        invariant credits == Credits(users[..i], username)
      {
        assert users[..i + 1][..i] == users[..i];
        var user := new Account.FromRecord(users[i]);
        if user.debt > 0 {
          var owes := user.HasDebtTo(username);
          if owes {
            credits := credits + [Credit(user.username, user.debt)];
          }
        }
      }
      assert users[..|users|] == users;
    }

    method Deposit(amount: int) returns (r: Result<int>)
      requires store.Valid()
      modifies currentUser, store
      ensures store.Valid()
      ensures currentUser == null ==> r == Err(NoUserLoggedIn) && store.State() == old(store.State())
      ensures currentUser != null ==>
                var d := DepositStep(old(store.State()), old(currentUser.Snapshot()), amount);
                && (d.Err? ==> r == Err(d.error) && currentUser.Snapshot() == old(currentUser.Snapshot())
                               && store.State() == old(store.State()))
                && (d.Ok? ==> r == Ok(d.value.acct.balance) && currentUser.Snapshot() == d.value.acct
                              && store.State() == d.value.db)
    {
      var login := RequireLogin();
      if login.Failed? {
        return Err(login.error);
      }
      var s := currentUser.Deposit(amount, store);
      if s.Failed? {
        return Err(s.error);
      }
      return Ok(currentUser.balance);
    }

    method Withdraw(amount: int) returns (r: Result<int>)
      requires store.Valid()
      modifies currentUser, store
      ensures store.Valid()
      ensures currentUser == null ==> r == Err(NoUserLoggedIn) && store.State() == old(store.State())
      ensures currentUser != null ==>
                var w := WithdrawStep(old(currentUser.Snapshot()), amount);
                && (w.Err? ==> r == Err(w.error) && currentUser.Snapshot() == old(currentUser.Snapshot())
                               && store.State() == old(store.State()))
                && (w.Ok? ==> r == Ok(w.value.balance) && currentUser.Snapshot() == w.value
                              && store.State() == Save(old(store.State()), w.value))
    {
      var login := RequireLogin();
      if login.Failed? {
        return Err(login.error);
      }
      var s := currentUser.Withdraw(amount, store);
      if s.Failed? {
        return Err(s.error);
      }
      return Ok(currentUser.balance);
    }

    /**
     * `transfer`, with the PIN the prompt would read for a new target
     * supplied as `newPin` (it is only consulted when the target is unknown).
     */
    method Transfer(targetName: string, amount: int, newPin: string) returns (s: Status)
      requires store.Valid()
      modifies currentUser, store
      ensures store.Valid()
      ensures currentUser == null ==> s == Failed(NoUserLoggedIn) && store.State() == old(store.State())
      ensures currentUser != null ==>
                var t := ResolveTarget(old(store.State()), targetName, newPin);
                && (t.Err? ==> s == Failed(t.error) && currentUser.Snapshot() == old(currentUser.Snapshot())
                               && store.State() == old(store.State()))
                && (t.Ok? ==>
                      var tr := TransferStep(t.value.db, old(currentUser.Snapshot()), t.value.acct, amount);
                      s == tr.status && currentUser.Snapshot() == tr.sender && store.State() == tr.db)
    {
      var login := RequireLogin();
      if login.Failed? {
        return login;
      }
      var found := store.GetAccount(targetName);
      var targetAccount: Account;
      if found.None? {
        if !ValidPin(newPin) {
          return Failed(InvalidTargetPin);
        }
        targetAccount := new Account.FromRecord(Initial(targetName, newPin));
        store.SaveAccount(targetAccount.Snapshot());
      } else {
        targetAccount := new Account.FromRecord(found.value);
      }
      s := ProcessTransfer(targetAccount, amount);
    }

    /** `#processTransfer`: proved to do what `TransferStep` describes. */
    method ProcessTransfer(targetAccount: Account, amount: int) returns (s: Status)
      requires store.Valid() && currentUser != null && targetAccount != currentUser
      modifies currentUser, targetAccount, store
      ensures store.Valid()
      ensures var tr := TransferStep(old(store.State()), old(currentUser.Snapshot()), old(targetAccount.Snapshot()), amount);
        && s == tr.status && store.State() == tr.db
        && currentUser.Snapshot() == tr.sender && targetAccount.Snapshot() == tr.target
    {
      if currentUser.balance < amount {
        ProcessPartial(currentUser, targetAccount, amount);
        s := Done;
      } else {
        s := ProcessFull(currentUser, targetAccount, amount);
      }
    }

    /** The branch of `#processTransfer` taken when the balance is short. */
    method ProcessPartial(sender: Account, targetAccount: Account, amount: int)
      requires store.Valid() && sender != targetAccount && sender.balance < amount
      modifies sender, targetAccount, store
      ensures store.Valid()
      ensures var tr := PartialStep(old(store.State()), old(sender.Snapshot()), old(targetAccount.Snapshot()), amount);
        && store.State() == tr.db && sender.Snapshot() == tr.sender && targetAccount.Snapshot() == tr.target
    {
      ghost var db0, s0, t0 := store.State(), sender.Snapshot(), targetAccount.Snapshot();
      var debtAmount := amount - sender.balance;
      var transferred := sender.balance;
      sender.debt := sender.debt + debtAmount;
      PayTarget(targetAccount, transferred);
      assert targetAccount.username == t0.username;
      assert sender.Snapshot() == s0.(debt := s0.debt + debtAmount);
      ghost var db1 := store.State();
      CloseShortfall(sender, targetAccount, transferred, debtAmount);
      assert sender.Snapshot() == Shortfall(s0, t0.username, amount);
      assert store.State() == Save(Save(db1, sender.Snapshot()), targetAccount.Snapshot());
      ghost var tr := PartialStep(db0, s0, t0, amount);
      assert tr.sender == sender.Snapshot() && tr.target == targetAccount.Snapshot();
      assert tr.db == store.State();
    }

    /** The deposit of the partial branch, made only when the sender's balance was positive. */
    method PayTarget(targetAccount: Account, transferred: int)
      requires store.Valid()
      modifies targetAccount, store
      ensures store.Valid()
      ensures store.State() == PartialDb(old(store.State()), old(targetAccount.Snapshot()), transferred)
      ensures targetAccount.Snapshot() == PartialTarget(old(targetAccount.Snapshot()), transferred)
    {
      if transferred > 0 {
        var _ := targetAccount.Deposit(transferred, store);
      }
    }

    /**
     * The rest of the partial branch: the sender's balance goes to zero, the
     * transfer and the debt are logged, and both copies are saved.
     */
    method CloseShortfall(sender: Account, targetAccount: Account, transferred: int, debtAmount: int)
      requires store.Valid() && sender != targetAccount
      modifies sender, store
      ensures store.Valid()
      ensures sender.Snapshot() ==
                old(sender.Snapshot()).(balance := 0,
                  history := ShortfallLog(old(sender.history), targetAccount.username, transferred, debtAmount))
      ensures store.State() == Save(Save(old(store.State()), sender.Snapshot()), targetAccount.Snapshot())
    {
      sender.balance := 0;
      sender.LogTransaction(TransferTo(targetAccount.username, transferred));
      sender.LogTransaction(DebtCreated(targetAccount.username, debtAmount));
      store.SaveAccount(sender.Snapshot());
      store.SaveAccount(targetAccount.Snapshot());
    }

    /** The branch of `#processTransfer` taken when the balance covers the amount. */
    method ProcessFull(sender: Account, targetAccount: Account, amount: int) returns (s: Status)
      requires store.Valid() && sender != targetAccount && sender.balance >= amount
      modifies sender, targetAccount, store
      ensures store.Valid()
      ensures var tr := FullStep(old(store.State()), old(sender.Snapshot()), old(targetAccount.Snapshot()), amount);
        && s == tr.status && store.State() == tr.db
        && sender.Snapshot() == tr.sender && targetAccount.Snapshot() == tr.target
    {
      var w := sender.Withdraw(amount, store);
      if w.Failed? {
        return w;
      }
      var d := targetAccount.Deposit(amount, store);
      if d.Failed? {
        return d;
      }
      sender.LogTransaction(TransferTo(targetAccount.username, amount));
      store.SaveAccount(sender.Snapshot());
      store.SaveAccount(targetAccount.Snapshot());
      return Done;
    }

    /** `history`: the log's details, oldest first. */
    method History() returns (r: Result<seq<Entry>>)
      ensures currentUser == null ==> r == Err(NoUserLoggedIn)
      ensures currentUser != null ==> r == Ok(currentUser.history)
    {
      var login := RequireLogin();
      if login.Failed? {
        return Err(login.error);
      }
      return Ok(currentUser.history);
    }

    /** `balance`: the balance and the debt it reports. */
    method Balance() returns (r: Result<(int, int)>)
      ensures currentUser == null ==> r == Err(NoUserLoggedIn)
      ensures currentUser != null ==> r == Ok((currentUser.balance, currentUser.debt))
    {
      var login := RequireLogin();
      if login.Failed? {
        return Err(login.error);
      }
      return Ok((currentUser.balance, currentUser.debt));
    }

    method Logout()
      requires currentUser != null
      modifies this
      ensures currentUser == null
    {
      currentUser := null;
    }
  }
}
