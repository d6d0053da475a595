/**
 * What a transfer does to the sender, the target and the rest of the store,
 * including the effects of the detached copies: the sender's final save
 * discards a repayment credited to it in the store, and a self-transfer ends
 * with the target copy's record.
 */
module TransferProperties {
  import opened Ledger
  import opened Database
  import opened Accounts
  import opened Atm

  /** Over the cap, a covered transfer fails in the withdrawal and changes nothing. */
  lemma TransferOverLimit(db: Db, s: AccountRec, t: AccountRec, amount: int)
    requires WellFormed(db) && WithdrawLimit < amount <= s.balance
    ensures TransferStep(db, s, t, amount) == Transfer(Failed(OverLimit), db, s, t)
  {
  }

  /**
   * A transfer of a non-positive amount: the withdrawal succeeds and is
   * saved (raising the balance when the amount is negative), then the
   * target's deposit refuses it.
   */
  lemma NonPositiveTransfer(db: Db, s: AccountRec, t: AccountRec, amount: int, tr: Transfer)
    requires WellFormed(db) && s.balance >= 0 && amount <= 0
    requires tr == TransferStep(db, s, t, amount)
    ensures tr.status == Failed(NonPositiveDeposit)
    ensures tr.sender == Withdrawn(s, amount) && tr.sender.balance >= s.balance
    ensures tr.db == Save(db, tr.sender) && tr.target == t
  {
  }

  /** The shape of a covered transfer within the cap. */
  lemma FullShape(db: Db, s: AccountRec, t: AccountRec, amount: int)
    requires WellFormed(db) && 0 < amount <= WithdrawLimit && amount <= s.balance
    ensures var s1 := Withdrawn(s, amount);
      var s2 := s1.(history := s1.history + [TransferTo(t.username, amount)]);
      && WithdrawStep(s, amount) == Ok(s1)
      && DepositStep(Save(db, s1), t, amount).Ok?
      && var c := DepositStep(Save(db, s1), t, amount).value;
         TransferStep(db, s, t, amount) == Transfer(Done, Save(Save(c.db, s2), c.acct), s2, c.acct)
  {
  }

  /**
   * A covered transfer between two accounts within the cap: the sender
   * loses exactly the amount and logs the withdrawal and the transfer, the
   * target receives a deposit of the amount, both copies end in the store,
   * and of the others only the target's first creditor can change.
   */
  lemma FullTransfer(db: Db, s: AccountRec, t: AccountRec, amount: int, tr: Transfer, v: string)
    requires WellFormed(db) && s.username != t.username
    requires 0 < amount <= WithdrawLimit && amount <= s.balance
    requires tr == TransferStep(db, s, t, amount)
    ensures tr.status == Done
    ensures tr.sender == Withdrawn(s, amount).(history := Withdrawn(s, amount).history + [TransferTo(t.username, amount)])
    ensures tr.sender.balance == s.balance - amount
    ensures tr.target == Deposited(t, amount)
    ensures Get(tr.db, s.username) == Some(tr.sender)
    ensures Get(tr.db, t.username) == Some(tr.target)
    ensures var recs := AllRecords(Save(db, Withdrawn(s, amount)));
      var k := FirstCreditor(t.history, recs);
      v != s.username && v != t.username ==>
        if t.debt > 0 && k < |recs| && recs[k].username == v
        then Get(tr.db, v) == Some(Credited(db.records[v], t.username, Payment(t.debt, amount)))
        else Get(tr.db, v) == Get(db, v)
  {
    var s1 := Withdrawn(s, amount);
    var s2 := s1.(history := s1.history + [TransferTo(t.username, amount)]);
    FullShape(db, s, t, amount);
    DepositStore(Save(db, s1), t, amount, v);
    var c := DepositStep(Save(db, s1), t, amount).value;
    assert tr.sender == s2 && tr.target == c.acct && tr.db == Save(Save(c.db, s2), c.acct);
  }

  /** When the target has no debt, a full transfer preserves the sum of the two balances. */
  lemma FullTransferConserves(db: Db, s: AccountRec, t: AccountRec, amount: int, tr: Transfer)
    requires WellFormed(db) && s.username != t.username && t.debt == 0
    requires 0 < amount <= WithdrawLimit && amount <= s.balance
    requires tr == TransferStep(db, s, t, amount)
    ensures tr.sender.balance + tr.target.balance == s.balance + t.balance
    ensures Get(tr.db, s.username).value.balance + Get(tr.db, t.username).value.balance == s.balance + t.balance
    ensures forall v :: v != s.username && v != t.username ==> Get(tr.db, v) == Get(db, v)
  {
    FullTransfer(db, s, t, amount, tr, t.username);
    forall v | v != s.username && v != t.username
      ensures Get(tr.db, v) == Get(db, v)
    {
      FullTransfer(db, s, t, amount, tr, v);
    }
  }

  /**
   * The target's repayment can reach the sender's stored record, but the
   * sender's final save overwrites it: the two stored balances then lose
   * exactly the payment.
   */
  lemma RepaymentToSenderIsOverwritten(db: Db, s: AccountRec, t: AccountRec, amount: int, tr: Transfer)
    requires WellFormed(db) && s.username != t.username && t.debt > 0
    requires 0 < amount <= WithdrawLimit && amount <= s.balance
    requires var recs := AllRecords(Save(db, Withdrawn(s, amount)));
             var k := FirstCreditor(t.history, recs);
             k < |recs| && recs[k].username == s.username
    requires tr == TransferStep(db, s, t, amount)
    ensures var s1 := Withdrawn(s, amount);
            var mid := DepositStep(Save(db, s1), t, amount).value.db;
            Get(mid, s.username) == Some(Credited(s1, t.username, Payment(t.debt, amount)))
    ensures Payment(t.debt, amount) > 0
    ensures Get(tr.db, s.username) == Some(tr.sender)
    ensures Get(tr.db, s.username).value.balance + Get(tr.db, t.username).value.balance ==
              s.balance + t.balance - Payment(t.debt, amount)
  {
    var s1 := Withdrawn(s, amount);
    var recs := AllRecords(Save(db, s1));
    var k := FirstCreditor(t.history, recs);
    assert recs[k] == Save(db, s1).records[s.username] == s1;
    DepositStore(Save(db, s1), t, amount, s.username);
    FullTransfer(db, s, t, amount, tr, s.username);
  }

  /**
   * A self-transfer: the target is a second copy of the sender's record.
   * The store ends with that copy plus the amount, while the session's copy
   * has lost the amount.
   */
  lemma SelfTransfer(db: Db, s: AccountRec, amount: int, tr: Transfer)
    requires WellFormed(db) && s.username in db.records && db.records[s.username].debt == 0
    requires 0 < amount <= WithdrawLimit && amount <= s.balance
    requires tr == TransferStep(db, s, db.records[s.username], amount)
    ensures tr.status == Done
    ensures tr.sender.balance == s.balance - amount
    ensures Get(tr.db, s.username) == Some(tr.target)
    ensures tr.target.balance == db.records[s.username].balance + amount
  {
  }

  /**
   * A partial transfer: the sender's whole balance moves (a deposit on the
   * target only when it is positive), the shortfall becomes debt, two
   * entries are logged, and no withdrawal cap applies.
   */
  lemma PartialTransfer(db: Db, s: AccountRec, t: AccountRec, amount: int, tr: Transfer)
    requires WellFormed(db) && s.username != t.username && 0 <= s.balance < amount
    requires tr == TransferStep(db, s, t, amount)
    ensures tr.status == Done
    ensures tr.sender.balance == 0
    ensures tr.sender.debt == s.debt + (amount - s.balance)
    ensures tr.sender.history == s.history + [TransferTo(t.username, s.balance)] + [DebtCreated(t.username, amount - s.balance)]
    ensures tr.sender.dailyWithdrawn == s.dailyWithdrawn
    ensures Get(tr.db, s.username) == Some(tr.sender)
  {
    PartialSender(db, s, t, amount, tr);
    ShortfallFields(s, t.username, amount, tr.sender);
  }

  lemma PartialSender(db: Db, s: AccountRec, t: AccountRec, amount: int, tr: Transfer)
    requires WellFormed(db) && s.username != t.username && 0 <= s.balance < amount
    requires tr == TransferStep(db, s, t, amount)
    ensures tr.status == Done && tr.sender == Shortfall(s, t.username, amount)
    ensures Get(tr.db, s.username) == Some(tr.sender)
  {
    assert PartialTarget(t, s.balance).username == t.username;
  }

  lemma ShortfallFields(s: AccountRec, target: string, amount: int, s2: AccountRec)
    requires s2 == Shortfall(s, target, amount)
    ensures s2.balance == 0 && s2.debt == s.debt + (amount - s.balance)
    ensures s2.history == s.history + [TransferTo(target, s.balance)] + [DebtCreated(target, amount - s.balance)]
    ensures s2.dailyWithdrawn == s.dailyWithdrawn
  {
  }

  /** The target's side of a partial transfer. */
  lemma PartialTransferTarget(db: Db, s: AccountRec, t: AccountRec, amount: int, tr: Transfer)
    requires WellFormed(db) && 0 <= s.balance < amount
    requires tr == TransferStep(db, s, t, amount)
    ensures tr.target == (if s.balance > 0 then Deposited(t, s.balance) else t)
    ensures Get(tr.db, t.username) == Some(tr.target)
    ensures t.debt == 0 ==> tr.target.balance == t.balance + s.balance
  {
    var t1 := PartialTarget(t, s.balance);
    assert t1.username == t.username;
  }

  /**
   * A partial transfer changes no third account except through the
   * target's deposit: when a balance moves and the target is in debt, the
   * target's first creditor in store order gains the payment; every other
   * account is as it was.
   */
  lemma PartialTransferFrame(db: Db, s: AccountRec, t: AccountRec, amount: int, tr: Transfer, v: string)
    requires WellFormed(db) && s.username != t.username && 0 <= s.balance < amount
    requires tr == TransferStep(db, s, t, amount)
    requires v != s.username && v != t.username
    ensures var recs := AllRecords(db);
      var k := FirstCreditor(t.history, recs);
      if s.balance > 0 && t.debt > 0 && k < |recs| && recs[k].username == v
      then Get(tr.db, v) == Some(Credited(db.records[v], t.username, Payment(t.debt, s.balance)))
      else Get(tr.db, v) == Get(db, v)
  {
    PartialSender(db, s, t, amount, tr);
    if s.balance > 0 {
      DepositStore(db, t, s.balance, v);
    }
    assert PartialTarget(t, s.balance).username == t.username;
  }

  /** Transfers keep every balance and every debt non-negative. */
  lemma TransferSolvent(db: Db, s: AccountRec, t: AccountRec, amount: int, tr: Transfer)
    requires WellFormed(db) && AllSolvent(db) && Solvent(s) && Solvent(t)
    requires tr == TransferStep(db, s, t, amount)
    ensures Solvent(tr.sender) && Solvent(tr.target) && AllSolvent(tr.db)
  {
    if s.balance < amount {
      var b := s.balance;
      if b > 0 {
        DepositSolvent(db, t, b);
        var c := DepositStep(db, t, b).value;
        SaveSolvent(c.db, tr.sender);
        SaveSolvent(Save(c.db, tr.sender), tr.target);
      } else {
        SaveSolvent(db, tr.sender);
        SaveSolvent(Save(db, tr.sender), tr.target);
      }
    } else {
      WithdrawSolvent(s, amount);
      if WithdrawStep(s, amount).Ok? {
        var s1 := WithdrawStep(s, amount).value;
        SaveSolvent(db, s1);
        if amount > 0 {
          DepositSolvent(Save(db, s1), t, amount);
          var c := DepositStep(Save(db, s1), t, amount).value;
          SaveSolvent(c.db, tr.sender);
          SaveSolvent(Save(c.db, tr.sender), tr.target);
        }
      }
    }
  }

  /**
   * After a partial transfer from a sender with a clean log, the sender has
   * debt to the target and to nobody else.
   */
  lemma {:induction false} OwesOnlyTarget(s: AccountRec, target: string, amount: int, v: string)
    requires NoDebtEntries(s.history) && 0 <= s.balance < amount
    ensures OwesTo(Shortfall(s, target, amount).history, v) <==> v == target
  {
    var b := s.balance;
    var h1 := s.history + [TransferTo(target, b)];
    NoDebtEntriesTotals(s.history, v);
    AppendEntry(s.history, TransferTo(target, b), v);
    AppendEntry(h1, DebtCreated(target, amount - b), v);
  }

  lemma OwesOnlyTargetAll(s: AccountRec, target: string, amount: int)
    requires NoDebtEntries(s.history) && 0 <= s.balance < amount
    ensures forall v :: OwesTo(Shortfall(s, target, amount).history, v) <==> v == target
  {
    forall v
      ensures OwesTo(Shortfall(s, target, amount).history, v) <==> v == target
    {
      OwesOnlyTarget(s, target, amount, v);
    }
  }

  /**
   * A deposit of at least the debt by an account that owes exactly one
   * stored account clears the debt, pays that creditor the whole debt and
   * leaves the rest of the deposit as balance.
   */
  lemma RepaySoleCreditor(db: Db, a: AccountRec, c: string, x: int, d: Result<Change>)
    requires WellFormed(db) && c in db.records && a.debt > 0 && x >= a.debt
    requires forall v :: OwesTo(a.history, v) <==> v == c
    requires d == DepositStep(db, a, x)
    ensures d.Ok?
    ensures d.value.acct.debt == 0
    ensures d.value.acct.balance == a.balance + x - a.debt
    ensures c != a.username ==> Get(d.value.db, c) == Some(Credited(db.records[c], a.username, a.debt))
  {
    var recs := AllRecords(db);
    var i :| 0 <= i < |db.order| && db.order[i] == c;
    assert recs[i].username == c;
    var k := FirstCreditor(a.history, recs);
    assert k <= i;
    assert recs[k].username == c;
    assert Payment(a.debt, x) == a.debt;
    DepositEffect(a, x);
    DepositStore(db, a, x, c);
  }

  /**
   * After the shortfall of a partial transfer to `t1` is saved beside `t1`,
   * a deposit of at least the shortfall repays `t1` exactly the shortfall.
   */
  lemma RepayAfterShortfall(db1: Db, s: AccountRec, t1: AccountRec, amount: int, x: int,
                            s2: AccountRec, db2: Db, d: Result<Change>)
    requires WellFormed(db1) && s.username != t1.username
    requires s.debt == 0 && NoDebtEntries(s.history)
    requires 0 <= s.balance < amount && x >= amount - s.balance
    requires s2 == Shortfall(s, t1.username, amount) && db2 == Save(Save(db1, s2), t1)
    requires d == DepositStep(db2, s2, x)
    ensures d.Ok?
    ensures d.value.acct.debt == 0
    ensures d.value.acct.balance == s.balance + x - amount
    ensures Get(d.value.db, t1.username) == Some(Credited(t1, s.username, amount - s.balance))
  {
    ShortfallBesideTarget(db1, s, t1, amount, s2, db2);
    RepaySoleCreditor(db2, s2, t1.username, x, d);
  }

  /** The store once the shortfall and the target are saved: the target is the sender's one creditor. */
  lemma ShortfallBesideTarget(db1: Db, s: AccountRec, t1: AccountRec, amount: int, s2: AccountRec, db2: Db)
    requires WellFormed(db1) && s.username != t1.username
    requires s.debt == 0 && NoDebtEntries(s.history) && 0 <= s.balance < amount
    requires s2 == Shortfall(s, t1.username, amount) && db2 == Save(Save(db1, s2), t1)
    ensures WellFormed(db2) && t1.username in db2.records && db2.records[t1.username] == t1
    ensures s2.username == s.username && s2.debt == amount - s.balance && s2.debt > 0
    ensures forall v :: OwesTo(s2.history, v) <==> v == t1.username
    ensures Credited(db2.records[t1.username], s2.username, s2.debt) == Credited(t1, s.username, amount - s.balance)
  {
    OwesOnlyTargetAll(s, t1.username, amount);
    ShortfallFields(s, t1.username, amount, s2);
    assert db2.records[t1.username] == t1;
  }

  /**
   * The debt round trip: a sender with no debt history transfers more than
   * its balance; a later deposit `d` of at least the shortfall clears the
   * debt and hands the target exactly what was owed, so the target ends
   * with the whole amount.
   */
  lemma DebtRoundTrip(db: Db, s: AccountRec, t: AccountRec, amount: int, x: int, tr: Transfer, d: Result<Change>)
    requires WellFormed(db) && s.username != t.username
    requires s.debt == 0 && NoDebtEntries(s.history) && t.debt == 0
    requires 0 <= s.balance < amount && x >= amount - s.balance
    requires tr == TransferStep(db, s, t, amount) && d == DepositStep(tr.db, tr.sender, x)
    ensures tr.sender.debt == amount - s.balance && tr.sender.balance == 0
    ensures Get(tr.db, t.username) == Some(tr.target)
    ensures tr.target.balance == t.balance + s.balance
    ensures d.Ok? && d.value.acct.debt == 0
    ensures d.value.acct.balance == s.balance + x - amount
    ensures Get(d.value.db, t.username) == Some(Credited(tr.target, s.username, amount - s.balance))
    ensures Get(d.value.db, t.username).value.balance == t.balance + amount
  {
    var t1 := PartialTarget(t, s.balance);
    assert t1.username == t.username && t1.balance == t.balance + s.balance;
    PartialSender(db, s, t, amount, tr);
    RepayAfterShortfall(PartialDb(db, t, s.balance), s, t1, amount, x, tr.sender, tr.db, d);
  }

  /** Rachel's record in the worked example once she has deposited 200 and withdrawn 100. */
  const RachelAt100: AccountRec :=
    Initial("Rachel", "5555").(balance := 100, dailyWithdrawn := 100, history := [Deposit(200), Withdraw(100)])

  /** The first half of the worked example: a new account deposits 200 and then withdraws 100. */
  lemma RachelBeforeTransfer(db: Db)
    requires WellFormed(db)
    ensures DepositStep(db, Initial("Rachel", "5555"), 200).Ok?
    ensures WithdrawStep(DepositStep(db, Initial("Rachel", "5555"), 200).value.acct, 100) == Ok(RachelAt100)
  {
    var rachel := Initial("Rachel", "5555");
    DepositEffect(rachel, 200);
    var d := DepositStep(db, rachel, 200).value.acct;
    assert d.history == [Deposit(200)];
    assert d.history + [Withdraw(100)] == [Deposit(200), Withdraw(100)];
  }

  /**
   * The second part: Rachel transfers 200 to a new account Steve, leaving
   * her with balance 0 and debt 100 and Steve with 100.
   */
  lemma RachelTransfersToSteve(db: Db)
    requires WellFormed(db)
    ensures var tr := TransferStep(db, RachelAt100, Initial("Steve", "4444"), 200);
      && tr.sender.debt == 100 && tr.sender.balance == 0
      && Get(tr.db, "Steve").value.balance == 100
  {
    var w, steve := RachelAt100, Initial("Steve", "4444");
    assert w.username[0] != steve.username[0];
    assert NoDebtEntries(w.history);
    var tr := TransferStep(db, w, steve, 200);
    DebtRoundTrip(db, w, steve, 200, 200, tr, DepositStep(tr.db, tr.sender, 200));
  }

  /**
   * The third part: Rachel's next deposit of 200 clears her debt, leaves
   * her 100 and brings Steve to 200.
   */
  lemma RachelRepaysSteve(db: Db)
    requires WellFormed(db)
    ensures var tr := TransferStep(db, RachelAt100, Initial("Steve", "4444"), 200);
      var d := DepositStep(tr.db, tr.sender, 200).value;
      && d.acct.debt == 0 && d.acct.balance == 100
      && Get(d.db, "Steve").value.balance == 200
  {
    var w, steve := RachelAt100, Initial("Steve", "4444");
    assert w.username[0] != steve.username[0];
    assert NoDebtEntries(w.history);
    var tr := TransferStep(db, w, steve, 200);
    RepayFromHundred(db, w, steve, tr, DepositStep(tr.db, tr.sender, 200));
  }

  /** Tom's record once the new account has deposited 100. */
  const TomAt100: AccountRec := Initial("Tom", "7777").(balance := 100, history := [Deposit(100)])

  /** The first step of the repayment sequence: a new account Tom deposits 100. */
  lemma TomBeforeTransfer(db: Db)
    requires WellFormed(db)
    ensures DepositStep(db, Initial("Tom", "7777"), 100).Ok?
    ensures DepositStep(db, Initial("Tom", "7777"), 100).value.acct == TomAt100
  {
    DepositEffect(Initial("Tom", "7777"), 100);
  }

  /**
   * The second step: Tom transfers 200 to the stored account Uma.  Tom is
   * left owing 100 and the copy of Uma the transfer worked on holds 100.
   */
  lemma TomTransfersToUma(db: Db, tom: AccountRec, uma: AccountRec, tr: Transfer)
    requires WellFormed(db) && tom == TomAt100 && uma == Initial("Uma", "8888")
    requires tr == TransferStep(db, tom, uma, 200)
    ensures tr.sender.debt == 100 && tr.sender.balance == 0 && tr.target.balance == 100
  {
    TomAndUma(tom, uma);
    PartialSender(db, tom, uma, 200, tr);
    ShortfallFields(tom, uma.username, 200, tr.sender);
    PartialTransferTarget(db, tom, uma, 200, tr);
  }

  /**
   * The last step: Tom deposits 200.  His debt is cleared, he keeps 100 and
   * the stored Uma reaches 200, while the copy of Uma the transfer worked
   * on still holds 100: the repayment credits a fresh copy read from the
   * store.
   */
  lemma TomRepaysUma(db: Db, tom: AccountRec, uma: AccountRec, tr: Transfer, d: Result<Change>)
    requires WellFormed(db) && tom == TomAt100 && uma == Initial("Uma", "8888")
    requires tr == TransferStep(db, tom, uma, 200)
    requires d == DepositStep(tr.db, tr.sender, 200)
    ensures d.Ok? && d.value.acct.debt == 0 && d.value.acct.balance == 100
    ensures Get(d.value.db, "Uma").value.balance == 200 != tr.target.balance
  {
    TomAndUma(tom, uma);
    RepayFromHundred(db, tom, uma, tr, d);
  }

  /** The round trip of `DebtRoundTrip` with the repayment sequence's amounts. */
  lemma RepayFromHundred(db: Db, s: AccountRec, t: AccountRec, tr: Transfer, d: Result<Change>)
    requires WellFormed(db) && s.username != t.username
    requires s.debt == 0 && s.balance == 100 && NoDebtEntries(s.history)
    requires t.debt == 0 && t.balance == 0
    requires tr == TransferStep(db, s, t, 200) && d == DepositStep(tr.db, tr.sender, 200)
    ensures d.Ok? && d.value.acct.debt == 0 && d.value.acct.balance == 100
    ensures Get(d.value.db, t.username).Some? && Get(d.value.db, t.username).value.balance == 200
    ensures tr.target.balance == 100
  {
    DebtRoundTrip(db, s, t, 200, 200, tr, d);
  }

  /** The two records of the repayment sequence before the transfer. */
  lemma TomAndUma(tom: AccountRec, uma: AccountRec)
    requires tom == TomAt100 && uma == Initial("Uma", "8888")
    ensures tom.username != uma.username && uma.username == "Uma"
    ensures tom.debt == 0 && tom.balance == 100 && NoDebtEntries(tom.history)
    ensures uma.debt == 0 && uma.balance == 0
  {
    assert tom.username[0] != uma.username[0];
  }
}
