/** One bank account: an immutable number, holder, PIN and kind, plus a
    balance in integer cents. The read/write lock of the Java `Account` class
    guards each operation as a whole; sequentially, each operation is a pure
    transition. */
module Accounts {

  /** Account holders are opaque keys (a Java `Person` or `Company`). */
  datatype Holder = Holder(key: nat)

  /** The concrete subclass an account was created as. */
  datatype Kind = Consumer | Commercial

  datatype Account = Account(
    holder: Holder,
    number: int,
    pin: int,
    balance: int,
    kind: Kind)

  /** The outcome of an operation that may or may not take effect:
      whether it was applied, and the account afterwards. */
  datatype Outcome = Outcome(applied: bool, after: Account)

  /** The fields that no operation ever writes. */
  predicate SameIdentity(a: Account, b: Account) {
    && a.holder == b.holder
    && a.number == b.number
    && a.pin == b.pin
    && a.kind == b.kind
  }

  /** Constructing an account stores its identity unchanged and starts the
      balance at the deposit, whatever its sign. */
  function NewAccount(holder: Holder, number: int, pin: int, startingDeposit: int, kind: Kind): (a: Account)
    ensures a.holder == holder && a.number == number && a.pin == pin && a.kind == kind
    ensures a.balance == startingDeposit
    ensures startingDeposit < 0 ==> a.balance < 0
  {
    Account(holder, number, pin, startingDeposit, kind)
  }

  /** A PIN attempt succeeds exactly when it equals the stored PIN. */
  function ValidatePin(a: Account, attemptedPin: int): (ok: bool)
    ensures ok <==> attemptedPin == a.pin
  {
    a.pin == attemptedPin
  }

  /** The current balance; reading it changes nothing. */
  function GetBalance(a: Account): (r: int)
    ensures r == a.balance
  {
    a.balance
  }

  /** Credit ignores a negative amount and otherwise adds it. */
  function Credit(a: Account, amount: int): (r: Account)
    ensures SameIdentity(a, r)
    ensures amount >= 0 ==> GetBalance(r) == GetBalance(a) + amount
    ensures amount < 0 ==> r == a
    ensures GetBalance(a) >= 0 ==> GetBalance(r) >= 0
    ensures GetBalance(r) >= GetBalance(a)
  {
    if amount >= 0 then a.(balance := a.balance + amount) else a
  }

  /** Debit succeeds exactly when the amount is non-negative and covered by
      the balance; only a successful debit changes the account. */
  function Debit(a: Account, amount: int): (r: Outcome)
    ensures r.applied <==> 0 <= amount <= GetBalance(a)
    ensures SameIdentity(a, r.after)
    ensures r.applied ==> GetBalance(r.after) == GetBalance(a) - amount
    ensures !r.applied ==> r.after == a
    ensures GetBalance(a) >= 0 ==> GetBalance(r.after) >= 0
    ensures GetBalance(r.after) <= GetBalance(a)
  {
    if amount >= 0 && a.balance >= amount then
      Outcome(true, a.(balance := a.balance - amount))
    else
      Outcome(false, a)
  }

  /** On a non-negative balance, a debit of an amount just credited succeeds
      and undoes the credit. */
  lemma CreditThenDebitRestores(a: Account, amount: int)
    requires GetBalance(a) >= 0 && amount >= 0
    ensures Debit(Credit(a, amount), amount) == Outcome(true, a)
  {
  }

  /** Crediting back the amount of a successful debit restores the account. */
  lemma DebitThenCreditRestores(a: Account, amount: int)
    requires Debit(a, amount).applied
    ensures Credit(Debit(a, amount).after, amount) == a
  {
  }

  // ---------------------------------------------------------------------
  // Sequences of operations on one account

  datatype Op = CreditOp(amount: int) | DebitOp(amount: int)

  /** The account after a run of operations and, per operation, whether it took effect. */
  datatype Trace = Trace(after: Account, applied: seq<bool>)

  function Apply(a: Account, op: Op): Outcome {
    match op
    case CreditOp(x) => Outcome(x >= 0, Credit(a, x))
    case DebitOp(x) => Debit(a, x)
  }

  /** What an operation adds to the balance when it takes effect. */
  function Signed(op: Op): int {
    match op
    case CreditOp(x) => x
    case DebitOp(x) => -x
  }

  /** The sum of applied credits minus the sum of successful debits. */
  function Net(ops: seq<Op>, applied: seq<bool>): int
    requires |ops| == |applied|
  {
    if |ops| == 0 then 0
    else
      var k := |ops| - 1;
      Net(ops[..k], applied[..k]) + (if applied[k] then Signed(ops[k]) else 0)
  }

  /** Applies the operations in order, recording per operation whether it took
      effect. The identity never changes and a non-negative balance stays
      non-negative. */
  function Run(a: Account, ops: seq<Op>): (t: Trace)
    ensures |t.applied| == |ops|
    ensures SameIdentity(a, t.after)
    ensures GetBalance(a) >= 0 ==> GetBalance(t.after) >= 0
    decreases |ops|
  {
    if |ops| == 0 then Trace(a, [])
    else
      var k := |ops| - 1;
      var prefix := Run(a, ops[..k]);
      var last := Apply(prefix.after, ops[k]);
      Trace(last.after, prefix.applied + [last.applied])
  }

  /** One more operation extends the trace by that operation's outcome. */
  lemma RunSnoc(a: Account, ops: seq<Op>, op: Op)
    ensures Run(a, ops + [op]).after == Apply(Run(a, ops).after, op).after
    ensures Run(a, ops + [op]).applied == Run(a, ops).applied + [Apply(Run(a, ops).after, op).applied]
  {
  }

  /** After any run the balance is the start plus the applied credits minus
      the successful debits. */
  lemma {:induction false} RunBalance(a: Account, ops: seq<Op>)
    ensures GetBalance(Run(a, ops).after) == GetBalance(a) + Net(ops, Run(a, ops).applied)
    decreases |ops|
  {
    if |ops| > 0 {
      var k := |ops| - 1;
      RunBalance(a, ops[..k]);
      var t := Run(a, ops);
      assert t.applied[..k] == Run(a, ops[..k]).applied;
    }
  }

  /** The first `i` outcomes of a run are the outcomes of running the first
      `i` operations. */
  lemma {:induction false} RunPrefix(a: Account, ops: seq<Op>, i: nat)
    requires i <= |ops|
    ensures Run(a, ops).applied[..i] == Run(a, ops[..i]).applied
    decreases |ops|
  {
    if i < |ops| {
      var k := |ops| - 1;
      RunPrefix(a, ops[..k], i);
      assert ops[..k][..i] == ops[..i];
      assert Run(a, ops).applied[..k] == Run(a, ops[..k]).applied;
      assert Run(a, ops).applied[..k][..i] == Run(a, ops).applied[..i];
    } else {
      assert ops[..i] == ops;
    }
  }

  /** Each operation of a run acts on the account as the operations before it
      left it: its outcome is that of applying it there. */
  lemma {:induction false} RunStep(a: Account, ops: seq<Op>, i: nat)
    requires i < |ops|
    ensures Run(a, ops).applied[i] == Apply(Run(a, ops[..i]).after, ops[i]).applied
  {
    RunPrefix(a, ops, i + 1);
    assert ops[..i + 1] == ops[..i] + [ops[i]];
    RunSnoc(a, ops[..i], ops[i]);
    assert Run(a, ops).applied[i] == Run(a, ops).applied[..i + 1][i];
  }

  /** A credit in a run takes effect exactly when its amount is non-negative. */
  lemma {:induction false} RunCreditOutcome(a: Account, ops: seq<Op>, i: nat)
    requires i < |ops| && ops[i].CreditOp?
    ensures Run(a, ops).applied[i] <==> ops[i].amount >= 0
  {
    RunStep(a, ops, i);
  }

  /** A debit in a run succeeds exactly when its amount is non-negative and
      covered by the balance the operations before it left. */
  lemma {:induction false} RunDebitOutcome(a: Account, ops: seq<Op>, i: nat)
    requires i < |ops| && ops[i].DebitOp?
    ensures Run(a, ops).applied[i] <==> 0 <= ops[i].amount <= GetBalance(Run(a, ops[..i]).after)
  {
    RunStep(a, ops, i);
  }

  /** Splitting off the last element of a non-empty suffix. */
  lemma SplitLast<T>(xs: seq<T>, ys: seq<T>)
    requires |ys| > 0
    ensures ys == ys[..|ys| - 1] + [ys[|ys| - 1]]
    ensures xs + ys == (xs + ys[..|ys| - 1]) + [ys[|ys| - 1]]
  {
  }

  /** Running `ops` then `more` is running their concatenation. */
  lemma {:induction false} RunAppend(a: Account, ops: seq<Op>, more: seq<Op>)
    ensures Run(Run(a, ops).after, more).after == Run(a, ops + more).after
    ensures Run(a, ops).applied + Run(Run(a, ops).after, more).applied == Run(a, ops + more).applied
    decreases |more|
  {
    var first := Run(a, ops);
    if |more| == 0 {
      assert ops + more == ops;
    } else {
      var k := |more| - 1;
      var init, op := more[..k], more[k];
      SplitLast(ops, more);
      RunAppend(a, ops, init);
      var right := Run(first.after, init);
      var last := Apply(right.after, op);
      RunSnoc(first.after, init, op);
      RunSnoc(a, ops + init, op);
      assert first.applied + (right.applied + [last.applied])
          == (first.applied + right.applied) + [last.applied];
    }
  }
}
