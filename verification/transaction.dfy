/** A transaction session: it exists only after a successful authentication and
    then acts on one fixed account number. Java's `Transaction` keeps a reference
    to a mutable bank; here the current bank value is passed to every call and the
    updated bank is returned. */
module Transactions {
  import opened Wrappers
  import opened Accounts
  import opened Banks

  /** The session's state: the account number it authenticated for. */
  datatype Session = Session(accountNumber: int)

  /** Why a session could not be opened. */
  datatype SessionError = ValidationFailed

  /** Opens a session exactly when the bank authenticates the number and PIN;
      otherwise no session exists. Authenticating reads nothing else and
      changes nothing. */
  function Begin(b: Bank, accountNumber: int, attemptedPin: int): (r: Result<Session, SessionError>)
    ensures r.Ok? <==> Authenticate(b, accountNumber, attemptedPin)
    ensures r.Ok? ==> r.value.accountNumber == accountNumber && accountNumber in b.accounts
    ensures r.Err? ==> r.error == ValidationFailed
  {
    if Authenticate(b, accountNumber, attemptedPin) then Ok(Session(accountNumber))
    else Err(ValidationFailed)
  }

  /** The balance of the session's account, as the bank reports it. */
  function GetBalance(s: Session, b: Bank): (r: int)
    requires s.accountNumber in b.accounts
    ensures r == GetBalanceOf(b, s.accountNumber)
    ensures r == Accounts.GetBalance(b.accounts[s.accountNumber])
  {
    GetBalanceOf(b, s.accountNumber)
  }

  /** Credits the session's account by reading its balance, adding the amount
      and writing the sum back, with neither a sign check nor rounding. Only
      that account's balance changes. */
  function Credit(s: Session, b: Bank, amount: int): (r: Bank)
    requires s.accountNumber in b.accounts
    ensures r.accounts.Keys == b.accounts.Keys
    ensures GetBalanceOf(r, s.accountNumber) == GetBalanceOf(b, s.accountNumber) + amount
    ensures SameIdentity(b.accounts[s.accountNumber], r.accounts[s.accountNumber])
    ensures forall n :: n in b.accounts && n != s.accountNumber ==> r.accounts[n] == b.accounts[n]
    ensures r.holders == b.holders && r.nextNumber == b.nextNumber
    ensures Valid(b) ==> Valid(r)
  {
    UpdateBalance(b, s.accountNumber, GetBalance(s, b) + amount)
  }

  /** Debits the session's account through the bank. */
  function Debit(s: Session, b: Bank, amount: int): (r: Step<bool>)
    ensures r.value <==> s.accountNumber in b.accounts && 0 <= amount <= GetBalanceOf(b, s.accountNumber)
    ensures r.bank.accounts.Keys == b.accounts.Keys
    ensures r.value ==> GetBalanceOf(r.bank, s.accountNumber) == GetBalanceOf(b, s.accountNumber) - amount
    ensures !r.value ==> r.bank == b
    ensures forall n :: n in b.accounts && n != s.accountNumber ==> r.bank.accounts[n] == b.accounts[n]
    ensures Valid(b) ==> Valid(r.bank)
    ensures Solvent(b) ==> Solvent(r.bank)
  {
    Banks.Debit(b, s.accountNumber, amount)
  }

  /** With whole cents the bank's rounding to two decimals is the identity, so
      a session credit has exactly the effect of the bank's credit. */
  lemma CreditAgreesWithBank(s: Session, b: Bank, amount: int)
    requires s.accountNumber in b.accounts
    ensures Credit(s, b, amount) == Banks.Credit(b, s.accountNumber, amount)
  {
  }

  /** A session debit is the bank's debit on the session's number. */
  lemma DebitAgreesWithBank(s: Session, b: Bank, amount: int)
    ensures Debit(s, b, amount) == Banks.Debit(b, s.accountNumber, amount)
  {
  }

  // ---------------------------------------------------------------------
  // A session's calls over time

  datatype Call = BalanceCall | CreditCall(amount: int) | DebitCall(amount: int)

  /** What a call returns: a balance, a debit's success, or nothing. */
  datatype Reply = BalanceReply(balance: int) | DebitReply(success: bool) | NoReply

  /** Serves one call of the session against the current bank. */
  function Serve(s: Session, b: Bank, call: Call): (r: Step<Reply>)
    requires s.accountNumber in b.accounts
    ensures r.bank.accounts.Keys == b.accounts.Keys
    ensures forall n :: n in b.accounts && n != s.accountNumber ==> r.bank.accounts[n] == b.accounts[n]
    ensures SameIdentity(b.accounts[s.accountNumber], r.bank.accounts[s.accountNumber])
    ensures r.bank.holders == b.holders && r.bank.nextNumber == b.nextNumber
    ensures Valid(b) ==> Valid(r.bank)
  {
    match call
    case BalanceCall => Step(BalanceReply(GetBalance(s, b)), b)
    case CreditCall(x) => Step(NoReply, Credit(s, b, x))
    case DebitCall(x) =>
      var d := Debit(s, b, x);
      Step(DebitReply(d.value), d.bank)
  }

  /** Serves the calls in order. Every call finds the session's account, since
      no call removes an account; only that account ever changes, its identity
      never does, and the bank stays valid. */
  function ServeAll(s: Session, b: Bank, calls: seq<Call>): (r: Step<seq<Reply>>)
    requires s.accountNumber in b.accounts
    ensures |r.value| == |calls|
    ensures r.bank.accounts.Keys == b.accounts.Keys
    ensures forall n :: n in b.accounts && n != s.accountNumber ==> r.bank.accounts[n] == b.accounts[n]
    ensures SameIdentity(b.accounts[s.accountNumber], r.bank.accounts[s.accountNumber])
    ensures r.bank.holders == b.holders && r.bank.nextNumber == b.nextNumber
    ensures Valid(b) ==> Valid(r.bank)
    decreases |calls|
  {
    if |calls| == 0 then Step([], b)
    else
      var k := |calls| - 1;
      var prefix := ServeAll(s, b, calls[..k]);
      var last := Serve(s, prefix.bank, calls[k]);
      Step(prefix.value + [last.value], last.bank)
  }

  /** A session, once opened, serves any sequence of calls: its
      account stays stored under the authenticated number with the PIN that
      was accepted. */
  lemma {:induction false} SessionStaysAuthenticated(b: Bank, accountNumber: int, pin: int, calls: seq<Call>)
    requires Begin(b, accountNumber, pin).Ok?
    ensures var s := Begin(b, accountNumber, pin).value;
            var r := ServeAll(s, b, calls);
            && s.accountNumber == accountNumber
            && Authenticate(r.bank, accountNumber, pin)
  {
    var s := Begin(b, accountNumber, pin).value;
    var r := ServeAll(s, b, calls);
    assert r.bank.accounts[accountNumber].pin == b.accounts[accountNumber].pin;
  }
}
