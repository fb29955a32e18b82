/** The bank: accounts by number, the latest account number of each holder,
    and the account-number counter. Each public operation of the Java `Bank` class is a
    pure transition from one bank value to the next. */
module Banks {
  import opened Wrappers
  import opened Accounts

  /** The counter's initial value: the first number a bank hands out. */
  const FirstAccountNumber: int := 100000

  datatype Bank = Bank(
    accounts: map<int, Account>,
    holders: map<Holder, int>,
    nextNumber: int)

  /** A value produced by an operation, with the bank afterwards. */
  datatype Step<+T> = Step(value: T, bank: Bank)

  /** The invariant every reachable bank keeps: the counter never went below its
      start, every stored number was issued (it lies between the start and the
      counter), each account is stored under its own number, and each holder
      maps to a stored account of that holder. */
  predicate Valid(b: Bank) {
    && FirstAccountNumber <= b.nextNumber
    && (forall n :: n in b.accounts ==> FirstAccountNumber <= n < b.nextNumber)
    && (forall n :: n in b.accounts ==> b.accounts[n].number == n)
    && (forall h :: h in b.holders ==> b.holders[h] in b.accounts && b.accounts[b.holders[h]].holder == h)
  }

  /** Every stored balance is non-negative. */
  predicate Solvent(b: Bank) {
    forall n :: n in b.accounts ==> GetBalance(b.accounts[n]) >= 0
  }

  /** A freshly constructed bank is empty, valid, and issues 100000 first. */
  function Init(): (b: Bank)
    ensures Valid(b) && Solvent(b)
    ensures |b.accounts| == 0 && |b.holders| == 0
    ensures b.nextNumber == FirstAccountNumber
  {
    Bank(map[], map[], FirstAccountNumber)
  }

  /** Hands out the counter and advances it by one. In a valid bank the number
      handed out is stored nowhere yet, and the bank stays valid. */
  function GenerateAccountNumber(b: Bank): (r: Step<int>)
    ensures r.value == b.nextNumber && r.bank.nextNumber == r.value + 1
    ensures r.bank.accounts == b.accounts && r.bank.holders == b.holders
    ensures Valid(b) ==> r.value !in b.accounts && Valid(r.bank)
    ensures Valid(b) ==> forall n :: n in b.accounts ==> n < r.value
  {
    Step(b.nextNumber, b.(nextNumber := b.nextNumber + 1))
  }

  /** Looks an account up; `None` where the Java map returns `null`. */
  function GetAccount(b: Bank, number: int): (r: Option<Account>)
    ensures r.Some? <==> number in b.accounts
    ensures r.Some? ==> r.value == b.accounts[number]
  {
    if number in b.accounts then Some(b.accounts[number]) else None
  }

  /** Opens an account of either kind: a fresh number, a new account holding
      the deposit, and the holder now resolving to that number. Nothing else
      changes. The deposit's sign is not checked. */
  function Open(b: Bank, holder: Holder, kind: Kind, pin: int, startingDeposit: int): (r: Step<int>)
    ensures r.value == b.nextNumber && r.bank.nextNumber == b.nextNumber + 1
    ensures r.bank.accounts.Keys == b.accounts.Keys + {r.value}
    ensures GetAccount(r.bank, r.value) == Some(NewAccount(holder, r.value, pin, startingDeposit, kind))
    ensures forall n :: n in b.accounts && n != r.value ==> r.bank.accounts[n] == b.accounts[n]
    ensures r.bank.holders.Keys == b.holders.Keys + {holder}
    ensures r.bank.holders[holder] == r.value
    ensures forall h :: h in b.holders && h != holder ==> r.bank.holders[h] == b.holders[h]
    ensures Valid(b) ==> r.value !in b.accounts && Valid(r.bank)
    ensures Valid(b) ==> r.bank.accounts == b.accounts[r.value := NewAccount(holder, r.value, pin, startingDeposit, kind)]
    ensures Solvent(b) && startingDeposit >= 0 ==> Solvent(r.bank)
    ensures startingDeposit < 0 ==> !Solvent(r.bank)
  {
    var issued := GenerateAccountNumber(b);
    var n := issued.value;
    var account := NewAccount(holder, n, pin, startingDeposit, kind);
    var b' := issued.bank;
    Step(n, b'.(accounts := b'.accounts[n := account], holders := b'.holders[holder := n]))
  }

  /** `openConsumerAccount`: opens an account of the consumer kind. */
  function OpenConsumer(b: Bank, person: Holder, pin: int, startingDeposit: int): (r: Step<int>)
    ensures GetAccount(r.bank, r.value) == Some(NewAccount(person, b.nextNumber, pin, startingDeposit, Consumer))
    ensures person in r.bank.holders && r.bank.holders[person] == r.value
    ensures r == Open(b, person, Consumer, pin, startingDeposit)
    ensures r.value == b.nextNumber && r.bank.nextNumber == b.nextNumber + 1
    ensures forall n :: n in b.accounts && n != r.value ==> r.bank.accounts[n] == b.accounts[n]
    ensures forall h :: h in b.holders && h != person ==> r.bank.holders[h] == b.holders[h]
    ensures Valid(b) ==> r.value !in b.accounts && Valid(r.bank)
  {
    Open(b, person, Consumer, pin, startingDeposit)
  }

  /** `openCommercialAccount`: opens an account of the commercial kind. */
  function OpenCommercial(b: Bank, company: Holder, pin: int, startingDeposit: int): (r: Step<int>)
    ensures GetAccount(r.bank, r.value) == Some(NewAccount(company, b.nextNumber, pin, startingDeposit, Commercial))
    ensures company in r.bank.holders && r.bank.holders[company] == r.value
    ensures r == Open(b, company, Commercial, pin, startingDeposit)
    ensures r.value == b.nextNumber && r.bank.nextNumber == b.nextNumber + 1
    ensures forall n :: n in b.accounts && n != r.value ==> r.bank.accounts[n] == b.accounts[n]
    ensures forall h :: h in b.holders && h != company ==> r.bank.holders[h] == b.holders[h]
    ensures Valid(b) ==> r.value !in b.accounts && Valid(r.bank)
  {
    Open(b, company, Commercial, pin, startingDeposit)
  }

  /** An unknown number never authenticates; a known one does exactly when its
      account accepts the PIN. */
  function Authenticate(b: Bank, number: int, pin: int): (ok: bool)
    ensures number !in b.accounts ==> !ok
    ensures number in b.accounts ==> (ok <==> ValidatePin(b.accounts[number], pin))
    ensures ok <==> number in b.accounts && b.accounts[number].pin == pin
  {
    var account := GetAccount(b, number);
    account.Some? && ValidatePin(account.value, pin)
  }

  /** The balance of a stored account (Java's `Bank.getBalance` throws on an unknown number). */
  function GetBalanceOf(b: Bank, number: int): (r: int)
    requires number in b.accounts
    ensures GetAccount(b, number).Some? && r == GetBalance(GetAccount(b, number).value)
  {
    GetBalance(b.accounts[number])
  }

  /** The balance of the account the holder resolves to. */
  function GetHolderBalance(b: Bank, holder: Holder): (r: int)
    requires holder in b.holders && b.holders[holder] in b.accounts
    ensures r == GetBalanceOf(b, b.holders[holder])
    ensures Valid(b) ==> exists n :: n in b.accounts && b.accounts[n].holder == holder && GetBalance(b.accounts[n]) == r
  {
    GetBalanceOf(b, b.holders[holder])
  }

  /** Overwrites the balance of a stored account (`setBalance` is plain
      assignment); identity, other accounts, holders and counter stay. */
  function UpdateBalance(b: Bank, number: int, newBalance: int): (r: Bank)
    requires number in b.accounts
    ensures r.accounts.Keys == b.accounts.Keys
    ensures GetBalance(r.accounts[number]) == newBalance
    ensures SameIdentity(b.accounts[number], r.accounts[number])
    ensures forall n :: n in b.accounts && n != number ==> r.accounts[n] == b.accounts[n]
    ensures r.holders == b.holders && r.nextNumber == b.nextNumber
    ensures Valid(b) ==> Valid(r)
    ensures Solvent(b) && newBalance >= 0 ==> Solvent(r)
  {
    b.(accounts := b.accounts[number := b.accounts[number].(balance := newBalance)])
  }

  /** Credits a stored account by reading its balance, adding the amount and
      writing the sum back. Rounding to two decimals is the identity on cents,
      and unlike the account's own credit there is no negative-amount guard. */
  function Credit(b: Bank, number: int, amount: int): (r: Bank)
    requires number in b.accounts
    ensures r.accounts.Keys == b.accounts.Keys
    ensures GetBalanceOf(r, number) == GetBalanceOf(b, number) + amount
    ensures SameIdentity(b.accounts[number], r.accounts[number])
    ensures forall n :: n in b.accounts && n != number ==> r.accounts[n] == b.accounts[n]
    ensures r.holders == b.holders && r.nextNumber == b.nextNumber
    ensures Valid(b) ==> Valid(r)
    ensures amount >= 0 ==> r.accounts[number] == Accounts.Credit(b.accounts[number], amount)
    ensures Solvent(b) && amount >= 0 ==> Solvent(r)
  {
    UpdateBalance(b, number, GetBalanceOf(b, number) + amount)
  }

  /** Credits the account the holder resolves to. */
  function CreditHolder(b: Bank, holder: Holder, amount: int): (r: Bank)
    requires holder in b.holders && b.holders[holder] in b.accounts
    ensures r.accounts.Keys == b.accounts.Keys && r.holders == b.holders
    ensures GetHolderBalance(r, holder) == GetHolderBalance(b, holder) + amount
    ensures forall n :: n in b.accounts && n != b.holders[holder] ==> r.accounts[n] == b.accounts[n]
    ensures SameIdentity(b.accounts[b.holders[holder]], r.accounts[b.holders[holder]])
    ensures r.nextNumber == b.nextNumber
    ensures r == Credit(b, b.holders[holder], amount)
    ensures Valid(b) ==> Valid(r)
    ensures Solvent(b) && amount >= 0 ==> Solvent(r)
  {
    Credit(b, b.holders[holder], amount)
  }

  /** Debits a stored account through the account's own guarded debit; an
      unknown number fails and changes nothing. Only that account can change. */
  function Debit(b: Bank, number: int, amount: int): (r: Step<bool>)
    ensures number !in b.accounts ==> !r.value && r.bank == b
    ensures number in b.accounts ==> r.value == Accounts.Debit(b.accounts[number], amount).applied
    ensures r.value <==> number in b.accounts && 0 <= amount <= GetBalanceOf(b, number)
    ensures r.bank.accounts.Keys == b.accounts.Keys
    ensures r.value ==> GetBalanceOf(r.bank, number) == GetBalanceOf(b, number) - amount
    ensures !r.value ==> r.bank == b
    ensures number in b.accounts ==> SameIdentity(b.accounts[number], r.bank.accounts[number])
    ensures forall n :: n in b.accounts && n != number ==> r.bank.accounts[n] == b.accounts[n]
    ensures r.bank.holders == b.holders && r.bank.nextNumber == b.nextNumber
    ensures Valid(b) ==> Valid(r.bank)
    ensures Solvent(b) ==> Solvent(r.bank)
  {
    match GetAccount(b, number)
    case None => Step(false, b)
    case Some(account) =>
      var outcome := Accounts.Debit(account, amount);
      Step(outcome.applied, b.(accounts := b.accounts[number := outcome.after]))
  }

  /** Two accounts opened for the same holder: the holder resolves to the later
      one, whose number is larger, while the earlier account stays stored. */
  lemma LatestAccountWins(b: Bank, holder: Holder, kind1: Kind, pin1: int, deposit1: int,
                          kind2: Kind, pin2: int, deposit2: int)
    requires Valid(b)
    ensures var first := Open(b, holder, kind1, pin1, deposit1);
            var second := Open(first.bank, holder, kind2, pin2, deposit2);
            && first.value < second.value
            && second.bank.holders[holder] == second.value
            && GetHolderBalance(second.bank, holder) == deposit2
            && GetAccount(second.bank, first.value) == Some(NewAccount(holder, first.value, pin1, deposit1, kind1))
  {
  }

  // ---------------------------------------------------------------------
  // Opening accounts one after another

  datatype OpenRequest = OpenRequest(holder: Holder, kind: Kind, pin: int, startingDeposit: int)

  /** The numbers handed out, in order, and the bank afterwards. */
  datatype Batch = Batch(numbers: seq<int>, bank: Bank)

  /** Serves the open requests in order. The numbers handed out are consecutive
      from the counter, so strictly increasing and never repeated; each names
      the account its request asked for. In a valid bank none was stored
      before, earlier accounts are untouched, and the bank stays valid. */
  function OpenEach(b: Bank, reqs: seq<OpenRequest>): (r: Batch)
    ensures |r.numbers| == |reqs|
    ensures r.bank.nextNumber == b.nextNumber + |reqs|
    ensures forall i :: 0 <= i < |reqs| ==> r.numbers[i] == b.nextNumber + i
    ensures forall i :: 0 <= i < |reqs| ==>
      GetAccount(r.bank, r.numbers[i]) ==
        Some(NewAccount(reqs[i].holder, r.numbers[i], reqs[i].pin, reqs[i].startingDeposit, reqs[i].kind))
    ensures Valid(b) ==> Valid(r.bank)
    ensures Valid(b) ==> forall i :: 0 <= i < |reqs| ==> r.numbers[i] !in b.accounts
    ensures Valid(b) ==> forall n :: n in b.accounts ==> GetAccount(r.bank, n) == Some(b.accounts[n])
    decreases |reqs|
  {
    if |reqs| == 0 then Batch([], b)
    else
      var k := |reqs| - 1;
      var prefix := OpenEach(b, reqs[..k]);
      var req := reqs[k];
      var next := Open(prefix.bank, req.holder, req.kind, req.pin, req.startingDeposit);
      Batch(prefix.numbers + [next.value], next.bank)
  }

  /** From a fresh bank the first number is 100000 and later ones strictly
      increase, so no number is handed out twice. */
  lemma FreshBankNumbers(reqs: seq<OpenRequest>)
    ensures var r := OpenEach(Init(), reqs);
            && (|reqs| > 0 ==> r.numbers[0] == FirstAccountNumber)
            && (forall i, j :: 0 <= i < j < |reqs| ==> r.numbers[i] < r.numbers[j])
            && Valid(r.bank)
  {
  }

  /** A solvent bank can lose solvency through a negative credit, which the
      account's own credit would have ignored. */
  lemma CreditSkipsNegativeGuard(b: Bank, number: int, amount: int)
    requires number in b.accounts && amount < 0
    ensures GetBalanceOf(Credit(b, number, amount), number) < GetBalance(Accounts.Credit(b.accounts[number], amount))
    ensures amount < -GetBalanceOf(b, number) ==> !Solvent(Credit(b, number, amount))
  {
  }
}
