# Banking ledger in Dafny

A model of the sequential behaviour of an in-memory bank ledger. It has three parts:

- **Account** (`accounts.dfy`, module `Accounts`). An account has an immutable holder, number, PIN and kind, plus a balance. It supports a guarded credit, a guarded debit, a PIN check, and runs of credits and debits.
- **Bank** (`bank.dfy`, module `Banks`). The bank keeps:
  - a map from account number to account;
  - a map from holder to that holder's latest account number;
  - an account-number counter that starts at 100000.

  It opens accounts, authenticates, and dispatches balance, credit and debit calls, by number or by holder.
- **Transaction** (`transaction.dfy`, module `Transactions`). A session exists only after authentication succeeds. It then forwards every call to one fixed account number.

`wrappers.dfy` holds `Option`, which models a Java `null` lookup, and `Result`, which models a thrown exception.

Every operation is a pure function from the current value to the next one. Amounts are integer cents. The invariant `Banks.Valid` says four things:
- the counter is at least 100000;
- every stored number lies between 100000 and the counter;
- every account is stored under its own number;
- every holder maps to a stored account of that holder.

`Banks.Solvent` says every balance is non-negative.

The model follows the Java code as written, including three behaviours a stricter ledger would reject:
- A negative starting deposit is accepted.
- Asking for the balance of an unknown number is a precondition violation, not a `NotFound` error.
- The bank's credit and the session's credit add the amount with no negative-amount guard. Assuming `setBalance` is a plain assignment, they can therefore take a balance below zero, unlike `Account.creditAccount` (see `Banks.CreditSkipsNegativeGuard`).

The Java getters `getAccountHolder` and `getAccountNumber` only return a field, so they are the datatype's fields. `Account.getBalance` is `Accounts.GetBalance`.

## Model

| member | source | states |
|---|---|---|
| Accounts.NewAccount | BankingSystem/src/main/java/banking/Account.java:27-32 | a new account stores holder, number, PIN and kind unchanged and its balance is the starting deposit; a negative deposit gives a negative balance (no sign check) |
| Accounts.ValidatePin | BankingSystem/src/main/java/banking/Account.java:40-42 | the check succeeds iff the attempted PIN equals the stored PIN |
| Accounts.Credit | BankingSystem/src/main/java/banking/Account.java:57-66 | a non-negative amount is added to the balance; a negative amount leaves the account unchanged; identity fields never change; balance >= 0 is preserved and the balance never decreases |
| Accounts.Debit | BankingSystem/src/main/java/banking/Account.java:68-79 | succeeds iff 0 <= amount <= balance; on success the balance drops by the amount, on failure the account is unchanged; identity is kept and balance >= 0 is preserved |
| Accounts.CreditThenDebitRestores | BankingSystem/src/main/java/banking/Account.java:57-79 | on a non-negative balance, debiting an amount just credited succeeds and restores the original account |
| Accounts.DebitThenCreditRestores | BankingSystem/src/main/java/banking/Account.java:57-79 | crediting back the amount of a successful debit restores the original account |
| Accounts.GetBalance | BankingSystem/src/main/java/banking/Account.java:44-51 | returns the account's current balance; as a pure read it leaves the account unchanged |
| Accounts.Run | BankingSystem/src/main/java/banking/Account.java:57-79 | applies any sequence of credits and debits in order, one outcome per operation; the identity fields never change and a non-negative balance stays non-negative |
| Accounts.RunBalance | BankingSystem/src/main/java/banking/Account.java:57-79 | after any sequence of credits and debits the balance is the start plus the applied credits minus the successful debits |
| Accounts.RunPrefix | BankingSystem/src/main/java/banking/Account.java:57-79 | the first i outcomes of a run are the outcomes of running the first i operations |
| Accounts.RunStep | BankingSystem/src/main/java/banking/Account.java:57-79 | each operation's outcome in a run is that of applying it to the account the earlier operations left |
| Accounts.RunCreditOutcome | BankingSystem/src/main/java/banking/Account.java:57-66 | a credit in a run takes effect iff its amount is non-negative |
| Accounts.RunDebitOutcome | BankingSystem/src/main/java/banking/Account.java:68-79 | a debit in a run succeeds iff its amount is non-negative and covered by the balance just before it |
| Accounts.RunAppend | BankingSystem/src/main/java/banking/Account.java:57-79 | running two sequences one after the other equals running their concatenation, for the account and the per-operation outcomes alike |
| Banks.Init | BankingSystem/src/main/java/banking/Bank.java:15-21 | a new bank is empty, valid and solvent, and its counter is 100000 |
| Banks.GenerateAccountNumber | BankingSystem/src/main/java/banking/Bank.java:75-77 | returns the counter and advances it by one; in a valid bank the returned number is above every stored number, so it is not yet stored, and the bank stays valid |
| Banks.GetAccount | BankingSystem/src/main/java/banking/Bank.java:23-25 | a lookup finds an account iff the number is stored, and then it is the stored account |
| Banks.Open | BankingSystem/src/main/java/banking/Bank.java:27-41 | returns the counter's value n; afterwards n is stored with the requested holder, PIN, kind and deposit, the holder resolves to n, every other account and holder entry is unchanged, and validity is preserved with n fresh; solvency is kept iff the deposit is non-negative |
| Banks.OpenConsumer | BankingSystem/src/main/java/banking/Bank.java:35-41 | is `Banks.Open` with the consumer kind: the counter's value n is returned and the counter advances; n is stored as a consumer account holding the deposit and the person resolves to it; every other account and holder entry is unchanged; in a valid bank n is fresh and validity is preserved |
| Banks.OpenCommercial | BankingSystem/src/main/java/banking/Bank.java:27-33 | is `Banks.Open` with the commercial kind: the counter's value n is returned and the counter advances; n is stored as a commercial account holding the deposit and the company resolves to it; every other account and holder entry is unchanged; in a valid bank n is fresh and validity is preserved |
| Banks.Authenticate | BankingSystem/src/main/java/banking/Bank.java:43-46 | an unknown number fails; a known number succeeds iff its account accepts the PIN |
| Banks.GetBalanceOf | BankingSystem/src/main/java/banking/Bank.java:53-56 | for a stored number, the balance of the account the lookup finds |
| Banks.GetHolderBalance | BankingSystem/src/main/java/banking/Bank.java:48-51 | the balance of the account the holder resolves to; in a valid bank this is an account held by that holder |
| Banks.UpdateBalance | BankingSystem/src/main/java/banking/Bank.java:79-81 | only the balance of the named account changes, to the new value; identity, other accounts, holders and counter stay; validity is preserved |
| Banks.Credit | BankingSystem/src/main/java/banking/Bank.java:63-68 | the named account's balance becomes old + amount, whatever the amount's sign; other accounts, holders and counter are unchanged; for a non-negative amount it equals the account's own credit and keeps solvency |
| Banks.CreditHolder | BankingSystem/src/main/java/banking/Bank.java:58-61 | is `Banks.Credit` on the number the holder resolves to: that balance grows by the amount with no sign check; its identity, every other account, the holders and the counter are unchanged; validity is preserved, and solvency for a non-negative amount |
| Banks.Debit | BankingSystem/src/main/java/banking/Bank.java:70-73 | an unknown number fails and changes nothing; otherwise the result is the account's own debit; success iff 0 <= amount <= balance; only that account can change; validity and solvency are preserved |
| Banks.CreditSkipsNegativeGuard | BankingSystem/src/main/java/banking/Bank.java:63-68 | with a negative amount the bank's credit leaves a lower balance than the account's guarded credit; a large enough one makes a solvent bank insolvent |
| Banks.LatestAccountWins | BankingSystem/src/main/java/banking/Bank.java:27-51 | after a holder opens two accounts, the second has the larger number, the holder resolves to it and reports its deposit, and the first account is still stored unchanged |
| Banks.OpenEach | BankingSystem/src/main/java/banking/Bank.java:27-41 | successive opens hand out consecutive numbers from the counter, each naming the account its request asked for; in a valid bank they were all fresh, earlier accounts stay untouched and validity is preserved |
| Banks.FreshBankNumbers | BankingSystem/src/main/java/banking/Bank.java:75-77 | from a new bank the first number handed out is 100000 and later ones strictly increase, so none repeats |
| Transactions.Begin | BankingSystem/src/main/java/banking/Transaction.java:20-27 | a session exists iff the bank authenticates the number and PIN, and then it holds that number, which is stored; otherwise the result is the validation failure |
| Transactions.GetBalance | BankingSystem/src/main/java/banking/Transaction.java:29-32 | the bank's balance for the session's fixed number |
| Transactions.Credit | BankingSystem/src/main/java/banking/Transaction.java:35-38 | the session account's balance becomes old + amount with no sign check; other accounts, holders and counter are unchanged; validity is preserved |
| Transactions.Debit | BankingSystem/src/main/java/banking/Transaction.java:41-43 | success iff the session's account is stored and covers a non-negative amount; on success the balance drops by the amount, on failure nothing changes; solvency and validity are preserved |
| Transactions.CreditAgreesWithBank | BankingSystem/src/main/java/banking/Transaction.java:35-38 | with whole cents a session credit has exactly the effect of the bank's credit on the session's number |
| Transactions.DebitAgreesWithBank | BankingSystem/src/main/java/banking/Transaction.java:41-43 | a session debit is exactly the bank's debit on the session's number |
| Transactions.Serve | BankingSystem/src/main/java/banking/Transaction.java:29-43 | any one session call changes at most the session's account, never its identity, never the holders or counter, and keeps validity |
| Transactions.ServeAll | BankingSystem/src/main/java/banking/Transaction.java:29-43 | any sequence of session calls leaves every other account unchanged, the session account's identity intact, the stored numbers the same, and the bank valid |
| Transactions.SessionStaysAuthenticated | BankingSystem/src/main/java/banking/Transaction.java:20-27 | after any sequence of calls on an opened session, the session's number and PIN still authenticate |

## Left out

- Locks (`ReentrantReadWriteLock`, the `synchronized` number generator) and the read-then-write race in the bank's and the session's credit. The model is sequential, so each operation is one atomic step.
- `double` arithmetic and `BigDecimal.setScale(2, HALF_UP)`. Amounts are integer cents, so rounding to two decimals is the identity and no floating-point error is modelled.
- 64-bit overflow of the account-number counter. Numbers are unbounded integers.
- The counter is `static` in the Java `Bank` class and so shared by every `Bank` in the JVM. Here it is part of one bank's state.
- PINs are unbounded integers. The PIN check is an equality, so the 32-bit width of `int` does not matter.
- `AccountHolder`, `Person`, `Company`, `ConsumerAccount` and `CommercialAccount` are not part of this model. Holders are opaque keys and the account kind is a tag.
- `setBalance` is not part of this model. `Banks.UpdateBalance` assumes it is plain assignment.
- The `NullPointerException` for an unknown number or an unknown holder. It is a precondition of `Banks.GetBalanceOf`, `Banks.GetHolderBalance`, `Banks.Credit`, `Banks.CreditHolder`, `Banks.UpdateBalance` and of the session calls that read the balance.
- Java's `Transaction` keeps a reference to a mutable bank. Here each session call takes the current bank value and returns the updated one.
- Java's `Bank.getAccount` returns the live stored `Account`, whose public `creditAccount` and `debitAccount` would change the bank directly. `Banks.GetAccount` returns a copy. The only changes made through a looked-up account that the model writes back are those of `Banks.Debit`.
