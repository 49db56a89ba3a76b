/**
  The `BankAccount` of Assignment-1/Program4.java: guarded deposits and
  withdrawals on a balance that never goes negative. Amounts are exact reals;
  `double` rounding and NaN are not modelled, and the console messages of
  the refused operations are left out.
*/
module BankAccountDemo {

  /** The opening balance: the initial balance, or 0 when it is negative. */
  function Opening(initialBalance: real): (r: real)
    ensures r >= 0.0
    ensures r == initialBalance || r == 0.0
  {
    if initialBalance >= 0.0 then initialBalance else 0.0
  }

  /** `deposit`: a positive amount is added; anything else is refused. */
  function Deposited(balance: real, amount: real): (r: real)
    ensures r >= balance
    ensures r == balance || r == balance + amount
  {
    if amount > 0.0 then balance + amount else balance
  }

  /** `withdraw`: refused unless 0 < amount <= balance; otherwise subtracted. */
  function Withdrawn(balance: real, amount: real): (r: real)
    ensures r <= balance
    ensures balance >= 0.0 ==> r >= 0.0
    ensures r == balance || r == balance - amount
  {
    if amount <= 0.0 then balance
    else if amount > balance then balance
    else balance - amount
  }

  /** A call a client makes on the account. */
  datatype Transaction = Deposit(amount: real) | Withdraw(amount: real)

  /** The balance after the transactions, in order. */
  function Apply(balance: real, txs: seq<Transaction>): (r: real)
    ensures (forall k :: 0 <= k < |txs| ==> txs[k].Deposit?) ==> r >= balance
    ensures (forall k :: 0 <= k < |txs| ==> txs[k].Withdraw?) ==> r <= balance
    decreases |txs|
  {
    if txs == [] then balance
    else
      var b := match txs[0]
        case Deposit(a) => Deposited(balance, a)
        case Withdraw(a) => Withdrawn(balance, a);
      Apply(b, txs[1..])
  }

  /** The balance never moves from a refused call, and only by the amount on an accepted one. */
  lemma GuardsDecide(balance: real, amount: real)
    ensures Deposited(balance, amount) == balance <==> amount <= 0.0
    ensures Withdrawn(balance, amount) == balance <==> amount <= 0.0 || amount > balance
    ensures 0.0 < amount <= balance ==> Withdrawn(balance, amount) == balance - amount
  {
  }

  /** Whatever the transactions, an account opened with any initial balance never goes negative. */
  lemma {:induction false} NeverNegative(balance: real, txs: seq<Transaction>)
    requires balance >= 0.0
    ensures Apply(balance, txs) >= 0.0
    decreases |txs|
  {
    if txs != [] {
      var b := match txs[0]
        case Deposit(a) => Deposited(balance, a)
        case Withdraw(a) => Withdrawn(balance, a);
      NeverNegative(b, txs[1..]);
    }
  }

  /** Starting from any constructor argument, no sequence of calls makes the balance negative. */
  lemma OpeningNeverNegative(initialBalance: real, txs: seq<Transaction>)
    ensures Apply(Opening(initialBalance), txs) >= 0.0
  {
    NeverNegative(Opening(initialBalance), txs);
  }

  class BankAccount {
    const accountNumber: string
    const accountHolderName: string
    var balance: real

    /** The balance is never negative. */
    ghost predicate Valid()
      reads this
    {
      balance >= 0.0
    }

    constructor (accountNumber: string, accountHolderName: string, initialBalance: real)
      ensures Valid()
      ensures this.accountNumber == accountNumber && this.accountHolderName == accountHolderName
      ensures balance == Opening(initialBalance)
    {
      this.accountNumber := accountNumber;
      this.accountHolderName := accountHolderName;
      if initialBalance >= 0.0 {
        balance := initialBalance;
      } else {
        balance := 0.0;
      }
    }

    method Deposit(amount: real)
      requires Valid()
      modifies this
      ensures Valid()
      ensures balance == Deposited(old(balance), amount)
    {
      if amount > 0.0 {
        balance := balance + amount;
      }
    }

    method Withdraw(amount: real)
      requires Valid()
      modifies this
      ensures Valid()
      ensures balance == Withdrawn(old(balance), amount)
    {
      if amount <= 0.0 {
      } else if amount > balance {
      } else {
        balance := balance - amount;
      }
    }

    /** `getBalance`: reads the balance and changes nothing. */
    method GetBalance() returns (b: real)
      ensures b == balance
    {
      b := balance;
    }
  }
}
