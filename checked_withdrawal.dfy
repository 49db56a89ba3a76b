/**
  The `BankAccount` of Assignment-1/Program8.java, whose `withdraw` throws
  `InsufficientFundsException` carrying the shortfall. The exception is
  returned as a failure value. Amounts are exact reals.
*/
module CustomExceptionDemo {
  import opened Wrappers

  /** `InsufficientFundsException`: how much the account lacks. */
  datatype InsufficientFundsException = InsufficientFundsException(amountShortfall: real)

  /**
    `withdraw` on `balance`: the new balance, or the exception when the
    amount exceeds the balance. The sign of the amount is not checked.
  */
  function WithdrawResult(balance: real, amount: real): (r: Result<real, InsufficientFundsException>)
    ensures r.Failure? <==> amount > balance
    ensures r.Failure? ==> r.error.amountShortfall > 0.0
    ensures r.Failure? ==> balance + r.error.amountShortfall == amount
    ensures r.Success? ==> r.value + amount == balance
  {
    if amount > balance then Failure(InsufficientFundsException(amount - balance))
    else Success(balance - amount)
  }

  /**
    The balance after withdrawing each amount in turn, the caller catching
    each exception (a refused withdrawal leaves the balance as it was).
  */
  function AfterWithdrawals(balance: real, amounts: seq<real>): (r: real)
    ensures (forall k :: 0 <= k < |amounts| ==> amounts[k] >= 0.0) ==> r <= balance
    decreases |amounts|
  {
    if amounts == [] then balance
    else
      var next := match WithdrawResult(balance, amounts[0])
        case Success(b) => b
        case Failure(_) => balance;
      AfterWithdrawals(next, amounts[1..])
  }

  /** A negative amount is accepted and raises the balance. */
  lemma NegativeAmountRaisesBalance(balance: real, amount: real)
    requires amount < 0.0 <= balance
    ensures WithdrawResult(balance, amount).Success?
    ensures WithdrawResult(balance, amount).value > balance
  {
  }

  /** An accepted withdrawal never leaves the balance negative, whatever the sign of the amount. */
  lemma AcceptedWithdrawalNonNegative(balance: real, amount: real)
    ensures WithdrawResult(balance, amount).Success? ==> WithdrawResult(balance, amount).value >= 0.0
  {
  }

  /**
    From a non-negative balance, any withdrawals (of either sign) keep the
    balance non-negative; in particular non-negative ones do.
  */
  lemma {:induction false} WithdrawalsKeepBalance(balance: real, amounts: seq<real>)
    requires balance >= 0.0
    ensures AfterWithdrawals(balance, amounts) >= 0.0
    decreases |amounts|
  {
    if amounts != [] {
      var next := match WithdrawResult(balance, amounts[0])
        case Success(b) => b
        case Failure(_) => balance;
      WithdrawalsKeepBalance(next, amounts[1..]);
    }
  }

  /** A negative opening balance stays as it is until a withdrawal is accepted, e.g. -5 then 1 is refused. */
  lemma NegativeOpeningRefusesPositive()
    ensures AfterWithdrawals(-5.0, [1.0]) == -5.0
    ensures WithdrawResult(-5.0, 1.0) == Failure(InsufficientFundsException(6.0))
  {
    assert [1.0][1..] == [];
  }

  class BankAccount {
    const accountNumber: string
    var balance: real

    /** The initial balance is stored as given, negative or not. */
    constructor (accountNumber: string, initialBalance: real)
      ensures this.accountNumber == accountNumber && balance == initialBalance
    {
      this.accountNumber := accountNumber;
      balance := initialBalance;
    }

    method GetBalance() returns (b: real)
      ensures b == balance
    {
      b := balance;
    }

    /**
      `withdraw`: throws, leaving the balance alone, when the amount exceeds
      it; otherwise subtracts the amount.
    */
    method Withdraw(amount: real) returns (outcome: Outcome<InsufficientFundsException>)
      modifies this
      ensures amount > old(balance) ==> outcome == Fail(InsufficientFundsException(amount - old(balance)))
      ensures amount > old(balance) ==> balance == old(balance)
      ensures amount <= old(balance) ==> outcome == Pass && balance == old(balance) - amount
      ensures WithdrawResult(old(balance), amount).Success? ==> balance == WithdrawResult(old(balance), amount).value
    {
      if amount > balance {
        var shortfall := amount - balance;
        return Fail(InsufficientFundsException(shortfall));
      }
      balance := balance - amount;
      return Pass;
    }
  }
}
