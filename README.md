# Java programming assignments — verified model of the sequential core

This project models, in Dafny, the parts of a set of Java teaching programs
that hold self-contained sequential logic, and proves what those programs
promise:

- `DataProcessor` (Assignment-1/Program1.java): average, maximum, linear
  search, in-place sort and two-pointer reverse of an `int[]`, string
  reverse and string sort — module `DataProcessing`.
- `CaesarCipher` and `ReverseCipher` (Assignment-1/Program6.java) — module
  `Ciphers`.
- `Matrix` (Assignment-1/Program2.java): validating deep-copy constructor,
  `transpose`, `multiply` — module `Matrices`.
- `BankAccount` with guarded deposit/withdraw (Assignment-1/Program4.java) —
  module `BankAccountDemo`.
- `BankAccount` whose `withdraw` throws `InsufficientFundsException`
  (Assignment-1/Program8.java) — module `CustomExceptionDemo`.
- `PrimeFinderDemo.isPrime` and the range scan of its two worker classes
  (Assignment-2/Program1.java) — module `PrimeFinder`.
- `SharedBuffer` and the producer/consumer pair (Assignment-2/Program2.java),
  run sequentially — module `ProducerConsumer`.
- `WordCountDemo.countWordsInFile` (Assignment-2/Program5.java), over the
  lines of the file — module `WordCount`.

`Wrappers` holds the `Result` and `Outcome` types that stand for a thrown
exception.

Modelling choices:

- Objects whose fields change (`BankAccount`, `SharedBuffer`) are classes
  with `modifies` clauses; `Matrix` is a class over a fresh `array2<real>`;
  the array algorithms of `DataProcessor` work in place on `array<int>`;
  loops in the source are `while`/`for` loops proved against specification
  functions (`Shifted`, `TransposeOf`, `Product`, `Reverse`, `TallyOf`, …).
  The one exception is the trial-division `for` loop of `isPrime`, which
  keeps no state beyond its counter and returns early: it is the recursive
  function `NoOddDivisorFrom`, one call per candidate.
- Money and matrix entries are `real`; `double` rounding is not modelled.
- A thrown exception is a `Failure`/`Fail` value carrying the data its
  message reports (`DimensionMismatch` with both dimensions,
  `InsufficientFundsException` with its shortfall); the message texts
  themselves are not modelled.
- Each `while (...) wait()` loop of `SharedBuffer` becomes the precondition
  of the operation. The buffer has the fixed capacity 5 of the code and no
  close operation.
- `isPrime` stops trial division at `i * i > number` instead of comparing
  with `Math.sqrt(number)`; for the `int` range these agree.
- `Arrays.sort(int[])` is modelled by an in-place selection sort and
  `Arrays.sort(char[])` by insertion into a sorted string: only the
  library's contract (ascending, a permutation) is relied upon.
- Characters are ASCII: `Character.isLetter`/`isLowerCase`, `toLowerCase`
  and the regular-expression class `\w` are taken on ASCII only.
- `split("\\W+")` is modelled with Java's rules: no match gives the string
  itself, a leading separator gives an empty first piece, and trailing empty
  pieces are removed.

## Model

| member | source | states |
|---|---|---|
| DataProcessing.ReverseAt | Assignment-1/Program1.java:33-42 | position k of the reversal holds the element at length-1-k |
| DataProcessing.ReverseInvolution | Assignment-1/Program1.java:33-42 | reversing twice gives the original sequence back |
| DataProcessing.FindAverage | Assignment-1/Program1.java:7-12 | 0 for an empty array; otherwise average × length equals the sum of all elements |
| DataProcessing.WrapInt32 | Assignment-1/Program1.java:9-10 | the result is a 32-bit `int` congruent to the argument modulo 2^32 |
| DataProcessing.JavaIntSum | Assignment-1/Program1.java:9-10 | the `int sum` after the loop, each `+=` wrapping: always within the 32-bit range |
| DataProcessing.FindAverageAsWritten | Assignment-1/Program1.java:7-11 | `findAverage` as written: 0 for an empty array; otherwise result × length equals the sum wrapped to 32 bits |
| DataProcessing.WrapAbsorbs | Assignment-1/Program1.java:10 | wrapping an intermediate sum before adding more does not change the wrapped total |
| DataProcessing.JavaIntSumWraps | Assignment-1/Program1.java:9-10 | the `int sum` loop yields the mathematical sum wrapped to 32 bits |
| DataProcessing.AverageOverflowExample | Assignment-1/Program1.java:7-11 | for {2147483647, 1} the code as written returns -1073741824.0 while the average is 1073741824.0 |
| DataProcessing.FindMaximum | Assignment-1/Program1.java:14-20 | on a non-empty array the result is an element and no element exceeds it |
| DataProcessing.SearchArray | Assignment-1/Program1.java:22-27 | result in [-1, length); a non-negative result is the first index holding the target; -1 exactly when the target is absent |
| DataProcessing.Swap | Assignment-1/Program1.java:30 | exchanges two cells, leaves the others, and keeps the multiset of elements (a step of the sort standing in for `Arrays.sort`) |
| DataProcessing.MinIndexFrom | Assignment-1/Program1.java:30 | an index at or after `lo` holding the smallest element from `lo` on (a step of the sort standing in for `Arrays.sort`) |
| DataProcessing.SortArray | Assignment-1/Program1.java:29-31 | the array ends ascending and is a permutation of its old contents |
| DataProcessing.ReverseArray | Assignment-1/Program1.java:33-42 | the new contents are the old contents reversed (loop keeps left + right == length - 1 and swaps only inside the array) |
| DataProcessing.ReverseString | Assignment-1/Program1.java:46-48 | same length, character i is the input's character length-1-i |
| DataProcessing.ReverseStringTwice | Assignment-1/Program1.java:46-48 | reversing a string twice gives it back |
| DataProcessing.Insert | Assignment-1/Program1.java:50-54 | inserting into a sorted string keeps it sorted and adds exactly that character |
| DataProcessing.SortString | Assignment-1/Program1.java:50-54 | the result is non-decreasing, has the input's length and the same multiset of characters |
| Ciphers.JavaRem | Assignment-1/Program6.java:44 | Java's `%`: magnitude below the divisor, sign of the dividend, and congruent to the dividend modulo the divisor |
| Ciphers.Position | Assignment-1/Program6.java:42-44 | a letter's distance from its base 'a' or 'A' lies in [0, 26) |
| Ciphers.ShiftChar | Assignment-1/Program6.java:40-53 | one character of `shiftText`: a non-letter is kept; a lower-case letter stays lower-case and an upper-case one upper-case |
| Ciphers.Shifted | Assignment-1/Program6.java:40-53 | the text `shiftText` builds: the input's length, with every non-letter kept in place |
| Ciphers.NormalisedRemainder | Assignment-1/Program6.java:44-47 | the remainder plus 26 when negative is the mathematical remainder modulo 26 |
| Ciphers.ShiftCharLetter | Assignment-1/Program6.java:41-48 | a letter stays lower- or upper-case and its position moves by the shift modulo 26 |
| Ciphers.ShiftCharRoundTrip | Assignment-1/Program6.java:40-53 | shifting a character by k and then by -k gives it back |
| Ciphers.ShiftCharPeriodic | Assignment-1/Program6.java:44 | shifting by k + 26 equals shifting by k |
| Ciphers.ShiftText | Assignment-1/Program6.java:37-55 | the appending loop returns exactly the character-wise shift of the text |
| Ciphers.ShiftedShape | Assignment-1/Program6.java:38-54 | same length; non-letters unchanged in place; lower-case stays lower-case, upper-case stays upper-case |
| Ciphers.ShiftedRoundTrip | Assignment-1/Program6.java:27-34 | shifting a text by k and then by -k gives it back |
| Ciphers.ShiftedPeriodic | Assignment-1/Program6.java:44 | shifts of k and k + 26 give identical texts |
| Ciphers.CaesarCipher.constructor | Assignment-1/Program6.java:22-24 | the cipher keeps the given shift |
| Ciphers.CaesarCipher.Encrypt | Assignment-1/Program6.java:27-29 | encryption is the shift by the cipher's shift |
| Ciphers.CaesarCipher.Decrypt | Assignment-1/Program6.java:32-34 | decryption is the shift by the negated shift |
| Ciphers.CaesarRoundTrip | Assignment-1/Program6.java:27-34 | decrypting an encrypted message gives the message |
| Ciphers.ReverseEncrypt | Assignment-1/Program6.java:62-65 | same length, characters in reverse order |
| Ciphers.ReverseDecrypt | Assignment-1/Program6.java:68-71 | same length, characters in reverse order |
| Ciphers.ReverseCipherRoundTrip | Assignment-1/Program6.java:61-71 | encrypt and decrypt are the same function and undo each other |
| PrimeFinder.IsPrime | Assignment-2/Program1.java:12-21 | true exactly when the number is greater than 1 and has no divisor d with 2 <= d < number |
| PrimeFinder.NoOddDivisorFrom | Assignment-2/Program1.java:17-20 | the trial loop from candidate i: false only when some d >= i with d·d <= n divides n |
| PrimeFinder.PrimePassesTrials | Assignment-2/Program1.java:17-19 | a prime is never divisible by an odd trial divisor |
| PrimeFinder.NoDivisorAboveRoot | Assignment-2/Program1.java:17 | with no divisor below i and i·i > n, n is prime: trials past the square root are not needed |
| PrimeFinder.TrialsShowPrime | Assignment-2/Program1.java:15-20 | an odd number passing every odd trial from 3 is prime |
| PrimeFinder.TrialDivisionCorrect | Assignment-2/Program1.java:12-21 | the early returns and the odd trial loop decide primality |
| PrimeFinder.IsPrimeBasics | Assignment-2/Program1.java:13-15 | false for n <= 1, true for 2, false for every even n > 2 |
| PrimeFinder.PrimesInRange | Assignment-2/Program1.java:38-41 | the list holds exactly the primes in [startRange, endRange], strictly ascending, and is empty when startRange > endRange |
| Matrices.TransposeShape | Assignment-1/Program2.java:33-39 | the transpose is cols × rows with T[j][i] == m[i][j] |
| Matrices.TransposeTwice | Assignment-1/Program2.java:32-42 | with at least one column, transposing twice gives the matrix back |
| Matrices.DotTransposed | Assignment-1/Program2.java:60-62 | the accumulated sum for (i, j) equals the one for (j, i) of the transposed operands in swapped order |
| Matrices.ProductTransposed | Assignment-1/Program2.java:58-64 | the transpose of a product is the product of the transposes in reverse order |
| Matrices.Matrix.constructor | Assignment-1/Program2.java:10-27 | rows and cols come from the input and the fresh array holds a copy of every entry |
| Matrices.Matrix.Transpose | Assignment-1/Program2.java:32-42 | fails with EmptyData when cols is 0 (the constructor call rejects it); otherwise a fresh cols × rows matrix, over a fresh array, holding the transpose |
| Matrices.Matrix.Multiply | Assignment-1/Program2.java:47-67 | fails with DimensionMismatch carrying cols and other.rows when they differ; otherwise a fresh rows × other.cols matrix, over a fresh array, with entry (i, j) the sum over k of this[i][k]·other[k][j] |
| Matrices.FillRow | Assignment-1/Program2.java:59-63 | the middle loop of `multiply`: every cell of row i of the zeroed result receives its dot product; other rows are untouched |
| Matrices.AccumulateEntry | Assignment-1/Program2.java:60-62 | the `+=` loop adds the full dot product to cell (i, j) and leaves every other cell unchanged |
| Matrices.NewMatrix | Assignment-1/Program2.java:10-27 | fails with EmptyData on no rows and RaggedRows on unequal row lengths; otherwise a fresh matrix copying the input |
| ProducerConsumer.SharedBuffer.constructor | Assignment-2/Program2.java:5-6 | the buffer starts empty |
| ProducerConsumer.SharedBuffer.Produce | Assignment-2/Program2.java:11-24 | enabled below capacity 5; appends the value at the tail, size grows by one, nothing else changes |
| ProducerConsumer.SharedBuffer.Consume | Assignment-2/Program2.java:29-43 | enabled when non-empty; returns the head, removes it, size shrinks by one, the rest is unchanged |
| ProducerConsumer.RunCalls | Assignment-2/Program2.java:11-43 | under any sequence of calls the consumed values are a prefix of the produced ones (FIFO) and at most 5 are inside at any time |
| ProducerConsumer.RunDemo | Assignment-2/Program2.java:55-67 | with the producer offering 1, 2, 3, … under any interleaving, the consumed values are 1, 2, 3, … |
| BankAccountDemo.Opening | Assignment-1/Program4.java:15-20 | the opening balance is never negative and is either the initial amount or 0 |
| BankAccountDemo.Deposited | Assignment-1/Program4.java:26-33 | a deposit never lowers the balance and either keeps it or adds exactly the amount |
| BankAccountDemo.Withdrawn | Assignment-1/Program4.java:38-47 | a withdrawal never raises the balance, never takes a non-negative balance below 0, and either keeps it or subtracts exactly the amount |
| BankAccountDemo.Apply | Assignment-1/Program4.java:26-47 | the balance after a sequence of calls: deposits alone never lower it and withdrawals alone never raise it |
| BankAccountDemo.GuardsDecide | Assignment-1/Program4.java:26-47 | deposit changes nothing exactly when amount <= 0; withdraw changes nothing exactly when amount <= 0 or amount > balance, and otherwise subtracts amount |
| BankAccountDemo.NeverNegative | Assignment-1/Program4.java:26-47 | from a non-negative balance no sequence of deposits and withdrawals makes it negative |
| BankAccountDemo.OpeningNeverNegative | Assignment-1/Program4.java:10-47 | from any opening amount, every later balance is non-negative |
| BankAccountDemo.BankAccount.constructor | Assignment-1/Program4.java:10-21 | stores number and holder; the balance is the initial amount when >= 0 and 0 otherwise |
| BankAccountDemo.BankAccount.Deposit | Assignment-1/Program4.java:26-33 | the balance is the guarded deposit of the old balance and stays >= 0 |
| BankAccountDemo.BankAccount.Withdraw | Assignment-1/Program4.java:38-47 | the balance is the guarded withdrawal of the old balance and stays >= 0 |
| BankAccountDemo.BankAccount.GetBalance | Assignment-1/Program4.java:52-54 | returns the balance and changes nothing |
| CustomExceptionDemo.WithdrawResult | Assignment-1/Program8.java:43-57 | fails exactly when amount > balance, with a positive shortfall equal to amount - balance; otherwise the new balance plus amount is the old balance |
| CustomExceptionDemo.AfterWithdrawals | Assignment-1/Program8.java:46-55 | the balance after withdrawing each amount in turn, refusals leaving it: non-negative amounts never raise it |
| CustomExceptionDemo.NegativeAmountRaisesBalance | Assignment-1/Program8.java:43-55 | a negative amount is accepted and raises the balance |
| CustomExceptionDemo.AcceptedWithdrawalNonNegative | Assignment-1/Program8.java:46-55 | an accepted withdrawal never leaves a negative balance |
| CustomExceptionDemo.WithdrawalsKeepBalance | Assignment-1/Program8.java:46-55 | from a non-negative balance, any sequence of withdrawals (of any sign) keeps it non-negative |
| CustomExceptionDemo.NegativeOpeningRefusesPositive | Assignment-1/Program8.java:30-52 | an unvalidated opening balance of -5 refuses a withdrawal of 1 with shortfall 6 |
| CustomExceptionDemo.BankAccount.constructor | Assignment-1/Program8.java:30-33 | stores number and initial balance without validation |
| CustomExceptionDemo.BankAccount.GetBalance | Assignment-1/Program8.java:35-37 | returns the balance and changes nothing |
| CustomExceptionDemo.BankAccount.Withdraw | Assignment-1/Program8.java:43-57 | when amount > balance: fails with shortfall amount - balance and the balance unchanged; otherwise succeeds and subtracts amount |
| WordCount.ToLower | Assignment-2/Program5.java:46 | same length; 'A'..'Z' become 'a'..'z' and every other character is kept |
| WordCount.SplitFrom | Assignment-2/Program5.java:46 | the pieces between separator runs: at least one, and at most one more than the length |
| WordCount.DropTrailingEmpty | Assignment-2/Program5.java:46 | a prefix of the pieces that drops only empty ones and ends in a non-empty piece |
| WordCount.JavaSplit | Assignment-2/Program5.java:46 | `split("\\W+")`: at most one more piece than characters, and no trailing empty piece when a separator occurs |
| WordCount.NonEmpty | Assignment-2/Program5.java:48-50 | the pieces that pass `!word.isEmpty()`: no more than the input, all non-empty |
| WordCount.LineWords | Assignment-2/Program5.java:46-50 | the words counted for one line: all non-empty, at most one more than the line's length |
| WordCount.AllWords | Assignment-2/Program5.java:42-50 | the words counted over all lines: all non-empty |
| WordCount.TallyOf | Assignment-2/Program5.java:53 | the map after counting words into an empty map: its keys are exactly those words, each with a count of at least 1 |
| WordCount.SplitKeepsWordRuns | Assignment-2/Program5.java:46-50 | the non-empty pieces of the split are exactly the maximal word-character runs, in order |
| WordCount.WordRunsShape | Assignment-2/Program5.java:46 | every run is non-empty and made of word characters of the line |
| WordCount.Bump | Assignment-2/Program5.java:53 | the word's count rises by one (from 0 when absent); every other entry is unchanged |
| WordCount.TalliesBump | Assignment-2/Program5.java:53 | counting one more word keeps the map an exact tally of the words seen |
| WordCount.TallyOfTallies | Assignment-2/Program5.java:42-55 | counting words one by one into an empty map tallies exactly those words |
| WordCount.CountOneMore | Assignment-2/Program5.java:49-53 | one more piece: a non-empty one bumps the tally, an empty one leaves it |
| WordCount.CountPieces | Assignment-2/Program5.java:48-55 | the token loop counts the non-empty pieces of one line into the map |
| WordCount.CountWords | Assignment-2/Program5.java:34-56 | the map has a key for exactly the counted words, each mapped to its number of occurrences |
| WordCount.AllWordsAreRuns | Assignment-2/Program5.java:42-55 | the counted words are the maximal word runs of the lower-cased lines |
| WordCount.CountIsOccurrences | Assignment-2/Program5.java:42-55 | a word is a key exactly when it occurs as a run, and its count is its number of occurrences |
| WordCount.KeysAndCounts | Assignment-2/Program5.java:46-53 | every key is non-empty and made of `[a-z0-9_]`, and every count is at least 1 |
| WordCount.RunsOfLinesShape | Assignment-2/Program5.java:46-50 | every run of the lower-cased lines is non-empty and made of `[a-z0-9_]` |
| WordCount.CountsSumToWords | Assignment-2/Program5.java:42-55 | the counts sum to the number of non-empty tokens over all lines |

## Left out

- Threads, executors and monitors: `Thread`/`Runnable`/`ExecutorService`
  start, join and shutdown, `wait`/`notifyAll`, `Thread.sleep` and interrupt
  handling. Each wait loop is an enabling precondition; interleavings are
  explored by `RunCalls`/`RunDemo` over a schedule given as a parameter.
- Console output everywhere (`System.out`, `printf`, `Cipher.displayStatus`,
  the account display methods, `Matrix.toString`).
- File I/O of the word counter: creating the sample file, `BufferedReader`
  and the `IOException` path. The file is given as its sequence of lines.
- The other programs of the repository (GUI, sockets, directory listing,
  collection and autoboxing demos, floating-point run rates).
- IEEE `double` rounding, infinities and NaN: amounts and matrix entries are
  exact reals, and the `double` division of `findAverage`
  (Assignment-1/Program1.java:11) is taken exactly in `FindAverage` and
  `FindAverageAsWritten`. In particular `withdraw(NaN)` in
  Assignment-1/Program4.java passes both guards and would make the balance
  NaN; the model cannot show it.
- Non-ASCII characters: `Character.isLetter` accepts letters such as 'é',
  which the Caesar shift maps outside the alphabet and does not round-trip;
  locale-dependent `toLowerCase`; lone (unpaired) surrogates, which a Java
  `String` can hold but a Dafny string of Unicode scalar values cannot, so
  `ReverseString` and `ReverseEncrypt` keep every pair together as
  `StringBuilder.reverse` does but say nothing about unpaired ones;
  and `Arrays.sort(char[])` (Assignment-1/Program1.java:52), which orders
  UTF-16 code units and can separate a surrogate pair, while `SortString`
  orders Dafny characters (Unicode scalar values).
- Java `int` width outside `findAverage`: `character - base + shiftAmount`
  and `-this.shift` can overflow for shifts near the `int` limits, and the
  range scan's `i++` never terminates when `endRange` is `Integer.MAX_VALUE`,
  the producer's `value++` (Assignment-2/Program2.java:59) wraps after
  2^31 - 1 items, and the `Integer` counts of the word map
  (Assignment-2/Program5.java:53) wrap past 2^31 - 1 occurrences;
  integers here are unbounded.
- Null arguments (`inputData == null`, null strings or arrays), which the
  Java code either rejects or fails on with a `NullPointerException`.
- The algorithm inside `Arrays.sort`: only its result is modelled.
- DataProcessing.FindMaximum: requires a non-empty array. On an empty one
  `arr[0]` (Assignment-1/Program1.java:15) throws
  `ArrayIndexOutOfBoundsException`, which the model does not represent.
- The thread names and task names of the prime scan's printed report; the
  scan loop shared by `PrimeThread.run` and `PrimeRunnable.run` is modelled.

## Findings

| source | as written | input that shows it | evidently intended | confidence | as-written member | corrected member |
|---|---|---|---|---|---|---|
| Assignment-1/Program1.java:9-11 | `findAverage` accumulates into an `int`, which wraps past 2^31 - 1 before the division | the array {2147483647, 1}: the sum wraps to -2147483648 and the result is -1073741824.0 | the average of the elements, 1073741824.0 (sum in a wider type) | not executed | DataProcessing.AverageOverflowExample | DataProcessing.FindAverage |
