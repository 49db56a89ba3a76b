/**
  Array and string helpers of the `DataProcessor` class
  (Assignment-1/Program1.java). The class has no fields, so its methods are
  module-level methods here; the `int[]` argument is an `array<int>` that the
  sorting and reversing methods change in place.
*/
module DataProcessing {

  // ---------------------------------------------------------------------
  // Specification functions
  // ---------------------------------------------------------------------

  /** Mathematical sum of the elements (no 32-bit wrap-around). */
  function Sum(s: seq<int>): int
  {
    if s == [] then 0 else Sum(s[..|s| - 1]) + s[|s| - 1]
  }

  /** The elements in the opposite order: the last one first. */
  function Reverse<T>(s: seq<T>): (r: seq<T>)
    ensures |r| == |s|
  {
    if s == [] then [] else [s[|s| - 1]] + Reverse(s[..|s| - 1])
  }

  predicate Ascending(s: seq<int>)
  {
    forall i, j :: 0 <= i < j < |s| ==> s[i] <= s[j]
  }

  predicate AscendingChars(s: string)
  {
    forall i, j :: 0 <= i < j < |s| ==> s[i] <= s[j]
  }

  // ---------------------------------------------------------------------
  // Lemmas about Reverse
  // ---------------------------------------------------------------------

  /** Position k of the reversed sequence holds the element k places from the end. */
  lemma {:induction false} ReverseAt<T>(s: seq<T>, k: nat)
    requires k < |s|
    ensures Reverse(s)[k] == s[|s| - 1 - k]
  {
    if k > 0 {
      ReverseAt(s[..|s| - 1], k - 1);
    }
  }

  /** Reversing twice gives back the original sequence. */
  lemma ReverseInvolution<T>(s: seq<T>)
    ensures Reverse(Reverse(s)) == s
  {
    forall k | 0 <= k < |s|
      ensures Reverse(Reverse(s))[k] == s[k]
    {
      ReverseAt(Reverse(s), k);
      ReverseAt(s, |s| - 1 - k);
    }
  }

  // ---------------------------------------------------------------------
  // Array operations
  // ---------------------------------------------------------------------

  /**
    `findAverage`: 0 for an empty array, otherwise the sum divided by the
    length. The sum is the mathematical one; the Java `int` accumulator
    wraps around (see `JavaIntSum` and `AverageOverflowExample`).
  */
  method FindAverage(arr: array<int>) returns (average: real)
    ensures arr.Length == 0 ==> average == 0.0
    ensures arr.Length > 0 ==> average * arr.Length as real == Sum(arr[..]) as real
  {
    if arr.Length == 0 {
      return 0.0;
    }
    var sum := 0;
    for i := 0 to arr.Length
      invariant sum == Sum(arr[..i])
    {
      assert arr[..i + 1][..i] == arr[..i];
      sum := sum + arr[i];
    }
    assert arr[..arr.Length] == arr[..];
    average := sum as real / arr.Length as real;
  }

  // ---------------------------------------------------------------------
  // findAverage as written: the `int` accumulator wraps around
  // ---------------------------------------------------------------------

  /** Java's `int` addition result: two's-complement wrap-around to 32 bits. */
  function WrapInt32(x: int): (r: int)
    ensures -0x8000_0000 <= r < 0x8000_0000
    ensures (x - r) % 0x1_0000_0000 == 0
  {
    (x + 0x8000_0000) % 0x1_0000_0000 - 0x8000_0000
  }

  /** The value of `sum` after the loop of `findAverage`, each `+=` wrapping. */
  function JavaIntSum(s: seq<int>): (r: int)
    ensures -0x8000_0000 <= r < 0x8000_0000
  {
    if s == [] then 0 else WrapInt32(JavaIntSum(s[..|s| - 1]) + s[|s| - 1])
  }

  /** The result of `findAverage` as written (the `double` division taken exactly). */
  function FindAverageAsWritten(s: seq<int>): (r: real)
    ensures s == [] ==> r == 0.0
    ensures s != [] ==> r * |s| as real == WrapInt32(Sum(s)) as real
  {
    JavaIntSumWraps(s);
    if |s| == 0 then 0.0 else JavaIntSum(s) as real / |s| as real
  }

  lemma WrapAbsorbs(a: int, b: int)
    ensures WrapInt32(WrapInt32(a) + b) == WrapInt32(a + b)
  {
    var m := 0x1_0000_0000;
    var q := (a + 0x8000_0000) / m;
    assert WrapInt32(a) == a - m * q;
    assert WrapInt32(a) + b + 0x8000_0000 == (a + b + 0x8000_0000) + m * (-q);
    ModuloShift(a + b + 0x8000_0000, -q);
  }

  /** Adding a multiple of 2^32 does not change the remainder modulo 2^32. */
  lemma ModuloShift(x: int, q: int)
    ensures (x + 0x1_0000_0000 * q) % 0x1_0000_0000 == x % 0x1_0000_0000
  {
    var m := 0x1_0000_0000;
    var k, r := x / m, x % m;
    var k', r' := (x + m * q) / m, (x + m * q) % m;
    assert m * (k + q - k') == r' - r;
    assert -m < r' - r < m;
  }

  /** The as-written sum is the mathematical sum wrapped once to 32 bits. */
  lemma {:induction false} JavaIntSumWraps(s: seq<int>)
    ensures JavaIntSum(s) == WrapInt32(Sum(s))
  {
    if s != [] {
      JavaIntSumWraps(s[..|s| - 1]);
      WrapAbsorbs(Sum(s[..|s| - 1]), s[|s| - 1]);
    }
  }

  /**
    Two positive `int` elements whose sum exceeds 2^31 - 1: the as-written
    average is negative, while the arithmetic mean is 2^30.
  */
  lemma AverageOverflowExample()
    ensures FindAverageAsWritten([0x7FFF_FFFF, 1]) == -1073741824.0
    ensures Sum([0x7FFF_FFFF, 1]) as real / 2.0 == 1073741824.0
  {
    var s := [0x7FFF_FFFF, 1];
    assert s[..1] == [0x7FFF_FFFF];
    assert s[..1][..0] == [];
    assert JavaIntSum(s) == -0x8000_0000;
  }

  /** `findMaximum`: an element of the array that no element exceeds. */
  method FindMaximum(arr: array<int>) returns (max: int)
    requires arr.Length > 0
    ensures max in arr[..]
    ensures forall k :: 0 <= k < arr.Length ==> arr[k] <= max
  {
    max := arr[0];
    for i := 0 to arr.Length
      invariant max in arr[..]
      invariant forall k :: 0 <= k < i ==> arr[k] <= max
    {
      if arr[i] > max {
        max := arr[i];
      }
    }
  }

  /** `searchArray`: the first index holding `target`, or -1 when there is none. */
  method SearchArray(arr: array<int>, target: int) returns (index: int)
    ensures -1 <= index < arr.Length
    ensures index >= 0 ==> arr[index] == target
    ensures index >= 0 ==> forall k :: 0 <= k < index ==> arr[k] != target
    ensures index == -1 <==> forall k :: 0 <= k < arr.Length ==> arr[k] != target
  {
    for i := 0 to arr.Length
      invariant forall k :: 0 <= k < i ==> arr[k] != target
    {
      if arr[i] == target {
        return i;
      }
    }
    return -1;
  }

  /** Exchanges two cells of the array. */
  method Swap(a: array<int>, i: int, j: int)
    requires 0 <= i < a.Length && 0 <= j < a.Length
    modifies a
    ensures a[i] == old(a[j]) && a[j] == old(a[i])
    ensures forall k :: 0 <= k < a.Length && k != i && k != j ==> a[k] == old(a[k])
    ensures multiset(a[..]) == multiset(old(a[..]))
  {
    a[i], a[j] := a[j], a[i];
  }

  /** Index of a smallest element of `a[lo..]`. */
  method MinIndexFrom(a: array<int>, lo: int) returns (m: int)
    requires 0 <= lo < a.Length
    ensures lo <= m < a.Length
    ensures forall k :: lo <= k < a.Length ==> a[m] <= a[k]
  {
    m := lo;
    for i := lo + 1 to a.Length
      invariant lo <= m < a.Length
      invariant forall k :: lo <= k < i ==> a[m] <= a[k]
    {
      if a[i] < a[m] {
        m := i;
      }
    }
  }

  /**
    `sort(int[])`: sorts the array in place into ascending order; the result
    is a permutation of the old contents. The library's `Arrays.sort` is
    modelled by a selection sort, which keeps the same contract.
  */
  method SortArray(a: array<int>)
    modifies a
    ensures Ascending(a[..])
    ensures multiset(a[..]) == multiset(old(a[..]))
  {
    for i := 0 to a.Length
      invariant multiset(a[..]) == multiset(old(a[..]))
      invariant forall p, q :: 0 <= p < q < i ==> a[p] <= a[q]
      invariant forall p, q :: 0 <= p < i <= q < a.Length ==> a[p] <= a[q]
    {
      var m := MinIndexFrom(a, i);
      ghost var before := a[..];
      Swap(a, i, m);
      assert forall q :: i < q < a.Length ==> a[i] <= a[q] by {
        forall q | i < q < a.Length ensures a[i] <= a[q] {
          assert a[q] == before[q] || a[q] == before[i];
        }
      }
    }
  }

  /**
    `reverse(int[])`: two indices move towards each other from both ends,
    swapping the cells they point at, until they meet.
  */
  method ReverseArray(arr: array<int>)
    modifies arr
    ensures arr[..] == Reverse(old(arr[..]))
  {
    ghost var original := arr[..];
    var n := arr.Length;
    var left, right := 0, n - 1;
    while left < right
      invariant 0 <= left <= right + 1 <= n
      invariant left + right == n - 1
      invariant forall k :: 0 <= k < left ==> arr[k] == original[n - 1 - k]
      invariant forall k :: right < k < n ==> arr[k] == original[n - 1 - k]
      invariant forall k :: left <= k <= right ==> arr[k] == original[k]
    {
      arr[left], arr[right] := arr[right], arr[left];
      left := left + 1;
      right := right - 1;
    }
    forall k | 0 <= k < n
      ensures arr[k] == Reverse(original)[k]
    {
      ReverseAt(original, k);
    }
  }

  // ---------------------------------------------------------------------
  // String operations
  // ---------------------------------------------------------------------

  /** `reverse(String)`: the characters in reverse order. */
  function ReverseString(str: string): (r: string)
    ensures |r| == |str|
    ensures forall i :: 0 <= i < |str| ==> r[i] == str[|str| - 1 - i]
  {
    ReverseAtEvery(str);
    Reverse(str)
  }

  lemma ReverseAtEvery(str: string)
    ensures forall i :: 0 <= i < |str| ==> Reverse(str)[i] == str[|str| - 1 - i]
  {
    forall i | 0 <= i < |str|
      ensures Reverse(str)[i] == str[|str| - 1 - i]
    {
      ReverseAt(str, i);
    }
  }

  /** Reversing a string twice gives the input back. */
  lemma ReverseStringTwice(str: string)
    ensures ReverseString(ReverseString(str)) == str
  {
    ReverseInvolution(str);
  }

  /** A lower bound of `c` and of every character of `t` bounds every character of a permutation of them. */
  lemma BelowAll(b: char, c: char, t: string, u: string)
    requires b <= c && forall i :: 0 <= i < |t| ==> b <= t[i]
    requires multiset(u) == multiset(t) + multiset{c}
    ensures forall i :: 0 <= i < |u| ==> b <= u[i]
  {
    forall i | 0 <= i < |u|
      ensures b <= u[i]
    {
      assert u[i] in multiset(u);
      if u[i] != c {
        assert u[i] in multiset(t);
        assert u[i] in t;
      }
    }
  }

  /** Places `c` into the sorted string `s`, before the first character not below it. */
  function Insert(c: char, s: string): (r: string)
    requires AscendingChars(s)
    ensures AscendingChars(r)
    ensures multiset(r) == multiset(s) + multiset{c}
  {
    if s == [] then [c]
    else if c <= s[0] then [c] + s
    else
      var rest := Insert(c, s[1..]);
      assert s == [s[0]] + s[1..];
      BelowAll(s[0], c, s[1..], rest);
      [s[0]] + rest
  }

  /**
    `sort(String)`: the characters of the string in non-decreasing order, a
    permutation of the input (so of the same length).
  */
  function SortString(str: string): (r: string)
    ensures AscendingChars(r)
    ensures multiset(r) == multiset(str)
    ensures |r| == |str|
  {
    if str == [] then []
    else
      assert str == [str[0]] + str[1..];
      var r := Insert(str[0], SortString(str[1..]));
      assert |r| == |multiset(r)|;
      r
  }
}
