/**
  The Caesar and reverse ciphers of Assignment-1/Program6.java. Letters are
  the ASCII letters; `Character.isLetter` on other alphabets is not modelled.
*/
module Ciphers {
  import DataProcessing
  import opened Arithmetic

  predicate IsLower(c: char) { 'a' <= c <= 'z' }
  predicate IsUpper(c: char) { 'A' <= c <= 'Z' }
  predicate IsLetter(c: char) { IsLower(c) || IsUpper(c) }

  /** Java's `%` on `int`: it truncates toward zero, so a negative dividend gives a non-positive remainder. */
  function JavaRem(a: int, b: int): (r: int)
    requires b > 0
    ensures -b < r < b
    ensures a >= 0 ==> r >= 0
    ensures a <= 0 ==> r <= 0
    ensures (a - r) % b == 0
  {
    if a >= 0 then
      var q := a / b;
      assert a - a % b == q * b;
      MultipleMod(q, b);
      a % b
    else
      var q := (-a) / b;
      assert a + (-a) % b == (-q) * b;
      MultipleMod(-q, b);
      -((-a) % b)
  }

  /** The alphabet position of a letter: 0 for 'a' and 'A', 25 for 'z' and 'Z'. */
  function Position(c: char): (p: int)
    requires IsLetter(c)
    ensures 0 <= p < 26
  {
    if IsLower(c) then c as int - 'a' as int else c as int - 'A' as int
  }

  /** One character of `shiftText`: a letter moves `amount` places round its alphabet; any other character is kept. */
  function ShiftChar(c: char, amount: int): (r: char)
    ensures !IsLetter(c) ==> r == c
    ensures IsLower(c) ==> IsLower(r)
    ensures IsUpper(c) ==> IsUpper(r)
  {
    if IsLetter(c) then
      var base := if IsLower(c) then 'a' else 'A';
      var offset := JavaRem(c as int - base as int + amount, 26);
      var offset' := if offset < 0 then offset + 26 else offset;
      (base as int + offset') as char
    else
      c
  }

  /** What `shiftText` builds: the input with every character shifted in place. */
  function Shifted(text: string, amount: int): (r: string)
    ensures |r| == |text|
    ensures forall i :: 0 <= i < |text| && !IsLetter(text[i]) ==> r[i] == text[i]
  {
    seq(|text|, i requires 0 <= i < |text| => ShiftChar(text[i], amount))
  }

  /** The normalised Java remainder is the mathematical remainder modulo 26. */
  lemma NormalisedRemainder(a: int)
    ensures (var o := JavaRem(a, 26); if o < 0 then o + 26 else o) == a % 26
  {
    if a < 0 {
      var r := (-a) % 26;
      var q := (-a) / 26;
      assert -a == 26 * q + r;
      if r == 0 {
        assert a == 26 * (-q);
      } else {
        assert a == 26 * (-q - 1) + (26 - r);
      }
    }
  }

  /** A letter stays a letter of the same case, moved to position (p + amount) mod 26. */
  lemma ShiftCharLetter(c: char, amount: int)
    requires IsLetter(c)
    ensures IsLower(ShiftChar(c, amount)) == IsLower(c)
    ensures IsUpper(ShiftChar(c, amount)) == IsUpper(c)
    ensures Position(ShiftChar(c, amount)) == (Position(c) + amount) % 26
  {
    NormalisedRemainder(Position(c) + amount);
  }

  /** Shifting back by the same amount restores every character. */
  lemma ShiftCharRoundTrip(c: char, amount: int)
    ensures ShiftChar(ShiftChar(c, amount), -amount) == c
  {
    if IsLetter(c) {
      ShiftCharLetter(c, amount);
      var d := ShiftChar(c, amount);
      ShiftCharLetter(d, -amount);
      ShiftBack(Position(c), amount);
      SameLetter(ShiftChar(d, -amount), c);
    }
  }

  /** Moving round the alphabet by `amount` and back lands on the start. */
  lemma ShiftBack(p: int, amount: int)
    requires 0 <= p < 26
    ensures ((p + amount) % 26 - amount) % 26 == p
  {
    var q := (p + amount) / 26;
    assert (p + amount) % 26 - amount == p + 26 * (-q);
  }

  /** Two letters of the same case at the same position are the same letter. */
  lemma SameLetter(c: char, e: char)
    requires IsLetter(c) && IsLetter(e) && IsLower(c) == IsLower(e)
    requires Position(c) == Position(e)
    ensures c == e
  {
  }

  /** Shifting by `amount + 26` is shifting by `amount`. */
  lemma ShiftCharPeriodic(c: char, amount: int)
    ensures ShiftChar(c, amount + 26) == ShiftChar(c, amount)
  {
    if IsLetter(c) {
      ShiftCharLetter(c, amount);
      ShiftCharLetter(c, amount + 26);
      assert (Position(c) + amount + 26) % 26 == (Position(c) + amount) % 26;
    }
  }

  /** `shiftText`: the output has the input's length, and each character is shifted where it stands. */
  method ShiftText(text: string, shiftAmount: int) returns (result: string)
    ensures result == Shifted(text, shiftAmount)
  {
    result := [];
    for i := 0 to |text|
      invariant result == Shifted(text[..i], shiftAmount)
    {
      result := result + [ShiftChar(text[i], shiftAmount)];
    }
    assert text[..|text|] == text;
  }

  /** Length is kept, non-letters are copied to the same place, letters keep their case. */
  lemma ShiftedShape(text: string, amount: int)
    ensures |Shifted(text, amount)| == |text|
    ensures forall i :: 0 <= i < |text| && !IsLetter(text[i]) ==> Shifted(text, amount)[i] == text[i]
    ensures forall i :: 0 <= i < |text| && IsLower(text[i]) ==> IsLower(Shifted(text, amount)[i])
    ensures forall i :: 0 <= i < |text| && IsUpper(text[i]) ==> IsUpper(Shifted(text, amount)[i])
  {
    forall i | 0 <= i < |text| && IsLetter(text[i])
      ensures IsLower(Shifted(text, amount)[i]) == IsLower(text[i])
      ensures IsUpper(Shifted(text, amount)[i]) == IsUpper(text[i])
    {
      ShiftCharLetter(text[i], amount);
    }
  }

  /** Decrypting what was encrypted with the same shift gives the text back. */
  lemma ShiftedRoundTrip(text: string, amount: int)
    ensures Shifted(Shifted(text, amount), -amount) == text
  {
    forall i | 0 <= i < |text|
      ensures Shifted(Shifted(text, amount), -amount)[i] == text[i]
    {
      ShiftCharRoundTrip(text[i], amount);
    }
  }

  /** Shifts that differ by 26 encrypt alike. */
  lemma ShiftedPeriodic(text: string, amount: int)
    ensures Shifted(text, amount + 26) == Shifted(text, amount)
  {
    forall i | 0 <= i < |text|
      ensures Shifted(text, amount + 26)[i] == Shifted(text, amount)[i]
    {
      ShiftCharPeriodic(text[i], amount);
    }
  }

  /** `CaesarCipher`: the shift is fixed at construction. */
  class CaesarCipher {
    const shift: int

    constructor (shift: int)
      ensures this.shift == shift
    {
      this.shift := shift;
    }

    /** `encrypt`: shift every letter forward by `shift`. */
    method Encrypt(text: string) returns (encrypted: string)
      ensures encrypted == Shifted(text, shift)
    {
      encrypted := ShiftText(text, shift);
    }

    /** `decrypt`: shift every letter backward by `shift`. */
    method Decrypt(text: string) returns (decrypted: string)
      ensures decrypted == Shifted(text, -shift)
    {
      decrypted := ShiftText(text, -shift);
    }
  }

  /** A cipher object decrypts what it encrypted. */
  method CaesarRoundTrip(cipher: CaesarCipher, message: string) returns (decrypted: string)
    ensures decrypted == message
  {
    var encrypted := cipher.Encrypt(message);
    decrypted := cipher.Decrypt(encrypted);
    ShiftedRoundTrip(message, cipher.shift);
  }

  /** `ReverseCipher.encrypt`: the text backwards. */
  function ReverseEncrypt(text: string): (r: string)
    ensures |r| == |text|
    ensures forall i :: 0 <= i < |text| ==> r[i] == text[|text| - 1 - i]
  {
    DataProcessing.ReverseString(text)
  }

  /** `ReverseCipher.decrypt`: the same reversal as `encrypt`. */
  function ReverseDecrypt(text: string): (r: string)
    ensures |r| == |text|
    ensures forall i :: 0 <= i < |text| ==> r[i] == text[|text| - 1 - i]
  {
    DataProcessing.ReverseString(text)
  }

  /** `encrypt` and `decrypt` agree on every input, and undo each other. */
  lemma ReverseCipherRoundTrip(text: string)
    ensures ReverseEncrypt(text) == ReverseDecrypt(text)
    ensures ReverseDecrypt(ReverseEncrypt(text)) == text
    ensures ReverseEncrypt(ReverseDecrypt(text)) == text
  {
    DataProcessing.ReverseStringTwice(text);
  }
}
