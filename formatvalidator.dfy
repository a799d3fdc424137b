/** The national chess ID check of chess/utils/formatvalidator.py: two
    letters followed by five digits, seven characters in all. Letters and
    digits are the ASCII ones only; Python's `isalpha` and `isdigit` also
    accept other Unicode letters and digits. */
module FormatValidator {
  import opened Common

  /** An ASCII letter. */
  predicate IsLetter(c: char) {
    'a' <= c <= 'z' || 'A' <= c <= 'Z'
  }

  /** ASCII `s.isalpha()`: non-empty and ASCII letters only. */
  predicate IsAlpha(s: string) {
    |s| > 0 && forall i :: 0 <= i < |s| ==> IsLetter(s[i])
  }

  /** ASCII `s.isdigit()`: non-empty and ASCII digits only. */
  predicate IsDigitString(s: string) {
    |s| > 0 && AllDigits(s)
  }

  /** The three checks run in order, each returning False early; the
      function is total, so every string gets an answer. It accepts exactly
      the seven-character strings made of two ASCII letters and five ASCII
      digits. */
  function ValidateNationalChessIdFormat(nationalChessId: string): (ok: bool)
    ensures ok <==> |nationalChessId| == 7
                    && (forall i :: 0 <= i < 2 ==> IsLetter(nationalChessId[i]))
                    && (forall i :: 2 <= i < 7 ==> IsDigit(nationalChessId[i]))
  {
    if |nationalChessId| != 7 then false
    else if !IsAlpha(nationalChessId[..2]) then
      assert forall i :: 0 <= i < 2 ==> nationalChessId[..2][i] == nationalChessId[i];
      false
    else if !IsDigitString(nationalChessId[2..]) then
      assert forall i :: 2 <= i < 7 ==> nationalChessId[2..][i - 2] == nationalChessId[i];
      false
    else
      assert forall i :: 0 <= i < 2 ==> nationalChessId[..2][i] == nationalChessId[i];
      assert forall i :: 2 <= i < 7 ==> nationalChessId[2..][i - 2] == nationalChessId[i];
      true
  }

  /** The format the error message gives as its example is accepted, and
      one character too many, a digit in the letter part, or a letter in the
      digit part is each enough to reject. */
  lemma ExampleIds()
    ensures ValidateNationalChessIdFormat("AB12345")
    ensures !ValidateNationalChessIdFormat("AB123456")
    ensures !ValidateNationalChessIdFormat("A112345")
    ensures !ValidateNationalChessIdFormat("AB1234X")
  {
    assert !IsLetter("A112345"[1]);
    assert !IsDigit("AB1234X"[6]);
  }
}
