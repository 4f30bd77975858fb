/**
 The phone-number rule `^1[3-9]\d{9}$`, applied with `SELF MATCHES`, which
 matches the whole string. The pattern is kept in the shape it is written in,
 a sequence of single-character classes, and matched position by position.
 `\d` is read as an ASCII digit.
 */
module PhoneRule {
  import opened InputFilter

  /** One position of an anchored pattern built only from single-character classes. */
  datatype CharClass = Exactly(expected: char) | Between(lo: char, hi: char)

  predicate InClass(ch: char, k: CharClass) {
    if k.Exactly? then ch == k.expected else k.lo <= ch <= k.hi
  }

  /** `\d` */
  const DigitClass: CharClass := Between('0', '9')

  /** `^1[3-9]\d{9}$` */
  const PhonePattern: seq<CharClass> :=
    [Exactly('1'), Between('3', '9'),
     DigitClass, DigitClass, DigitClass, DigitClass, DigitClass,
     DigitClass, DigitClass, DigitClass, DigitClass]

  /** Whole-string match: one character per class, nothing before or after. */
  function Matches(s: string, pattern: seq<CharClass>): (ok: bool)
    ensures ok <==> |s| == |pattern| && forall i :: 0 <= i < |s| ==> InClass(s[i], pattern[i])
  {
    if s == [] || pattern == [] then s == [] && pattern == []
    else InClass(s[0], pattern[0]) && Matches(s[1..], pattern[1..])
  }

  /** The phone validator's predicate. */
  function IsValidPhone(p: string): (ok: bool)
    ensures ok <==>
      && |p| == PhoneLimit
      && p[0] == '1'
      && '3' <= p[1] <= '9'
      && forall i :: 2 <= i < |p| ==> IsDigit(p[i])
  {
    Matches(p, PhonePattern)
  }

  /** A valid phone number is something the phone field can hold: it survives the input filter. */
  lemma ValidPhoneIsFieldValue(p: string)
    requires IsValidPhone(p)
    ensures AllDigits(p) && |p| == PhoneLimit
    ensures PhoneField(p) == p
  {
    SanitizeKeepsCleanText(p, PhoneLimit);
  }

  lemma PhoneExamples()
    ensures IsValidPhone("13521032797")
    ensures !IsValidPhone("12345678901")
    ensures !IsValidPhone("1352103279")
    ensures !IsValidPhone("135210327970")
  {
    var good := "13521032797";
    assert IsValidPhone(good) by {
      assert |good| == PhoneLimit && good[0] == '1' && '3' <= good[1] <= '9';
      assert forall i :: 2 <= i < |good| ==> IsDigit(good[i]);
    }
    assert !IsValidPhone("12345678901") by {
      assert "12345678901"[1] == '2';
    }
    assert !IsValidPhone("1352103279") by {
      assert |"1352103279"| == 10;
    }
    assert !IsValidPhone("135210327970") by {
      assert |"135210327970"| == 12;
    }
  }
}
