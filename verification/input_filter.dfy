/**
 The digit-only filters attached to the phone and code text fields: the text a
 field receives is reduced to its numeric characters and then cut to the
 field's length limit (`newValue.filter { $0.isNumber }` followed by
 `prefix(limit)`).

 `Character.isNumber` is modelled by the ASCII digits '0'..'9', and Swift's
 character count by sequence length.
 */
module InputFilter {

  /** Longest phone number the phone field keeps. */
  const PhoneLimit: nat := 11

  /** Longest verification code the code field keeps. */
  const CodeLimit: nat := 6

  predicate IsDigit(c: char) {
    '0' <= c <= '9'
  }

  predicate AllDigits(s: string) {
    forall i :: 0 <= i < |s| ==> IsDigit(s[i])
  }

  /** The numeric characters of `s`, in their original order. */
  function KeepDigits(s: string): (r: string)
    ensures AllDigits(r)
    ensures |r| <= |s|
  {
    if s == [] then []
    else if IsDigit(s[0]) then [s[0]] + KeepDigits(s[1..])
    else KeepDigits(s[1..])
  }

  /** KeepDigits drops every non-digit and keeps every digit as often as it occurs. */
  lemma {:induction false} KeepDigitsCounts(s: string)
    ensures forall c :: IsDigit(c) ==> multiset(KeepDigits(s))[c] == multiset(s)[c]
    ensures forall c :: !IsDigit(c) ==> multiset(KeepDigits(s))[c] == 0
  {
    if s != [] {
      KeepDigitsCounts(s[1..]);
      assert s == [s[0]] + s[1..];
      assert multiset(s) == multiset{s[0]} + multiset(s[1..]);
    }
  }

  /** Filtering commutes with concatenation, so the relative order of digits is kept. */
  lemma {:induction false} KeepDigitsAppend(a: string, b: string)
    ensures KeepDigits(a + b) == KeepDigits(a) + KeepDigits(b)
  {
    if a != [] {
      assert (a + b)[0] == a[0];
      assert (a + b)[1..] == a[1..] + b;
      KeepDigitsAppend(a[1..], b);
    } else {
      assert a + b == b;
    }
  }

  /** Text that is already all digits passes the filter unchanged. */
  lemma {:induction false} KeepDigitsOfDigits(s: string)
    requires AllDigits(s)
    ensures KeepDigits(s) == s
  {
    if s != [] {
      KeepDigitsOfDigits(s[1..]);
      assert s == [s[0]] + s[1..];
    }
  }

  /** Swift's `prefix(n)`: the first `n` elements, or all of them when there are fewer. */
  function Prefix(s: string, n: nat): (r: string)
    ensures r <= s
    ensures |r| == if |s| < n then |s| else n
  {
    if |s| <= n then s else s[..n]
  }

  /** What a digit-only text field stores when it receives `input`. */
  function Sanitize(input: string, limit: nat): (r: string)
    ensures AllDigits(r)
    ensures |r| <= limit
    ensures r <= KeepDigits(input)
    ensures |r| == if |KeepDigits(input)| < limit then |KeepDigits(input)| else limit
    ensures |KeepDigits(input)| <= limit ==> r == KeepDigits(input)
  {
    var digits := KeepDigits(input);
    var r := Prefix(digits, limit);
    assert forall i :: 0 <= i < |r| ==> r[i] == digits[i];
    r
  }

  /** A value the field could hold is stored back unchanged. */
  lemma SanitizeKeepsCleanText(s: string, limit: nat)
    requires AllDigits(s) && |s| <= limit
    ensures Sanitize(s, limit) == s
  {
    KeepDigitsOfDigits(s);
  }

  /** Filtering a filtered value changes nothing. */
  lemma SanitizeIdempotent(input: string, limit: nat)
    ensures Sanitize(Sanitize(input, limit), limit) == Sanitize(input, limit)
  {
    SanitizeKeepsCleanText(Sanitize(input, limit), limit);
  }

  /** The phone field's binding setter. */
  function PhoneField(input: string): (r: string)
    ensures AllDigits(r) && |r| <= PhoneLimit
    ensures r <= KeepDigits(input)
  {
    Sanitize(input, PhoneLimit)
  }

  /** The code field's binding setter. */
  function CodeField(input: string): (r: string)
    ensures AllDigits(r) && |r| <= CodeLimit
    ensures r <= KeepDigits(input)
  {
    Sanitize(input, CodeLimit)
  }

  /** Text made only of digits is cut to the limit and otherwise kept. */
  lemma SanitizeDigits(d: string, limit: nat)
    requires AllDigits(d)
    ensures Sanitize(d, limit) == Prefix(d, limit)
  {
    KeepDigitsOfDigits(d);
  }

  /** A pasted number with a country prefix keeps only its first eleven digits. */
  lemma PhoneFieldExample()
    ensures PhoneField("8613521032797") == "86135210327"
  {
    var d := "8613521032797";
    assert Prefix(d, PhoneLimit) == "86135210327";
    assert PhoneField(d) == Prefix(d, PhoneLimit) by {
      assert AllDigits(d);
      SanitizeDigits(d, PhoneLimit);
    }
  }

  /** Letters typed into the code field are dropped. */
  lemma CodeFieldExample()
    ensures CodeField("12a34") == "1234"
  {
    assert KeepDigits("12a34") == "1234" by {
      assert "12a34" == "12" + ("a" + "34");
      KeepDigitsAppend("12", "a" + "34");
      KeepDigitsAppend("a", "34");
      assert KeepDigits("12") == "12" by { KeepDigitsOfDigits("12"); }
      assert KeepDigits("34") == "34" by { KeepDigitsOfDigits("34"); }
      assert KeepDigits("a") == [];
    }
  }
}
