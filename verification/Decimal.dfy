/** std::to_string and std::stoi on int, as [string.conversions] of the C++20 standard describes them. */
module Decimal {
  import opened Wrappers
  import opened Bytes

  const INT_MAX: int := 0x7fff_ffff
  const INT_MIN: int := -0x8000_0000

  predicate IsDigit(c: char) {
    '0' <= c <= '9'
  }

  function DigitOf(d: nat): (c: char)
    requires d < 10
    ensures IsDigit(c)
  {
    ('0' as int + d) as char
  }

  function DigitValue(c: char): nat
    requires IsDigit(c)
  {
    c as int - '0' as int
  }

  function Digits(n: nat): string {
    if n < 10 then [DigitOf(n)] else Digits(n / 10) + [DigitOf(n % 10)]
  }

  function Magnitude(n: int): nat {
    if n < 0 then -n else n
  }

  // std::to_string(int)
  function ToString(n: Int32): string {
    if n < 0 then "-" + Digits(Magnitude(n)) else Digits(n)
  }

  ghost predicate AllDigits(s: string) {
    forall i :: 0 <= i < |s| ==> IsDigit(s[i])
  }

  // The number a string of digits spells.
  function NumberOf(s: string): nat
    requires AllDigits(s)
  {
    if s == "" then 0 else 10 * NumberOf(s[..|s| - 1]) + DigitValue(s[|s| - 1])
  }

  // The accepted characters are the longest run of digits from here on.
  function DigitRun(s: string): (n: nat)
    ensures n <= |s| && AllDigits(s[..n]) && (n < |s| ==> !IsDigit(s[n]))
  {
    if s == "" || !IsDigit(s[0]) then 0
    else
      var n := 1 + DigitRun(s[1..]);
      assert forall i :: 0 < i < n ==> s[i] == s[1..][i - 1];
      n
  }

  function SkipSpace(s: string): string {
    if s != "" && (s[0] == ' ' || 9 <= s[0] as int <= 13) then SkipSpace(s[1..]) else s
  }

  // std::stoi: leading white space, an optional sign, digits; whatever follows them is ignored. None is the
  // exception: there are no digits, or the number does not fit in an int.
  function Stoi(s: string): Option<Int32> {
    var t := SkipSpace(s);
    if t != "" && t[0] == '-' then ReadDigits(t[1..], true)
    else if t != "" && t[0] == '+' then ReadDigits(t[1..], false)
    else ReadDigits(t, false)
  }

  function ReadDigits(s: string, negative: bool): Option<Int32> {
    var n := DigitRun(s);
    if n == 0 then None
    else
      var magnitude: int := NumberOf(s[..n]);
      var value: int := if negative then -magnitude else magnitude;
      if INT_MIN <= value <= INT_MAX then Some(value) else None
  }

  lemma {:induction false} DigitsSpell(n: nat)
    ensures AllDigits(Digits(n)) && Digits(n) != "" && NumberOf(Digits(n)) == n
  {
    if n < 10 {
      assert NumberOf([DigitOf(n)][..0]) == 0;
    } else {
      DigitsSpell(n / 10);
      assert Digits(n)[..|Digits(n)| - 1] == Digits(n / 10);
    }
  }

  // The run of digits in front of a tail that does not go on with a digit is all of them.
  lemma {:induction false} DigitRunAppend(s: string, tail: string)
    requires AllDigits(s) && (tail != "" ==> !IsDigit(tail[0]))
    ensures DigitRun(s + tail) == |s|
  {
    if s == "" {
      assert s + tail == tail;
    } else {
      assert (s + tail)[1..] == s[1..] + tail;
      DigitRunAppend(s[1..], tail);
    }
  }

  // Reading back a printed int, whatever non-digit text follows it.
  lemma StoiToString(n: Int32, tail: string)
    requires tail != "" ==> !IsDigit(tail[0])
    ensures Stoi(ToString(n) + tail) == Some(n)
  {
    var digits := Digits(Magnitude(n));
    DigitsSpell(Magnitude(n));
    DigitRunAppend(digits, tail);
    assert (digits + tail)[..|digits|] == digits;
    assert ReadDigits(digits + tail, n < 0) == Some(n);
    var s := ToString(n) + tail;
    if n < 0 {
      assert s[0] == '-' && s[1..] == digits + tail;
    } else {
      assert s == digits + tail && IsDigit(s[0]);
    }
  }

  lemma RoundTrip(n: Int32)
    ensures Stoi(ToString(n)) == Some(n)
  {
    StoiToString(n, "");
    assert ToString(n) + "" == ToString(n);
  }

  // What is printed, digit by digit.
  lemma DigitsPrinted(n: nat)
    ensures n < 10 ==> Digits(n) == ["0123456789"[n]]
    ensures n >= 10 ==> Digits(n) == Digits(n / 10) + ["0123456789"[n % 10]]
  {
    assert forall d :: 0 <= d < 10 ==> DigitOf(d) == "0123456789"[d];
  }

  // No number is printed with a leading zero.
  lemma {:induction false} NoLeadingZero(n: nat)
    ensures Digits(n) != "" && (n > 0 ==> Digits(n)[0] != '0')
  {
    if n >= 10 {
      NoLeadingZero(n / 10);
    }
  }

  // A string of digits that begins with a zero only if it is "0".
  ghost predicate Canonical(s: string) {
    AllDigits(s) && s != "" && (s[0] == '0' ==> s == "0")
  }

  // Printing undoes reading on every such string: it is the one way to print its number.
  lemma {:induction false} DigitsOfNumber(s: string)
    requires Canonical(s)
    ensures Digits(NumberOf(s)) == s
  {
    var front, last := s[..|s| - 1], s[|s| - 1];
    assert s == front + [last] && DigitOf(DigitValue(last)) == last;
    if front == "" {
      assert NumberOf(front) == 0;
    } else {
      DigitsOfNumber(front);
      Positive(front);
      assert NumberOf(s) / 10 == NumberOf(front) && NumberOf(s) % 10 == DigitValue(last);
    }
  }

  lemma {:induction false} Positive(s: string)
    requires AllDigits(s) && s != "" && s[0] != '0'
    ensures NumberOf(s) > 0
  {
    if |s| == 1 {
      assert NumberOf(s[..0]) == 0;
    } else {
      Positive(s[..|s| - 1]);
    }
  }

  // The whole text of an int: a minus sign for the negative ones, then its magnitude without a leading zero.
  lemma ToStringPrinted(n: Int32)
    ensures n >= 0 ==> ToString(n) == Digits(n) && Canonical(ToString(n))
    ensures n < 0 ==>
              var magnitude: int := -(n as int);
              ToString(n) == "-" + Digits(magnitude) && Canonical(Digits(magnitude)) && Digits(magnitude) != "0"
  {
    DigitsSpell(Magnitude(n));
    NoLeadingZero(Magnitude(n));
    if n == 0 {
      assert Digits(0) == "0";
    }
    if Magnitude(n) > 0 {
      assert Digits(Magnitude(n))[0] != '0';
    }
  }

  // Space, tab, line feed, vertical tab, form feed, carriage return.
  predicate IsSpace(c: char) {
    c == ' ' || c as int in {9, 10, 11, 12, 13}
  }

  ghost predicate AllSpace(s: string) {
    forall i :: 0 <= i < |s| ==> IsSpace(s[i])
  }

  lemma StoiSkips(space: string, rest: string)
    requires AllSpace(space) && (rest != "" ==> !IsSpace(rest[0]))
    ensures Stoi(space + rest) == Stoi(rest)
  {
    SkipAllSpace(space, rest);
    SkipAllSpace("", rest);
    assert "" + rest == rest;
  }

  lemma StoiSigned(sign: string, rest: string)
    requires sign in ["", "+", "-"] && (sign == "" && rest != "" ==> !IsSpace(rest[0]) && rest[0] !in "+-")
    ensures Stoi(sign + rest) == ReadDigits(rest, sign == "-")
  {
    var text := sign + rest;
    assert sign != "" ==> text[0] == sign[0] && text[1..] == rest;
    assert sign == "" ==> text == rest;
  }

  lemma ReadsRun(digits: string, tail: string, negative: bool)
    requires AllDigits(digits) && digits != "" && (tail != "" ==> !IsDigit(tail[0]))
    ensures var magnitude: int := NumberOf(digits);
            var value: int := if negative then -magnitude else magnitude;
            ReadDigits(digits + tail, negative) ==
            if -0x8000_0000 <= value <= 0x7fff_ffff then Some(value) else None
  {
    hide DigitRun, NumberOf;
    DigitRunAppend(digits, tail);
    assert (digits + tail)[..|digits|] == digits;
  }

  // std::stoi on every text with digits where it looks for them: the number they spell under its sign, or the
  // exception if an int cannot hold it.
  lemma StoiReads(space: string, sign: string, digits: string, tail: string)
    requires AllSpace(space) && sign in ["", "+", "-"] && AllDigits(digits) && digits != ""
    requires tail != "" ==> !IsDigit(tail[0])
    ensures var magnitude: int := NumberOf(digits);
            var value: int := if sign == "-" then -magnitude else magnitude;
            Stoi(space + (sign + (digits + tail))) ==
            if -0x8000_0000 <= value <= 0x7fff_ffff then Some(value) else None
  {
    hide Stoi, ReadDigits, NumberOf;
    var text := digits + tail;
    assert text != "" && IsDigit(text[0]);
    assert (sign + text)[0] == if sign == "" then text[0] else sign[0];
    ReadsRun(digits, tail, sign == "-");
    StoiSigned(sign, text);
    StoiSkips(space, sign + text);
  }

  // On any other text it throws.
  lemma StoiThrows(space: string, sign: string, tail: string)
    requires AllSpace(space) && sign in ["", "+", "-"]
    requires tail != "" ==> !IsDigit(tail[0])
    requires sign == "" && tail != "" ==> !IsSpace(tail[0]) && tail[0] !in "+-"
    ensures Stoi(space + (sign + tail)) == None
  {
    assert sign + tail != "" ==> (sign + tail)[0] == if sign == "" then tail[0] else sign[0];
    StoiSigned(sign, tail);
    StoiSkips(space, sign + tail);
  }

  lemma {:induction false} SkipAllSpace(space: string, rest: string)
    requires AllSpace(space) && (rest != "" ==> !IsSpace(rest[0]))
    ensures SkipSpace(space + rest) == rest
  {
    if space == "" {
      assert space + rest == rest;
    } else {
      assert (space + rest)[1..] == space[1..] + rest;
      SkipAllSpace(space[1..], rest);
    }
  }

  lemma DigitsInjective(m: nat, n: nat)
    requires Digits(m) == Digits(n)
    ensures m == n
  {
    DigitsSpell(m);
    DigitsSpell(n);
  }

  // Every number read on the way to the last digit is no larger than the last one, so an int whose decimal is
  // being read is never exceeded before its end.
  lemma {:induction false} PrefixInRange(s: string, k: nat)
    requires AllDigits(s) && k <= |s|
    ensures NumberOf(s[..k]) <= NumberOf(s)
  {
    if k == |s| {
      assert s[..k] == s;
    } else {
      PrefixInRange(s[..|s| - 1], k);
      assert s[..|s| - 1][..k] == s[..k];
    }
  }
}
