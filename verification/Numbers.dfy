/** Numbers as they are written, and that reading gives them back. */
module Numbers {
  import opened Text

  function DigitChar(d: nat): (c: char)
    requires d < 16
    ensures d < 10 ==> '0' <= c <= '9'
    ensures DigitValue(c) == d
  {
    if d < 10 then ('0' as int + d) as char else ('a' as int + d - 10) as char
  }

  /** A number as JavaScript and Rust print it. */
  function Decimal(n: nat): (r: string)
    ensures r != "" && forall c | c in r :: '0' <= c <= '9'
  {
    if n < 10 then [DigitChar(n)] else Decimal(n / 10) + [DigitChar(n % 10)]
  }

  /** The same in base 16, with small letters. */
  function Hex(n: nat): (r: string)
    ensures r != ""
  {
    if n < 16 then [DigitChar(n)] else Hex(n / 16) + [DigitChar(n % 16)]
  }

  lemma {:induction false} DecimalValue(n: nat)
    ensures Value(Decimal(n), 10) == n
  {
    var r := Decimal(n);
    if n < 10 {
      assert r[..0] == "";
    } else {
      DecimalValue(n / 10);
      assert r[..|r| - 1] == Decimal(n / 10);
    }
  }

  /** Small or capital letters. */
  lemma {:induction false} HexValue(s: string, n: nat)
    requires Lower(s) == Hex(n)
    ensures Value(s, 16) == n && IsDigits(s, 16) && s != ""
    decreases n
  {
    var last := s[|s| - 1];
    var front := s[..|s| - 1];
    assert LowerChar(last) == Hex(n)[|s| - 1];
    LowerDigit(last);
    assert s == front + [last];
    if n < 16 {
      assert front == "";
    } else {
      assert Hex(n)[..|s| - 1] == Hex(n / 16);
      assert Lower(front) == Hex(n / 16);
      HexValue(front, n / 16);
    }
  }

  lemma LowerDigit(c: char)
    requires DigitValue(LowerChar(c)) < 16
    ensures DigitValue(c) == DigitValue(LowerChar(c))
  {
  }

  function Zeros(k: nat): string { Repeat('0', k) }

  lemma {:induction false} ZerosValue(k: nat, s: string)
    ensures Value(Zeros(k) + s, 10) == Value(s, 10)
    decreases k + |s|
  {
    var all := Zeros(k) + s;
    if s == "" {
      if k > 0 {
        assert all[..k - 1] == Zeros(k - 1) + "";
        ZerosValue(k - 1, "");
      } else {
        assert all == "";
      }
    } else {
      assert all[..|all| - 1] == Zeros(k) + s[..|s| - 1];
      ZerosValue(k, s[..|s| - 1]);
    }
  }

  predicate Digits(s: string) { s != "" && forall c | c in s :: '0' <= c <= '9' }

  /** Every run of digits is some number, perhaps with zeros in front. */
  lemma {:induction false} DigitsAreNumber(s: string)
    requires Digits(s)
    ensures exists k: nat, n: nat :: s == Zeros(k) + Decimal(n)
    decreases |s|
  {
    var front, c := s[..|s| - 1], s[|s| - 1];
    assert s == front + [c] && c in s;
    var d: nat := c as int - '0' as int;
    OneDigit(c, d);
    if front == "" {
      assert s == Zeros(0) + Decimal(d);
    } else {
      assert forall x | x in front :: x in s;
      DigitsAreNumber(front);
      var k: nat, m: nat :| front == Zeros(k) + Decimal(m);
      hide Decimal;
      MoreDigits(k, m, c, d);
    }
  }

  lemma OneDigit(c: char, d: nat)
    requires '0' <= c <= '9' && d == c as int - '0' as int
    ensures Decimal(d) == [c]
  {
  }

  lemma MoreDigits(k: nat, m: nat, c: char, d: nat)
    requires '0' <= c <= '9' && d == c as int - '0' as int
    ensures Zeros(k) + Decimal(m) + [c] == if m == 0 then Zeros(k + 1) + Decimal(d) else Zeros(k) + Decimal(10 * m + d)
  {
    OneDigit(c, d);
    if m == 0 {
      OneDigit('0', 0);
      assert Zeros(k) + "0" == Zeros(k + 1);
    } else {
      assert Decimal(10 * m + d) == Decimal(m) + [c];
      hide Decimal;
    }
  }
}
