/** The decimal printer and parser of the Telegram adapters, on 64-bit integers. */
module Telegram {
  import opened Common

  const TWO63: int := 0x8000_0000_0000_0000

  predicate IsInt64(n: int) { -TWO63 <= n < TWO63 }

  /** Two's complement. */
  function Wrap(n: int): (r: int)
    ensures IsInt64(r) && (IsInt64(n) ==> r == n)
  {
    (n + TWO63) % (2 * TWO63) - TWO63
  }

  predicate IsDigit(c: char) { '0' <= c <= '9' }

  function Digit(d: nat): (c: char)
    requires d < 10
    ensures IsDigit(c) && c as int - '0' as int == d
  {
    ('0' as int + d) as char
  }

  function Decimal(n: nat): (s: string)
    ensures s != [] && forall c :: c in s ==> IsDigit(c)
  {
    if n < 10 then [Digit(n)] else Decimal(n / 10) + [Digit(n % 10)]
  }

  /** The printer negates in 64 bits, so the least integer prints as a bare sign. */
  function Printed(n: int): string {
    if n == -TWO63 then "-" else if n < 0 then "-" + Decimal(-n) else Decimal(n)
  }

  /** 10 to the power k. */
  function Pow10(k: nat): nat { if k == 0 then 1 else 10 * Pow10(k - 1) }

  lemma {:induction false} DecimalLength(n: nat, k: nat)
    requires n < Pow10(k) && k > 0
    ensures |Decimal(n)| <= k
  {
    if n >= 10 {
      assert Pow10(1) == 10 * Pow10(0);
      DecimalLength(n / 10, k - 1);
    }
  }

  lemma {:induction false} Pow10Sum(a: nat, b: nat)
    ensures Pow10(a + b) == Pow10(a) * Pow10(b)
  {
    if a > 0 {
      Pow10Sum(a - 1, b);
      assert Pow10(a + b) == 10 * Pow10(a - 1 + b);
      assert 10 * (Pow10(a - 1) * Pow10(b)) == (10 * Pow10(a - 1)) * Pow10(b);
    }
  }

  lemma NineteenDigits(n: nat)
    requires n < TWO63
    ensures |Decimal(n)| <= 19
  {
    assert Pow10(2) == 100 && Pow10(3) == 1000;
    Pow10Sum(2, 3);
    Pow10Sum(5, 5);
    Pow10Sum(5, 10);
    Pow10Sum(15, 2);
    Pow10Sum(17, 2);
    DecimalLength(n, 19);
  }

  /** Writing the last digit of `n` in front of `tail`. */
  lemma LastDigit(n: nat, tail: string)
    requires 0 < n
    ensures Decimal(n) + tail == (if n < 10 then [] else Decimal(n / 10)) + ([Digit(n % 10)] + tail)
    ensures n >= 10 ==> |Decimal(n)| == |Decimal(n / 10)| + 1
  {
  }

  /** The digits, written from the end of the buffer, leave room for a sign. */
  method FillDigits(buf: array<char>, num: int) returns (i: nat)
    requires buf.Length == 20 && 0 < num < TWO63
    modifies buf
    ensures 0 < i < buf.Length && buf[i..] == Decimal(num)
  {
    var n := num;
    i := buf.Length;
    NineteenDigits(num);
    while n > 0
      invariant 1 <= i <= buf.Length && 0 <= n <= num
      invariant n > 0 ==> |Decimal(n)| < i && Decimal(num) == Decimal(n) + buf[i..]
      invariant n == 0 ==> Decimal(num) == buf[i..]
      decreases n
    {
      i := i - 1;
      ghost var tail := buf[i + 1..];
      buf[i] := Digit(n % 10);
      assert buf[i..] == [Digit(n % 10)] + tail;
      LastDigit(n, tail);
      n := n / 10;
    }
  }

  /** The buffer of 20 bytes is enough for every 64-bit integer. */
  method IntToStr(num: int) returns (s: string)
    requires IsInt64(num)
    ensures s == Printed(num)
  {
    if num == 0 { return "0"; }
    var n, neg := num, num < 0;
    if neg { n := Wrap(-n); }
    var buf := new char[20];
    var i := buf.Length;
    if n > 0 { i := FillDigits(buf, n); }
    if neg {
      ghost var digits := buf[i..];
      i := i - 1;
      buf[i] := '-';
      assert buf[i..] == "-" + digits;
    }
    s := buf[i..];
  }

  // ---- the parser ----

  /** Digits only; more of them than fit wrap around. */
  function Parsed(s: string): Option<int> {
    if s == [] then None else Digits(s)
  }

  function Digits(s: string): Option<int> {
    if s == [] then Some(0)
    else
      var c := s[|s| - 1];
      match Digits(s[..|s| - 1])
      case None => None
      case Some(n) => if IsDigit(c) then Some(Wrap(n * 10 + (c as int - '0' as int))) else None
  }

  /** The number a string of decimal digits denotes. */
  function NumberOf(s: string): int {
    if s == [] then 0 else 10 * NumberOf(s[..|s| - 1]) + (s[|s| - 1] as int - 48)
  }

  /** The parser takes non-empty strings of the characters 0 to 9 and nothing else, and answers the number
      modulo 2^64, as a signed 64-bit integer. */
  lemma {:induction false} ParsedIs(s: string) returns (wraps: int)
    ensures Parsed(s).Some? <==> s != [] && forall c :: c in s ==> '0' <= c <= '9'
    ensures Parsed(s).Some? ==>
              && Parsed(s).value == NumberOf(s) - wraps * 18_446_744_073_709_551_616
              && -9_223_372_036_854_775_808 <= Parsed(s).value < 9_223_372_036_854_775_808
  {
    DigitsTaken(s);
    wraps := 0;
    if Parsed(s).Some? { wraps := DigitsAre(s); }
  }

  lemma {:induction false} DigitsTaken(s: string)
    ensures Digits(s).Some? <==> forall c :: c in s ==> '0' <= c <= '9'
  {
    if s != [] {
      var front, c := s[..|s| - 1], s[|s| - 1];
      DigitsTaken(front);
      assert s == front + [c];
      if forall x :: x in s ==> '0' <= x <= '9' {
        assert c in s && forall x :: x in front ==> x in s;
      } else {
        var x :| x in s && !('0' <= x <= '9');
        assert x in front || x == c;
      }
    }
  }

  lemma {:induction false} DigitsAre(s: string) returns (wraps: int)
    requires Digits(s).Some?
    ensures Digits(s).value == NumberOf(s) - wraps * 18_446_744_073_709_551_616
    ensures -9_223_372_036_854_775_808 <= Digits(s).value < 9_223_372_036_854_775_808
  {
    wraps := 0;
    if s != [] {
      var front, c := s[..|s| - 1], s[|s| - 1];
      var before := DigitsAre(front);
      wraps := NextDigit(NumberOf(front), Digits(front).value, before, c as int - 48);
    }
  }

  lemma NextDigit(number: int, v: int, before: int, d: int) returns (wraps: int)
    requires v == number - before * 18_446_744_073_709_551_616
    ensures Wrap(v * 10 + d) == 10 * number + d - wraps * 18_446_744_073_709_551_616
    ensures -9_223_372_036_854_775_808 <= Wrap(v * 10 + d) < 9_223_372_036_854_775_808
  {
    var more := WrapIs(v * 10 + d);
    wraps := before * 10 + more;
  }

  lemma WrapIs(n: int) returns (wraps: int)
    ensures Wrap(n) == n - wraps * 18_446_744_073_709_551_616
    ensures -9_223_372_036_854_775_808 <= Wrap(n) < 9_223_372_036_854_775_808
  {
    wraps := (n - Wrap(n)) / 18_446_744_073_709_551_616;
  }

  /** The printer writes the number in decimal, a minus sign before it if it is negative. */
  lemma PrintedIs(n: int)
    requires -9_223_372_036_854_775_808 < n < 9_223_372_036_854_775_808
    ensures var digits := if n < 0 then Printed(n)[1..] else Printed(n);
            && (n < 0 ==> Printed(n)[0] == '-') && digits != [] && (|digits| > 1 ==> digits[0] != '0')
            && (forall c :: c in digits ==> '0' <= c <= '9') && NumberOf(digits) == if n < 0 then -n else n
  {
    var m := if n < 0 then -n else n;
    DecimalIs(m);
    if n < 0 { TailOfSign(Decimal(m)); }
  }

  lemma {:induction false} DecimalIs(n: nat)
    ensures NumberOf(Decimal(n)) == n && (n > 0 ==> Decimal(n)[0] != '0') && (n == 0 ==> Decimal(n) == "0")
    ensures forall c :: c in Decimal(n) ==> '0' <= c <= '9'
  {
    if n < 10 {
      assert Decimal(n)[..0] == [];
    } else {
      DecimalIs(n / 10);
      assert Decimal(n)[..|Decimal(n)| - 1] == Decimal(n / 10);
    }
  }

  method ParseChatId(s: string) returns (r: Option<int>)
    ensures r == Parsed(s)
  {
    if s == [] { return None; }
    var n := 0;
    for i := 0 to |s|
      invariant Digits(s[..i]) == Some(n)
    {
      assert s[..i + 1][..i] == s[..i];
      if !IsDigit(s[i]) {
        NotDigits(s, i);
        return None;
      }
      n := Wrap(n * 10 + (s[i] as int - '0' as int));
    }
    WholeSlice(s);
    return Some(n);
  }

  lemma {:induction false} NotDigits(s: string, i: nat)
    requires i < |s| && !IsDigit(s[i])
    ensures Digits(s) == None
  {
    if i < |s| - 1 { NotDigits(s[..|s| - 1], i); }
  }

  lemma {:induction false} DigitsOfDecimal(n: nat)
    requires n < TWO63
    ensures Digits(Decimal(n)) == Some(n)
  {
    if n < 10 {
      assert Decimal(n)[..0] == [];
    } else {
      DigitsOfDecimal(n / 10);
      assert Decimal(n)[..|Decimal(n)| - 1] == Decimal(n / 10);
    }
  }

  /** The parser inverts the printer on the chats with an id that is not negative, and only on those:
      a printed sign is no digit. */
  lemma ParserInvertsPrinterIff(n: int)
    requires IsInt64(n)
    ensures Parsed(Printed(n)) == Some(n) <==> n >= 0
  {
    ParsedPrinted(n);
  }

  lemma ParsedPrinted(n: int)
    requires IsInt64(n)
    ensures Parsed(Printed(n)) == if n >= 0 then Some(n) else None
  {
    if n >= 0 { DigitsOfDecimal(n); } else { NotDigits(Printed(n), 0); }
  }

  lemma TailOfSign(s: string)
    ensures ("-" + s)[1..] == s
  {
  }

  /** What follows a printed sign: nothing, for the least integer. */
  lemma DigitsAfterSign(n: int)
    requires IsInt64(n) && n < 0
    ensures Digits(Printed(n)[1..]) == Some(if n == -TWO63 then 0 else -n)
  {
    if n != -TWO63 {
      DigitsOfDecimal(-n);
      TailOfSign(Decimal(-n));
    }
  }

  lemma PrinterIsInjective(a: int, b: int)
    requires IsInt64(a) && IsInt64(b) && Printed(a) == Printed(b)
    ensures a == b
  {
    ParsedPrinted(a);
    ParsedPrinted(b);
    if a < 0 {
      DigitsAfterSign(a);
      DigitsAfterSign(b);
    }
  }

  /** The message id under which an update is deduplicated. */
  function DedupId(chat: int, message: int): string {
    "tg:" + Printed(chat) + ":" + Printed(message)
  }

  lemma NoColon(n: int, i: nat)
    requires i < |Printed(n)| && n < TWO63
    ensures Printed(n)[i] != ':'
  {
    if n >= 0 {
      assert Decimal(n)[i] in Decimal(n);
    } else if i > 0 {
      assert Printed(n)[i] == Decimal(-n)[i - 1] && Decimal(-n)[i - 1] in Decimal(-n);
    }
  }

  /** Different (chat, message) pairs never share an id, the least integer included. */
  lemma DedupIdIsInjective(chat: int, message: int, chat': int, message': int)
    requires IsInt64(chat) && IsInt64(message) && IsInt64(chat') && IsInt64(message')
    requires DedupId(chat, message) == DedupId(chat', message')
    ensures chat == chat' && message == message'
  {
    var id, a, a' := DedupId(chat, message), Printed(chat), Printed(chat');
    var b, b' := Printed(message), Printed(message');
    assert id[3..] == a + (":" + b);
    assert id[3..] == a' + (":" + b');
    SplitsAtColon(a, b, a', b', chat, chat');
    PrinterIsInjective(chat, chat');
    PrinterIsInjective(message, message');
  }

  lemma SplitsAtColon(a: string, b: string, a': string, b': string, chat: int, chat': int)
    requires a == Printed(chat) && a' == Printed(chat') && IsInt64(chat) && IsInt64(chat')
    requires a + (":" + b) == a' + (":" + b')
    ensures a == a' && b == b'
  {
    var whole := a + (":" + b);
    assert whole[|a|] == ':' && whole[|a'|] == ':';
    assert |a| < |a'| ==> whole[|a|] == a'[|a|];
    assert |a'| < |a| ==> whole[|a'|] == a[|a'|];
    if |a| < |a'| { NoColon(chat', |a|); }
    if |a'| < |a| { NoColon(chat, |a'|); }
    assert whole[..|a|] == a && whole[..|a'|] == a';
    assert whole[|a| + 1..] == b && whole[|a'| + 1..] == b';
  }
}
