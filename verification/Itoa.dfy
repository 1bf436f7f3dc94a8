// Decimal output by subtraction of powers of ten.
// Models libmink/Transport/MinkSocket/ext/itoa.c.

module Itoa {

  function Pow10(n: nat): (p: nat)
    ensures p >= 1
  {
    if n == 0 then 1 else 10 * Pow10(n - 1)
  }

  /** The width of unsigned long: its bound, and the position of its first decimal digit. */
  datatype Width = Bits32 | Bits64

  function Bound(width: Width): nat {
    match width
    case Bits32 => 0x1_0000_0000
    case Bits64 => 0x1_0000_0000_0000_0000
  }

  function TopPos(width: Width): nat {
    match width
    case Bits32 => 9
    case Bits64 => 19
  }

  /** Powers of ten up to the top position fit the type, and every value is below the next one. */
  lemma WidthFits(width: Width)
    ensures Pow10(TopPos(width)) < Bound(width) <= Pow10(TopPos(width) + 1)
  {
    assert Pow10(5) == 100000;
    assert Pow10(9) == 10 * Pow10(8) == 100 * Pow10(7) == 1000 * Pow10(6) == 10000 * Pow10(5);
    assert Pow10(10) == 10 * Pow10(9);
    assert Pow10(14) == 10 * Pow10(13) == 100 * Pow10(12) == 1000 * Pow10(11) == 10000 * Pow10(10);
    assert Pow10(19) == 10 * Pow10(18) == 100 * Pow10(17) == 1000 * Pow10(16) == 10000 * Pow10(15);
    assert Pow10(15) == 10 * Pow10(14);
    assert Pow10(20) == 10 * Pow10(19);
  }

  predicate IsDigit(c: char) { '0' <= c <= '9' }

  function DigitValue(c: char): nat
    requires IsDigit(c)
  {
    c as int - '0' as int
  }

  predicate Digits(s: string) { forall i :: 0 <= i < |s| ==> IsDigit(s[i]) }

  function Parse(s: string): nat
    requires Digits(s)
  {
    if s == [] then 0 else 10 * Parse(s[..|s| - 1]) + DigitValue(s[|s| - 1])
  }

  /** A decimal number without a leading zero. */
  predicate Canonical(s: string) {
    s != [] && Digits(s) && (s[0] == '0' ==> |s| == 1)
  }

  lemma {:induction false} ParseBounds(s: string)
    requires Digits(s)
    ensures Parse(s) < Pow10(|s|)
    ensures Canonical(s) && s[0] != '0' ==> Pow10(|s| - 1) <= Parse(s)
  {
    if |s| > 0 {
      var most := s[..|s| - 1];
      ParseBounds(most);
      if |s| > 1 { assert most[0] == s[0]; }
    }
  }

  /** A number has one decimal form. */
  lemma {:induction false} SameDigits(s: string, t: string)
    requires |s| == |t| && Digits(s) && Digits(t) && Parse(s) == Parse(t)
    ensures s == t
  {
    if |s| > 0 {
      SameDigits(s[..|s| - 1], t[..|t| - 1]);
      assert s == s[..|s| - 1] + [s[|s| - 1]] && t == t[..|t| - 1] + [t[|t| - 1]];
    }
  }

  lemma {:induction false} PowGrows(m: nat, n: nat)
    requires m <= n
    ensures Pow10(m) <= Pow10(n)
  {
    if m < n { PowGrows(m, n - 1); }
  }

  lemma LongerIsLarger(s: string, t: string)
    requires Canonical(s) && Canonical(t) && |s| < |t|
    ensures Parse(s) < Parse(t)
  {
    ParseBounds(s);
    ParseBounds(t);
    PowGrows(|s|, |t| - 1);
  }

  lemma CanonicalIsUnique(s: string, t: string)
    requires Canonical(s) && Canonical(t) && Parse(s) == Parse(t)
    ensures s == t
  {
    if |s| < |t| {
      LongerIsLarger(s, t);
      assert false;
    } else if |t| < |s| {
      LongerIsLarger(t, s);
      assert false;
    } else {
      SameDigits(s, t);
    }
  }

  /** The inner loop that computes the power for a position; it never leaves the type. */
  method Limit(pos: nat, width: Width) returns (lim: nat)
    requires pos <= TopPos(width)
    ensures lim == Pow10(pos) < Bound(width)
  {
    WidthFits(width);
    lim := 1;
    for dig := 0 to pos
      invariant lim == Pow10(dig) < Bound(width)
    {
      PowGrows(dig + 1, TopPos(width));
      lim := lim * 10;
    }
  }

  /** The inner loop that counts how often `lim` comes off. */
  method TakeOff(n: nat, lim: nat) returns (dig: nat, rest: nat)
    requires lim > 0 && n < 10 * lim
    ensures n == dig * lim + rest && rest < lim && dig < 10
  {
    dig, rest := 0, n;
    while rest >= lim
      invariant n == dig * lim + rest && dig < 10 && rest < (10 - dig) * lim
    {
      assert (10 - dig) * lim == (10 - (dig + 1)) * lim + lim;
      rest := rest - lim;
      dig := dig + 1;
    }
  }

  function DigitChar(d: nat): (c: char)
    requires d < 10
    ensures IsDigit(c) && DigitValue(c) == d
  {
    ('0' as int + d) as char
  }

  lemma ParseSnoc(s: string, d: nat)
    requires Digits(s) && d < 10
    ensures Digits(s + [DigitChar(d)]) && Parse(s + [DigitChar(d)]) == 10 * Parse(s) + d
  {
    assert (s + [DigitChar(d)])[..|s|] == s;
  }

  /** `s` is what has been printed of `n`, and `rest` is still to be printed in `pos` places. */
  ghost predicate Printed(n: nat, s: string, pos: nat, rest: nat) {
    && Digits(s) && n == Parse(s) * Pow10(pos) + rest && rest < Pow10(pos)
    && (s != [] ==> Canonical(s) && (pos > 0 ==> s[0] != '0'))
    && (pos == 0 ==> s != [])
  }

  lemma PrintedStart(n: nat, pos: nat)
    requires n < Pow10(pos) && pos > 0
    ensures Printed(n, "", pos, n)
  {
  }

  lemma PrintedRest(n: nat, s: string, pos: nat, rest: nat)
    requires Printed(n, s, pos + 1, rest)
    ensures rest < 10 * Pow10(pos)
  {
  }

  lemma Carry(v: nat, lim: nat, dig: nat, rest: nat)
    ensures (10 * v + dig) * lim + rest == v * (10 * lim) + (dig * lim + rest)
  {
  }

  lemma PrintedDigit(n: nat, s: string, pos: nat, rest: nat, dig: nat, rest': nat)
    requires Printed(n, s, pos + 1, rest) && dig < 10 && rest == dig * Pow10(pos) + rest' && rest' < Pow10(pos)
    requires s == [] && pos > 0 ==> dig > 0
    ensures Printed(n, s + [DigitChar(dig)], pos, rest')
  {
    ParseSnoc(s, dig);
    Carry(Parse(s), Pow10(pos), dig, rest');
  }

  lemma PrintedNothing(n: nat, pos: nat, rest: nat)
    requires Printed(n, "", pos + 1, rest) && rest < Pow10(pos) && pos > 0
    ensures Printed(n, "", pos, rest)
  {
  }

  lemma PrintedEnd(n: nat, s: string, rest: nat)
    requires Printed(n, s, 0, rest)
    ensures s != [] && Canonical(s) && Parse(s) == n
  {
  }

  lemma FirstDigit(rest: nat, lim: nat, dig: nat, rest': nat)
    requires rest == dig * lim + rest' && rest' < lim <= rest
    ensures dig > 0
  {
  }

  /** One round of utoa_r: the digit at place `pos`, unless it is a leading zero. */
  method PrintPlace(ghost n: nat, rest: nat, pos: nat, width: Width, buffer: array<char>, at: nat, digits: nat)
    returns (rest': nat, digits': nat)
    requires pos <= TopPos(width) && at + digits < buffer.Length
    requires Printed(n, buffer[at..at + digits], pos + 1, rest)
    modifies buffer
    ensures digits <= digits' <= digits + 1 && Printed(n, buffer[at..at + digits'], pos, rest')
    ensures forall i :: 0 <= i < buffer.Length && i != at + digits ==> buffer[i] == old(buffer[i])
    ensures digits' == digits ==> buffer[at + digits] == old(buffer[at + digits])
  {
    hide Printed, Pow10;
    ghost var s := buffer[at..at + digits];
    PrintedRest(n, s, pos, rest);
    var lim := Limit(pos, width);
    rest', digits' := rest, digits;
    if digits > 0 || rest >= lim || pos == 0 {
      var dig;
      dig, rest' := TakeOff(rest, lim);
      if rest >= lim { FirstDigit(rest, lim, dig, rest'); }
      PrintedDigit(n, s, pos, rest, dig, rest');
      buffer[at + digits] := DigitChar(dig);
      digits' := digits + 1;
      assert buffer[at..at + digits'] == s + [DigitChar(dig)];
    } else {
      assert s == "";
      PrintedNothing(n, pos, rest);
    }
  }

  /** utoa_r: the buffer starts with the decimal form of the number and a terminating zero, and keeps
      the rest. */
  method Utoa(n: nat, width: Width, buffer: array<char>, at: nat) returns (digits: nat)
    requires n < Bound(width) && at + TopPos(width) + 2 <= buffer.Length
    modifies buffer
    ensures 1 <= digits <= TopPos(width) + 1
    ensures Canonical(buffer[at..at + digits]) && Parse(buffer[at..at + digits]) == n
    ensures buffer[at + digits] == '\0'
    ensures forall i :: 0 <= i < buffer.Length && !(at <= i <= at + digits) ==> buffer[i] == old(buffer[i])
  {
    hide Printed, Parse, Canonical, Pow10;
    WidthFits(width);
    PrintedStart(n, TopPos(width) + 1);
    digits := 0;
    var rest: nat, pos: nat := n, TopPos(width) + 1;
    assert buffer[at..at] == "";
    while pos > 0
      invariant digits + pos <= TopPos(width) + 1
      invariant Printed(n, buffer[at..at + digits], pos, rest)
      invariant forall i :: 0 <= i < buffer.Length && !(at <= i < at + digits) ==> buffer[i] == old(buffer[i])
    {
      pos := pos - 1;
      rest, digits := PrintPlace(n, rest, pos, width, buffer, at, digits);
    }
    ghost var s := buffer[at..at + digits];
    PrintedEnd(n, s, rest);
    buffer[at + digits] := '\0';
    assert buffer[at..at + digits] == s;
  }

  function LongMin(width: Width): int {
    match width
    case Bits32 => -0x8000_0000
    case Bits64 => -0x8000_0000_0000_0000
  }

  /** What a reader makes of the text. */
  function ParseSigned(s: string): int
    requires Digits(if s != [] && s[0] == '-' then s[1..] else s)
  {
    if s != [] && s[0] == '-' then 0 - Parse(s[1..]) else Parse(s)
  }

  /** itoa_r, for every long above the least one, whose negation leaves the type. */
  method ItoaR(n: int, width: Width, buffer: array<char>) returns (len: nat)
    requires LongMin(width) < n < -LongMin(width) && TopPos(width) + 3 <= buffer.Length
    modifies buffer
    ensures 1 <= len < buffer.Length && buffer[len] == '\0'
    ensures var s := buffer[..len];
            if n < 0 then s[0] == '-' && Canonical(s[1..]) && ParseSigned(s) == n
            else Canonical(s) && ParseSigned(s) == n
  {
    hide Parse;
    var in', at := n, 0;
    if n < 0 {
      in' := -n;
      buffer[0] := '-';
      at := 1;
    }
    var digits := Utoa(in', width, buffer, at);
    len := at + digits;
    assert buffer[at..len] == buffer[..len][at..];
  }
}
