/**
  Printing and parsing numbers (kernel/rt/string.c).

  The printer takes digits off with a table of powers of ten, from the largest that is not above the
  number; the smallest 32-bit number, whose opposite is no such number, goes through it as an unsigned
  one.  The parser takes digits only: it knows no sign, and its count wraps at 32 bits.  What the one
  makes of what the other has made is said for every number.
 */
module Decimal {
  import opened Arithmetic
  import opened Sequences

  const MIN32: int := -0x8000_0000
  const WORD32: int := 0x1_0000_0000

  datatype Status = Ok | BadParam | OutOfSpace

  // ------------------------------------------------------------------ what a number looks like

  function Pow10(k: nat): nat { if k == 0 then 1 else 10 * Pow10(k - 1) }

  function DigitChar(d: nat): char
    requires d < 10
  {
    '0' + d as char
  }

  predicate IsDigit(c: char) { '0' <= c <= '9' }

  function DigitOf(c: char): int { c as int - '0' as int }

  /** The decimal digits of a number, without leading zeroes. */
  function Digits(n: nat): seq<char> {
    if n < 10 then [DigitChar(n)] else Digits(n / 10) + [DigitChar(n % 10)]
  }

  function Signed(v: int): seq<char> { if v < 0 then ['-'] + Digits(-v) else Digits(v) }

  /** What a string of digits is worth. */
  function Value(s: seq<char>): int {
    if s == [] then 0 else 10 * Value(s[..|s| - 1]) + DigitOf(s[|s| - 1])
  }

  predicate AllDigits(s: seq<char>) { forall i :: 0 <= i < |s| ==> IsDigit(s[i]) }

  lemma {:induction false} DigitsValue(n: nat)
    ensures AllDigits(Digits(n)) && Value(Digits(n)) == n && Digits(n) != []
  {
    if n >= 10 { DigitsValue(n / 10); }
    var s := Digits(n);
    assert s[..|s| - 1] == if n < 10 then [] else Digits(n / 10);
  }

  lemma {:induction false} ValueBound(s: seq<char>)
    requires AllDigits(s)
    ensures 0 <= Value(s) < Pow10(|s|)
  {
    if s != [] { ValueBound(s[..|s| - 1]); }
  }

  lemma {:induction false} DigitsLength(n: nat)
    ensures n > 0 ==> Pow10(|Digits(n)| - 1) <= n
    ensures n < Pow10(|Digits(n)|)
  {
    if n >= 10 { DigitsLength(n / 10); }
  }

  lemma {:induction false} PowGrows(a: nat, b: nat)
    ensures a <= b ==> Pow10(a) <= Pow10(b)
    decreases b
  {
    if a < b { PowGrows(a, b - 1); }
  }

  /** No string of digits that is worth the number is shorter. */
  lemma DigitsAreShortest(n: nat, s: seq<char>)
    requires s != [] && AllDigits(s) && Value(s) == n
    ensures |Digits(n)| <= |s|
  {
    ValueBound(s);
    DigitsLength(n);
    DigitsValue(n);
    PowGrows(|s|, |Digits(n)| - 1);
    hide Pow10, Value;
  }

  /** What a printed number has to be: a minus sign if it is negative, then as few digits as are worth its size. */
  ghost predicate Shows(s: seq<char>, v: int) {
    if v < 0 then s != [] && s[0] == '-' && ShortestFor(s[1..], -v) else ShortestFor(s, v)
  }

  ghost predicate ShortestFor(d: seq<char>, n: int) {
    && d != [] && AllDigits(d) && Value(d) == n
    && forall e :: e != [] && AllDigits(e) && Value(e) == n ==> |d| <= |e|
  }

  /** Signed is that, the smallest number not excepted. */
  lemma SignedShows(v: int)
    ensures Shows(Signed(v), v)
  {
    var n := if v < 0 then -v else v;
    DigitsValue(n);
    forall e | e != [] && AllDigits(e) && Value(e) == n ensures |Digits(n)| <= |e| {
      DigitsAreShortest(n, e);
    }
    hide Digits, Value, AllDigits;
    if v < 0 { assert (['-'] + Digits(n))[1..] == Digits(n); }
  }

  /** There is one such string for each number, so it says what is printed. */
  lemma ShownOnce(s: seq<char>, t: seq<char>, v: int)
    requires Shows(s, v) && Shows(t, v)
    ensures s == t
  {
    if v < 0 {
      SameLengthSame(s[1..], t[1..]);
      hide Value, AllDigits;
      assert s == ['-'] + s[1..] && t == ['-'] + t[1..];
    } else {
      SameLengthSame(s, t);
    }
  }

  lemma {:induction false} SameLengthSame(d: seq<char>, e: seq<char>)
    requires |d| == |e| && AllDigits(d) && AllDigits(e) && Value(d) == Value(e)
    ensures d == e
  {
    if d != [] {
      var c, f := d[..|d| - 1], e[..|e| - 1];
      var x, y := d[|d| - 1], e[|e| - 1];
      assert IsDigit(x) && IsDigit(y) && 10 * Value(c) + DigitOf(x) == 10 * Value(f) + DigitOf(y);
      hide Value;
      LastDigit(Value(c), Value(f), DigitOf(x), DigitOf(y));
      SameLengthSame(c, f);
      assert d == c + [x] && e == f + [y];
    }
  }

  lemma LastDigit(a: int, b: int, x: int, y: int)
    requires 10 * a + x == 10 * b + y && 0 <= x < 10 && 0 <= y < 10
    ensures a == b && x == y
  {
  }

  // ------------------------------------------------------------------ parsing

  /** The value as a 32-bit signed word. */
  function Wrap(n: int): int { (n - MIN32) % WORD32 + MIN32 }

  function Parse(s: seq<char>): Option<int> { if AllDigits(s) then Some(Wrap(Value(s))) else None }

  /** What is parsed is the signed 32-bit number that differs from the value by a multiple of 2^32. */
  lemma ParseGives(s: seq<char>, value: int)
    ensures Parse(s) == Some(value) <==>
      AllDigits(s) && -0x8000_0000 <= value < 0x8000_0000 && (Value(s) - value) % 0x1_0000_0000 == 0
  {
    hide Value;
  }

  lemma WrapStep(n: int, d: int)
    ensures Wrap(Wrap(n) * 10 + d) == Wrap(10 * n + d)
  {
    var q := (n - MIN32) / WORD32;
    assert Wrap(n) == n - q * WORD32;
    WrapShift(Wrap(n) * 10 + d, 10 * q);
  }

  lemma WrapShift(n: int, k: int)
    ensures Wrap(n + k * WORD32) == Wrap(n)
  {
  }

  method AtoI(str: Option<seq<char>>) returns (r: Status, value: int)
    ensures str.None? ==> r == BadParam
    ensures str.Some? ==> r == (if Parse(str.value).Some? then Ok else BadParam)
    ensures r == Ok ==> str.Some? && Some(value) == Parse(str.value)
  {
    value := 0;
    if str.None? { return BadParam, 0; }
    var s := str.value;
    var cursor := 0;
    while cursor < |s|
      invariant cursor <= |s| && AllDigits(s[..cursor]) && value == Wrap(Value(s[..cursor]))
    {
      if s[cursor] < '0' || s[cursor] > '9' {
        assert !IsDigit(s[cursor]);
        return BadParam, value;
      }
      assert s[..cursor + 1][..cursor] == s[..cursor];
      WrapStep(Value(s[..cursor]), DigitOf(s[cursor]));
      value := Wrap(Wrap(value * 10) + DigitOf(s[cursor]));
      WrapTwice(Value(s[..cursor]), DigitOf(s[cursor]));
      cursor := cursor + 1;
    }
    assert s[..cursor] == s;
    r := Ok;
  }

  lemma WrapTwice(n: int, d: int)
    ensures Wrap(Wrap(Wrap(n) * 10) + d) == Wrap(10 * n + d)
  {
    var q := (Wrap(n) * 10 - MIN32) / WORD32;
    assert Wrap(Wrap(n) * 10) == Wrap(n) * 10 - q * WORD32;
    WrapShift(Wrap(Wrap(n) * 10) + d, q);
    WrapStep(n, d);
  }

  /** Parsing undoes printing exactly on the numbers that are not negative; a sign is refused. */
  lemma ParseUndoesPrintIff(v: int)
    requires -0x8000_0000 <= v < 0x8000_0000
    ensures Parse(Signed(v)) == Some(v) <==> v >= 0
    ensures v < 0 ==> Parse(Signed(v)) == None
  {
    if v >= 0 {
      DigitsValue(v);
    } else {
      assert !IsDigit(Signed(v)[0]);
    }
    hide Digits, Value;
  }

  // ------------------------------------------------------------------ printing

  /** The table of digit values; its last row is never used for more than whether the digit is zero. */
  function Row(r: nat): (s: seq<nat>)
    ensures |s| == 10
  {
    if r == 0 then [0, 1000000000, 2000000000, 3000000000, 4000000000, 0, 0, 0, 0, 0]
    else if r == 1 then [0, 100000000, 200000000, 300000000, 400000000, 500000000, 600000000, 700000000, 800000000, 900000000]
    else if r == 2 then [0, 10000000, 20000000, 30000000, 40000000, 50000000, 60000000, 70000000, 80000000, 90000000]
    else if r == 3 then [0, 1000000, 2000000, 3000000, 4000000, 5000000, 6000000, 7000000, 8000000, 9000000]
    else if r == 4 then [0, 100000, 200000, 300000, 400000, 500000, 600000, 700000, 800000, 900000]
    else if r == 5 then [0, 10000, 20000, 30000, 40000, 50000, 60000, 70000, 80000, 90000]
    else if r == 6 then [0, 1000, 2000, 3000, 4000, 5000, 6000, 7000, 8000, 9000]
    else if r == 7 then [0, 100, 200, 300, 400, 500, 600, 700, 800, 900]
    else if r == 8 then [0, 10, 20, 30, 40, 50, 60, 70, 80, 90]
    else [0, 1, 1, 1, 1, 1, 1, 1, 1, 1]
  }

  lemma Powers()
    ensures Pow10(0) == 1 && Pow10(1) == 10 && Pow10(2) == 100 && Pow10(3) == 1000 && Pow10(4) == 1_0000
    ensures Pow10(5) == 10_0000 && Pow10(6) == 100_0000 && Pow10(7) == 1000_0000 && Pow10(8) == 1_0000_0000
    ensures Pow10(9) == 10_0000_0000 && Pow10(10) == 100_0000_0000
  {
    assert Pow10(3) == 1000;
    assert Pow10(6) == 100_0000;
  }

  /** The second column starts each row at its power of ten. */
  lemma RowStarts(r: nat)
    requires r < 10
    ensures Row(r)[1] == Pow10(9 - r)
  {
    Powers();
    hide Pow10;
  }

  lemma RowValues(r: nat, d: nat)
    requires r < 9 && d < 10 && (r == 0 ==> d <= 4)
    ensures Row(r)[d] == d * Row(r)[1]
  {
  }

  /** The k digits of a number below 10^k, first digit first, as the loop makes them. */
  function Fixed(n: nat, k: nat): seq<char> {
    if k == 0 || n >= Pow10(k) then []
    else
      PowPositive(k - 1);
      var d := n / Pow10(k - 1);
      DigitInRange(n, k);
      [DigitChar(d)] + Fixed(n % Pow10(k - 1), k - 1)
  }

  lemma {:induction false} PowPositive(k: nat)
    ensures Pow10(k) > 0
  {
    if k > 0 { PowPositive(k - 1); }
  }

  lemma DigitInRange(n: nat, k: nat)
    requires k > 0 && n < Pow10(k) && Pow10(k - 1) > 0
    ensures n / Pow10(k - 1) < 10
  {
    QuotientLess(n, Pow10(k - 1), 10);
  }

  /** Splitting the last digit off a number whose digits are made from the front. */
  lemma {:induction false} FixedFromBack(n: nat, k: nat)
    requires k > 0 && n < Pow10(k)
    ensures Fixed(n, k) == Fixed(n / 10, k - 1) + [DigitChar(n % 10)]
    decreases k
  {
    if k > 1 {
      PowPositive(k - 2);
      PowPositive(k - 1);
      var p := Pow10(k - 2);
      FrontAndBack(n, p);
      DivMod(n, 10 * p);
      FixedFromBack(n % (10 * p), k - 1);
      DigitInRange(n, k);
      hide Pow10;
      assert Pow10(k - 1) == 10 * p;
    }
  }

  lemma FrontAndBack(n: nat, p: nat)
    requires p > 0
    ensures (n / 10) / p == n / (10 * p) && (n / 10) % p == (n % (10 * p)) / 10 && (n % (10 * p)) % 10 == n % 10
  {
    var q, m := n / (10 * p), n % (10 * p);
    DivMod(n, 10 * p);
    var a, b := m / 10, m % 10;
    assert n == 10 * (p * q + a) + b by { assert 10 * p * q == 10 * (p * q); }
    QuotientIs(10, p * q + a, b);
    QuotientIs(p, q, a);
  }

  lemma {:induction false} FixedIsDigits(n: nat, k: nat)
    requires k > 0 && n < Pow10(k) && (k == 1 || Pow10(k - 1) <= n)
    ensures Fixed(n, k) == Digits(n) && |Digits(n)| == k
    decreases k
  {
    FixedFromBack(n, k);
    if k > 1 {
      PowPositive(k - 2);
      FixedIsDigits(n / 10, k - 1);
    }
  }

  /** One round of the printing loop: a digit is split off the front. */
  lemma FixedStep(n: nat, k: nat)
    requires 0 < k <= 10 && n < Pow10(k) && n <= 0x8000_0000
    ensures var p := Row(10 - k)[1]; var d := n / p;
      && p > 0 && d < 10 && Fixed(n, k) == [DigitChar(d)] + Fixed(n % p, k - 1) && n % p < Pow10(k - 1)
      && Row(10 - k)[d] <= n
      && (k > 1 ==> n - Row(10 - k)[d] == n % p)
  {
    RowStarts(10 - k);
    PowPositive(k - 1);
    DigitInRange(n, k);
    var p := Row(10 - k)[1];
    DivMod(n, p);
    if k == 10 { Powers(); QuotientLess(n, p, 3); }
    if k > 1 { RowValues(10 - k, n / p); } else { LastRow(n); }
  }

  lemma LastRow(n: nat)
    requires n < Pow10(1)
    ensures Row(9)[1] == 1 && n / 1 == n && n < 10 && Row(9)[n] <= n
  {
  }

  /** The row the search for the first digit stops at. */
  predicate FirstRow(n: nat, r: nat) { r < 10 && n < Pow10(10 - r) && (r == 9 || Pow10(9 - r) <= n) }

  /**
    Prints a 32-bit number with a terminator; size is the size of the buffer.  It fits exactly when its
    digits, its sign and the terminator do.
   */
  method ItoA(value: int, buffer: array?<char>, size: nat) returns (r: Status, length: nat)
    requires -0x8000_0000 <= value < 0x8000_0000 && (buffer != null ==> size <= buffer.Length)
    modifies buffer
    ensures r == BadParam <==> buffer == null || size == 0
    ensures r == OutOfSpace <==> buffer != null && size > 0 && |Signed(value)| + 1 > size
    ensures r == Ok ==> length == |Signed(value)| < size && buffer[..length] == Signed(value) && buffer[length] == '\0'
    ensures r == Ok ==> Shows(buffer[..length], value)
    ensures r == Ok ==> forall i :: length < i < buffer.Length ==> buffer[i] == old(buffer[i])
    ensures r != Ok && buffer != null ==> buffer[..] == old(buffer[..])
  {
    if buffer == null || size == 0 { return BadParam, 0; }
    SignedShows(value);
    hide Signed, Shows;
    r, length := Print(value, buffer, size);
  }

  function SignOf(v: int): seq<char> { if v < 0 then ['-'] else [] }

  function Magnitude(v: int): nat { if v < 0 then -v else v }

  lemma SignedParts(v: int)
    ensures Signed(v) == SignOf(v) + Digits(Magnitude(v))
  {
    hide Digits;
  }

  method Print(value: int, buffer: array<char>, size: nat) returns (r: Status, length: nat)
    requires -0x8000_0000 <= value < 0x8000_0000 && 0 < size <= buffer.Length
    modifies buffer
    ensures r == if |Signed(value)| + 1 > size then OutOfSpace else Ok
    ensures r == Ok ==> length == |Signed(value)| < size && buffer[..length] == Signed(value) && buffer[length] == '\0'
    ensures r == Ok ==> forall i :: length < i < buffer.Length ==> buffer[i] == old(buffer[i])
    ensures r != Ok ==> buffer[..] == old(buffer[..])
  {
    SignedParts(value);
    var u := Magnitude(value);
    var row := FindFirstRow(u);
    PrintBegins(u, row);
    hide Pow10, Fixed, Digits, Row, FirstRow, Signed, Printing;
    var sign := if value < 0 then 1 else 0;
    if sign + 10 - row > size - 1 { return OutOfSpace, 0; }
    PrintSign(value, buffer);
    assert buffer[..sign] == SignOf(value);
    length := PrintDigits(u, row, buffer, sign);
    assert buffer[..length] == buffer[..sign] + buffer[sign..length];
    Terminate(buffer, length);
    r := Ok;
  }

  method PrintSign(value: int, buffer: array<char>)
    requires buffer.Length > 0
    modifies buffer
    ensures buffer[..|SignOf(value)|] == SignOf(value) && forall i :: |SignOf(value)| <= i < buffer.Length ==> buffer[i] == old(buffer[i])
  {
    if value < 0 { buffer[0] := '-'; }
  }

  method Terminate(buffer: array<char>, length: nat)
    requires length < buffer.Length
    modifies buffer
    ensures buffer[..length] == old(buffer[..length]) && buffer[length] == '\0'
    ensures forall i :: length < i < buffer.Length ==> buffer[i] == old(buffer[i])
  {
    buffer[length] := '\0';
  }

  method FindFirstRow(u: nat) returns (row: nat)
    requires u <= 0x8000_0000
    ensures FirstRow(u, row)
  {
    Powers();
    RowStarts(0);
    row := 0;
    while row < 9 && u < Row(row)[1]
      invariant row <= 9 && u < Pow10(10 - row)
    {
      RowStarts(row);
      hide Row;
      row := row + 1;
    }
    RowStarts(row);
  }

  /** The digit at a row of the table. */
  function DigitNow(rest: nat, k: nat): nat { if Row(k)[1] == 0 then 0 else rest / Row(k)[1] }

  /** What the loop goes on with: the digit's value taken off. */
  function LeftOver(rest: nat, k: nat): nat {
    var d := DigitNow(rest, k);
    if d < 10 && Row(k)[d] <= rest then rest - Row(k)[d] else 0
  }

  /** What is printed and what is left make up the number. */
  predicate Printing(u: nat, done: seq<char>, rest: nat, k: nat) {
    if k < 10 then rest < Pow10(10 - k) && rest <= u && done + Fixed(rest, 10 - k) == Digits(u) else done == Digits(u)
  }

  lemma PrintRound(u: nat, done: seq<char>, rest: nat, k: nat)
    requires k < 10 && u <= 0x8000_0000 && Printing(u, done, rest, k)
    ensures Row(k)[1] > 0 && DigitNow(rest, k) < 10 && Row(k)[DigitNow(rest, k)] <= rest
    ensures Printing(u, done + [DigitChar(DigitNow(rest, k))], LeftOver(rest, k), k + 1)
  {
    hide Pow10, Fixed, Digits, Row;
    RoundIs(rest, k);
    NothingLeft(LeftOver(rest, k));
    var d, f := DigitNow(rest, k), Fixed(LeftOver(rest, k), 9 - k);
    hide DigitNow, LeftOver;
    assert done + ([DigitChar(d)] + f) == (done + [DigitChar(d)]) + f;
  }

  lemma RoundIs(rest: nat, k: nat)
    requires k < 10 && rest < Pow10(10 - k) && rest <= 0x8000_0000
    ensures Row(k)[1] > 0 && DigitNow(rest, k) < 10 && Row(k)[DigitNow(rest, k)] <= rest && LeftOver(rest, k) <= rest
    ensures k < 9 ==> LeftOver(rest, k) < Pow10(9 - k)
    ensures Fixed(rest, 10 - k) == [DigitChar(DigitNow(rest, k))] + Fixed(LeftOver(rest, k), 9 - k)
  {
    FixedStep(rest, 10 - k);
    if k == 9 { NothingLeft(rest % Row(k)[1]); NothingLeft(LeftOver(rest, k)); }
    hide Pow10, Fixed, Row;
  }

  lemma NothingLeft(n: nat)
    ensures Fixed(n, 0) == []
  {
  }

  lemma PrintBegins(u: nat, row: nat)
    requires FirstRow(u, row)
    ensures Printing(u, [], u, row) && |Digits(u)| == 10 - row
  {
    FixedIsDigits(u, 10 - row);
    hide Pow10, Fixed, Digits;
    assert [] + Fixed(u, 10 - row) == Fixed(u, 10 - row);
  }

  lemma PrintEnds(u: nat, done: seq<char>, rest: nat)
    requires Printing(u, done, rest, 10)
    ensures done == Digits(u)
  {
  }

  /** The printing loop. */
  method PrintDigits(u: nat, row: nat, buffer: array<char>, start: nat) returns (end: nat)
    requires u <= 0x8000_0000 && row < 10 && FirstRow(u, row) && start + 10 - row < buffer.Length
    modifies buffer
    ensures end == start + 10 - row && buffer[start..end] == Digits(u)
    ensures buffer[..start] == old(buffer[..start]) && forall i :: end <= i < buffer.Length ==> buffer[i] == old(buffer[i])
  {
    hide Pow10, Digits, Row, Fixed, FirstRow, DigitNow, LeftOver, Printing;
    PrintBegins(u, row);
    var rest: nat, k: nat := u, row;
    ghost var done: seq<char> := [];
    end := start;
    while k < 10
      invariant row <= k <= 10 && end == start + |done| && |done| == k - row
      invariant Printing(u, done, rest, k) && buffer[start..end] == done
      invariant buffer[..start] == old(buffer[..start])
      invariant forall i :: start + 10 - row <= i < buffer.Length ==> buffer[i] == old(buffer[i])
    {
      PrintRound(u, done, rest, k);
      var digit := DigitNow(rest, k);
      PrintAt(buffer, start, end, digit, start + 10 - row);
      done := done + [DigitChar(digit)];
      end := end + 1;
      rest := LeftOver(rest, k);
      k := k + 1;
    }
    PrintEnds(u, done, rest);
  }

  method PrintAt(buffer: array<char>, start: nat, end: nat, digit: nat, limit: nat)
    requires start <= end < limit <= buffer.Length && digit < 10
    modifies buffer
    ensures buffer[start..end + 1] == old(buffer[start..end]) + [DigitChar(digit)]
    ensures buffer[..start] == old(buffer[..start]) && forall i :: limit <= i < buffer.Length ==> buffer[i] == old(buffer[i])
  {
    buffer[end] := DigitChar(digit);
  }
}
