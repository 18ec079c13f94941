/**
 * Decimal port numbers: Rust's `str::parse::<u16>`, which the configuration
 * parser applies to the word after `port`, and the decimal text of a port
 * that the configuration printer writes.
 */
module Decimal {
  import opened Wrappers

  /** Rust's `u16`. */
  type uint16 = x: int | 0 <= x < 0x1_0000

  predicate IsDigit(c: char)
  {
    '0' <= c <= '9'
  }

  predicate AllDigits(w: string)
  {
    forall i :: 0 <= i < |w| ==> IsDigit(w[i])
  }

  function DigitValue(c: char): (d: nat)
    requires IsDigit(c)
    ensures d < 10
  {
    c as int - '0' as int
  }

  function Digit(d: nat): (c: char)
    requires d < 10
    ensures IsDigit(c) && DigitValue(c) == d
  {
    ('0' as int + d) as char
  }

  /** The number a string of decimal digits denotes, most significant digit first. */
  function Value(w: string): nat
    requires AllDigits(w)
  {
    if w == [] then 0 else Value(w[..|w| - 1]) * 10 + DigitValue(w[|w| - 1])
  }

  lemma ValueSnoc(w: string, c: char)
    requires AllDigits(w) && IsDigit(c)
    ensures AllDigits(w + [c]) && Value(w + [c]) == Value(w) * 10 + DigitValue(c)
  {
    assert (w + [c])[..|w|] == w;
  }

  /** Appending digits never makes the value smaller. */
  lemma {:induction false} ValueGrows(x: string, y: string)
    requires AllDigits(x) && AllDigits(y)
    ensures AllDigits(x + y) && Value(x) <= Value(x + y)
  {
    if y == [] {
      assert x + y == x;
    } else {
      var y' := y[..|y| - 1];
      ValueGrows(x, y');
      assert x + y == (x + y') + [y[|y| - 1]];
      ValueSnoc(x + y', y[|y| - 1]);
    }
  }

  /** The shortest decimal text of `n`: no sign and no leading zero. */
  function ToDecimal(n: nat): (w: string)
    ensures w != [] && AllDigits(w) && Value(w) == n
    ensures w[0] == '0' ==> n == 0
  {
    if n < 10 then [Digit(n)]
    else
      var w := ToDecimal(n / 10) + [Digit(n % 10)];
      ValueSnoc(ToDecimal(n / 10), Digit(n % 10));
      w
  }

  /**
   * The digit loop of Rust's integer parser: each digit is checked, then the
   * running value is multiplied by ten and the digit added, and an overflow of
   * either step is an error.
   */
  function Accumulate(digits: string, acc: uint16): Option<uint16>
  {
    if digits == [] then Some(acc)
    else if !IsDigit(digits[0]) then None
    else
      var next := acc * 10 + DigitValue(digits[0]);
      if next > 0xFFFF then None else Accumulate(digits[1..], next)
  }

  /** The part of `s` after the one leading `+` that an unsigned parse accepts. */
  function Unsigned(s: string): string
  {
    if s != [] && s[0] == '+' then s[1..] else s
  }

  /**
   * `s.parse::<u16>()`: an optional `+`, then one or more decimal digits whose
   * value fits in 16 bits; anything else is an error.
   */
  function ParseU16(s: string): (r: Option<uint16>)
    ensures r.Some? <==> Unsigned(s) != [] && AllDigits(Unsigned(s)) && Value(Unsigned(s)) <= 0xFFFF
    ensures r.Some? ==> r.value == Value(Unsigned(s))
  {
    var digits := Unsigned(s);
    if digits == [] then None
    else
      AccumulateValue([], digits);
      assert [] + digits == digits;
      Accumulate(digits, 0)
  }

  /** After the digits `done`, the digit loop ends with the value of `done + todo` exactly when that fits. */
  lemma {:induction false} AccumulateValue(done: string, todo: string)
    requires AllDigits(done) && Value(done) <= 0xFFFF
    ensures AllDigits(todo) ==> AllDigits(done + todo)
    ensures Accumulate(todo, Value(done)).Some? <==> AllDigits(todo) && Value(done + todo) <= 0xFFFF
    ensures Accumulate(todo, Value(done)).Some? ==> Accumulate(todo, Value(done)).value == Value(done + todo)
    decreases |todo|
  {
    if todo == [] {
      assert done + todo == done;
    } else if IsDigit(todo[0]) {
      var done' := done + [todo[0]];
      ValueSnoc(done, todo[0]);
      assert done + todo == done' + todo[1..];
      if Value(done') <= 0xFFFF {
        AccumulateValue(done', todo[1..]);
      } else if AllDigits(todo) {
        ValueGrows(done', todo[1..]);
      }
    } else {
      assert !AllDigits(todo);
    }
  }

  /** Printing a port and parsing it back gives the same port. */
  lemma ParseU16ToDecimal(n: uint16)
    ensures Unsigned(ToDecimal(n)) == ToDecimal(n)
    ensures ParseU16(ToDecimal(n)) == Some(n)
  {
  }
}
