/** The numeric field codec of the USTAR header (store_xoctal): a value is
    written as NUL-terminated, zero-padded octal digits, or, when it does not
    fit, as a big-endian base-256 number whose first byte carries the 0x80
    marker of the GNU tar extension. */
module NumericField {
  import opened Common

  function Pow(b: nat, e: nat): (p: nat)
    ensures b > 0 ==> p > 0
  {
    if e == 0 then 1 else b * Pow(b, e - 1)
  }

  /** The byte that stores the lowest digit of v. */
  function DigitByte(v: nat, base: nat, zero: nat): (d: byte)
    requires 2 <= base && zero + base <= 256
    ensures zero <= d < zero + base
  {
    (zero + v % base) as byte
  }

  /** The n-digit big-endian representation of v (modulo base^n), digit d
      stored as the byte zero + d: octal digits use zero = '0', binary
      digits zero = 0. */
  function Digits(v: nat, n: nat, base: nat, zero: nat): (s: seq<byte>)
    requires 2 <= base && zero + base <= 256
    ensures |s| == n
  {
    if n == 0 then [] else Digits(v / base, n - 1, base, zero) + [DigitByte(v, base, zero)]
  }

  /** The number a big-endian digit sequence denotes (the reader's side). */
  function Value(s: seq<byte>, base: nat, zero: nat): int
  {
    if s == [] then 0 else Value(s[..|s| - 1], base, zero) * base + (s[|s| - 1] - zero)
  }

  /** The smallest value the binary form of a length-byte field cannot hold:
      2^(8*length-1), the top bit of the first byte being the marker. */
  function BinaryLimit(length: nat): nat
    requires length > 0
  {
    128 * Pow(256, length - 1)
  }

  /** byte |= 0x80 */
  function OrHigh(x: byte): (r: byte)
    ensures r >= 128
  {
    if x >= 128 then x else x + 128
  }

  /** The field store_xoctal leaves in buffer[0..length), or Bug when it
      aborts because even the binary form does not fit. */
  function EncodeNumeric(length: nat, value: nat): (r: Result<seq<byte>>)
    requires length > 1
    ensures r.Ok? ==> |r.value| == length
  {
    if value < Pow(8, length - 1) then
      Ok(Digits(value, length - 1, 8, DigitZero) + [Nul])
    else if value < BinaryLimit(length) then
      var d := Digits(value, length, 256, 0);
      Ok([OrHigh(d[0])] + d[1..])
    else
      Err(Bug)
  }

  /** How a tar reader interprets a numeric field: a set top bit selects the
      binary form, otherwise the bytes before the final one are octal digits. */
  function DecodeNumeric(f: seq<byte>): (r: Option<int>)
    requires |f| > 1
  {
    if f[0] >= 128 then
      Some(Value([f[0] - 128] + f[1..], 256, 0))
    else if forall i :: 0 <= i < |f| - 1 ==> DigitZero <= f[i] < DigitZero + 8 then
      Some(Value(f[..|f| - 1], 8, DigitZero))
    else
      None
  }

  // ---------------------------------------------------------------------
  // Arithmetic facts

  lemma MulLe(a: nat, b: nat, d: nat)
    requires a <= b
    ensures a * d <= b * d
  {
  }

  lemma DivUnique(a: nat, d: nat, q: nat, r: nat)
    requires d > 0 && a == q * d + r && r < d
    ensures a / d == q && a % d == r
  {
    var q', r' := a / d, a % d;
    assert a == q' * d + r';
    if q' > q {
      MulLe(q + 1, q', d);
      assert false;
    } else if q' < q {
      MulLe(q' + 1, q, d);
      assert false;
    }
  }

  lemma DivZeroIff(a: nat, d: nat)
    requires d > 0
    ensures a / d == 0 <==> a < d
  {
    if a < d { DivUnique(a, d, 0, a); }
    else { MulLe(1, a / d, d); }
  }

  lemma DivLess(a: nat, d: nat, k: nat)
    requires d > 0
    ensures a / d < k <==> a < k * d
  {
    var q, r := a / d, a % d;
    assert a == q * d + r;
    if q < k {
      MulLe(q + 1, k, d);
    } else {
      MulLe(k, q, d);
    }
  }

  lemma DivMod(a: nat, d: nat)
    requires d > 0
    ensures a == a / d * d + a % d && a % d < d
  {
  }

  lemma Distrib(q: nat, y: nat, s: nat, x: nat)
    ensures q * (x * y) + s * x == (q * y + s) * x
  {
  }

  lemma DivDiv(a: nat, x: nat, y: nat)
    requires x > 0 && y > 0
    ensures a / x / y == a / (x * y)
  {
    var xy := x * y;
    var q, r := a / xy, a % xy;
    assert a == q * xy + r;
    var s, t := r / x, r % x;
    assert r == s * x + t;
    Distrib(q, y, s, x);
    assert a == (q * y + s) * x + t;
    DivUnique(a, x, q * y + s, t);
    DivLess(r, x, y);
    DivUnique(q * y + s, y, q, s);
  }

  lemma {:induction false} PowMonotone(b: nat, c: nat, e: nat)
    requires 0 < b <= c
    ensures Pow(b, e) <= Pow(c, e)
    decreases e
  {
    if e > 0 {
      var pb, pc := Pow(b, e - 1), Pow(c, e - 1);
      PowMonotone(b, c, e - 1);
      MulLe(b, c, pb);
      MulLe(pb, pc, c);
      assert Pow(b, e) == b * pb && Pow(c, e) == c * pc;
    }
  }

  lemma {:induction false} PowAdd(b: nat, x: nat, y: nat)
    ensures Pow(b, x + y) == Pow(b, x) * Pow(b, y)
    decreases x
  {
    if x > 0 {
      PowAdd(b, x - 1, y);
      var p, q := Pow(b, x - 1), Pow(b, y);
      assert Pow(b, x + y) == b * Pow(b, x - 1 + y) == b * (p * q);
      assert b * (p * q) == (b * p) * q;
    } else {
      assert Pow(b, x) == 1;
    }
  }

  lemma PowTwoEight(k: nat)
    ensures Pow(2, 8 * k) == Pow(256, k)
  {
    if k > 0 {
      PowTwoEight(k - 1);
      PowAdd(2, 8, 8 * (k - 1));
      assert Pow(2, 8) == 256;
      assert 8 * k == 8 + 8 * (k - 1);
    }
  }

  // ---------------------------------------------------------------------
  // Digit sequences

  /** value / base^k, computed as store_xoctal computes it: k divisions. */
  function Shift(value: nat, k: nat, base: nat): nat
    requires base > 0
  {
    if k == 0 then value else Shift(value, k - 1, base) / base
  }

  lemma {:induction false} ShiftIsDiv(value: nat, k: nat, base: nat)
    requires base > 0
    ensures Shift(value, k, base) == value / Pow(base, k)
    decreases k
  {
    if k > 0 {
      ShiftIsDiv(value, k - 1, base);
      DivDiv(value, Pow(base, k - 1), base);
      assert Pow(base, k) == Pow(base, k - 1) * base;
    } else {
      assert Pow(base, k) == 1;
    }
  }

  /** Dividing first and shifting one place less is the same shift. */
  lemma {:induction false} ShiftFront(v: nat, k: nat, base: nat)
    requires base > 0 && k > 0
    ensures Shift(v / base, k - 1, base) == Shift(v, k, base)
    decreases k
  {
    if k > 1 {
      ShiftFront(v, k - 1, base);
    }
  }

  /** The digits are built from the right; this is the view from the left:
      one more digit is the next higher digit prepended. */
  lemma {:induction false} DigitsPrepend(v: nat, k: nat, base: nat, zero: nat)
    requires 2 <= base && zero + base <= 256
    ensures Digits(v, k + 1, base, zero)
            == [DigitByte(Shift(v, k, base), base, zero)] + Digits(v, k, base, zero)
    decreases k
  {
    if k > 0 {
      var w := v / base;
      var last := [DigitByte(v, base, zero)];
      assert Digits(v, k + 1, base, zero) == Digits(w, k, base, zero) + last;
      assert Digits(v, k, base, zero) == Digits(w, k - 1, base, zero) + last;
      DigitsPrepend(w, k - 1, base, zero);
      ShiftFront(v, k, base);
    } else {
      assert Digits(v, 1, base, zero) == [DigitByte(v, base, zero)];
    }
  }

  /** Every byte of the representation is a digit of the base. */
  lemma {:induction false} DigitsRange(v: nat, n: nat, base: nat, zero: nat)
    requires 2 <= base && zero + base <= 256
    ensures forall i :: 0 <= i < n ==> zero <= Digits(v, n, base, zero)[i] < zero + base
    decreases n
  {
    if n > 0 {
      DigitsRange(v / base, n - 1, base, zero);
    }
  }

  /** A value below base^n is exactly what its n digits denote. */
  lemma {:induction false} DigitsValue(v: nat, n: nat, base: nat, zero: nat)
    requires 2 <= base && zero + base <= 256
    requires v < Pow(base, n)
    ensures Value(Digits(v, n, base, zero), base, zero) == v
    decreases n
  {
    if n > 0 {
      var d := Digits(v, n, base, zero);
      var w := v / base;
      assert d[..n - 1] == Digits(w, n - 1, base, zero);
      assert d[n - 1] - zero == v % base;
      var P := Pow(base, n - 1);
      assert v < P * base;
      DivLess(v, base, P);
      DigitsValue(w, n - 1, base, zero);
      assert Value(d, base, zero) == Value(d[..n - 1], base, zero) * base + (d[n - 1] - zero);
      DivMod(v, base);
    } else {
      assert Pow(base, n) == 1;
    }
  }

  /** The leading digit of a value below base^n. */
  lemma LeadingDigit(v: nat, n: nat, base: nat, zero: nat)
    requires 2 <= base && zero + base <= 256 && n > 0
    requires v < Pow(base, n)
    ensures Digits(v, n, base, zero)[0] == zero + v / Pow(base, n - 1)
  {
    var P := Pow(base, n - 1);
    var q := v / P;
    assert q < base by {
      assert Pow(base, n) == base * P;
      DivLess(v, P, base);
    }
    assert DigitByte(q, base, zero) == zero + q by {
      DivUnique(q, base, 0, q);
    }
    ShiftIsDiv(v, n - 1, base);
    DigitsPrepend(v, n - 1, base, zero);
  }

  lemma ZeroDigits(n: nat)
    ensures Digits(0, n, 8, DigitZero) == seq(n, _ => DigitZero)
  {
  }

  lemma OctalBelowBinary(length: nat)
    requires length > 1
    ensures Pow(8, length - 1) < BinaryLimit(length) < Pow(256, length)
  {
    PowMonotone(8, 256, length - 1);
  }

  // ---------------------------------------------------------------------
  // Properties of the codec

  /** The octal path: a value below 8^(length-1) is written as length-1
      octal digits, most significant first and left-padded with '0',
      followed by a NUL, and reads back as itself. */
  lemma OctalPath(length: nat, value: nat)
    requires length > 1 && value < Pow(8, length - 1)
    ensures EncodeNumeric(length, value).Ok?
    ensures var f := EncodeNumeric(length, value).value;
      && f[length - 1] == Nul
      && (forall i :: 0 <= i < length - 1 ==> DigitZero <= f[i] < DigitZero + 8)
      && Value(f[..length - 1], 8, DigitZero) == value
      && (value == 0 ==> forall i :: 0 <= i < length - 1 ==> f[i] == DigitZero)
  {
    var d := Digits(value, length - 1, 8, DigitZero);
    assert EncodeNumeric(length, value) == Ok(d + [Nul]) by {
      EncodeSteps(length, value);
    }
    assert (d + [Nul])[..length - 1] == d;
    DigitsValue(value, length - 1, 8, DigitZero);
    DigitsRange(value, length - 1, 8, DigitZero);
    if value == 0 {
      ZeroDigits(length - 1);
    }
  }

  /** The binary fallback: a value that does not fit the octal digits but is
      below 2^(8*length-1) fills all length bytes big-endian in base 256,
      with bit 0x80 of the first byte set; clearing it gives the value back. */
  lemma BinaryPath(length: nat, value: nat)
    requires length > 1 && Pow(8, length - 1) <= value < BinaryLimit(length)
    ensures EncodeNumeric(length, value).Ok?
    ensures var f := EncodeNumeric(length, value).value;
      && f[0] >= 128
      && Value([f[0] - 128] + f[1..], 256, 0) == value
  {
    OctalBelowBinary(length);
    var d := Digits(value, length, 256, 0);
    LeadingDigit(value, length, 256, 0);
    DivLess(value, Pow(256, length - 1), 128);
    assert [OrHigh(d[0]) - 128] + d[1..] == d;
    DigitsValue(value, length, 256, 0);
  }

  /** store_xoctal aborts exactly for values of 2^(8*length-1) and above. */
  lemma EncodeFailsIff(length: nat, value: nat)
    requires length > 1
    ensures EncodeNumeric(length, value).Err? <==> value >= BinaryLimit(length)
  {
    OctalBelowBinary(length);
  }

  /** 128 * 256^(length-1) is 2^(8*length-1). */
  lemma BinaryLimitIsPowerOfTwo(length: nat)
    requires length > 0
    ensures BinaryLimit(length) == Pow(2, 8 * length - 1)
  {
    PowTwoEight(length - 1);
    PowAdd(2, 7, 8 * (length - 1));
    assert Pow(2, 7) == 128;
    assert 8 * length - 1 == 7 + 8 * (length - 1);
  }

  /** Whatever the codec writes, a tar reader decodes back to the value. */
  lemma RoundTrip(length: nat, value: nat)
    requires length > 1 && EncodeNumeric(length, value).Ok?
    ensures DecodeNumeric(EncodeNumeric(length, value).value) == Some(value)
  {
    var f := EncodeNumeric(length, value).value;
    if value < Pow(8, length - 1) {
      OctalPath(length, value);
      assert f[0] < 128;
    } else {
      BinaryPath(length, value);
    }
  }

  // ---------------------------------------------------------------------
  // The procedure

  lemma PowExpMonotone(b: nat, i: nat, j: nat)
    requires b > 0 && i <= j
    ensures Pow(b, i) <= Pow(b, j)
    decreases j
  {
    if i < j {
      PowExpMonotone(b, i, j - 1);
      MulLe(1, b, Pow(b, j - 1));
    }
  }

  /** Nothing is left to write after k digits exactly when value < base^k. */
  lemma ShiftZeroIff(value: nat, k: nat, base: nat)
    requires base > 0
    ensures Shift(value, k, base) == 0 <==> value < Pow(base, k)
  {
    ShiftIsDiv(value, k, base);
    DivZeroIff(value, Pow(base, k));
  }

  lemma WriteInFront(b: seq<byte>, p: nat, x: byte, d: seq<byte>)
    requires 0 < p && p + |d| <= |b|
    ensures Put(b, p, d)[p - 1 := x] == Put(b, p - 1, [x] + d)
  {
  }

  lemma SetFirst(b: seq<byte>, off: nat, d: seq<byte>, x: byte)
    requires |d| > 0 && off + |d| <= |b|
    ensures Put(b, off, d)[off := x] == Put(b, off, [x] + d[1..])
  {
  }

  /** A NUL written just after the field, then the field, is one write. */
  lemma PutThenTerminate(b: seq<byte>, off: nat, d: seq<byte>)
    requires off + |d| + 1 <= |b|
    ensures Put(b[off + |d| := Nul], off, d) == Put(b, off, d + [Nul])
  {
  }

  /** One step of either digit loop, on the buffer contents: writing the
      next digit in front of the k digits already written. */
  lemma StepInFront(b: seq<byte>, off: nat, k: nat, count: nat, value: nat, base: nat, zero: byte)
    requires k < count && off + count <= |b|
    requires 2 <= base && zero + base <= 256
    ensures Shift(value, k + 1, base) == Shift(value, k, base) / base
    ensures Put(b, off + count - k, Digits(value, k, base, zero))[off + count - k - 1 := DigitByte(Shift(value, k, base), base, zero)]
            == Put(b, off + count - k - 1, Digits(value, k + 1, base, zero))
  {
    DigitsPrepend(value, k, base, zero);
    WriteInFront(b, off + count - k, DigitByte(Shift(value, k, base), base, zero), Digits(value, k, base, zero));
  }

  /** A padding step writes the zero digit, as the digit of a used-up value is. */
  lemma ZeroShift(value: nat, k: nat, base: nat, zero: byte)
    requires 2 <= base && Shift(value, k, base) == 0 && zero + base <= 256
    ensures Shift(value, k + 1, base) == 0 && DigitByte(Shift(value, k, base), base, zero) == zero
  {
  }

  /** The padding loop of store_xoctal: once the value is used up with n
      bytes of the field left, those bytes get the zero digit, which is what
      the remaining digits of value are. */
  method PadDigits(buffer: array<byte>, off: nat, n: nat, count: nat, value: nat, base: nat, zero: byte,
                   ghost before: seq<byte>)
    requires n <= count && off + count <= buffer.Length == |before|
    requires 2 <= base && zero + base <= 256
    requires Shift(value, count - n, base) == 0
    requires buffer[..] == Put(before, off + n, Digits(value, count - n, base, zero))
    modifies buffer
    ensures buffer[..] == Put(before, off, Digits(value, count, base, zero))
    ensures Shift(value, count, base) == 0
  {
    var i := n;
    while i != 0
      invariant 0 <= i <= n
      invariant Shift(value, count - i, base) == 0
      invariant buffer[..] == Put(before, off + i, Digits(value, count - i, base, zero))
    {
      StepInFront(before, off, count - i, count, value, base, zero);
      ZeroShift(value, count - i, base, zero);
      ghost var prev := buffer[..];
      buffer[off + i - 1] := zero;
      assert buffer[..] == prev[off + i - 1 := zero];
      i := i - 1;
    }
  }

  /** The state after one more digit is written by the do/while loop. */
  lemma DigitLoopStep(before: seq<byte>, buf: seq<byte>, off: nat, count: nat, n: nat,
                      value: nat, base: nat, zero: byte, v: nat)
    requires 1 <= n <= count && off + count <= |before|
    requires 2 <= base && zero + base <= 256
    requires v == Shift(value, count - n, base)
    requires buf == Put(before, off + n, Digits(value, count - n, base, zero))
    ensures buf[off + n - 1 := DigitByte(v, base, zero)]
            == Put(before, off + n - 1, Digits(value, count - (n - 1), base, zero))
    ensures v / base == Shift(value, count - (n - 1), base)
  {
    StepInFront(before, off, count - n, count, value, base, zero);
  }

  /** The do/while loop of store_xoctal: writes digits of value from the end
      of the count bytes at off backwards until the value or the field is
      used up; n is the number of bytes left in front, v what is left of
      the value. */
  method DigitLoop(buffer: array<byte>, off: nat, count: nat, value: nat, base: nat, zero: byte)
    returns (v: nat, n: nat)
    requires count >= 1 && off + count <= buffer.Length
    requires 2 <= base && zero + base <= 256
    modifies buffer
    ensures n < count && (v == 0 || n == 0)
    ensures v == Shift(value, count - n, base)
    ensures buffer[..] == Put(old(buffer[..]), off + n, Digits(value, count - n, base, zero))
  {
    ghost var before := buffer[..];
    v := value;
    n := count;
    var p := off + count;
    var more := true;   // do { ... } while (v && n);
    while more
      invariant 0 <= n <= count && p == off + n
      invariant more ==> n >= 1
      invariant !more ==> n < count && (v == 0 || n == 0)
      invariant v == Shift(value, count - n, base)
      invariant buffer[..] == Put(before, p, Digits(value, count - n, base, zero))
      decreases n
    {
      DigitLoopStep(before, buffer[..], off, count, n, value, base, zero, v);
      ghost var prev := buffer[..];
      p := p - 1;
      buffer[p] := DigitByte(v, base, zero);
      assert buffer[..] == prev[p := DigitByte(v, base, zero)];
      v := v / base;
      n := n - 1;
      more := v != 0 && n != 0;
    }
  }

  /** The loop pair that store_xoctal runs twice: the digit loop, then the
      padding if the value ran out first. Either way the field ends up
      holding the count lowest digits of value; rest is the part of value
      left unwritten. */
  method StoreDigits(buffer: array<byte>, off: nat, count: nat, value: nat, base: nat, zero: byte)
    returns (rest: nat)
    requires count >= 1 && off + count <= buffer.Length
    requires 2 <= base && zero + base <= 256
    modifies buffer
    ensures buffer[..] == Put(old(buffer[..]), off, Digits(value, count, base, zero))
    ensures rest == Shift(value, count, base)
  {
    ghost var before := buffer[..];
    var v, n := DigitLoop(buffer, off, count, value, base, zero);
    if v == 0 {
      // Pad.
      PadDigits(buffer, off, n, count, value, base, zero, before);
    }
    rest := v;
  }

  /** EncodeNumeric in the terms of store_xoctal's control flow: whether
      the octal digits, then the binary digits, leave part of the value
      unwritten, and what the first binary byte holds. */
  lemma EncodeSteps(length: nat, value: nat)
    requires length > 1
    ensures Shift(value, length - 1, 8) == 0 ==>
      EncodeNumeric(length, value) == Ok(Digits(value, length - 1, 8, DigitZero) + [Nul])
    ensures Shift(value, length - 1, 8) != 0 && Shift(value, length, 256) == 0 ==>
      var d := Digits(value, length, 256, 0);
      && (EncodeNumeric(length, value).Ok? <==> d[0] < 128)
      && (d[0] < 128 ==> EncodeNumeric(length, value) == Ok([OrHigh(d[0])] + d[1..]))
    ensures Shift(value, length - 1, 8) != 0 && Shift(value, length, 256) != 0 ==>
      EncodeNumeric(length, value).Err?
  {
    ShiftZeroIff(value, length - 1, 8);
    ShiftZeroIff(value, length, 256);
    OctalBelowBinary(length);
    if Pow(8, length - 1) <= value < Pow(256, length) {
      LeadingDigit(value, length, 256, 0);
      DivLess(value, Pow(256, length - 1), 128);
    }
  }

  /** store_xoctal (buffer + off, length, value): fills the field from its end
      backwards, first with a NUL and octal digits, and if those run out
      before the value does, again from the end with base-256 bytes and the
      top bit of the first byte set. Returns false where the source calls
      BUG(). */
  method StoreXOctal(buffer: array<byte>, off: nat, length: nat, value: nat) returns (ok: bool)
    requires length > 1 && off + length <= buffer.Length
    modifies buffer
    ensures ok <==> EncodeNumeric(length, value).Ok?
    ensures ok ==> buffer[..] == Put(old(buffer[..]), off, EncodeNumeric(length, value).value)
    ensures forall i :: 0 <= i < buffer.Length && !(off <= i < off + length) ==> buffer[i] == old(buffer[i])
  {
    ghost var before := buffer[..];
    buffer[off + length - 1] := Nul;   // Nul byte.
    assert buffer[..] == before[off + length - 1 := Nul];
    var v := StoreDigits(buffer, off, length - 1, value, 8, DigitZero);
    ghost var octal := Digits(value, length - 1, 8, DigitZero);
    PutThenTerminate(before, off, octal);
    ghost var field := octal + [Nul];
    assert buffer[..] == Put(before, off, field);
    if v == 0 {
      assert EncodeNumeric(length, value) == Ok(field) by {
        EncodeSteps(length, value);
      }
      ok := true;
    } else {
      // Does not fit into the field.  Store as binary number.
      v := StoreDigits(buffer, off, length, value, 256, 0);
      ghost var d := Digits(value, length, 256, 0);
      PutTwice(before, off, octal + [Nul], d);
      field := d;
      assert buffer[..] == Put(before, off, field);
      if v == 0 {
        if buffer[off] >= 128 {
          assert EncodeNumeric(length, value).Err? by {
            EncodeSteps(length, value);
          }
          ok := false;   // BUG ()
        } else {
          assert EncodeNumeric(length, value) == Ok([OrHigh(d[0])] + d[1..]) by {
            EncodeSteps(length, value);
          }
          SetFirst(before, off, d, OrHigh(d[0]));
          field := [OrHigh(d[0])] + d[1..];
          ghost var prev := buffer[..];
          buffer[off] := OrHigh(buffer[off]);   // Set binary flag.
          assert buffer[..] == prev[off := OrHigh(d[0])];
          assert buffer[..] == Put(before, off, field);
          ok := true;
        }
      } else {
        assert EncodeNumeric(length, value).Err? by {
          EncodeSteps(length, value);
        }
        ok := false;     // BUG ()
      }
    }
    PutAt(before, off, field);
  }
}
