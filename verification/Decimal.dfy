/** The decimal int32 parser and printer behind `incr`. */
module Decimal {
  import opened Basics
  import opened Order

  const INT32_MIN := -0x8000_0000
  const INT32_MAX := 0x7fff_ffff
  const MINUS: byte := 45
  const ZERO: byte := 48
  const INT_T_LEN := 20

  predicate Int32(v: int) { INT32_MIN <= v <= INT32_MAX }

  /** A C value reinterpreted as uint32_t, and as a wrapping int32_t. */
  function U32(v: int): nat { v % 0x1_0000_0000 }

  function I32(v: int): (r: int)
    ensures Int32(r)
  {
    if U32(v) < 0x8000_0000 then U32(v) else U32(v) - 0x1_0000_0000
  }

  // ---- What a text means

  predicate Digit(b: byte) { ZERO <= b <= ZERO + 9 }

  predicate AllDigits(s: bytes) { forall i :: 0 <= i < |s| ==> Digit(s[i]) }

  /** The number written by decimal digits. */
  function Magnitude(s: bytes): int {
    if s == [] then 0 else 10 * Magnitude(s[..|s| - 1]) + (s[|s| - 1] - ZERO)
  }

  predicate Negative(s: bytes) { s != [] && s[0] == MINUS }

  function Body(s: bytes): bytes { if Negative(s) then s[1..] else s }

  function Signed(s: bytes): int { if Negative(s) then -Magnitude(Body(s)) else Magnitude(Body(s)) }

  /** The int32 a text denotes: an optional minus sign, one or more digits, and a value in range. */
  function Denotes(s: bytes): Option<int> {
    if Body(s) != [] && AllDigits(Body(s)) && Int32(Signed(s)) then Some(Signed(s)) else None
  }

  lemma {:induction false} MagnitudeGrows(s: bytes, n: nat)
    requires AllDigits(s) && n <= |s|
    ensures 0 <= Magnitude(s[..n]) <= Magnitude(s)
    decreases |s|
  {
    if n == |s| {
      assert s[..n] == s;
      if s != [] { MagnitudeGrows(s[..|s| - 1], |s| - 1); assert s[..|s| - 1][..|s| - 1] == s[..|s| - 1]; }
    } else {
      MagnitudeGrows(s[..|s| - 1], n);
      assert s[..|s| - 1][..n] == s[..n];
    }
  }

  /** The accumulator step of the parser, in 32-bit wrapping arithmetic. */
  function Accumulate(result: int, digit: int): (r: int)
    requires Int32(result) && 0 <= digit <= 9
    ensures Int32(r)
    ensures 10 * U32(result) + digit <= 2147483648 ==> U32(r) == 10 * U32(result) + digit
  {
    AccumulateExact(result, digit);
    I32(I32(result * 10) + digit)
  }

  lemma AccumulateExact(result: int, digit: int)
    requires Int32(result) && 0 <= digit <= 9
    ensures 10 * U32(result) + digit <= 2147483648 ==> U32(I32(I32(result * 10) + digit)) == 10 * U32(result) + digit
  {
    if 10 * U32(result) + digit <= 2147483648 {
      assert result >= 0 && U32(result) == result;
      assert I32(result * 10) == result * 10;
    }
  }

  predicate TooLarge(u: nat, digit: nat, limit: nat) {
    u > limit / 10 || (u == limit / 10 && digit > limit % 10)
  }

  lemma TooLargeExactly(u: nat, digit: nat, limit: nat)
    requires digit <= 9
    ensures TooLarge(u, digit, limit) <==> 10 * u + digit > limit
  {
  }

  lemma MagnitudeStep(body: bytes, n: nat)
    requires n < |body| && AllDigits(body[..n]) && Digit(body[n])
    ensures AllDigits(body[..n + 1])
    ensures Magnitude(body[..n + 1]) == 10 * Magnitude(body[..n]) + (body[n] - ZERO)
    ensures AllDigits(body) ==> Magnitude(body[..n + 1]) <= Magnitude(body)
  {
    assert body[..n + 1][..n] == body[..n];
    if AllDigits(body) {
      MagnitudeGrows(body, n + 1);
    }
  }

  method ParseI32(data: bytes) returns (ok: bool, value: int)
    ensures ok <==> Denotes(data).Some?
    ensures ok ==> value == Denotes(data).value
  {
    ok, value := false, 0;
    if |data| == 0 {
      return;
    }
    var i, negative := 0, false;
    if data[0] == MINUS {
      negative, i := true, 1;
    }
    if i == |data| {
      return;
    }
    var limit := if negative then 2147483648 else 2147483647;
    var result;
    ok, result := ScanDigits(data, i, limit);
    assert data[i..] == Body(data);
    if !ok {
      return;
    }
    if negative {
      value := if U32(result) == 2147483648 then INT32_MIN else -result;
    } else {
      value := result;
    }
  }

  /** The loop of the parser: digits from `start` on, their number kept in 32 wrapping bits and never above the limit. */
  method ScanDigits(data: bytes, start: nat, limit: nat) returns (ok: bool, result: int)
    requires start <= |data| && 2147483647 <= limit <= 2147483648
    ensures ok <==> AllDigits(data[start..]) && Magnitude(data[start..]) <= limit
    ensures ok ==> Int32(result) && U32(result) == Magnitude(data[start..])
  {
    hide Magnitude;
    ok, result := false, 0;
    ghost var body := data[start..];
    var i := start;
    assert body[..0] == [] && Magnitude([]) == 0 by { NoDigits(); }
    while i < |data|
      invariant start <= i <= |data| && Int32(result)
      invariant AllDigits(body[..i - start])
      invariant U32(result) == Magnitude(body[..i - start]) <= limit
    {
      var ch := data[i];
      assert ch == body[i - start];
      if ch < ZERO || ch > ZERO + 9 {
        return;
      }
      var digit := ch - ZERO;
      MagnitudeStep(body, i - start);
      TooLargeExactly(U32(result), digit, limit);
      if TooLarge(U32(result), digit, limit) {
        return;
      }
      result := Accumulate(result, digit);
      i := i + 1;
    }
    assert body[..|data| - start] == body;
    ok := true;
  }

  lemma NoDigits()
    ensures Magnitude([]) == 0
  {
  }

  // ---- Printing

  function Digits(n: nat): (s: bytes)
    ensures |s| > 0 && AllDigits(s) && Magnitude(s) == n
  {
    if n < 10 then [ZERO + n]
    else
      var s := Digits(n / 10) + [ZERO + n % 10];
      assert s[..|s| - 1] == Digits(n / 10);
      s
  }

  /** The canonical text of an integer. */
  function Canonical(v: int): bytes {
    if v < 0 then [MINUS] + Digits(-v) else Digits(v)
  }

  function Reversed(s: bytes): (r: bytes)
    ensures |r| == |s|
  {
    if s == [] then [] else Reversed(s[1..]) + [s[0]]
  }

  lemma {:induction false} ReversedAt(s: bytes, k: nat)
    requires k < |s|
    ensures Reversed(s)[k] == s[|s| - 1 - k]
  {
    if |s| > 1 {
      ReversedAt(s[1..], if k < |s| - 1 then k else 0);
    }
  }

  lemma {:induction false} DigitsLength(n: nat, k: nat)
    requires n < Pow10(k) && k > 0
    ensures |Digits(n)| <= k
  {
    if n >= 10 {
      DigitsLength(n / 10, k - 1);
    }
  }

  function Pow10(k: nat): nat { if k == 0 then 1 else 10 * Pow10(k - 1) }

  /** The first loop of the printer: digits, last one first. */
  method EmitDigits(whole: nat, tmp: array<byte>) returns (n: nat)
    requires whole <= 0x8000_0000 && tmp.Length == INT_T_LEN
    modifies tmp
    ensures n <= 10 && Reversed(tmp[..n]) == Digits(whole)
  {
    assert Pow10(10) == 10_000_000_000;
    DigitsLength(whole, 10);
    n := 0;
    var magnitude := whole;
    while true
      invariant n <= 9 && Digits(whole) == Digits(magnitude) + Reversed(tmp[..n])
      decreases magnitude
    {
      ghost var before, b := tmp[..n], ZERO + magnitude % 10;
      tmp[n] := ZERO + magnitude % 10;
      n := n + 1;
      magnitude := magnitude / 10;
      assert tmp[..n] == before + [b];
      ReversedSnoc(before, b);
      if magnitude == 0 {
        break;
      }
    }
  }

  /** The magnitude, computed so that INT32_MIN does not overflow. */
  function Absolute(value: int): (m: nat)
    requires Int32(value)
    ensures m == (if value < 0 then -value else value) <= 0x8000_0000
  {
    if value < 0 then U32(-(value + 1)) + 1 else U32(value)
  }

  method FormatI32(value: int, buf: array<byte>) returns (len: nat)
    requires Int32(value) && buf.Length == INT_T_LEN
    modifies buf
    ensures len <= 11 && buf[..len] == Canonical(value)
  {
    var tmp := new byte[INT_T_LEN];
    var magnitude := Absolute(value);
    var n := EmitDigits(magnitude, tmp);
    var sign := if value < 0 then 1 else 0;
    if value < 0 {
      buf[0] := MINUS;
    }
    CopyReversed(tmp, n, buf, sign);
    len := sign + n;
    assert buf[..len] == buf[..sign] + buf[sign..len];
    assert buf[..sign] == if value < 0 then [MINUS] else [];
    assert buf[sign..len] == Digits(magnitude);
  }

  /** The second loop of the printer. */
  method CopyReversed(tmp: array<byte>, n: nat, buf: array<byte>, sign: nat)
    requires n <= tmp.Length && sign + n <= buf.Length && tmp != buf
    modifies buf
    ensures buf[sign..sign + n] == Reversed(tmp[..n])
    ensures forall k :: 0 <= k < sign ==> buf[k] == old(buf[k])
  {
    for i := 0 to n
      invariant forall k :: sign <= k < sign + i ==> buf[k] == tmp[n - 1 - (k - sign)]
      invariant forall k :: 0 <= k < sign ==> buf[k] == old(buf[k])
    {
      buf[sign + i] := tmp[n - 1 - i];
    }
    forall k | 0 <= k < n ensures buf[sign..sign + n][k] == Reversed(tmp[..n])[k] {
      ReversedAt(tmp[..n], k);
    }
  }

  lemma {:induction false} ReversedSnoc(s: bytes, b: byte)
    ensures Reversed(s + [b]) == [b] + Reversed(s)
  {
    if s == [] {
    } else {
      ReversedSnoc(s[1..], b);
      assert (s + [b])[1..] == s[1..] + [b];
    }
  }

  /** Printing then parsing is the identity on every int32, in at most 11 bytes. */
  lemma RoundTrip(v: int)
    requires Int32(v)
    ensures Denotes(Canonical(v)) == Some(v) && |Canonical(v)| <= 11
  {
    assert Pow10(10) == 10_000_000_000;
    DigitsLength(if v < 0 then -v else v, 10);
    if v < 0 {
      assert Canonical(v)[1..] == Digits(-v);
    } else {
      assert Digit(Canonical(v)[0]);
    }
  }

  /** Leading zeros, however many, change nothing. */
  lemma LeadingZeros(s: bytes, zeros: nat)
    requires s != [] && !Negative(s)
    ensures Denotes(seq(zeros, _ => ZERO) + s) == Denotes(s)
    ensures Denotes([MINUS] + seq(zeros, _ => ZERO) + s) == Denotes([MINUS] + s)
  {
    hide Magnitude, Denotes;
    var z := seq(zeros, _ => ZERO);
    ZerosVanish(s, zeros);
    assert AllDigits(z + s) <==> AllDigits(s) by {
      assert forall i :: 0 <= i < |s| ==> s[i] == (z + s)[zeros + i];
    }
    assert !Negative(z + s) && z + s != [];
    assert [MINUS] + z + s == [MINUS] + (z + s);
    SameNumber(z + s, s);
  }

  lemma SameNumber(a: bytes, b: bytes)
    requires a != [] && b != [] && !Negative(a) && !Negative(b) && (AllDigits(a) <==> AllDigits(b)) && Magnitude(a) == Magnitude(b)
    ensures Denotes(a) == Denotes(b) && Denotes([MINUS] + a) == Denotes([MINUS] + b)
  {
    Behind(a);
    Behind(b);
    hide Magnitude, AllDigits;
  }

  lemma Behind(s: bytes)
    ensures Negative([MINUS] + s) && Body([MINUS] + s) == s
  {
  }

  /** The number that decimal digits write, by their places. */
  function PlaceValue(s: bytes): int { if s == [] then 0 else (s[0] - 48) * Pow10(|s| - 1) + PlaceValue(s[1..]) }

  lemma {:induction false} PlaceValueSnoc(s: bytes, b: byte)
    ensures PlaceValue(s + [b]) == 10 * PlaceValue(s) + (b - 48)
  {
    if s != [] {
      PlaceValueSnoc(s[1..], b);
      assert (s + [b])[1..] == s[1..] + [b];
    } else {
      assert ([b])[1..] == [] && s + [b] == [b] && Pow10(0) == 1;
    }
  }

  lemma {:induction false} MagnitudeIsPlaceValue(s: bytes)
    ensures Magnitude(s) == PlaceValue(s)
  {
    if s != [] {
      var n := |s| - 1;
      MagnitudeIsPlaceValue(s[..n]);
      PlaceValueSnoc(s[..n], s[n]);
      assert s[..n] + [s[n]] == s;
    }
  }

  /** Which texts are numbers, and which: byte by byte, place by place. */
  lemma DenotesExactly(s: bytes)
    ensures var minus := s != [] && s[0] == 45;
      var body := if minus then s[1..] else s;
      var v := if minus then -PlaceValue(body) else PlaceValue(body);
      Denotes(s) ==
        if body != [] && (forall i :: 0 <= i < |body| ==> 48 <= body[i] <= 57) && -0x8000_0000 <= v <= 0x7FFF_FFFF then Some(v)
        else None
  {
    MagnitudeIsPlaceValue(Body(s));
    hide Magnitude, PlaceValue;
  }

  /** Nothing, a bare minus sign, or a byte that is no digit where none may be: no number. */
  lemma Refused(s: bytes)
    requires s == [] || s == [45] || exists i :: 0 <= i < |s| && !(48 <= s[i] <= 57) && !(i == 0 && s[0] == 45)
    ensures Denotes(s).None?
  {
    DenotesExactly(s);
    if |s| > 1 {
      var i :| 0 <= i < |s| && !(48 <= s[i] <= 57) && !(i == 0 && s[0] == 45);
      if s[0] == 45 { assert s[1..][i - 1] == s[i]; }
    }
  }

  /** The canonical text has a minus sign for negative numbers only, and no zero in front of another digit. */
  lemma CanonicalShape(v: int)
    ensures var c := Canonical(v);
      var digits := if v < 0 then c[1..] else c;
      && c != [] && (c[0] == 45 <==> v < 0)
      && digits != [] && (forall i :: 0 <= i < |digits| ==> 48 <= digits[i] <= 57)
      && (digits[0] == 48 <==> v == 0) && (v == 0 ==> digits == [48])
      && PlaceValue(digits) == if v < 0 then -v else v
  {
    var n := if v < 0 then -v else v;
    DigitsShape(n);
    MagnitudeIsPlaceValue(Digits(n));
    hide Magnitude, PlaceValue;
    if v < 0 { assert Canonical(v)[1..] == Digits(n); }
  }

  lemma {:induction false} DigitsShape(n: nat)
    ensures Digits(n)[0] == 48 <==> n == 0
  {
    if n >= 10 {
      DigitsShape(n / 10);
    }
  }

  lemma {:induction false} ZerosVanish(s: bytes, zeros: nat)
    ensures Magnitude(seq(zeros, _ => ZERO) + s) == Magnitude(s)
    decreases |s|, zeros
  {
    var z := seq(zeros, _ => ZERO);
    if s != [] {
      ZerosVanish(s[..|s| - 1], zeros);
      assert (z + s)[..|z + s| - 1] == z + s[..|s| - 1];
    } else if zeros > 0 {
      ZerosVanish(s, zeros - 1);
      assert (z + s)[..|z + s| - 1] == seq(zeros - 1, _ => ZERO) + s;
    }
  }
}
