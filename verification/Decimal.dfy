/** Decimal text: the digit writers of vash-proto and the strict integer reader of vash-core. */
module Decimal {
  import opened Core

  const ZERO: byte := 48
  const NINE: byte := 57
  const MINUS: byte := 45
  const PLUS: byte := 43

  predicate IsDigit(b: byte) { ZERO <= b <= NINE }

  predicate AllDigits(s: bytes) { forall i :: 0 <= i < |s| ==> IsDigit(s[i]) }

  /** The number a run of digits denotes. */
  function Value(s: bytes): nat
    requires AllDigits(s)
  {
    if s == [] then 0 else 10 * Value(s[..|s| - 1]) + (s[|s| - 1] - ZERO)
  }

  /** The shortest decimal text of a natural number. */
  function Digits(n: nat): (s: bytes)
    ensures s != [] && AllDigits(s) && Value(s) == n
    ensures s[0] == ZERO ==> n == 0 && s == [ZERO]
  {
    if n < 10 then
      var s := [ZERO + n];
      assert s[..0] == [];
      s
    else
      var front := Digits(n / 10);
      var s := front + [ZERO + n % 10];
      assert s[..|s| - 1] == front;
      s
  }

  /** The decimal text of any integer, as Rust's `to_string` prints it. */
  function Text(v: int): bytes {
    if v < 0 then [MINUS] + Digits(-v) else Digits(v)
  }

  /** ASCII decimal, most significant digit first, a minus in front of the negative. */
  lemma TextIsAscii(v: int)
    ensures 0 <= v < 10 ==> Text(v) == [48 + v]
    ensures v >= 10 ==> Text(v) == Text(v / 10) + [48 + v % 10]
    ensures v < 0 ==> Text(v) == [45] + Text(-v)
  {
  }

  function Pow10(k: nat): nat { if k == 0 then 1 else 10 * Pow10(k - 1) }

  /** A number below 10^k needs at most k digits (and at least one). */
  lemma {:induction false} DigitsLength(n: nat, k: nat)
    requires 0 < k && n < Pow10(k)
    ensures |Digits(n)| <= k
  {
    if n >= 10 {
      assert n / 10 < Pow10(k - 1);
      DigitsLength(n / 10, k - 1);
    }
  }

  lemma U64FitsTwentyDigits(n: u64)
    ensures |Digits(n)| <= 20
  {
    assert Pow10(20) == 100_000_000_000_000_000_000 by {
      assert Pow10(5) == 100_000;
      assert Pow10(10) == 100_000 * Pow10(5) by { assert Pow10(10) == 10 * (10 * (10 * (10 * (10 * Pow10(5))))); }
      assert Pow10(15) == 100_000 * Pow10(10) by { assert Pow10(15) == 10 * (10 * (10 * (10 * (10 * Pow10(10))))); }
      assert Pow10(20) == 100_000 * Pow10(15) by { assert Pow10(20) == 10 * (10 * (10 * (10 * (10 * Pow10(15))))); }
    }
    DigitsLength(n, 20);
  }

  /** A run of digits that opens with a non-zero one is the text of its value. */
  lemma {:induction false} DigitsOfValue(s: bytes)
    requires s != [] && AllDigits(s) && s[0] != ZERO
    ensures Value(s) > 0 && Digits(Value(s)) == s
  {
    var front, last := s[..|s| - 1], s[|s| - 1];
    if front == [] {
      assert Value(front) == 0;
    } else {
      DigitsOfValue(front);
      assert Value(s) / 10 == Value(front) && Value(s) % 10 == last - ZERO;
      assert s == front + [last];
    }
  }

  /** Two naturals with the same text are equal, so the text is an encoding. */
  lemma TextInjective(a: int, b: int)
    requires Text(a) == Text(b)
    ensures a == b
  {
    if a < 0 && b < 0 {
      assert Digits(-a) == Text(a)[1..] && Digits(-b) == Text(b)[1..];
    }
  }

  lemma LastDigit(v: nat)
    ensures v >= 10 ==> Digits(v) == Digits(v / 10) + [ZERO + v % 10]
    ensures v < 10 ==> Digits(v) == [ZERO + v % 10]
  {
  }

  /** Appends `value` in decimal, filling a fixed buffer from its end. */
  method PushU64(out: bytes, value: u64) returns (r: bytes)
    ensures r == out + Digits(value)
  {
    var buf := new byte[20];
    var at := buf.Length;
    var v: nat := value;
    U64FitsTwentyDigits(value);
    hide Digits, Value;
    assert buf[at..] == [];
    while true
      invariant 0 < at <= 20 && buf.Length == 20
      invariant |Digits(v)| <= at
      invariant Digits(v) + buf[at..] == Digits(value)
      decreases v
    {
      at := at - 1;
      buf[at] := ZERO + v % 10;
      assert buf[at..] == [ZERO + v % 10] + buf[at + 1..];
      LastDigit(v);
      v := v / 10;
      if v == 0 {
        break;
      }
    }
    r := out + buf[at..];
  }

  /** The signed form; the magnitude is taken unsigned, so the minimum does not overflow. */
  method PushI64(out: bytes, value: i64) returns (r: bytes)
    ensures r == out + Text(value)
  {
    if value < 0 {
      var magnitude: int := value;
      r := PushU64(out + [MINUS], -magnitude);
      assert r == out + ([MINUS] + Digits(-magnitude));
    } else {
      r := PushU64(out, value);
    }
  }

  /** Rust's `str::parse::<u64>` on a run of digits: refused only for overflow. */
  function ParseU64(s: bytes): Option<u64> {
    if s == [] || !AllDigits(s) || Value(s) > U64_MAX then None else Some(Value(s))
  }

  /** Reads an integer as Redis does: no leading zeros, no sign but a minus, no space. */
  function ParseInt(token: bytes): Option<i64> {
    if token == [ZERO] then Some(0)
    else
      var negative := token != [] && token[0] == MINUS;
      var digits := if negative then token[1..] else token;
      if digits == [] || digits[0] == ZERO || !AllDigits(digits) then None
      else
        match ParseU64(digits)
        case None => None
        case Some(m) =>
          var magnitude: int := m;
          if negative then (if magnitude <= I64_MAX + 1 then Some(-magnitude) else None)
          else (if magnitude <= I64_MAX then Some(magnitude) else None)
  }

  /** The reader accepts exactly the canonical texts of i64 values, and reads each back. */
  lemma ParseIntExactly(token: bytes)
    ensures ParseInt(token).Some? <==> exists v: i64 :: token == Text(v)
    ensures forall v: i64 :: token == Text(v) ==> ParseInt(token) == Some(v)
  {
    hide ParseInt, Text;
    forall v: i64 | token == Text(v)
      ensures ParseInt(token) == Some(v)
    {
      ParseIntText(v);
    }
    if ParseInt(token).Some? {
      ParsedIsText(token);
    }
  }

  lemma ParsedIsText(token: bytes)
    requires ParseInt(token).Some?
    ensures token == Text(ParseInt(token).value)
  {
    if token != [ZERO] {
      var negative := token != [] && token[0] == MINUS;
      var digits := if negative then token[1..] else token;
      DigitsOfValue(digits);
    }
  }

  lemma ParseIntText(v: i64)
    ensures ParseInt(Text(v)) == Some(v)
  {
    var token: bytes := Text(v);
    var magnitude: nat := if v < 0 then -(v as int) else v;
    var digits := Digits(magnitude);
    assert v < 0 ==> token[0] == MINUS && token[1..] == digits;
    assert v >= 0 ==> token == digits && IsDigit(token[0]);
    assert ParseU64(digits) == Some(magnitude);
    if v != 0 {
      assert token != [ZERO];
    }
  }

  /** ASCII whitespace, which `str::trim` removes from both ends. */
  predicate IsSpace(b: byte) { b == 32 || 9 <= b <= 13 }

  function TrimStart(s: bytes): bytes {
    if s != [] && IsSpace(s[0]) then TrimStart(s[1..]) else s
  }

  function TrimEnd(s: bytes): bytes {
    if s != [] && IsSpace(s[|s| - 1]) then TrimEnd(s[..|s| - 1]) else s
  }

  /** Reads a memcached counter: surrounding space and one leading plus are tolerated. */
  function ParseCounter(stored: bytes): Option<u64> {
    var text := TrimEnd(TrimStart(stored));
    ParseU64(if |text| > 1 && text[0] == PLUS then text[1..] else text)
  }

  lemma ParseCounterText(v: u64)
    ensures ParseCounter(Text(v)) == Some(v)
  {
    var s := Text(v);
    assert IsDigit(s[0]) && IsDigit(s[|s| - 1]);
  }

  /** Nothing but space. */
  predicate AllSpace(s: bytes) { forall i :: 0 <= i < |s| ==> s[i] == 32 || 9 <= s[i] <= 13 }

  /** The texts a counter reads as `v`: digits of that value, leading zeros allowed, behind at most
      one plus, with any ASCII space around them. */
  ghost predicate Reads(stored: bytes, v: int) {
    exists before: bytes, plus: bool, digits: bytes, after: bytes :: Layout(stored, before, plus, digits, after, v)
  }

  predicate Layout(stored: bytes, before: bytes, plus: bool, digits: bytes, after: bytes, v: int) {
    && stored == before + (if plus then [43] else []) + digits + after
    && AllSpace(before) && AllSpace(after)
    && digits != [] && (forall i :: 0 <= i < |digits| ==> 48 <= digits[i] <= 57) && Value(digits) == v
  }

  lemma {:induction false} TrimStartSplits(s: bytes) returns (front: bytes)
    ensures s == front + TrimStart(s) && AllSpace(front)
    ensures TrimStart(s) != [] ==> !IsSpace(TrimStart(s)[0])
  {
    if s != [] && IsSpace(s[0]) {
      front := TrimStartSplits(s[1..]);
      front := [s[0]] + front;
    } else {
      front := [];
    }
  }

  lemma {:induction false} TrimEndSplits(s: bytes) returns (back: bytes)
    ensures s == TrimEnd(s) + back && AllSpace(back)
    ensures TrimEnd(s) != [] ==> !IsSpace(TrimEnd(s)[|TrimEnd(s)| - 1])
  {
    if s != [] && IsSpace(s[|s| - 1]) {
      back := TrimEndSplits(s[..|s| - 1]);
      back := back + [s[|s| - 1]];
    } else {
      back := [];
    }
  }

  lemma {:induction false} TrimStartDrops(before: bytes, rest: bytes)
    requires AllSpace(before) && rest != [] && !IsSpace(rest[0])
    ensures TrimStart(before + rest) == rest
  {
    if before == [] {
      assert before + rest == rest;
    } else {
      assert (before + rest)[1..] == before[1..] + rest;
      TrimStartDrops(before[1..], rest);
    }
  }

  lemma {:induction false} TrimEndDrops(rest: bytes, after: bytes)
    requires AllSpace(after) && rest != [] && !IsSpace(rest[|rest| - 1])
    ensures TrimEnd(rest + after) == rest
  {
    if after == [] {
      assert rest + after == rest;
    } else {
      var s := rest + after;
      assert s[..|s| - 1] == rest + after[..|after| - 1];
      TrimEndDrops(rest, after[..|after| - 1]);
    }
  }

  /** The counter reader accepts exactly those texts whose value a u64 holds, and reads that value. */
  lemma ParseCounterExactly(stored: bytes, v: u64)
    ensures ParseCounter(stored) == Some(v) <==> Reads(stored, v)
  {
    hide ParseCounter, Layout;
    if ParseCounter(stored) == Some(v) {
      var before, plus, digits, after := ReadsLaidOut(stored, v);
    }
    if Reads(stored, v) {
      var before: bytes, plus: bool, digits: bytes, after: bytes :| Layout(stored, before, plus, digits, after, v);
      LayoutReads(stored, before, plus, digits, after, v);
    }
  }

  lemma ReadsLaidOut(stored: bytes, v: u64) returns (before: bytes, plus: bool, digits: bytes, after: bytes)
    requires ParseCounter(stored) == Some(v)
    ensures Layout(stored, before, plus, digits, after, v)
  {
    hide TrimStart, TrimEnd, Value, AllSpace;
    before := TrimStartSplits(stored);
    after := TrimEndSplits(TrimStart(stored));
    var text := TrimEnd(TrimStart(stored));
    plus := |text| > 1 && text[0] == PLUS;
    digits := if plus then text[1..] else text;
    var sign: bytes := if plus then [43] else [];
    assert text == sign + digits;
    Regroup(before, sign, digits, after);
  }

  lemma Regroup(a: bytes, b: bytes, c: bytes, d: bytes)
    ensures a + (b + c + d) == a + b + c + d
  {
  }

  lemma LayoutReads(stored: bytes, before: bytes, plus: bool, digits: bytes, after: bytes, v: u64)
    requires Layout(stored, before, plus, digits, after, v)
    ensures ParseCounter(stored) == Some(v)
  {
    var text := (if plus then [43] else []) + digits;
    assert stored == before + (text + after);
    assert text[|text| - 1] == digits[|digits| - 1];
    TrimStartDrops(before, text + after);
    TrimEndDrops(text, after);
    assert plus ==> text[1..] == digits;
    assert !plus ==> text == digits;
  }
}
