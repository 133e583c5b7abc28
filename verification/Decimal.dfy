/** The decimal conversions of lib.asm, on 64-bit registers and bytes. */
module Decimal {
  import opened Words

  const SIGN := 0x8000_0000_0000_0000

  const ZERO := 48   // '0'
  const NINE := 57   // '9'
  const MINUS := 45  // '-'

  predicate IsDigit(b: Byte) { ZERO <= b <= NINE }

  /** The decimal notation of n. */
  function Digits(n: nat): (s: seq<Byte>)
    ensures |s| > 0 && forall i :: 0 <= i < |s| ==> IsDigit(s[i])
  {
    if n < 10 then [ZERO + n] else Digits(n / 10) + [ZERO + n % 10]
  }

  /** The number a digit string denotes. */
  function Value(s: seq<Byte>): nat
    requires forall i :: 0 <= i < |s| ==> IsDigit(s[i])
  {
    if s == [] then 0 else assert IsDigit(s[|s| - 1]); 10 * Value(s[..|s| - 1]) + (s[|s| - 1] - ZERO)
  }

  function Pow10(k: nat): nat { if k == 0 then 1 else 10 * Pow10(k - 1) }

  lemma {:induction false} ValueOfDigits(n: nat)
    ensures Value(Digits(n)) == n
  {
    var s := Digits(n);
    if n >= 10 {
      ValueOfDigits(n / 10);
      assert s[..|s| - 1] == Digits(n / 10);
    } else {
      assert s[..0] == [];
    }
  }

  /** No leading zero, except in the notation of zero itself. */
  lemma {:induction false} NoLeadingZero(n: nat)
    ensures Digits(n)[0] == ZERO <==> n == 0
    ensures Digits(n)[0] == ZERO ==> |Digits(n)| == 1
  {
    if n >= 10 { NoLeadingZero(n / 10); }
  }

  /** The digit at each place. */
  lemma {:induction false} DigitAt(n: nat, i: nat)
    requires i < |Digits(n)|
    ensures Pow10(|Digits(n)| - 1 - i) > 0
    ensures Digits(n)[i] == 48 + n / Pow10(|Digits(n)| - 1 - i) % 10
  {
    var k := |Digits(n)| - 1 - i;
    PowPositive(k);
    if k > 0 {
      DigitAt(n / 10, i);
      DivTwice(n, Pow10(k - 1));
    }
  }

  lemma {:induction false} DivTwice(n: nat, p: nat)
    requires p > 0
    ensures n / 10 / p == n / (10 * p)
  {
    var q, r := n / 10 / p, n / 10 % p;
    assert n / 10 == p * q + r;
    var rest := 10 * r + n % 10;
    assert n == 10 * p * q + rest;
    assert 0 <= rest < 10 * p;
    QuotientIs(n, 10 * p, q, rest);
  }

  lemma {:induction false} QuotientIs(n: nat, d: nat, q: nat, r: nat)
    requires d > 0 && n == d * q + r && r < d
    ensures n / d == q
  {
    assert n == d * (n / d) + n % d;
    assert d * (n / d - q) == r - n % d;
    MulBounds(d, n / d - q);
  }

  lemma {:induction false} DigitsLength(n: nat, k: nat)
    requires k > 0
    ensures |Digits(n)| <= k <==> n < Pow10(k)
    decreases k
  {
    if k > 1 && n >= 10 { DigitsLength(n / 10, k - 1); }
    if k > 1 && n < 10 { PowPositive(k - 1); }
  }

  lemma {:induction false} PowPositive(k: nat)
    ensures Pow10(k) >= 1
  {
    if k > 0 { PowPositive(k - 1); }
  }

  /** A 64-bit number has at most 20 digits. */
  lemma {:induction false} AtMostTwenty(n: nat)
    requires n < WORD
    ensures |Digits(n)| <= 20
  {
    assert Pow10(5) == 100000 && Pow10(10) == 10000000000 && Pow10(15) == 1000000000000000;
    assert Pow10(20) == 100000000000000000000;
    DigitsLength(n, 20);
  }

  /** The notation of a 64-bit number in plain terms. */
  lemma {:induction false} DigitsMean(n: nat)
    requires n < WORD
    ensures 0 < |Digits(n)| <= 20 && (forall i :: 0 <= i < |Digits(n)| ==> 48 <= Digits(n)[i] <= 57)
    ensures Value(Digits(n)) == n && (Digits(n)[0] == 48 ==> n == 0 && Digits(n) == [48])
  {
    hide Value;
    AtMostTwenty(n);
    ValueOfDigits(n);
    NoLeadingZero(n);
  }

  // ----- print_uint, print_int -----

  /** The digit loop, writing downwards on the stack below a terminating zero byte.  The text is what
      print_string finds from rsp up to that zero. */
  method PrintUint(rdi: nat) returns (text: seq<Byte>)
    requires rdi < WORD
    ensures text == Digits(rdi)
    ensures 0 < |text| <= 20 && (forall i :: 0 <= i < |text| ==> 48 <= text[i] <= 57) && Value(text) == rdi
    ensures text[0] == 48 ==> text == [48]
  {
    hide Digits, Value;
    DigitsMean(rdi);
    var stack := new Byte[21](_ => 0);
    var rsp := 20;
    stack[rsp] := 0;
    var rax := rdi;
    var more := true;
    ghost var written := [];
    while more
      invariant 0 <= rsp <= 20 && stack.Length == 21 && stack[20] == 0
      invariant |written| == 20 - rsp && stack[rsp..20] == written
      invariant Digits(rdi) == (if more then Digits(rax) else []) + written
      decreases more, rax
    {
      var rdx := rax % 10;
      LastDigit(rax, written);
      rax := rax / 10;
      rsp := rsp - 1;
      stack[rsp] := ZERO + rdx;
      assert stack[rsp..20] == [stack[rsp]] + stack[rsp + 1..20];
      written := [ZERO + rdx] + written;
      more := rax != 0;
    }
    text := stack[rsp..20];
  }

  /** One round of the loop takes the last digit still to be written. */
  lemma {:induction false} LastDigit(n: nat, written: seq<Byte>)
    ensures Digits(n) + written == (if n / 10 != 0 then Digits(n / 10) else []) + ([ZERO + n % 10] + written)
  {
  }

  /** The text print_int emits for a register: a minus and the negated value when the sign bit is set. */
  function SignedText(rdi: nat): seq<Byte>
    requires rdi < WORD
  {
    if rdi < SIGN then Digits(rdi) else [MINUS] + Digits(WORD - rdi)
  }

  method PrintInt(rdi: nat) returns (text: seq<Byte>)
    requires rdi < WORD
    ensures text == SignedText(rdi)
    ensures rdi < 0x8000_0000_0000_0000 ==>
      text != [] && (forall i :: 0 <= i < |text| ==> 48 <= text[i] <= 57) && Value(text) == rdi
      && (text[0] == 48 ==> text == [48])
    ensures rdi >= 0x8000_0000_0000_0000 ==>
      |text| > 1 && text[0] == 45 && (forall i :: 1 <= i < |text| ==> 48 <= text[i] <= 57)
      && Value(text[1..]) == 0x1_0000_0000_0000_0000 - rdi && text[1] != 48
  {
    hide Digits, Value;
    if rdi < SIGN {
      text := PrintUint(rdi);
    } else {
      var negated := (WORD - rdi) % WORD;
      text := PrintUint(negated);
      DigitsMean(negated);
      assert ([MINUS] + text)[1..] == text;
      text := [MINUS] + text;
    }
  }

  // ----- parse_uint, parse_int -----

  /** The byte at offset i of a zero-terminated string. */
  function ByteAt(s: seq<Byte>, i: nat): Byte { if i < |s| then s[i] else 0 }

  /** cmp and jl, jg take a byte as signed. */
  function SignedByte(b: Byte): int { if b < 128 then b else b - 256 }

  /** How many digits a string starts with. */
  function DigitRun(s: seq<Byte>): (k: nat)
    ensures k <= |s| && forall i :: 0 <= i < k ==> IsDigit(s[i])
    ensures k < |s| ==> !IsDigit(s[k])
  {
    if s == [] || !IsDigit(s[0]) then 0 else 1 + DigitRun(s[1..])
  }

  method ParseUint(s: seq<Byte>) returns (rax: nat, rdx: nat)
    ensures rdx == DigitRun(s) && rax == Value(s[..rdx]) % 0x1_0000_0000_0000_0000
    ensures rdx <= |s| && (forall i :: 0 <= i < rdx ==> 48 <= s[i] <= 57) && (rdx < |s| ==> !(48 <= s[rdx] <= 57))
  {
    rax, rdx := 0, 0;
    assert s[..0] == [];
    while SignedByte(ByteAt(s, rdx)) >= ZERO && SignedByte(ByteAt(s, rdx)) <= NINE
      invariant rdx <= |s| && (forall i :: 0 <= i < rdx ==> IsDigit(s[i])) && rax == Value(s[..rdx]) % WORD
      decreases |s| - rdx
    {
      var r8 := ByteAt(s, rdx) - ZERO;
      assert s[..rdx + 1][..rdx] == s[..rdx];
      StepModulo(Value(s[..rdx]), r8);
      rax := (rax * 10 % WORD + r8) % WORD;
      rdx := rdx + 1;
    }
    RunIs(s, rdx);
  }

  lemma {:induction false} StepModulo(v: nat, d: nat)
    ensures ((v % WORD) * 10 % WORD + d) % WORD == (10 * v + d) % WORD
  {
  }

  lemma {:induction false} RunIs(s: seq<Byte>, k: nat)
    requires k <= |s| && (forall i :: 0 <= i < k ==> IsDigit(s[i])) && (k < |s| ==> !IsDigit(s[k]))
    ensures DigitRun(s) == k
  {
  }

  lemma {:induction false} NegatedSum(v: nat)
    ensures ((WORD - v % WORD) % WORD + v) % WORD == 0
  {
    var q, r := v / WORD, v % WORD;
    MultipleOfWord(q);
    MultipleOfWord(q + 1);
    assert v == WORD * q + r;
  }

  lemma {:induction false} MultipleOfWord(k: nat)
    ensures WORD * k % WORD == 0
  {
  }

  method ParseInt(s: seq<Byte>) returns (rax: nat, rdx: nat)
    ensures (rax, rdx) == ParsedInt(s)
    ensures !(s != [] && s[0] == 45) ==> rdx == DigitRun(s) && rax == Value(s[..rdx]) % 0x1_0000_0000_0000_0000
    ensures s != [] && s[0] == 45 ==>
      && rdx == DigitRun(s[1..]) + 1 && rax < 0x1_0000_0000_0000_0000
      && (rax + Value(s[1..rdx])) % 0x1_0000_0000_0000_0000 == 0
  {
    if ByteAt(s, 0) != MINUS {
      rax, rdx := ParseUint(s);
    } else {
      rax, rdx := ParseUint(s[1..]);
      assert s[1..][..rdx] == s[1..rdx + 1];
      NegatedSum(Value(s[1..][..rdx]));
      rax := (WORD - rax) % WORD;
      rdx := rdx + 1;
    }
  }

  function ParsedInt(s: seq<Byte>): (nat, nat) {
    if ByteAt(s, 0) != MINUS then (Value(s[..DigitRun(s)]) % WORD, DigitRun(s))
    else
      var t := s[1..];
      var v := Value(t[..DigitRun(t)]) % WORD;
      ((WORD - v) % WORD, DigitRun(t) + 1)
  }

  // ----- Round trips -----

  lemma {:induction false} RunOfDigits(n: nat, rest: seq<Byte>)
    requires rest != [] ==> !IsDigit(rest[0])
    ensures DigitRun(Digits(n) + rest) == |Digits(n)|
  {
    RunIs(Digits(n) + rest, |Digits(n)|);
  }

  /** What the two numbers of a parse are on a text that starts with a number's digits. */
  lemma {:induction false} ParsedDigits(n: nat, rest: seq<Byte>)
    requires n < WORD && (rest != [] ==> !IsDigit(rest[0]))
    ensures var s := Digits(n) + rest;
      DigitRun(s) == |Digits(n)| && Value(s[..DigitRun(s)]) % WORD == n
  {
    RunOfDigits(n, rest);
    ValueOfDigits(n);
    assert (Digits(n) + rest)[..|Digits(n)|] == Digits(n);
  }

  /** parse_uint reads back exactly what print_uint wrote, whatever non-digit follows. */
  method UintRoundTrip(n: nat, rest: seq<Byte>) returns (rax: nat, rdx: nat)
    requires n < WORD && (rest != [] ==> !IsDigit(rest[0]))
    ensures rax == n && rdx == |Digits(n)| <= 20
  {
    var text := PrintUint(n);
    rax, rdx := ParseUint(text + rest);
    ParsedDigits(n, rest);
    AtMostTwenty(n);
  }

  /** parse_int reads back every register print_int wrote, the most negative one through its wrapped negation. */
  lemma {:induction false} IntRoundTrip(n: nat, rest: seq<Byte>)
    requires n < WORD && (rest != [] ==> !IsDigit(rest[0]))
    ensures ParsedInt(SignedText(n) + rest) == (n, |SignedText(n)|)
  {
    hide Digits, Value, DigitRun;
    if n < SIGN {
      ParsedDigits(n, rest);
      assert (Digits(n) + rest)[0] == Digits(n)[0];
    } else {
      var m := WORD - n;
      ParsedDigits(m, rest);
      assert ([MINUS] + Digits(m) + rest)[1..] == Digits(m) + rest;
    }
  }

  /** parse_int is documented to return length 0 when there is no number.  It does so for every string without
      one except those where the minus is not followed by a digit. */
  lemma {:induction false} NoNumberLengthZero(s: seq<Byte>)
    ensures var number := DigitRun(s) > 0 || (s != [] && s[0] == MINUS && DigitRun(s[1..]) > 0);
      (!number ==> ParsedInt(s).1 == 0) <==> !(s != [] && s[0] == MINUS && (|s| == 1 || !IsDigit(s[1])))
  {
  }

  lemma {:induction false} LoneMinus()
    ensures ParsedInt([MINUS]) == (0, 1)
  {
  }
}
