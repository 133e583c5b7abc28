/** The expression printer of ast.c and the tokenizer of tokenizer.c, which undo each other. */
module Tokens {
  import opened Decimal
  import opened Words
  import R = Ring

  const INT64_MAX := 0x7FFF_FFFF_FFFF_FFFF
  const INT64_MIN := -0x8000_0000_0000_0000

  // ----- Expressions and their printed form -----

  datatype BinOp = Plus | Minus | Mul | Div

  /** An expression; Null is a null child pointer. */
  datatype Ast = Null | Lit(value: int) | Neg(operand: Ast) | Bin(op: BinOp, left: Ast, right: Ast)

  const OPEN: Byte := 40
  const CLOSE: Byte := 41

  function OpByte(op: BinOp): Byte {
    match op case Plus => 43 case Minus => 45 case Mul => 42 case Div => 47
  }

  /** print_ast */
  function Print(a: Ast): seq<Byte> {
    match a
    case Null => [60, 78, 85, 76, 76, 62]  // <NULL>
    case Lit(v) => if v >= 0 then Digits(v) else [MINUS] + Digits(-v)
    case Neg(x) => [MINUS, OPEN] + Print(x) + [CLOSE]
    case Bin(op, l, r) => [OPEN] + Print(l) + [CLOSE, OpByte(op), OPEN] + Print(r) + [CLOSE]
  }

  // ----- Tokens -----

  datatype TokenType = TokPlus | TokMinus | TokMul | TokDiv | TokOpen | TokClose | TokLit | TokNeg | TokEnd | TokError

  datatype Token = Token(kind: TokenType, value: int)

  function Plain(kind: TokenType): Token { Token(kind, 0) }

  function OpToken(op: BinOp): Token {
    match op
    case Plus => Plain(TokPlus)
    case Minus => Plain(TokMinus)
    case Mul => Plain(TokMul)
    case Div => Plain(TokDiv)
  }

  /** The token stream of an expression: NEG only for a unary minus or the sign of a literal, MINUS only for
      subtraction. */
  function Flatten(a: Ast): seq<Token> {
    match a
    case Null => []
    case Lit(v) => if v >= 0 then [Token(TokLit, v)] else [Plain(TokNeg), Token(TokLit, -v)]
    case Neg(x) => [Plain(TokNeg), Plain(TokOpen)] + Flatten(x) + [Plain(TokClose)]
    case Bin(op, l, r) =>
      [Plain(TokOpen)] + Flatten(l) + [Plain(TokClose), OpToken(op), Plain(TokOpen)] + Flatten(r) + [Plain(TokClose)]
  }

  // ----- The tokenizer as a function of the text -----

  predicate IsSeparator(b: Byte) { b == 32 || b == 9 || b == 10 }

  /** How many separators a string starts with. */
  function SeparatorRun(s: seq<Byte>): (k: nat)
    ensures k <= |s|
  {
    if s == [] || !IsSeparator(s[0]) then 0 else 1 + SeparatorRun(s[1..])
  }

  /** TOKENS, up to NUM_TOKENS */
  const TABLE: seq<Byte> := [43, 45, 42, 47, 40, 41]

  function KindOf(i: nat): TokenType
    requires i < 6
  {
    [TokPlus, TokMinus, TokMul, TokDiv, TokOpen, TokClose][i]
  }

  /** strtoll in base 10 on a string that starts with a digit: the value, capped, of the leading digits. */
  function Strtoll(s: seq<Byte>): int {
    var v := Value(s[..DigitRun(s)]);
    if v > INT64_MAX then INT64_MAX else v
  }

  /** next_token: the token at the front of s and what follows it.  A zero byte ends the text wherever it stands. */
  function NextToken(s: seq<Byte>): (r: (Token, seq<Byte>))
    ensures r.0.kind != TokEnd && r.0.kind != TokError ==> |r.1| < |s|
  {
    var b := s[SeparatorRun(s)..];
    if b == [] || b[0] == 0 then (Plain(TokEnd), s)
    else if b[0] == 43 then (Plain(TokPlus), b[1..])
    else if b[0] == 45 then (Plain(TokMinus), b[1..])
    else if b[0] == 42 then (Plain(TokMul), b[1..])
    else if b[0] == 47 then (Plain(TokDiv), b[1..])
    else if b[0] == 40 then (Plain(TokOpen), b[1..])
    else if b[0] == 41 then (Plain(TokClose), b[1..])
    else if IsDigit(b[0]) then (Token(TokLit, Strtoll(b)), b[DigitRun(b)..])
    else (Plain(TokError), s)
  }

  predicate IsBinop(t: Token) {
    t.kind == TokPlus || t.kind == TokMinus || t.kind == TokMul || t.kind == TokDiv
  }

  /** Where a minus is a sign: at the very start, after an opening bracket or after a binary operator. */
  predicate SignPlace(before: seq<Token>) {
    before == [] || before[|before| - 1].kind == TokOpen || IsBinop(before[|before| - 1])
  }

  function Signed(t: Token, before: seq<Token>): Token {
    if t.kind == TokMinus && SignPlace(before) then t.(kind := TokNeg) else t
  }

  /** The tokens read from s after those in `before`; the empty ring on an error. */
  function Scan(s: seq<Byte>, before: seq<Token>): seq<Token>
    decreases |s|
  {
    var (t, rest) := NextToken(s);
    if t.kind == TokEnd then before
    else if t.kind == TokError then []
    else Scan(rest, before + [Signed(t, before)])
  }

  function Tokenize(s: seq<Byte>): seq<Token> { Scan(s, []) }

  /** The same when memory may run out: the i-th push finds room or is lost, while prev moves on all the same. */
  function ScanIn(s: seq<Byte>, before: seq<Token>, prev: Token, i: nat, room: nat -> bool): seq<Token>
    decreases |s|
  {
    var (t, rest) := NextToken(s);
    if t.kind == TokEnd then before
    else if t.kind == TokError then []
    else
      var token := SignedAfter(t, before, prev);
      ScanIn(rest, if room(i) then before + [token] else before, token, i + 1, room)
  }

  function SignedAfter(t: Token, before: seq<Token>, prev: Token): Token {
    if t.kind == TokMinus && (before == [] || prev.kind == TokOpen || IsBinop(prev)) then t.(kind := TokNeg) else t
  }

  /** With room for every token nothing is lost. */
  lemma {:induction false} EnoughRoom(s: seq<Byte>, before: seq<Token>, prev: Token, i: nat, room: nat -> bool)
    requires forall k: nat :: room(k)
    requires before != [] ==> prev == before[|before| - 1]
    ensures ScanIn(s, before, prev, i, room) == Scan(s, before)
    decreases |s|
  {
    hide NextToken;
    var (t, rest) := NextToken(s);
    if t.kind != TokEnd && t.kind != TokError {
      var token := Signed(t, before);
      EnoughRoom(rest, before + [token], token, i + 1, room);
    }
  }

  // ----- Printing, then tokenizing -----

  predicate NoNull(a: Ast) {
    match a
    case Null => false
    case Lit(_) => true
    case Neg(x) => NoNull(x)
    case Bin(_, l, r) => NoNull(l) && NoNull(r)
  }

  /** Every literal is a 64-bit value. */
  predicate InRange(a: Ast) {
    match a
    case Null => true
    case Lit(v) => INT64_MIN <= v <= INT64_MAX
    case Neg(x) => InRange(x)
    case Bin(_, l, r) => InRange(l) && InRange(r)
  }

  predicate NoMinimum(a: Ast) {
    match a
    case Null => true
    case Lit(v) => v != INT64_MIN
    case Neg(x) => NoMinimum(x)
    case Bin(_, l, r) => NoMinimum(l) && NoMinimum(r)
  }

  function Cap(n: nat): nat { if n > INT64_MAX then INT64_MAX else n }

  /** Flatten as far as strtoll can tell: magnitudes above INT64_MAX come back as INT64_MAX. */
  function Capped(a: Ast): seq<Token> {
    match a
    case Null => []
    case Lit(v) => if v >= 0 then [Token(TokLit, Cap(v))] else [Plain(TokNeg), Token(TokLit, Cap(-v))]
    case Neg(x) => [Plain(TokNeg), Plain(TokOpen)] + Capped(x) + [Plain(TokClose)]
    case Bin(op, l, r) =>
      [Plain(TokOpen)] + Capped(l) + [Plain(TokClose), OpToken(op), Plain(TokOpen)] + Capped(r) + [Plain(TokClose)]
  }

  lemma {:induction false} CappedLength(a: Ast)
    ensures |Capped(a)| == |Flatten(a)|
  {
    match a
    case Null =>
    case Lit(_) =>
    case Neg(x) => CappedLength(x);
    case Bin(_, l, r) =>
      CappedLength(l);
      CappedLength(r);
  }

  /** The cap shows exactly on the literal INT64_MIN. */
  lemma {:induction false} CappedIffNoMinimum(a: Ast)
    requires InRange(a)
    ensures Capped(a) == Flatten(a) <==> NoMinimum(a)
  {
    match a
    case Null =>
    case Lit(v) =>
      if v < 0 { assert Capped(a)[1].value == Flatten(a)[1].value <==> v != INT64_MIN; }
    case Neg(x) =>
      CappedLength(x);
      CappedIffNoMinimum(x);
      MiddleEqual([Plain(TokNeg), Plain(TokOpen)], Capped(x), Flatten(x), [Plain(TokClose)]);
    case Bin(op, l, r) =>
      CappedLength(l);
      CappedLength(r);
      CappedIffNoMinimum(l);
      CappedIffNoMinimum(r);
      TwoMiddlesEqual([Plain(TokOpen)], Capped(l), Flatten(l), [Plain(TokClose), OpToken(op), Plain(TokOpen)],
        Capped(r), Flatten(r), [Plain(TokClose)]);
  }

  lemma {:induction false} MiddleEqual(a: seq<Token>, x: seq<Token>, y: seq<Token>, b: seq<Token>)
    requires |x| == |y|
    ensures a + x + b == a + y + b <==> x == y
  {
    assert (a + x + b)[|a|..|a| + |x|] == x;
    assert (a + y + b)[|a|..|a| + |y|] == y;
  }

  lemma {:induction false} TwoMiddlesEqual(a: seq<Token>, x: seq<Token>, y: seq<Token>, b: seq<Token>, z: seq<Token>,
                                           w: seq<Token>, c: seq<Token>)
    requires |x| == |y| && |z| == |w|
    ensures a + x + b + z + c == a + y + b + w + c <==> x == y && z == w
  {
    assert (a + x + b + z + c)[|a|..|a| + |x|] == x;
    assert (a + y + b + w + c)[|a|..|a| + |y|] == y;
    var n := |a| + |x| + |b|;
    assert (a + x + b + z + c)[n..n + |z|] == z;
    assert (a + y + b + w + c)[n..n + |w|] == w;
  }

  function ByteKind(b: Byte): TokenType {
    if b == 43 then TokPlus else if b == 45 then TokMinus else if b == 42 then TokMul
    else if b == 47 then TokDiv else if b == 40 then TokOpen else if b == 41 then TokClose else TokError
  }

  /** One operator or bracket in front. */
  lemma {:induction false} ScanByte(b: Byte, s: seq<Byte>, before: seq<Token>)
    requires ByteKind(b) != TokError
    ensures Scan([b] + s, before) == Scan(s, before + [Signed(Plain(ByteKind(b)), before)])
  {
  }

  /** One number in front. */
  lemma {:induction false} ScanNumber(n: nat, s: seq<Byte>, before: seq<Token>)
    requires s == [] || !IsDigit(s[0])
    ensures Scan(Digits(n) + s, before) == Scan(s, before + [Token(TokLit, Cap(n))])
  {
    var t := Digits(n) + s;
    assert t[0] == Digits(n)[0] && SeparatorRun(t) == 0 && t[0..] == t;
    RunOfDigits(n, s);
    ValueOfDigits(n);
    assert t[..|Digits(n)|] == Digits(n) && t[|Digits(n)|..] == s;
  }

  // ----- What every byte of a text means -----

  /** Spaces, tabs and line ends between tokens make no difference. */
  lemma {:induction false} ScanSeparator(b: Byte, s: seq<Byte>, before: seq<Token>)
    requires b == 32 || b == 9 || b == 10
    ensures Scan([b] + s, before) == Scan(s, before)
  {
    var t := [b] + s;
    assert t[1..] == s;
    assert t[SeparatorRun(t)..] == s[SeparatorRun(s)..];
  }

  /** A zero byte ends the text. */
  lemma {:induction false} ScanZero(s: seq<Byte>, before: seq<Token>)
    ensures Scan([0] + s, before) == before
  {
    var t := [0] + s;
    assert SeparatorRun(t) == 0 && t[0..] == t;
  }

  /** A byte that can neither stand between tokens nor begin one makes the whole text an error. */
  lemma {:induction false} ScanStray(b: Byte, s: seq<Byte>, before: seq<Token>)
    requires b != 0 && b != 9 && b != 10 && b != 32
    requires b != 40 && b != 41 && b != 42 && b != 43 && b != 45 && b != 47 && !(48 <= b <= 57)
    ensures Scan([b] + s, before) == []
  {
    var t := [b] + s;
    assert SeparatorRun(t) == 0 && t[0..] == t;
  }

  /** The brackets and the operators other than minus. */
  lemma {:induction false} ScanSymbols(s: seq<Byte>, before: seq<Token>)
    ensures Scan([40] + s, before) == Scan(s, before + [Token(TokOpen, 0)])
    ensures Scan([41] + s, before) == Scan(s, before + [Token(TokClose, 0)])
    ensures Scan([42] + s, before) == Scan(s, before + [Token(TokMul, 0)])
    ensures Scan([43] + s, before) == Scan(s, before + [Token(TokPlus, 0)])
    ensures Scan([47] + s, before) == Scan(s, before + [Token(TokDiv, 0)])
  {
    hide Scan;
    ScanByte(40, s, before);
    ScanByte(41, s, before);
    ScanByte(42, s, before);
    ScanByte(43, s, before);
    ScanByte(47, s, before);
  }

  /** A minus is a sign at the start, after an opening bracket and after an operator; after a literal, a closing bracket
      or another sign it is a subtraction. */
  lemma {:induction false} ScanMinus(s: seq<Byte>, before: seq<Token>)
    ensures var last := if before == [] then TokOpen else before[|before| - 1].kind;
      var sign := last == TokOpen || last == TokPlus || last == TokMinus || last == TokMul || last == TokDiv;
      Scan([45] + s, before) == Scan(s, before + [Token(if sign then TokNeg else TokMinus, 0)])
  {
    hide Scan;
    ScanByte(45, s, before);
  }

  /** A run of digits is one literal, leading zeros and all, and no larger than INT64_MAX. */
  lemma {:induction false} ScanDigits(ds: seq<Byte>, s: seq<Byte>, before: seq<Token>)
    requires ds != [] && (forall i :: 0 <= i < |ds| ==> 48 <= ds[i] <= 57) && (s != [] ==> !(48 <= s[0] <= 57))
    ensures var v := if Value(ds) > 0x7FFF_FFFF_FFFF_FFFF then 0x7FFF_FFFF_FFFF_FFFF else Value(ds);
      Scan(ds + s, before) == Scan(s, before + [Token(TokLit, v)])
  {
    hide Value, NextToken;
    NextDigits(ds, s);
  }

  lemma {:induction false} NextDigits(ds: seq<Byte>, s: seq<Byte>)
    requires ds != [] && (forall i :: 0 <= i < |ds| ==> 48 <= ds[i] <= 57) && (s != [] ==> !(48 <= s[0] <= 57))
    ensures var v := if Value(ds) > 0x7FFF_FFFF_FFFF_FFFF then 0x7FFF_FFFF_FFFF_FFFF else Value(ds);
      NextToken(ds + s) == (Token(TokLit, v), s)
  {
    hide Value, DigitRun;
    var t := ds + s;
    assert t[0] == ds[0] && SeparatorRun(t) == 0 && t[0..] == t;
    RunIs(t, |ds|);
    assert t[..|ds|] == ds && t[|ds|..] == s;
  }

  predicate Stops(rest: seq<Byte>) { rest == [] || !IsDigit(rest[0]) }

  /** The printed form of an expression, read where a sign may stand, gives its tokens, whatever follows. */
  lemma {:induction false} ScanPrint(a: Ast, rest: seq<Byte>, before: seq<Token>)
    requires NoNull(a) && SignPlace(before) && Stops(rest)
    ensures Scan(Print(a) + rest, before) == Scan(rest, before + Capped(a))
    decreases a
  {
    hide Scan, Print, Capped;
    match a
    case Lit(v) =>
      ScanLit(v, rest, before);
    case Neg(x) =>
      ScanNeg(x, rest, before);
    case Bin(op, l, r) =>
      ScanBin(op, l, r, rest, before);
  }

  lemma {:induction false} ScanLit(v: int, rest: seq<Byte>, before: seq<Token>)
    requires SignPlace(before) && Stops(rest)
    ensures Scan(Print(Lit(v)) + rest, before) == Scan(rest, before + Capped(Lit(v)))
  {
    hide Scan, NextToken, Digits;
    if v >= 0 {
      ScanNumber(v, rest, before);
    } else {
      assert Print(Lit(v)) + rest == [MINUS] + (Digits(-v) + rest);
      ScanByte(MINUS, Digits(-v) + rest, before);
      ScanNumber(-v, rest, before + [Plain(TokNeg)]);
      assert before + [Plain(TokNeg)] + [Token(TokLit, Cap(-v))] == before + Capped(Lit(v));
    }
  }

  lemma {:induction false} NegText(p: seq<Byte>, rest: seq<Byte>)
    ensures [MINUS, OPEN] + p + [CLOSE] + rest == [MINUS] + ([OPEN] + (p + ([CLOSE] + rest)))
  {
  }

  lemma {:induction false} NegTokens(before: seq<Token>, x: seq<Token>)
    ensures before + [Plain(TokNeg)] + [Plain(TokOpen)] + x + [Plain(TokClose)] ==
      before + ([Plain(TokNeg), Plain(TokOpen)] + x + [Plain(TokClose)])
  {
  }

  lemma {:induction false} ScanNeg(x: Ast, rest: seq<Byte>, before: seq<Token>)
    requires NoNull(x) && SignPlace(before) && Stops(rest)
    ensures Scan(Print(Neg(x)) + rest, before) == Scan(rest, before + Capped(Neg(x)))
    decreases Neg(x), 0
  {
    hide Scan, NextToken, Digits, Signed;
    var b1, b2 := before + [Plain(TokNeg)], before + [Plain(TokNeg)] + [Plain(TokOpen)];
    NegText(Print(x), rest);
    ScanSign([OPEN] + (Print(x) + ([CLOSE] + rest)), before);
    ScanOpen(Print(x) + ([CLOSE] + rest), b1);
    ScanPrint(x, [CLOSE] + rest, b2);
    ScanClose(rest, b2 + Capped(x));
    NegTokens(before, Capped(x));
  }

  lemma {:induction false} ScanSign(s: seq<Byte>, before: seq<Token>)
    requires SignPlace(before)
    ensures Scan([MINUS] + s, before) == Scan(s, before + [Plain(TokNeg)])
  {
  }

  /** A binary operator after a closing bracket is never a sign. */
  lemma {:induction false} ScanOp(op: BinOp, s: seq<Byte>, before: seq<Token>)
    ensures Scan([CLOSE] + ([OpByte(op)] + ([OPEN] + s)), before) ==
      Scan(s, before + [Plain(TokClose), OpToken(op), Plain(TokOpen)])
  {
    hide Scan, NextToken;
    ScanByte(CLOSE, [OpByte(op)] + ([OPEN] + s), before);
    var b1 := before + [Plain(TokClose)];
    ScanByte(OpByte(op), [OPEN] + s, b1);
    var b2 := b1 + [OpToken(op)];
    ScanByte(OPEN, s, b2);
    assert b2 + [Plain(TokOpen)] == before + [Plain(TokClose), OpToken(op), Plain(TokOpen)];
  }

  lemma {:induction false} BinText(p: seq<Byte>, q: seq<Byte>, o: Byte, rest: seq<Byte>)
    ensures [OPEN] + p + [CLOSE, o, OPEN] + q + [CLOSE] + rest ==
      [OPEN] + (p + ([CLOSE] + ([o] + ([OPEN] + (q + ([CLOSE] + rest))))))
  {
  }

  lemma {:induction false} ScanBin(op: BinOp, l: Ast, r: Ast, rest: seq<Byte>, before: seq<Token>)
    requires NoNull(l) && NoNull(r) && SignPlace(before) && Stops(rest)
    ensures Scan(Print(Bin(op, l, r)) + rest, before) == Scan(rest, before + Capped(Bin(op, l, r)))
    decreases Bin(op, l, r), 0
  {
    hide Scan, NextToken, Digits, Signed;
    var right := Print(r) + ([CLOSE] + rest);
    var middle := [CLOSE] + ([OpByte(op)] + ([OPEN] + right));
    BinText(Print(l), Print(r), OpByte(op), rest);
    ScanOpen(Print(l) + middle, before);
    var b1 := before + [Plain(TokOpen)];
    ScanPrint(l, middle, b1);
    ScanOp(op, right, b1 + Capped(l));
    var b2 := b1 + Capped(l) + [Plain(TokClose), OpToken(op), Plain(TokOpen)];
    ScanPrint(r, [CLOSE] + rest, b2);
    ScanClose(rest, b2 + Capped(r));
    BinTokens(before, Capped(l), op, Capped(r));
  }

  lemma {:induction false} ScanOpen(s: seq<Byte>, before: seq<Token>)
    ensures Scan([OPEN] + s, before) == Scan(s, before + [Plain(TokOpen)])
  {
  }

  lemma {:induction false} ScanClose(s: seq<Byte>, before: seq<Token>)
    ensures Scan([CLOSE] + s, before) == Scan(s, before + [Plain(TokClose)])
  {
  }

  lemma {:induction false} BinTokens(before: seq<Token>, x: seq<Token>, op: BinOp, y: seq<Token>)
    ensures before + [Plain(TokOpen)] + x + [Plain(TokClose), OpToken(op), Plain(TokOpen)] + y + [Plain(TokClose)] ==
      before + ([Plain(TokOpen)] + x + [Plain(TokClose), OpToken(op), Plain(TokOpen)] + y + [Plain(TokClose)])
  {
  }

  /** A null child anywhere makes the text one the tokenizer rejects. */
  lemma {:induction false} ScanNull(a: Ast, rest: seq<Byte>, before: seq<Token>)
    requires !NoNull(a) && SignPlace(before)
    ensures Scan(Print(a) + rest, before) == []
    decreases a
  {
    hide Scan, Print;
    match a
    case Null => ScanMissing(rest, before);
    case Neg(x) => ScanNullNeg(x, rest, before);
    case Bin(op, l, r) => ScanNullBin(op, l, r, rest, before);
  }

  lemma {:induction false} ScanMissing(rest: seq<Byte>, before: seq<Token>)
    ensures Scan(Print(Null) + rest, before) == []
  {
    var t := Print(Null) + rest;
    assert t[0] == 60 && SeparatorRun(t) == 0 && t[0..] == t;
  }

  lemma {:induction false} ScanNullNeg(x: Ast, rest: seq<Byte>, before: seq<Token>)
    requires !NoNull(x) && SignPlace(before)
    ensures Scan(Print(Neg(x)) + rest, before) == []
    decreases Neg(x), 0
  {
    hide Scan, NextToken, Signed;
    NegText(Print(x), rest);
    ScanSign([OPEN] + (Print(x) + ([CLOSE] + rest)), before);
    ScanOpen(Print(x) + ([CLOSE] + rest), before + [Plain(TokNeg)]);
    ScanNull(x, [CLOSE] + rest, before + [Plain(TokNeg)] + [Plain(TokOpen)]);
  }

  lemma {:induction false} ScanNullBin(op: BinOp, l: Ast, r: Ast, rest: seq<Byte>, before: seq<Token>)
    requires !(NoNull(l) && NoNull(r)) && SignPlace(before)
    ensures Scan(Print(Bin(op, l, r)) + rest, before) == []
    decreases Bin(op, l, r), 0
  {
    hide Scan, NextToken, Signed;
    var right := Print(r) + ([CLOSE] + rest);
    var middle := [CLOSE] + ([OpByte(op)] + ([OPEN] + right));
    BinText(Print(l), Print(r), OpByte(op), rest);
    ScanOpen(Print(l) + middle, before);
    var b1 := before + [Plain(TokOpen)];
    if NoNull(l) {
      ScanPrint(l, middle, b1);
      ScanOp(op, right, b1 + Capped(l));
      ScanNull(r, [CLOSE] + rest, b1 + Capped(l) + [Plain(TokClose), OpToken(op), Plain(TokOpen)]);
    } else {
      ScanNull(l, middle, b1);
    }
  }

  lemma {:induction false} FlattenNonempty(a: Ast)
    requires NoNull(a)
    ensures Flatten(a) != [] && Capped(a) != []
  {
  }

  /** tokenize of what print_ast prints is the expression's token stream exactly when no child is null and no
      literal is INT64_MIN. */
  lemma {:induction false} TokenizeOfPrint(a: Ast)
    requires InRange(a)
    ensures NoNull(a) ==> (Tokenize(Print(a)) == Flatten(a) <==> NoMinimum(a))
    ensures NoNull(a) <==> Tokenize(Print(a)) != []
  {
    assert Print(a) + [] == Print(a);
    if NoNull(a) {
      ScanPrint(a, [], []);
      assert [] + Capped(a) == Capped(a);
      assert Scan([], Capped(a)) == Capped(a);
      CappedIffNoMinimum(a);
      FlattenNonempty(a);
    } else {
      ScanNull(a, [], []);
    }
  }

  /** The literal that does not come back. */
  lemma {:induction false} MinimumIsMisread()
    ensures Tokenize(Print(Lit(INT64_MIN))) == [Plain(TokNeg), Token(TokLit, INT64_MAX)] != Flatten(Lit(INT64_MIN))
  {
    hide Scan, Digits, Print;
    assert Print(Lit(INT64_MIN)) + [] == Print(Lit(INT64_MIN));
    ScanPrint(Lit(INT64_MIN), [], []);
    ScanEnd([] + Capped(Lit(INT64_MIN)));
  }

  lemma {:induction false} ScanEnd(before: seq<Token>)
    ensures Scan([], before) == before
  {
  }

  // ----- The token stream determines the expression -----

  datatype Parsed = Failed | Parsed(ast: Ast, rest: seq<Token>)

  function OpOf(t: Token): BinOp {
    if t.kind == TokPlus then Plus else if t.kind == TokMinus then Minus else if t.kind == TokMul then Mul else Div
  }

  /** The one way to read an expression off the front of a token stream. */
  function Parse(ts: seq<Token>): (p: Parsed)
    ensures p.Parsed? ==> |p.rest| < |ts|
    decreases |ts|
  {
    if ts == [] then Failed
    else if ts[0].kind == TokLit then Parsed(Lit(ts[0].value), ts[1..])
    else if ts[0].kind == TokNeg && |ts| > 1 && ts[1].kind == TokLit then Parsed(Lit(-ts[1].value), ts[2..])
    else if ts[0].kind == TokNeg && |ts| > 1 && ts[1].kind == TokOpen then
      var x := Parse(ts[2..]);
      if x.Failed? || x.rest == [] || x.rest[0].kind != TokClose then Failed else Parsed(Neg(x.ast), x.rest[1..])
    else if ts[0].kind == TokOpen then
      var l := Parse(ts[1..]);
      if l.Failed? || |l.rest| < 3 || l.rest[0].kind != TokClose || !IsBinop(l.rest[1])
        || l.rest[2].kind != TokOpen then Failed
      else
        var r := Parse(l.rest[3..]);
        if r.Failed? || r.rest == [] || r.rest[0].kind != TokClose then Failed
        else Parsed(Bin(OpOf(l.rest[1]), l.ast, r.ast), r.rest[1..])
    else Failed
  }

  lemma {:induction false} ParseNeg(ts: seq<Token>, x: Ast, rest: seq<Token>)
    requires Parse(ts) == Parsed(x, [Plain(TokClose)] + rest)
    ensures Parse([Plain(TokNeg), Plain(TokOpen)] + ts) == Parsed(Neg(x), rest)
  {
  }

  lemma {:induction false} ParseBin(ts: seq<Token>, us: seq<Token>, op: BinOp, l: Ast, r: Ast, rest: seq<Token>)
    requires Parse(ts) == Parsed(l, [Plain(TokClose), OpToken(op), Plain(TokOpen)] + us)
    requires Parse(us) == Parsed(r, [Plain(TokClose)] + rest)
    ensures Parse([Plain(TokOpen)] + ts) == Parsed(Bin(op, l, r), rest)
  {
    assert ([Plain(TokOpen)] + ts)[1..] == ts;
    assert ([Plain(TokClose), OpToken(op), Plain(TokOpen)] + us)[3..] == us;
    assert ([Plain(TokClose)] + rest)[1..] == rest;
    assert OpOf(OpToken(op)) == op;
  }

  lemma {:induction false} ParseOfFlatten(a: Ast, rest: seq<Token>)
    requires NoNull(a)
    ensures Parse(Flatten(a) + rest) == Parsed(a, rest)
    decreases a
  {
    match a
    case Lit(v) =>
      var ts := Flatten(a) + rest;
      assert v >= 0 ==> ts[1..] == rest;
      assert v < 0 ==> ts[2..] == rest;
    case Neg(x) =>
      hide Parse;
      var ts := Flatten(x) + ([Plain(TokClose)] + rest);
      ParseOfFlatten(x, [Plain(TokClose)] + rest);
      ParseNeg(ts, x, rest);
      assert Flatten(a) + rest == [Plain(TokNeg), Plain(TokOpen)] + ts;
    case Bin(op, l, r) =>
      hide Parse;
      var us := Flatten(r) + ([Plain(TokClose)] + rest);
      var ts := Flatten(l) + ([Plain(TokClose), OpToken(op), Plain(TokOpen)] + us);
      ParseOfFlatten(r, [Plain(TokClose)] + rest);
      ParseOfFlatten(l, [Plain(TokClose), OpToken(op), Plain(TokOpen)] + us);
      ParseBin(ts, us, op, l, r, rest);
      BinSplit(Flatten(l), [Plain(TokClose), OpToken(op), Plain(TokOpen)], Flatten(r), rest);
  }

  lemma {:induction false} BinSplit(x: seq<Token>, m: seq<Token>, y: seq<Token>, rest: seq<Token>)
    ensures [Plain(TokOpen)] + x + m + y + [Plain(TokClose)] + rest ==
      [Plain(TokOpen)] + (x + (m + (y + ([Plain(TokClose)] + rest))))
  {
  }

  // ----- The text is its tokens, spelled out -----

  /** How a token is written; a sign and a subtraction look alike. */
  function Spelling(t: Token): seq<Byte> {
    match t.kind
    case TokPlus => [43]
    case TokMinus => [45]
    case TokMul => [42]
    case TokDiv => [47]
    case TokOpen => [40]
    case TokClose => [41]
    case TokNeg => [45]
    case TokLit => if t.value >= 0 then Digits(t.value) else []
    case _ => []
  }

  function Spelled(ts: seq<Token>): seq<Byte> {
    if ts == [] then [] else Spelling(ts[0]) + Spelled(ts[1..])
  }

  lemma {:induction false} SpelledConcat(ts: seq<Token>, us: seq<Token>)
    ensures Spelled(ts + us) == Spelled(ts) + Spelled(us)
    decreases |ts|
  {
    hide Spelling;
    if ts == [] {
      assert ts + us == us;
    } else {
      assert (ts + us)[1..] == ts[1..] + us;
      SpelledConcat(ts[1..], us);
      Joined(Spelling(ts[0]), Spelled(ts[1..]), Spelled(us));
    }
  }

  lemma {:induction false} SpelledOne(t: Token)
    ensures Spelled([t]) == Spelling(t)
  {
    assert [t][1..] == [];
  }

  lemma {:induction false} SpelledTwo(t: Token, u: Token)
    ensures Spelled([t, u]) == Spelling(t) + Spelling(u)
  {
    hide Spelling;
    assert [t, u] == [t] + [u];
    SpelledConcat([t], [u]);
    SpelledOne(t);
    SpelledOne(u);
  }

  lemma {:induction false} SpelledMiddle(op: BinOp)
    ensures Spelled([Plain(TokClose), OpToken(op), Plain(TokOpen)]) == [CLOSE, OpByte(op), OPEN]
  {
    hide Spelled;
    var ts := [Plain(TokClose), OpToken(op)];
    assert [Plain(TokClose), OpToken(op), Plain(TokOpen)] == ts + [Plain(TokOpen)];
    SpelledConcat(ts, [Plain(TokOpen)]);
    SpelledTwo(Plain(TokClose), OpToken(op));
    SpelledOne(Plain(TokOpen));
  }

  /** print_ast writes the tokens of an expression one after the other, left operand first, with nothing between. */
  lemma {:induction false} PrintIsSpelled(a: Ast)
    requires NoNull(a)
    ensures Print(a) == Spelled(Flatten(a))
    decreases a
  {
    hide Spelled;
    match a
    case Lit(v) =>
      if v >= 0 { SpelledOne(Token(TokLit, v)); } else { SpelledTwo(Plain(TokNeg), Token(TokLit, -v)); }
    case Neg(x) =>
      PrintIsSpelled(x);
      SpelledTwo(Plain(TokNeg), Plain(TokOpen));
      SpelledOne(Plain(TokClose));
      SpelledConcat([Plain(TokNeg), Plain(TokOpen)], Flatten(x));
      SpelledConcat([Plain(TokNeg), Plain(TokOpen)] + Flatten(x), [Plain(TokClose)]);
    case Bin(op, l, r) =>
      PrintIsSpelled(l);
      PrintIsSpelled(r);
      SpelledOne(Plain(TokOpen));
      SpelledMiddle(op);
      SpelledOne(Plain(TokClose));
      var front, middle := [Plain(TokOpen)] + Flatten(l), [Plain(TokClose), OpToken(op), Plain(TokOpen)];
      SpelledConcat([Plain(TokOpen)], Flatten(l));
      SpelledConcat(front, middle);
      SpelledConcat(front + middle, Flatten(r));
      SpelledConcat(front + middle + Flatten(r), [Plain(TokClose)]);
  }

  /** print_ast is injective: no two expressions print alike, whatever their literals and missing children. */
  lemma {:induction false} PrintIsInjective(a: Ast, b: Ast)
    requires Print(a) == Print(b)
    ensures a == b
  {
    assert Print(a) + [] == Print(a) && Print(b) + [] == Print(b);
    PrintSplits(a, b, [], []);
  }

  /** A printed expression ends where it must: what follows cannot be taken for a part of it. */
  lemma {:induction false} PrintSplits(a: Ast, b: Ast, r: seq<Byte>, s: seq<Byte>)
    requires Print(a) + r == Print(b) + s && Stops(r) && Stops(s)
    ensures a == b && r == s
    decreases a, b
  {
    hide Print, Digits;
    FirstBytes(a, r);
    FirstBytes(b, s);
    match (a, b)
    case (Null, Null) => NullSplits(r, s);
    case (Lit(v), Lit(w)) => LitSplits(v, w, r, s);
    case (Neg(x), Neg(y)) =>
      NegParts(x, r);
      NegParts(y, s);
      SameBehind([MINUS, OPEN], Print(x) + ([CLOSE] + r), [MINUS, OPEN], Print(y) + ([CLOSE] + s));
      PrintSplits(x, y, [CLOSE] + r, [CLOSE] + s);
      SameBehind([CLOSE], r, [CLOSE], s);
    case (Bin(op, x, x'), Bin(o, y, y')) =>
      BinSplits(op, x, x', r, o, y, y', s);
    case _ =>
  }

  /** The two bytes in front tell the five forms of output apart. */
  function Form(a: Ast): nat {
    match a case Null => 0 case Lit(v) => if v >= 0 then 1 else 2 case Neg(_) => 3 case Bin(_, _, _) => 4
  }

  function FormOf(s: seq<Byte>): nat
    requires |s| > 1 || (s != [] && IsDigit(s[0]))
  {
    if s[0] == 60 then 0 else if IsDigit(s[0]) then 1 else if s[0] == OPEN then 4 else if s[1] == OPEN then 3 else 2
  }

  lemma {:induction false} FirstBytes(a: Ast, r: seq<Byte>)
    ensures var s := Print(a) + r; (|s| > 1 || (s != [] && IsDigit(s[0]))) && FormOf(s) == Form(a)
  {
  }

  lemma {:induction false} SameBehind(p: seq<Byte>, r: seq<Byte>, q: seq<Byte>, s: seq<Byte>)
    requires p + r == q + s && |p| == |q|
    ensures p == q && r == s
  {
    assert p == (p + r)[..|p|] && q == (q + s)[..|q|];
    assert r == (p + r)[|p|..] && s == (q + s)[|q|..];
  }

  lemma {:induction false} NullSplits(r: seq<Byte>, s: seq<Byte>)
    requires Print(Null) + r == Print(Null) + s
    ensures r == s
  {
    SameBehind(Print(Null), r, Print(Null), s);
  }

  lemma {:induction false} DigitsSplit(n: nat, m: nat, r: seq<Byte>, s: seq<Byte>)
    requires Digits(n) + r == Digits(m) + s && Stops(r) && Stops(s)
    ensures n == m && r == s
  {
    hide Digits, DigitRun;
    RunOfDigits(n, r);
    RunOfDigits(m, s);
    SameBehind(Digits(n), r, Digits(m), s);
    ValueOfDigits(n);
    ValueOfDigits(m);
  }

  lemma {:induction false} LitSplits(v: int, w: int, r: seq<Byte>, s: seq<Byte>)
    requires Print(Lit(v)) + r == Print(Lit(w)) + s && Stops(r) && Stops(s) && (v >= 0 <==> w >= 0)
    ensures v == w && r == s
  {
    hide Digits;
    if v >= 0 {
      DigitsSplit(v, w, r, s);
    } else {
      Joined([MINUS], Digits(-v), r);
      Joined([MINUS], Digits(-w), s);
      SameBehind([MINUS], Digits(-v) + r, [MINUS], Digits(-w) + s);
      DigitsSplit(-v, -w, r, s);
    }
  }

  lemma {:induction false} Joined(p: seq<Byte>, q: seq<Byte>, r: seq<Byte>)
    ensures p + q + r == p + (q + r)
  {
  }

  lemma {:induction false} NegParts(x: Ast, r: seq<Byte>)
    ensures Print(Neg(x)) + r == [MINUS, OPEN] + (Print(x) + ([CLOSE] + r))
  {
    NegText(Print(x), r);
    assert [MINUS] + ([OPEN] + (Print(x) + ([CLOSE] + r))) == [MINUS, OPEN] + (Print(x) + ([CLOSE] + r));
  }

  lemma {:induction false} BinParts(op: BinOp, x: Ast, y: Ast, r: seq<Byte>)
    ensures Print(Bin(op, x, y)) + r ==
      [OPEN] + (Print(x) + ([CLOSE] + ([OpByte(op)] + ([OPEN] + (Print(y) + ([CLOSE] + r))))))
  {
    BinText(Print(x), Print(y), OpByte(op), r);
  }

  lemma {:induction false} BinSplits(op: BinOp, x: Ast, x': Ast, r: seq<Byte>, o: BinOp, y: Ast, y': Ast, s: seq<Byte>)
    requires Print(Bin(op, x, x')) + r == Print(Bin(o, y, y')) + s && Stops(r) && Stops(s)
    ensures op == o && x == y && x' == y' && r == s
    decreases Bin(op, x, x'), Bin(o, y, y'), 0
  {
    hide Print;
    BinParts(op, x, x', r);
    BinParts(o, y, y', s);
    var p, q := [OPEN] + (Print(x') + ([CLOSE] + r)), [OPEN] + (Print(y') + ([CLOSE] + s));
    SameBehind([OPEN], Print(x) + ([CLOSE] + ([OpByte(op)] + p)), [OPEN], Print(y) + ([CLOSE] + ([OpByte(o)] + q)));
    PrintSplits(x, y, [CLOSE] + ([OpByte(op)] + p), [CLOSE] + ([OpByte(o)] + q));
    SameBehind([CLOSE], [OpByte(op)] + p, [CLOSE], [OpByte(o)] + q);
    SameBehind([OpByte(op)], p, [OpByte(o)], q);
    assert [OpByte(op)][0] == [OpByte(o)][0];
    SameBehind([OPEN], Print(x') + ([CLOSE] + r), [OPEN], Print(y') + ([CLOSE] + s));
    PrintSplits(x', y', [CLOSE] + r, [CLOSE] + s);
    SameBehind([CLOSE], r, [CLOSE], s);
  }

  // ----- The tokenizer over a moving string pointer -----

  /** skip_separators: str is an offset into the string s. */
  method SkipSeparators(s: seq<Byte>, str: nat) returns (r: nat)
    requires str <= |s|
    ensures r == str + SeparatorRun(s[str..]) && r <= |s| && s[r..] == s[str..][SeparatorRun(s[str..])..]
    ensures forall k :: str <= k < r ==> s[k] == 32 || s[k] == 9 || s[k] == 10
    ensures r < |s| ==> s[r] != 32 && s[r] != 9 && s[r] != 10
  {
    r := str;
    while r < |s| && IsSeparator(s[r])
      invariant str <= r <= |s| && r + SeparatorRun(s[r..]) == str + SeparatorRun(s[str..])
      invariant forall k :: str <= k < r ==> s[k] == 32 || s[k] == 9 || s[k] == 10
    {
      assert s[r..][1..] == s[r + 1..];
      r := r + 1;
    }
    assert s[str..][r - str..] == s[r..];
  }

  /** next_token: the token at str, and where str is moved to. */
  method ReadToken(s: seq<Byte>, str: nat) returns (t: Token, next: nat)
    requires str <= |s|
    ensures next <= |s| && (t, s[next..]) == NextToken(s[str..])
  {
    var buf := SkipSeparators(s, str);
    ghost var b := s[buf..];
    if buf == |s| || s[buf] == 0 { return Plain(TokEnd), str; }
    assert b[0] == s[buf] && b[1..] == s[buf + 1..];
    var i := 0;
    while i < 6
      invariant 0 <= i <= 6 && forall k :: 0 <= k < i ==> s[buf] != TABLE[k]
    {
      if s[buf] == TABLE[i] { return Plain(KindOf(i)), buf + 1; }
      i := i + 1;
    }
    assert TABLE[0] == 43 && TABLE[1] == 45 && TABLE[2] == 42 && TABLE[3] == 47 && TABLE[4] == 40 && TABLE[5] == 41;
    if IsDigit(s[buf]) {
      var end := buf + DigitRun(s[buf..]);
      assert b[DigitRun(b)..] == s[end..];
      return Token(TokLit, Strtoll(s[buf..])), end;
    }
    return Plain(TokError), str;
  }

  /** tokenize: the ring holds the tokens of s that found room, or nothing after an error. */
  method TokenizeText(s: seq<Byte>, room: nat -> bool) returns (tokens: R.Ring<Token>)
    ensures tokens.Valid() && tokens.Contents() == ScanIn(s, [], Plain(TokError), 0, room)
  {
    hide NextToken, R.ValuesOf;
    tokens := new R.Ring<Token>();
    var prev := Plain(TokError);
    var str: nat, pushes: nat := 0, 0;
    assert s[0..] == s;
    var token: Token, next: nat := ReadToken(s, str);
    while token.kind != TokEnd
      invariant tokens.Valid() && fresh(tokens) && forall i :: 0 <= i < |tokens.nodes| ==> fresh(tokens.nodes[i])
      invariant str <= |s| && next <= |s| && (token, s[next..]) == NextToken(s[str..])
      invariant ScanIn(s[str..], tokens.Contents(), prev, pushes, room) == ScanIn(s, [], Plain(TokError), 0, room)
      decreases |s| - str
    {
      ghost var before := tokens.Contents();
      if token.kind == TokError {
        tokens.Free();
        return;
      }
      if token.kind == TokMinus && (tokens.ring == null || prev.kind == TokOpen || IsBinop(prev)) {
        token := token.(kind := TokNeg);
      }
      assert token == SignedAfter(NextToken(s[str..]).0, before, prev);
      var _ := tokens.Push(token, room(pushes));
      prev, pushes := token, pushes + 1;
      str := next;
      token, next := ReadToken(s, str);
    }
  }

  /** tokenize of what print_ast prints, when memory suffices. */
  method PrintThenTokenize(a: Ast, room: nat -> bool) returns (tokens: R.Ring<Token>)
    requires InRange(a) && NoNull(a) && forall k: nat :: room(k)
    ensures tokens.Valid() && (tokens.Contents() == Flatten(a) <==> NoMinimum(a))
  {
    tokens := TokenizeText(Print(a), room);
    EnoughRoom(Print(a), [], Plain(TokError), 0, room);
    TokenizeOfPrint(a);
  }
}
