/** The exact decimal helper and its command grammar (src/omo/helpers.py). */
module Calculator {
  import opened Common
  import opened Contracts
  import opened Decimals

  // ---- digits as text -------------------------------------------------------------------------

  predicate IsDigit(c: char) { '0' <= c <= '9' }

  predicate AllDigits(s: string) { forall i | 0 <= i < |s| :: IsDigit(s[i]) }

  function DigitChar(n: nat): char
    requires n < 10
  {
    '0' + n as char
  }

  function ReadNat(s: string): nat
    requires AllDigits(s)
  {
    if s == [] then 0 else 10 * ReadNat(s[..|s| - 1]) + DigitValue(s[|s| - 1])
  }

  function DigitValue(c: char): nat
    requires IsDigit(c)
  {
    (c - '0') as nat
  }

  function WriteNat(n: nat): string {
    if n < 10 then [DigitChar(n)] else WriteNat(n / 10) + [DigitChar(n % 10)]
  }

  function Zeros(k: nat): string { seq(k, _ => '0') }

  lemma {:induction false} ReadWrite(n: nat)
    ensures AllDigits(WriteNat(n)) && WriteNat(n) != [] && ReadNat(WriteNat(n)) == n
  {
    if n >= 10 {
      ReadWrite(n / 10);
      assert WriteNat(n)[..|WriteNat(n)| - 1] == WriteNat(n / 10);
    }
  }

  lemma ReadDigit(s: string, c: char)
    requires AllDigits(s) && IsDigit(c)
    ensures AllDigits(s + [c]) && ReadNat(s + [c]) == 10 * ReadNat(s) + DigitValue(c)
  {
    assert (s + [c])[..|s|] == s;
  }

  lemma TenTimes(n: int, p: int)
    ensures 10 * (n * p) == n * (10 * p)
  {
  }

  lemma {:induction false} ReadAppend(s: string, k: nat)
    requires AllDigits(s)
    ensures AllDigits(s + Zeros(k)) && ReadNat(s + Zeros(k)) == ReadNat(s) * Pow10(k)
  {
    if k == 0 {
      assert s + Zeros(0) == s;
    } else {
      ReadAppend(s, k - 1);
      assert s + Zeros(k) == s + Zeros(k - 1) + ['0'];
      ReadDigit(s + Zeros(k - 1), '0');
      TenTimes(ReadNat(s), Pow10(k - 1));
    }
  }

  lemma {:induction false} ReadPrepend(k: nat, s: string)
    requires AllDigits(s)
    ensures AllDigits(Zeros(k) + s) && ReadNat(Zeros(k) + s) == ReadNat(s)
  {
    if s == [] {
      assert Zeros(k) + s == Zeros(k);
      if k > 0 {
        ReadPrepend(k - 1, []);
        assert Zeros(k)[..k - 1] == Zeros(k - 1) == Zeros(k - 1) + [];
      }
    } else {
      ReadPrepend(k, s[..|s| - 1]);
      assert (Zeros(k) + s)[..k + |s| - 1] == Zeros(k) + s[..|s| - 1];
    }
  }

  lemma {:induction false} ReadBound(s: string)
    requires AllDigits(s)
    ensures ReadNat(s) < Pow10(|s|)
  {
    if s != [] {
      ReadBound(s[..|s| - 1]);
    }
  }

  // ---- decimal texts --------------------------------------------------------------------------

  function IndexOf(s: string, c: char): (k: nat)
    ensures k <= |s| && c !in s[..k] && (k < |s| ==> s[k] == c)
  {
    if s == [] || s[0] == c then 0 else 1 + IndexOf(s[1..], c)
  }

  function Unsigned(s: string): string { if s != [] && s[0] == '-' then s[1..] else s }

  function Integral(s: string): string { var u := Unsigned(s); u[..IndexOf(u, '.')] }

  /** The digits after the point; none without one. */
  function Fraction(s: string): string {
    var u := Unsigned(s);
    var k := IndexOf(u, '.');
    if k == |u| then [] else u[k + 1..]
  }

  predicate HasPoint(s: string) { '.' in Unsigned(s) }

  /** A decimal literal without exponent: what `Decimal(text)` reads here. */
  predicate IsDecimal(s: string) {
    && AllDigits(Integral(s)) && AllDigits(Fraction(s))
    && Integral(s) != [] && (HasPoint(s) ==> Fraction(s) != [])
  }

  /** The operand pattern: at most 12 integral and 8 fractional digits. */
  predicate IsOperand(s: string) {
    IsDecimal(s) && |Integral(s)| <= 12 && |Fraction(s)| <= 8
  }

  function Read(s: string): Decimal
    requires IsDecimal(s)
  {
    Decimal(s != [] && s[0] == '-', ReadNat(Integral(s) + Fraction(s)), -|Fraction(s)|)
  }

  /** The digits of `d` before and after the decimal point, in fixed-point notation. */
  function WholePart(d: Decimal): string {
    var digits := WriteNat(d.coeff);
    if d.exp >= 0 then (if d.coeff == 0 then digits else digits + Zeros(d.exp))
    else if |digits| > -d.exp then digits[..|digits| + d.exp]
    else "0"
  }

  function FractionPart(d: Decimal): string {
    var digits := WriteNat(d.coeff);
    if d.exp >= 0 then []
    else if |digits| > -d.exp then digits[|digits| + d.exp..]
    else Zeros(-d.exp - |digits|) + digits
  }

  function Tail(fraction: string): string { if fraction == [] then "" else "." + fraction }

  function Assemble(neg: bool, whole: string, fraction: string): string {
    (if neg then "-" else "") + whole + Tail(fraction)
  }

  /** `format(d, "f")`. */
  function Format(d: Decimal): string { Assemble(d.neg, WholePart(d), FractionPart(d)) }

  lemma OperandBounded(s: string)
    requires IsOperand(s)
    ensures Bounded(Read(s), 12, 8)
  {
    var digits := Integral(s) + Fraction(s);
    ReadBound(digits);
    Pow10Le(|digits|, 12 + |Fraction(s)|);
  }

  lemma {:induction false} IndexOfFirst(u: string, v: string, c: char)
    requires c !in u
    ensures IndexOf(u + [c] + v, c) == |u| && IndexOf(u, c) == |u|
  {
    if u != [] {
      assert (u + [c] + v)[1..] == u[1..] + [c] + v;
      IndexOfFirst(u[1..], v, c);
    }
  }

  lemma UnsignedAssembled(neg: bool, whole: string, fraction: string)
    requires AllDigits(whole) && whole != []
    ensures var s := Assemble(neg, whole, fraction);
      Unsigned(s) == whole + Tail(fraction) && s != [] && (s[0] == '-' <==> neg)
  {
    var s := Assemble(neg, whole, fraction);
    if neg {
      assert s == ['-'] + (whole + Tail(fraction));
    } else {
      assert s == whole + Tail(fraction) && IsDigit(s[0]);
    }
  }

  lemma SplitAtPoint(whole: string, fraction: string)
    requires AllDigits(whole)
    ensures var u := whole + Tail(fraction);
      var k := IndexOf(u, '.');
      k == |whole| && u[..k] == whole && (if fraction == [] then k == |u| else k < |u| && u[k + 1..] == fraction)
  {
    assert '.' !in whole;
    if fraction == [] {
      assert whole + Tail(fraction) == whole;
      IndexOfFirst(whole, [], '.');
    } else {
      assert whole + Tail(fraction) == whole + ['.'] + fraction;
      IndexOfFirst(whole, fraction, '.');
    }
  }

  lemma ReadAssembled(neg: bool, whole: string, fraction: string)
    requires AllDigits(whole) && AllDigits(fraction) && whole != []
    ensures var s := Assemble(neg, whole, fraction);
      IsDecimal(s) && Integral(s) == whole && Fraction(s) == fraction
      && Read(s) == Decimal(neg, ReadNat(whole + fraction), -|fraction|)
  {
    UnsignedAssembled(neg, whole, fraction);
    SplitAtPoint(whole, fraction);
  }

  /** The two parts hold all the digits of the number, scaled to exponent at most 0. */
  predicate HoldDigits(d: Decimal, whole: string, fraction: string) {
    && AllDigits(whole) && AllDigits(fraction) && AllDigits(whole + fraction) && whole != []
    && |fraction| == Up(-d.exp)
    && ReadNat(whole + fraction) == if d.exp >= 0 then Scaled(d.coeff, d.exp) else d.coeff
  }

  lemma PartsHoldDigits(d: Decimal)
    ensures HoldDigits(d, WholePart(d), FractionPart(d))
  {
    ReadWrite(d.coeff);
    if d.exp >= 0 {
      IntegralHoldsDigits(d);
    } else if |WriteNat(d.coeff)| > -d.exp {
      assert WholePart(d) + FractionPart(d) == WriteNat(d.coeff);
    } else {
      PaddedHoldsDigits(d);
    }
  }

  lemma IntegralHoldsDigits(d: Decimal)
    requires d.exp >= 0
    ensures HoldDigits(d, WholePart(d), FractionPart(d))
  {
    ReadWrite(d.coeff);
    ReadAppend(WriteNat(d.coeff), d.exp);
    assert WholePart(d) + FractionPart(d) == WholePart(d);
    assert 0 * Pow10(d.exp) == 0;
  }

  lemma PaddedHoldsDigits(d: Decimal)
    requires d.exp < 0 && |WriteNat(d.coeff)| <= -d.exp
    ensures HoldDigits(d, WholePart(d), FractionPart(d))
  {
    ReadWrite(d.coeff);
    ReadPrepend(-d.exp - |WriteNat(d.coeff)|, WriteNat(d.coeff));
    ReadPrepend(1, FractionPart(d));
    assert WholePart(d) == Zeros(1);
  }

  /** Reading the fixed-point text of a number gives the number back, at exponent at most 0. */
  lemma ReadFormat(d: Decimal)
    ensures IsDecimal(Format(d))
    ensures Read(Format(d)) == if d.exp <= 0 then d else Decimal(d.neg, Scaled(d.coeff, d.exp), 0)
    ensures Value(Read(Format(d))) == Value(d)
  {
    PartsHoldDigits(d);
    ReadAssembled(d.neg, WholePart(d), FractionPart(d));
    if d.exp >= 0 {
      SameWhole(d, Decimal(d.neg, Scaled(d.coeff, d.exp), 0));
    }
  }

  lemma SameWhole(d: Decimal, e: Decimal)
    requires d.exp >= 0 && e == Decimal(d.neg, Scaled(d.coeff, d.exp), 0)
    ensures Value(e) == Value(d) && (d.exp == 0 ==> e == d)
  {
    assert Pow10(0) == 1;
    assert (0 - d.coeff) * Pow10(d.exp) == 0 - d.coeff * Pow10(d.exp);
  }

  // ---- the helper -----------------------------------------------------------------------------

  datatype Result = Success(text: string, unit: Unit) | Failure(status: string, diagnostic: string)

  /**
   The promise of the helper for operands of the grammar: sums, differences and products always
   succeed and are exact; a quotient succeeds exactly when 40 significant digits can hold it.
   */
  ghost predicate Computes(call: HelperCall, r: Result)
    requires call.Arithmetic? && IsOperand(call.a) && IsOperand(call.b)
  {
    var a, b := Read(call.a), Read(call.b);
    var exact := r.Success? && r.unit == call.unit && IsDecimal(r.text);
    match call.operation
    case Add =>
      exact && Read(r.text) == ExactSum(a, b) && Equal(Value(Read(r.text)), Plus(Value(a), Value(b)))
    case Subtract =>
      exact && Read(r.text) == ExactSum(a, b.(neg := !b.neg)) && Equal(Value(Read(r.text)), Minus(Value(a), Value(b)))
    case Multiply =>
      if call.unit != NoUnit then r == Failure("unsupported", "compound units require an explicit schema")
      else exact && Read(r.text) == ExactProduct(a, b) && Equal(Value(Read(r.text)), Times(Value(a), Value(b)))
    case Divide =>
      if call.unit != NoUnit then r == Failure("unsupported", "compound units require an explicit schema")
      else if b.coeff == 0 then r == Failure("execution-error", "division by zero")
      else if HasShortQuotient(a, b, 40) then
        exact && Equal(Times(Value(Read(r.text)), Value(b)), Value(a))
      else r == Failure("unsupported", "non-terminating decimal; specify rounding in a future API")
  }

  /** What is done with a value once the operation has been carried out. */
  function Conclude(value: Rounded, unit: Unit): Result {
    if Exceeds(value.value, 24) then Failure("resource-limit", "numeric range exceeded")
    else if value.inexact then Failure("unsupported", "non-terminating decimal; specify rounding in a future API")
    else Success(Format(value.value), unit)
  }

  method Evaluate(call: HelperCall) returns (r: Result)
    requires call.Arithmetic? && IsOperand(call.a) && IsOperand(call.b)
    ensures Computes(call, r)
  {
    if call.unit != NoUnit && (call.operation == Multiply || call.operation == Divide) {
      r := Failure("unsupported", "compound units require an explicit schema");
      UnitsRefused(call);
    } else {
      r := EvaluateOperation(call, Read(call.a), Read(call.b));
    }
  }

  method EvaluateOperation(call: HelperCall, a: Decimal, b: Decimal) returns (r: Result)
    requires Operands(call, a, b)
      && (call.unit != NoUnit ==> call.operation == Operation.Add || call.operation == Subtract)
    ensures Computes(call, r)
  {
    match call.operation
    case Add =>
      r := Conclude(RoundedSum(a, b, 40), call.unit);
      SumComputes(call, a, b);
    case Subtract =>
      r := Conclude(RoundedDifference(a, b, 40), call.unit);
      DifferenceComputes(call, a, b);
    case Multiply =>
      r := Conclude(RoundedProduct(a, b, 40), call.unit);
      ProductComputes(call, a, b);
    case Divide => r := EvaluateQuotient(call, a, b);
  }

  method EvaluateQuotient(call: HelperCall, a: Decimal, b: Decimal) returns (r: Result)
    requires Operands(call, a, b) && call.operation == Divide && call.unit == NoUnit
    ensures Computes(call, r)
  {
    if b.coeff == 0 {
      r := Failure("execution-error", "division by zero");
      ZeroRefused(call, a, b);
    } else {
      OperandBounded(call.a);
      OperandBounded(call.b);
      var value := RoundedQuotient(a, b, 12, 8, 40);
      QuotientComputes(call, a, b, value);
      r := Conclude(value, call.unit);
    }
  }

  predicate Operands(call: HelperCall, a: Decimal, b: Decimal) {
    call.Arithmetic? && IsOperand(call.a) && IsOperand(call.b) && a == Read(call.a) && b == Read(call.b)
  }

  lemma UnitsRefused(call: HelperCall)
    requires call.Arithmetic? && IsOperand(call.a) && IsOperand(call.b)
    requires call.unit != NoUnit && (call.operation == Multiply || call.operation == Divide)
    ensures Computes(call, Failure("unsupported", "compound units require an explicit schema"))
  {
  }

  lemma ZeroRefused(call: HelperCall, a: Decimal, b: Decimal)
    requires Operands(call, a, b) && call.operation == Divide && call.unit == NoUnit && b.coeff == 0
    ensures Computes(call, Failure("execution-error", "division by zero"))
  {
  }

  lemma SumComputes(call: HelperCall, a: Decimal, b: Decimal)
    requires Operands(call, a, b) && call.operation == Operation.Add
    ensures Computes(call, Conclude(RoundedSum(a, b, 40), call.unit))
  {
    OperandBounded(call.a);
    OperandBounded(call.b);
    SumInRange(a, b);
    ReadFormat(ExactSum(a, b));
  }

  lemma DifferenceComputes(call: HelperCall, a: Decimal, b: Decimal)
    requires Operands(call, a, b) && call.operation == Subtract
    ensures Computes(call, Conclude(RoundedDifference(a, b, 40), call.unit))
  {
    OperandBounded(call.a);
    OperandBounded(call.b);
    DifferenceInRange(a, b);
    ReadFormat(ExactSum(a, b.(neg := !b.neg)));
  }

  lemma ProductComputes(call: HelperCall, a: Decimal, b: Decimal)
    requires Operands(call, a, b) && call.operation == Multiply && call.unit == NoUnit
    ensures Computes(call, Conclude(RoundedProduct(a, b, 40), call.unit))
  {
    OperandBounded(call.a);
    OperandBounded(call.b);
    ProductInRange(a, b);
    ReadFormat(ExactProduct(a, b));
  }

  lemma QuotientComputes(call: HelperCall, a: Decimal, b: Decimal, value: Rounded)
    requires Operands(call, a, b) && call.operation == Divide && call.unit == NoUnit && b.coeff != 0
    requires IsQuotient(value, a, b, 40, 20)
    ensures Computes(call, Conclude(value, call.unit))
  {
    QuotientInRange(value.value);
    ReadFormat(value.value);
  }

  lemma SumInRange(a: Decimal, b: Decimal)
    requires Bounded(a, 12, 8) && Bounded(b, 12, 8)
    ensures RoundedSum(a, b, 40) == Rounded(ExactSum(a, b), false) && !Exceeds(ExactSum(a, b), 24)
    ensures Equal(Value(ExactSum(a, b)), Plus(Value(a), Value(b))) && ExactSum(a, b).exp <= 0
  {
    AddExact(a, b, 12, 8, 40);
    WithinRange(ExactSum(a, b), 21, 24);
  }

  lemma DifferenceInRange(a: Decimal, b: Decimal)
    requires Bounded(a, 12, 8) && Bounded(b, 12, 8)
    ensures var d := ExactSum(a, b.(neg := !b.neg));
      RoundedDifference(a, b, 40) == Rounded(d, false) && !Exceeds(d, 24)
        && Equal(Value(d), Minus(Value(a), Value(b))) && d.exp <= 0
  {
    SubtractExact(a, b, 12, 8, 40);
    WithinRange(ExactSum(a, b.(neg := !b.neg)), 21, 24);
  }

  lemma ProductInRange(a: Decimal, b: Decimal)
    requires Bounded(a, 12, 8) && Bounded(b, 12, 8)
    ensures RoundedProduct(a, b, 40) == Rounded(ExactProduct(a, b), false) && !Exceeds(ExactProduct(a, b), 24)
    ensures Equal(Value(ExactProduct(a, b)), Times(Value(a), Value(b))) && ExactProduct(a, b).exp <= 0
  {
    MultiplyExact(a, b, 12, 8, 40);
    WithinRange(ExactProduct(a, b), 24 - a.exp - b.exp, 24);
  }

  lemma QuotientInRange(d: Decimal)
    requires !Exceeds(d, 20)
    ensures !Exceeds(d, 24)
  {
    Pow10Le(20, 24);
    if d.exp < 0 {
      MulLe(Pow10(20), Pow10(24), Pow10(-d.exp));
    }
  }

  // ---- the command line of one user turn ------------------------------------------------------

  function OperationOf(c: char): Option<Operation> {
    if c == '+' then Some(Add) else if c == '-' then Some(Subtract)
    else if c == '*' then Some(Multiply) else if c == '/' then Some(Divide) else None
  }

  /** The written command. */
  function Command(a: string, c: char, b: string): string { "calc " + a + " " + [c] + " " + b }

  /** The three fields of a command, split at the first space and two characters later. */
  function SplitCommand(text: string): Option<(string, char, string)> {
    if !("calc " <= text) then None
    else
      var rest := text[5..];
      var k := IndexOf(rest, ' ');
      if k + 3 > |rest| || rest[k + 2] != ' ' then None
      else Some((rest[..k], rest[k + 1], rest[k + 3..]))
  }

  function ParseCommand(text: string): Option<HelperCall> {
    match SplitCommand(text)
    case None => None
    case Some((a, c, b)) => MakeCall(a, c, b)
  }

  function MakeCall(a: string, c: char, b: string): Option<HelperCall> {
    if OperationOf(c).Some? && IsOperand(a) && IsOperand(b)
    then Some(Arithmetic(OperationOf(c).value, a, b, NoUnit)) else None
  }

  function FastHelper(request: ChatRequest): Option<HelperCall> {
    if |request.messages| != 1 then None else ParseCommand(request.messages[0].content)
  }

  lemma OperandHasNoSpace(a: string)
    requires IsOperand(a)
    ensures ' ' !in a
  {
    var u := Unsigned(a);
    var k := IndexOf(u, '.');
    forall i | 0 <= i < |u| ensures u[i] != ' ' {
      if i < k {
        assert u[i] == Integral(a)[i];
      } else if i > k {
        assert u[i] == Fraction(a)[i - k - 1];
      }
    }
  }

  predicate Written(a: string, c: char, b: string) {
    OperationOf(c).Some? && IsOperand(a) && IsOperand(b)
  }

  lemma SplitWritten(a: string, c: char, b: string)
    requires ' ' !in a
    ensures SplitCommand(Command(a, c, b)) == Some((a, c, b))
  {
    var rest := a + [' '] + ([c] + " " + b);
    IndexOfFirst(a, [c] + " " + b, ' ');
    assert Command(a, c, b) == "calc " + rest;
    assert Command(a, c, b)[5..] == rest;
    assert rest[..|a|] == a && rest[|a| + 1] == c && rest[|a| + 2] == ' ' && rest[|a| + 3..] == b;
  }

  lemma SplitJoins(text: string)
    requires SplitCommand(text).Some?
    ensures var (a, c, b) := SplitCommand(text).value; text == Command(a, c, b)
  {
    var rest := text[5..];
    var k := IndexOf(rest, ' ');
    var a, c, b := rest[..k], rest[k + 1], rest[k + 3..];
    assert rest == a + " " + [c] + " " + b;
    assert text == "calc " + rest;
  }

  lemma ParseWritten(a: string, c: char, b: string)
    requires Written(a, c, b)
    ensures ParseCommand(Command(a, c, b)) == Some(Arithmetic(OperationOf(c).value, a, b, NoUnit))
  {
    OperandHasNoSpace(a);
    SplitWritten(a, c, b);
  }

  lemma ParsedWasWritten(text: string, a: string, c: char, b: string)
    requires OperationOf(c).Some?
    requires ParseCommand(text) == Some(Arithmetic(OperationOf(c).value, a, b, NoUnit))
    ensures text == Command(a, c, b)
  {
    var (a1, c1, b1) := SplitCommand(text).value;
    MadeFrom(a1, c1, b1, a, c, b);
    SplitJoins(text);
  }

  lemma MadeFrom(a1: string, c1: char, b1: string, a: string, c: char, b: string)
    requires OperationOf(c).Some? && MakeCall(a1, c1, b1) == Some(Arithmetic(OperationOf(c).value, a, b, NoUnit))
    ensures a1 == a && c1 == c && b1 == b
  {
    OperatorUnique(c1, c);
  }

  lemma OperatorUnique(c: char, d: char)
    requires OperationOf(c).Some? && OperationOf(c) == OperationOf(d)
    ensures c == d
  {
  }

  lemma CommandStarts(text: string)
    ensures ParseCommand(text).Some? ==> text != "" && text[0] == 'c'
  {
    assert "calc "[0] == 'c';
  }

  /** The fast path takes exactly the written commands of a single message, and what they say. */
  lemma FastHelperExact(request: ChatRequest, a: string, c: char, b: string)
    requires Written(a, c, b)
    ensures FastHelper(request) == Some(Arithmetic(OperationOf(c).value, a, b, NoUnit)) <==>
      |request.messages| == 1 && request.messages[0].content == Command(a, c, b)
  {
    ParseWritten(a, c, b);
    if FastHelper(request) == Some(Arithmetic(OperationOf(c).value, a, b, NoUnit)) {
      ParsedWasWritten(request.messages[0].content, a, c, b);
    }
  }

  lemma FastHelperOperands(request: ChatRequest)
    requires FastHelper(request).Some?
    ensures var call := FastHelper(request).value;
      call.Arithmetic? && IsOperand(call.a) && IsOperand(call.b) && call.unit == NoUnit
  {
  }

  /** A command names one operation on one pair of operands. */
  lemma CommandUnique(a: string, c: char, b: string, a1: string, c1: char, b1: string)
    requires Written(a, c, b) && Written(a1, c1, b1)
    requires Command(a, c, b) == Command(a1, c1, b1)
    ensures a == a1 && c == c1 && b == b1
  {
    ParseWritten(a, c, b);
    ParseWritten(a1, c1, b1);
  }

  /** What the text of a written command asks for, and what its result says about it. */
  ghost predicate CommandValue(a: string, c: char, b: string, r: Result)
    requires Written(a, c, b)
  {
    var x, y := Value(Read(a)), Value(Read(b));
    var exact := r.Success? && r.unit == NoUnit && IsDecimal(r.text);
    if c == '+' then exact && Equal(Value(Read(r.text)), Plus(x, y))
    else if c == '-' then exact && Equal(Value(Read(r.text)), Minus(x, y))
    else if c == '*' then exact && Equal(Value(Read(r.text)), Times(x, y))
    else if y.num == 0 then r == Failure("execution-error", "division by zero")
    else if HasShortQuotient(Read(a), Read(b), 40) then exact && Equal(Times(Value(Read(r.text)), y), x)
    else r == Failure("unsupported", "non-terminating decimal; specify rounding in a future API")
  }

  /** A single message that is a command is answered with the value of the expression it shows. */
  lemma CommandComputed(request: ChatRequest, a: string, c: char, b: string, r: Result)
    requires Written(a, c, b) && |request.messages| == 1 && request.messages[0].content == Command(a, c, b)
    ensures FastHelper(request).Some?
    ensures var call := FastHelper(request).value;
      call.Arithmetic? && IsOperand(call.a) && IsOperand(call.b) && (Computes(call, r) ==> CommandValue(a, c, b, r))
  {
    ParseWritten(a, c, b);
    var call := Arithmetic(OperationOf(c).value, a, b, NoUnit);
    if Computes(call, r) {
      ComputedValue(call, c, r);
    }
  }

  lemma ComputedValue(call: HelperCall, c: char, r: Result)
    requires call.Arithmetic? && Written(call.a, c, call.b) && OperationOf(c) == Some(call.operation)
      && call.unit == NoUnit
    requires Computes(call, r)
    ensures CommandValue(call.a, c, call.b, r)
  {
    if call.operation == Divide {
      ZeroValue(Read(call.b));
    }
  }

  lemma ZeroValue(d: Decimal)
    ensures Value(d).num == 0 <==> d.coeff == 0
  {
    if d.exp >= 0 {
      assert d.coeff > 0 ==> d.coeff * Pow10(d.exp) > 0;
      assert (0 - d.coeff) * Pow10(d.exp) == 0 - d.coeff * Pow10(d.exp);
      assert 0 * Pow10(d.exp) == 0;
    }
  }

  /** The fast path and the helper together: `None` when the message is not a command. */
  method Calculate(request: ChatRequest) returns (r: Option<Result>)
    ensures r.Some? <==> FastHelper(request).Some?
    ensures forall a, c, b | Written(a, c, b) && |request.messages| == 1
      && request.messages[0].content == Command(a, c, b) ::
      r.Some? && CommandValue(a, c, b, r.value)
  {
    var call := FastHelper(request);
    forall a, c, b | Written(a, c, b) && |request.messages| == 1 && request.messages[0].content == Command(a, c, b)
      ensures call.Some?
    {
      ParseWritten(a, c, b);
    }
    if call.None? {
      return None;
    }
    FastHelperOperands(request);
    var result := Evaluate(call.value);
    forall a, c, b | Written(a, c, b) && |request.messages| == 1 && request.messages[0].content == Command(a, c, b)
      ensures CommandValue(a, c, b, result)
    {
      CommandComputed(request, a, c, b, result);
    }
    return Some(result);
  }

  // ---- the limits of the precision ------------------------------------------------------------

  /** One digit less would not hold the product of the largest operands. */
  lemma MultiplyNeedsFortyDigits()
    ensures var d := Decimal(false, 99999999999999999999, -8);
      Bounded(d, 12, 8) && RoundedProduct(d, d, 39).inexact && !RoundedProduct(d, d, 40).inexact
  {
    var d := Decimal(false, 99999999999999999999, -8);
    KnownPowers();
    MultiplyExact(d, d, 12, 8, 40);
    assert d.coeff * d.coeff == 9999999999999999999800000000000000000001;
    DigitsBound(9999999999999999999800000000000000000001, 40);
    DigitsBound(9999999999999999999800000000000000000001, 39);
    assert Pow10(1) == 10;
  }

  lemma KnownPowers()
    ensures Pow10(20) == 100000000000000000000
    ensures Pow10(39) == 1000000000000000000000000000000000000000
    ensures Pow10(40) == 10000000000000000000000000000000000000000
    ensures Pow10(59) == 100000000000000000000000000000000000000000000000000000000000
    ensures Pow10(66) == 1000000000000000000000000000000000000000000000000000000000000000000
  {
    assert Pow10(6) == 1000000;
    assert Pow10(10) == 10000 * Pow10(6);
    Pow10Add(10, 10);
    Pow10Add(20, 20);
    assert Pow10(40) == 10 * Pow10(39);
    Pow10Add(20, 39);
    Pow10Add(40, 20);
    Pow10Add(60, 6);
  }

  /** 1 / 737869762948.38206464 ends, after 47 digits, and is refused as "non-terminating". */
  lemma LongQuotientRefused()
    ensures var a, b := Decimal(false, 1, 0), Decimal(false, 73786976294838206464, -8);
      && Bounded(a, 12, 8) && Bounded(b, 12, 8)
      && Equal(Times(Value(Decimal(false, 13552527156068805425093160010874271392822265625, -58)), Value(b)), Value(a))
      && !HasShortQuotient(a, b, 40)
  {
    LongOperands();
    LongQuotientEnds();
    LongHasNoShort(
      Decimal(false, 1, 0), Decimal(false, 73786976294838206464, -8), 1355252715606880542509316001087427139282, 59, 40);
  }

  lemma LongHasNoShort(a: Decimal, b: Decimal, coeff: nat, adjust: nat, precision: nat)
    requires a == Decimal(false, 1, 0) && b == Decimal(false, 73786976294838206464, -8)
    requires coeff == 1355252715606880542509316001087427139282 && adjust == 59 && precision == 40
    ensures !HasShortQuotient(a, b, precision)
  {
    LongOperands();
    NoShortQuotients(a, b, coeff, adjust, precision);
  }

  const LONG_DIVISOR := "737869762948.38206464"

  /** The operands of `calc 1 / 737869762948.38206464` are answered so, and in no other way. */
  lemma LongCommandRefused(a: string, b: string, r: Result)
    requires a == "1" && b == LONG_DIVISOR
    ensures Written(a, '/', b)
    ensures Computes(Arithmetic(Divide, a, b, NoUnit), r) <==>
      r == Failure("unsupported", "non-terminating decimal; specify rounding in a future API")
  {
    SlashDivides();
    OneText(a);
    LongText(b);
    LongQuotientRefused();
    NoShortRefused(a, b, Decimal(false, 1, 0), Decimal(false, 73786976294838206464, -8), r);
  }

  /** The fast path reads them from that command. */
  lemma LongCommandRead(request: ChatRequest, a: string, b: string)
    requires a == "1" && b == LONG_DIVISOR
    requires |request.messages| == 1 && request.messages[0].content == Command(a, '/', b)
    ensures FastHelper(request) == Some(Arithmetic(Divide, a, b, NoUnit))
  {
    SlashDivides();
    OneText(a);
    LongText(b);
    ParseWritten(a, '/', b);
  }

  lemma SlashDivides()
    ensures OperationOf('/') == Some(Divide)
  {
  }

  lemma NoShortRefused(a: string, b: string, x: Decimal, y: Decimal, r: Result)
    requires IsOperand(a) && IsOperand(b) && Read(a) == x && Read(b) == y
    requires y.coeff != 0 && !HasShortQuotient(x, y, 40)
    ensures Computes(Arithmetic(Divide, a, b, NoUnit), r) <==>
      r == Failure("unsupported", "non-terminating decimal; specify rounding in a future API")
  {
  }

  lemma OneText(a: string)
    requires a == "1"
    ensures IsOperand(a) && Read(a) == Decimal(false, 1, 0)
  {
    var none: string := "";
    ReadAssembled(false, a, none);
    assert Assemble(false, a, none) == a && a + none == a == none + ['1'];
    ReadDigit(none, '1');
  }

  lemma LongText(b: string)
    requires b == LONG_DIVISOR
    ensures IsOperand(b) && Read(b) == Decimal(false, 73786976294838206464, -8)
  {
    LongSpelled();
    FiveByFour("7378", "6976", "2948", "3820", "6464");
    LongDigits();
  }

  lemma LongSpelled()
    ensures LONG_DIVISOR == "" + ("7378" + "6976" + "2948") + ("." + ("3820" + "6464"))
  {
  }

  lemma FiveByFour(a: string, b: string, c: string, d: string, e: string)
    requires AllDigits(a) && AllDigits(b) && AllDigits(c) && AllDigits(d) && AllDigits(e)
    requires |a| == |b| == |c| == |d| == |e| == 4
    ensures var s := "" + (a + b + c) + ("." + (d + e));
      AllDigits(a + b + c + d + e) && IsOperand(s) && Read(s) == Decimal(false, ReadNat(a + b + c + d + e), -8)
  {
    TwelveAndEight(a + b + c, d + e);
    PlusAssociates(a + b + c, d, e);
  }

  lemma TwelveAndEight(whole: string, fraction: string)
    requires AllDigits(whole) && AllDigits(fraction) && |whole| == 12 && |fraction| == 8
    ensures var s := "" + whole + ("." + fraction);
      IsOperand(s) && Read(s) == Decimal(false, ReadNat(whole + fraction), -8)
  {
    ReadAssembled(false, whole, fraction);
  }

  lemma LongDigits()
    ensures AllDigits("7378" + "6976" + "2948" + "3820" + "6464")
    ensures ReadNat("7378" + "6976" + "2948" + "3820" + "6464") == 73786976294838206464
  {
    FourDigits('7', '3', '7', '8');
    FourDigits('6', '9', '7', '6');
    FourDigits('2', '9', '4', '8');
    FourDigits('3', '8', '2', '0');
    FourDigits('6', '4', '6', '4');
    ReadFour("7378", "6976");
    ReadFour("7378" + "6976", "2948");
    ReadFour("7378" + "6976" + "2948", "3820");
    ReadFour("7378" + "6976" + "2948" + "3820", "6464");
  }

  lemma FourDigits(a: char, b: char, c: char, d: char)
    requires IsDigit(a) && IsDigit(b) && IsDigit(c) && IsDigit(d)
    ensures ReadNat([a, b, c, d]) ==
      10 * (10 * (10 * DigitValue(a) + DigitValue(b)) + DigitValue(c)) + DigitValue(d)
  {
    var none: string := "";
    assert ReadNat(none) == 0;
    ReadDigit(none, a);
    ReadDigit(none + [a], b);
    ReadDigit(none + [a] + [b], c);
    ReadDigit(none + [a] + [b] + [c], d);
    assert none + [a] + [b] + [c] + [d] == [a, b, c, d];
  }

  /** Four more digits. */
  lemma ReadFour(s: string, t: string)
    requires AllDigits(s) && AllDigits(t) && |t| == 4
    ensures AllDigits(s + t) && ReadNat(s + t) == 10000 * ReadNat(s) + ReadNat(t)
  {
    FourDigits(t[0], t[1], t[2], t[3]);
    assert t == [t[0], t[1], t[2], t[3]];
    assert s + t == s + [t[0]] + [t[1]] + [t[2]] + [t[3]];
    ReadDigit(s, t[0]);
    ReadDigit(s + [t[0]], t[1]);
    ReadDigit(s + [t[0]] + [t[1]], t[2]);
    ReadDigit(s + [t[0]] + [t[1]] + [t[2]], t[3]);
  }

  lemma LongOperands()
    ensures Bounded(Decimal(false, 1, 0), 12, 8) && Bounded(Decimal(false, 73786976294838206464, -8), 12, 8)
    ensures 1355252715606880542509316001087427139282 * 73786976294838206464 < 1 * Pow10(59)
    ensures 1 * Pow10(59) < 1355252715606880542509316001087427139283 * 73786976294838206464
    ensures Pow10(39) <= 1355252715606880542509316001087427139282
  {
    KnownPowers();
    Pow10Le(1, 12);
    assert Pow10(1) == 10;
  }

  lemma LongQuotientEnds()
    ensures var a, b := Decimal(false, 1, 0), Decimal(false, 73786976294838206464, -8);
      Equal(Times(Value(Decimal(false, 13552527156068805425093160010874271392822265625, -58)), Value(b)), Value(a))
  {
    var a, b := Decimal(false, 1, 0), Decimal(false, 73786976294838206464, -8);
    var long := Decimal(false, 13552527156068805425093160010874271392822265625, -58);
    KnownPowers();
    assert Pow10(0) == 1;
    QuotientEquation(long, a, b);
  }
}
