/**
 * The token kinds of the expression engine (in.pratanumandal.expr4j.token) and the
 * Function token's constructors, validity rule and textual form.
 */
module Tokens {
  import opened Wrappers

  /** Where an operator stands relative to its operands; INFIX_RTL groups right to left. */
  datatype OperatorType = Prefix | Postfix | Infix | InfixRtl

  /** The two shapes of operation a function can carry. */
  datatype OperationKind = Greedy | Lazy

  /**
   * A token of a parsed expression. The operation a function or operator performs is
   * not stored here: the evaluator receives the semantics of every token as a parameter.
   */
  datatype Token<T> =
    | Operand(value: T)
    | Variable(name: string)
    | Operator(name: string, opType: OperatorType)
    | Function(name: string, parameters: int, operation: OperationKind)

  /** The parameter count that marks a function as variadic. */
  const VariableParameters: int := -1

  /**
   * Reserved operator labels the tokenizer gives to unary plus, unary minus and
   * implicit multiplication. Their text is defined outside this model; only the
   * fact that they are three distinct labels matters to the printer.
   */
  const UnaryPlus: string := "uplus"
  const UnaryMinus: string := "uminus"
  const ImplicitMultiplication: string := "imul"

  predicate IsInfix(t: OperatorType) {
    t == Infix || t == InfixRtl
  }

  /** Number of operands an operator takes: two for infix operators, one otherwise. */
  function Arity(t: OperatorType): nat {
    if IsInfix(t) then 2 else 1
  }

  predicate IsSign(name: string) {
    name == UnaryPlus || name == UnaryMinus
  }

  /** The well-formedness rule every constructed Function token obeys. */
  predicate ValidToken<T>(tok: Token<T>) {
    tok.Function? ==> tok.parameters >= VariableParameters
  }

  datatype TokenError = InvalidNumberOfParameters(parameters: int)

  /** The validating Function constructor. */
  function NewFunction<T>(name: string, parameters: int, operation: OperationKind): (r: Result<Token<T>, TokenError>)
    ensures r.Success? <==> parameters >= VariableParameters
    ensures r.Failure? ==> r.error == InvalidNumberOfParameters(parameters)
    ensures r.Success? ==> ValidToken(r.value) && r.value.Function?
    ensures r.Success? ==> r.value.name == name && r.value.parameters == parameters && r.value.operation == operation
  {
    if parameters < VariableParameters then Failure(InvalidNumberOfParameters(parameters))
    else Success(Function(name, parameters, operation))
  }

  /** Constructor taking a greedy operation. */
  function NewGreedyFunction<T>(name: string, parameters: int): (r: Result<Token<T>, TokenError>)
    ensures r.Success? <==> parameters >= VariableParameters
    ensures r.Failure? ==> r.error == InvalidNumberOfParameters(parameters)
    ensures r.Success? ==> r.value == Function(name, parameters, Greedy)
  {
    NewFunction(name, parameters, Greedy)
  }

  /** Constructor taking a lazy operation. */
  function NewLazyFunction<T>(name: string, parameters: int): (r: Result<Token<T>, TokenError>)
    ensures r.Success? <==> parameters >= VariableParameters
    ensures r.Failure? ==> r.error == InvalidNumberOfParameters(parameters)
    ensures r.Success? ==> r.value == Function(name, parameters, Lazy)
  {
    NewFunction(name, parameters, Lazy)
  }

  /** Variadic constructors: never fail, and always give the sentinel parameter count. */
  function NewVariadicFunction<T>(name: string, operation: OperationKind): (r: Result<Token<T>, TokenError>)
    ensures r.Success? && ValidToken(r.value)
    ensures r.value == Function(name, VariableParameters, operation)
  {
    if operation.Greedy? then NewGreedyFunction(name, VariableParameters)
    else NewLazyFunction(name, VariableParameters)
  }

  // ---------------------------------------------------------------------------
  // Decimal text of an int, as Java's string concatenation writes it.

  predicate IsDigit(c: char) {
    '0' <= c <= '9'
  }

  predicate AllDigits(s: string) {
    forall i :: 0 <= i < |s| ==> IsDigit(s[i])
  }

  function DigitChar(d: nat): (c: char)
    requires d < 10
    ensures IsDigit(c) && c as int - '0' as int == d
  {
    (d + '0' as int) as char
  }

  function NatToString(n: nat): (s: string)
    ensures |s| > 0 && AllDigits(s)
    decreases n
  {
    if n < 10 then [DigitChar(n)] else NatToString(n / 10) + [DigitChar(n % 10)]
  }

  function IntToString(n: int): string {
    if n < 0 then "-" + NatToString(-n) else NatToString(n)
  }

  function ParseNat(s: string): nat
    requires |s| > 0 && AllDigits(s)
    decreases |s|
  {
    var d := s[|s| - 1] as int - '0' as int;
    if |s| == 1 then d else ParseNat(s[..|s| - 1]) * 10 + d
  }

  /** Reads back an optionally negative decimal numeral. */
  function ParseInt(s: string): Option<int> {
    if |s| > 1 && s[0] == '-' && AllDigits(s[1..]) then Some(-(ParseNat(s[1..]) as int))
    else if |s| > 0 && AllDigits(s) then Some(ParseNat(s))
    else None
  }

  lemma {:induction false} ParseNatRoundTrip(n: nat)
    ensures ParseNat(NatToString(n)) == n
    decreases n
  {
    if n >= 10 {
      var s := NatToString(n);
      assert s[..|s| - 1] == NatToString(n / 10);
      ParseNatRoundTrip(n / 10);
    }
  }

  /** The decimal text of an int reads back as the same int. */
  lemma IntToStringRoundTrip(n: int)
    ensures ParseInt(IntToString(n)) == Some(n)
  {
    if n < 0 {
      var s := IntToString(n);
      assert s[1..] == NatToString(-n);
      ParseNatRoundTrip(-n);
    } else {
      ParseNatRoundTrip(n);
    }
  }

  /** Function.toString: `Function{label='<label>', parameters=<n>}`. */
  function FunctionToString<T>(tok: Token<T>): string
    requires tok.Function?
  {
    "Function{label='" + tok.name + "', parameters=" + IntToString(tok.parameters) + "}"
  }

  /**
   * The text of a Function token starts with the fixed prefix, then carries the name
   * verbatim, the fixed separator, a numeral that reads back as the parameter count,
   * and the closing brace: name and count can be recovered from it.
   */
  lemma FunctionToStringDecodes<T>(tok: Token<T>)
    requires tok.Function?
    ensures var s := FunctionToString(tok);
      var k := 16 + |tok.name|;
      && |s| > k + 15
      && s[..16] == "Function{label='"
      && s[16..k] == tok.name
      && s[k..k + 14] == "', parameters="
      && s[|s| - 1] == '}'
      && ParseInt(s[k + 14..|s| - 1]) == Some(tok.parameters)
  {
    var s := FunctionToString(tok);
    var k := 16 + |tok.name|;
    var num := IntToString(tok.parameters);
    assert s == "Function{label='" + tok.name + "', parameters=" + num + "}";
    assert s[k + 14..|s| - 1] == num;
    IntToStringRoundTrip(tok.parameters);
  }
}
