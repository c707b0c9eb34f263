/**
 * The parsed expression (Expression.java): the tree of nodes, the recursive evaluator,
 * the recursive printer, and the Expression object holding the root and the constants.
 */
module Expressions {
  import opened Wrappers
  import opened Tokens
  import opened Parens

  /** A tree node; operand and variable nodes carry no children. */
  datatype Node<T> = Node(token: Token<T>, children: seq<Node<T>>)

  function Leaf<T>(token: Token<T>): Node<T> {
    Node(token, [])
  }

  datatype ExprError =
    | VariableNotFound(name: string)
    | InvalidExpression
    | IndexOutOfBounds
    | NullPointer

  /** What a function or operator token computes from its evaluated operands. */
  type Semantics<!T> = (Token<T>, seq<T>) -> T

  /**
   * Number of children the evaluator and the printer demand of a function or operator
   * node: the declared parameter count (so a variadic function matches no count at all),
   * or the operator's arity.
   */
  function Required<T>(tok: Token<T>): int
    requires tok.Function? || tok.Operator?
  {
    if tok.Function? then tok.parameters else Arity(tok.opType)
  }

  // ---------------------------------------------------------------------------
  // Evaluation

  function Evaluate<T>(node: Node<T>, vars: map<string, T>, sem: Semantics<T>): Result<T, ExprError>
    decreases node, 1
  {
    match node.token
    case Variable(name) =>
      if name in vars then Success(vars[name]) else Failure(VariableNotFound(name))
    case Operand(v) => Success(v)
    case _ =>
      if |node.children| != Required(node.token) then Failure(InvalidExpression)
      else match EvaluateAll(node.children, vars, sem)
        case Failure(e) => Failure(e)
        case Success(args) => Success(sem(node.token, args))
  }

  /**
   * Evaluates the children in order 0..n-1; the first failing child's error is the
   * result, otherwise operand i is the value of child i.
   */
  function EvaluateAll<T>(nodes: seq<Node<T>>, vars: map<string, T>, sem: Semantics<T>): (r: Result<seq<T>, ExprError>)
    ensures r.Success? ==> |r.value| == |nodes|
    ensures r.Success? ==> forall i :: 0 <= i < |nodes| ==> Evaluate(nodes[i], vars, sem) == Success(r.value[i])
    ensures r.Failure? ==> exists i ::
      && 0 <= i < |nodes|
      && Evaluate(nodes[i], vars, sem) == Failure(r.error)
      && (forall j :: 0 <= j < i ==> Evaluate(nodes[j], vars, sem).Success?)
    decreases nodes, 0
  {
    if nodes == [] then Success([])
    else match Evaluate(nodes[0], vars, sem)
      case Failure(e) => Failure(e)
      case Success(v) =>
        match EvaluateAll(nodes[1..], vars, sem)
        case Failure(e) =>
          ghost var i :| 0 <= i < |nodes[1..]| && Evaluate(nodes[1..][i], vars, sem) == Failure(e)
            && forall j :: 0 <= j < i ==> Evaluate(nodes[1..][j], vars, sem).Success?;
          assert forall j :: 0 <= j < i + 1 ==> Evaluate(nodes[j], vars, sem).Success? by {
            forall j | 0 <= j < i + 1
              ensures Evaluate(nodes[j], vars, sem).Success?
            {
              if j > 0 {
                assert nodes[j] == nodes[1..][j - 1];
              }
            }
          }
          assert Evaluate(nodes[i + 1], vars, sem) == Failure(e);
          Failure(e)
        case Success(vs) => Success([v] + vs)
  }

  /** A function or operator node with the wrong number of children is an invalid expression, both to evaluate and to print. */
  lemma WrongChildCountFails<T>(node: Node<T>, vars: map<string, T>, sem: Semantics<T>, show: T -> string)
    requires node.token.Function? || node.token.Operator?
    requires |node.children| != Required(node.token)
    ensures Evaluate(node, vars, sem) == Failure(InvalidExpression)
    ensures Render(node, show) == Failure(InvalidExpression)
  {
  }

  /** Independent description of the trees the evaluator accepts under a set of bound names. */
  ghost predicate Evaluable<T>(node: Node<T>, bound: set<string>)
    decreases node
  {
    match node.token
    case Variable(name) => name in bound
    case Operand(_) => true
    case _ =>
      && |node.children| == Required(node.token)
      && forall i :: 0 <= i < |node.children| ==> Evaluable(node.children[i], bound)
  }

  /** Evaluation succeeds exactly on evaluable trees. */
  lemma {:induction false} EvaluateSucceedsIff<T>(node: Node<T>, vars: map<string, T>, sem: Semantics<T>)
    ensures Evaluate(node, vars, sem).Success? <==> Evaluable(node, vars.Keys)
    decreases node, 1
  {
    match node.token
    case Variable(_) =>
    case Operand(_) =>
    case _ =>
      if |node.children| == Required(node.token) {
        EvaluateAllSucceedsIff(node.children, vars, sem);
      }
  }

  lemma {:induction false} EvaluateAllSucceedsIff<T>(nodes: seq<Node<T>>, vars: map<string, T>, sem: Semantics<T>)
    ensures EvaluateAll(nodes, vars, sem).Success? <==> forall i :: 0 <= i < |nodes| ==> Evaluable(nodes[i], vars.Keys)
    decreases nodes, 0
  {
    if nodes != [] {
      EvaluateSucceedsIff(nodes[0], vars, sem);
      EvaluateAllSucceedsIff(nodes[1..], vars, sem);
      assert forall i :: 1 <= i < |nodes| ==> nodes[i] == nodes[1..][i - 1];
    }
  }

  /** Names of the variables that occur in a tree. */
  function FreeVariables<T>(node: Node<T>): set<string>
    decreases node, 1
  {
    match node.token
    case Variable(name) => {name}
    case Operand(_) => {}
    case _ => FreeVariablesAll(node.children)
  }

  function FreeVariablesAll<T>(nodes: seq<Node<T>>): set<string>
    decreases nodes, 0
  {
    if nodes == [] then {} else FreeVariables(nodes[0]) + FreeVariablesAll(nodes[1..])
  }

  ghost predicate AgreeOn<T>(a: map<string, T>, b: map<string, T>, names: set<string>) {
    forall x :: x in names ==> (x in a <==> x in b) && (x in a ==> a[x] == b[x])
  }

  /** The result, value or error, depends only on the bindings of the tree's own variables. */
  lemma {:induction false} EvaluateDependsOnlyOnFreeVariables<T>(node: Node<T>, a: map<string, T>, b: map<string, T>, sem: Semantics<T>)
    requires AgreeOn(a, b, FreeVariables(node))
    ensures Evaluate(node, a, sem) == Evaluate(node, b, sem)
    decreases node, 1
  {
    match node.token
    case Variable(_) =>
    case Operand(_) =>
    case _ =>
      EvaluateAllDependsOnlyOnFreeVariables(node.children, a, b, sem);
  }

  lemma {:induction false} EvaluateAllDependsOnlyOnFreeVariables<T>(nodes: seq<Node<T>>, a: map<string, T>, b: map<string, T>, sem: Semantics<T>)
    requires AgreeOn(a, b, FreeVariablesAll(nodes))
    ensures EvaluateAll(nodes, a, sem) == EvaluateAll(nodes, b, sem)
    decreases nodes, 0
  {
    if nodes != [] {
      EvaluateDependsOnlyOnFreeVariables(nodes[0], a, b, sem);
      EvaluateAllDependsOnlyOnFreeVariables(nodes[1..], a, b, sem);
    }
  }

  lemma {:induction false} FreeVariablesAllContains<T>(nodes: seq<Node<T>>, i: nat)
    requires i < |nodes|
    ensures FreeVariables(nodes[i]) <= FreeVariablesAll(nodes)
    decreases i
  {
    if i > 0 {
      FreeVariablesAllContains(nodes[1..], i - 1);
    }
  }

  /** A "variable not found" error names a variable that occurs in the tree and is unbound. */
  lemma {:induction false} ReportedVariableIsMissing<T>(node: Node<T>, vars: map<string, T>, sem: Semantics<T>)
    ensures var r := Evaluate(node, vars, sem);
      r.Failure? && r.error.VariableNotFound? ==> r.error.name in FreeVariables(node) && r.error.name !in vars
    decreases node, 1
  {
    match node.token
    case Variable(_) =>
    case Operand(_) =>
    case _ =>
      ReportedVariableIsMissingAll(node.children, vars, sem);
  }

  lemma {:induction false} ReportedVariableIsMissingAll<T>(nodes: seq<Node<T>>, vars: map<string, T>, sem: Semantics<T>)
    ensures var r := EvaluateAll(nodes, vars, sem);
      r.Failure? && r.error.VariableNotFound? ==> r.error.name in FreeVariablesAll(nodes) && r.error.name !in vars
    decreases nodes, 0
  {
    var r := EvaluateAll(nodes, vars, sem);
    if r.Failure? && r.error.VariableNotFound? {
      var i :| 0 <= i < |nodes| && Evaluate(nodes[i], vars, sem) == Failure(r.error);
      ReportedVariableIsMissing(nodes[i], vars, sem);
      FreeVariablesAllContains(nodes, i);
    }
  }

  /** A variadic function node matches no child count, so it never evaluates. */
  lemma VariadicFunctionNeverEvaluates<T>(node: Node<T>, vars: map<string, T>, sem: Semantics<T>)
    requires node.token.Function? && node.token.parameters == VariableParameters
    ensures Evaluate(node, vars, sem) == Failure(InvalidExpression)
  {
  }

  // ---------------------------------------------------------------------------
  // Printing

  /** Spacing for implicit multiplication: an explicit " * " only next to an operand and an operand or sign. */
  function ImplicitMultiplicationText<T>(left: Token<T>, right: Token<T>): (s: string)
    ensures s == " * " || s == " "
    ensures s == " * " <==>
      || (left.Operand? && right.Operand?)
      || (left.Operand? && right.Operator? && IsSign(right.name))
      || (left.Operator? && IsSign(left.name) && right.Operand?)
  {
    if left.Operand? && right.Operand? then " * "
    else if left.Operand? && right.Operator? then (if IsSign(right.name) then " * " else " ")
    else if left.Operator? && right.Operand? then (if IsSign(left.name) then " * " else " ")
    else " "
  }

  /** The text printed for an operator: bare sign, implicit-multiplication spacing, " op " or the label. */
  function OperatorText<T>(name: string, arity: nat, children: seq<Node<T>>): string
    requires name == ImplicitMultiplication ==> |children| >= 2
  {
    if name == UnaryPlus then "+"
    else if name == UnaryMinus then "-"
    else if name == ImplicitMultiplication then ImplicitMultiplicationText(children[0].token, children[1].token)
    else if arity == 2 then " " + name + " "
    else name
  }

  /** An operand of a binary operator is parenthesised when it is itself an explicit infix operator. */
  predicate NeedsGrouping<T>(tok: Token<T>) {
    tok.Operator? && tok.name != ImplicitMultiplication && IsInfix(tok.opType)
  }

  function Grouped<T>(tok: Token<T>, s: string): string {
    if NeedsGrouping(tok) then "(" + s + ")" else s
  }

  /** Placement of a unary operator's text around its rendered operand s. */
  function UnaryText<T>(name: string, shown: string, opType: OperatorType, child: Token<T>, s: string): string {
    if IsSign(name) then
      if child.Operator? then
        if child.opType == Prefix then shown + s else shown + "(" + s + ")"
      else shown + s
    else if child.Operator? || child.Function? then
      if opType == Prefix then shown + "(" + s + ")" else "(" + s + ") " + shown
    else if opType == Prefix then shown + " " + s
    else s + " " + shown
  }

  function Render<T>(node: Node<T>, show: T -> string): Result<string, ExprError>
    decreases node, 1
  {
    match node.token
    case Variable(name) => Success(name)
    case Operand(v) => Success(show(v))
    case Function(name, parameters, _) =>
      if |node.children| != parameters then Failure(InvalidExpression)
      else (match RenderList(node.children, show)
        case Failure(e) => Failure(e)
        case Success(s) => Success(name + "(" + s + ")"))
    case Operator(name, opType) =>
      var n := Arity(opType);
      if |node.children| != n then Failure(InvalidExpression)
      else if name == ImplicitMultiplication && n < 2 then Failure(IndexOutOfBounds)
      else
        var shown := OperatorText(name, n, node.children);
        if n == 2 then
          match Render(node.children[0], show)
          case Failure(e) => Failure(e)
          case Success(l) =>
            match Render(node.children[1], show)
            case Failure(e) => Failure(e)
            case Success(r) =>
              Success(Grouped(node.children[0].token, l) + shown + Grouped(node.children[1].token, r))
        else
          match Render(node.children[0], show)
          case Failure(e) => Failure(e)
          case Success(s) => Success(UnaryText(name, shown, opType, node.children[0].token, s))
  }

  /** The children's texts joined by ", ", the first failing child's error otherwise. */
  function RenderList<T>(nodes: seq<Node<T>>, show: T -> string): Result<string, ExprError>
    decreases nodes, 0
  {
    if nodes == [] then Success("")
    else match Render(nodes[0], show)
      case Failure(e) => Failure(e)
      case Success(h) =>
        if |nodes| == 1 then Success(h)
        else match RenderList(nodes[1..], show)
          case Failure(e) => Failure(e)
          case Success(t) => Success(h + ", " + t)
  }

  /** Texts separated by sep, built up from the last text backwards. */
  function Join(parts: seq<string>, sep: string): string
    decreases |parts|
  {
    if parts == [] then ""
    else if |parts| == 1 then parts[0]
    else Join(parts[..|parts| - 1], sep) + sep + parts[|parts| - 1]
  }

  lemma {:induction false} JoinFront(parts: seq<string>, sep: string)
    requires |parts| >= 2
    ensures Join(parts, sep) == parts[0] + sep + Join(parts[1..], sep)
    decreases |parts|
  {
    var init := parts[..|parts| - 1];
    if |parts| > 2 {
      JoinFront(init, sep);
      assert init[1..] == parts[1..][..|parts[1..]| - 1];
    } else {
      assert init == [parts[0]];
    }
  }

  /** The function printer's argument list: the children's texts joined by ", ". */
  lemma {:induction false} RenderListJoins<T>(nodes: seq<Node<T>>, show: T -> string, texts: seq<string>)
    requires |texts| == |nodes|
    requires forall i :: 0 <= i < |nodes| ==> Render(nodes[i], show) == Success(texts[i])
    ensures RenderList(nodes, show) == Success(Join(texts, ", "))
    decreases |nodes|
  {
    if |nodes| >= 2 {
      RenderListJoins(nodes[1..], show, texts[1..]);
      JoinFront(texts, ", ");
    }
  }

  /** A function node prints as `label(c1, c2, ...)`. */
  lemma RenderedFunction<T>(node: Node<T>, show: T -> string, texts: seq<string>)
    requires node.token.Function? && |node.children| == node.token.parameters
    requires |texts| == |node.children|
    requires forall i :: 0 <= i < |texts| ==> Render(node.children[i], show) == Success(texts[i])
    ensures Render(node, show) == Success(node.token.name + "(" + Join(texts, ", ") + ")")
  {
    RenderListJoins(node.children, show, texts);
  }

  /**
   * A binary operator other than implicit multiplication prints as `left op right`, each
   * side parenthesised exactly when it is itself an explicit infix operator.
   */
  lemma RenderedBinaryOperator<T>(node: Node<T>, show: T -> string, left: string, right: string)
    requires node.token.Operator? && IsInfix(node.token.opType) && |node.children| == 2
    requires !IsSign(node.token.name) && node.token.name != ImplicitMultiplication
    requires Render(node.children[0], show) == Success(left) && Render(node.children[1], show) == Success(right)
    ensures var l := node.children[0].token;
      var r := node.children[1].token;
      Render(node, show) == Success(
        (if NeedsGrouping(l) then "(" + left + ")" else left)
        + " " + node.token.name + " "
        + (if NeedsGrouping(r) then "(" + right + ")" else right))
  {
    var name := node.token.name;
    var gl := Grouped(node.children[0].token, left);
    var gr := Grouped(node.children[1].token, right);
    assert OperatorText(name, 2, node.children) == " " + name + " ";
    assert Render(node, show) == Success(gl + (" " + name + " ") + gr);
    assert gl + (" " + name + " ") + gr == gl + " " + name + " " + gr;
  }

  /**
   * A unary operator's text: a sign prints as "+" or "-" directly before its operand
   * (parenthesised only when the operand is an operator that is not prefix); any other label goes
   * before (prefix) or after (postfix) its operand, which is parenthesised when it is an
   * operator or function and set apart by a space otherwise.
   */
  lemma RenderedUnaryOperator<T>(node: Node<T>, show: T -> string, operand: string)
    requires node.token.Operator? && !IsInfix(node.token.opType) && |node.children| == 1
    requires node.token.name != ImplicitMultiplication
    requires Render(node.children[0], show) == Success(operand)
    ensures var name := node.token.name;
      var child := node.children[0].token;
      var sign := if name == UnaryPlus then "+" else "-";
      var prefix := node.token.opType == Prefix;
      var text := Render(node, show);
      && (IsSign(name) && (!child.Operator? || child.opType == Prefix) ==> text == Success(sign + operand))
      && (IsSign(name) && child.Operator? && child.opType != Prefix ==> text == Success(sign + "(" + operand + ")"))
      && (!IsSign(name) && (child.Operator? || child.Function?) ==>
            text == Success(if prefix then name + "(" + operand + ")" else "(" + operand + ") " + name))
      && (!IsSign(name) && (child.Operand? || child.Variable?) ==>
            text == Success(if prefix then name + " " + operand else operand + " " + name))
  {
  }

  /** Independent description of the trees the printer accepts. */
  ghost predicate Printable<T>(node: Node<T>)
    decreases node
  {
    match node.token
    case Variable(_) => true
    case Operand(_) => true
    case Function(_, parameters, _) =>
      && |node.children| == parameters
      && forall i :: 0 <= i < |node.children| ==> Printable(node.children[i])
    case Operator(name, opType) =>
      && |node.children| == Arity(opType)
      && (name == ImplicitMultiplication ==> IsInfix(opType))
      && forall i :: 0 <= i < |node.children| ==> Printable(node.children[i])
  }

  /** Printing succeeds exactly on printable trees. */
  lemma {:induction false} RenderSucceedsIff<T>(node: Node<T>, show: T -> string)
    ensures Render(node, show).Success? <==> Printable(node)
    decreases node, 1
  {
    match node.token
    case Variable(_) =>
    case Operand(_) =>
    case Function(_, _, _) =>
      if |node.children| == Required(node.token) {
        RenderListSucceedsIff(node.children, show);
      }
    case Operator(_, opType) =>
      if |node.children| == Required(node.token) && (node.token.name == ImplicitMultiplication ==> IsInfix(opType)) {
        RenderSucceedsIff(node.children[0], show);
        if Arity(opType) == 2 {
          RenderSucceedsIff(node.children[1], show);
        }
      }
  }

  lemma {:induction false} RenderListSucceedsIff<T>(nodes: seq<Node<T>>, show: T -> string)
    ensures RenderList(nodes, show).Success? <==> forall i :: 0 <= i < |nodes| ==> Printable(nodes[i])
    decreases nodes, 0
  {
    if nodes != [] {
      RenderSucceedsIff(nodes[0], show);
      RenderListSucceedsIff(nodes[1..], show);
      assert forall i :: 1 <= i < |nodes| ==> nodes[i] == nodes[1..][i - 1];
    }
  }

  /** Every label and operand text in the tree is free of parentheses. */
  ghost predicate AtomsParenFree<T>(node: Node<T>, show: T -> string)
    decreases node
  {
    && (match node.token
        case Operand(v) => ParenFree(show(v))
        case Variable(name) => ParenFree(name)
        case Operator(name, _) => ParenFree(name)
        case Function(name, _, _) => ParenFree(name))
    && forall i :: 0 <= i < |node.children| ==> AtomsParenFree(node.children[i], show)
  }

  lemma BalancedGrouped<T>(tok: Token<T>, s: string)
    requires Balanced(s)
    ensures Balanced(Grouped(tok, s))
  {
    if NeedsGrouping(tok) {
      BalancedWrap(s);
    }
  }

  /**
   * The printer only ever adds parentheses in matching pairs: when no label or operand
   * text contains a parenthesis, every printed expression is balanced.
   */
  lemma {:induction false} RenderBalanced<T>(node: Node<T>, show: T -> string)
    requires AtomsParenFree(node, show)
    ensures Render(node, show).Success? ==> Balanced(Render(node, show).value)
    decreases node, 1
  {
    var r := Render(node, show);
    if r.Success? {
      match node.token
      case Variable(name) =>
        ParenFreeBalanced(name);
      case Operand(v) =>
        ParenFreeBalanced(show(v));
      case Function(name, _, _) =>
        var s := RenderList(node.children, show).value;
        RenderListBalanced(node.children, show);
        ParenFreeBalanced(name);
        BalancedWrap(s);
        BalancedConcat(name, "(" + s + ")");
        assert r.value == name + ("(" + s + ")");
      case Operator(name, opType) =>
        var n := Arity(opType);
        var shown := OperatorText(name, n, node.children);
        ParenFreeBalanced(name);
        ParenFreeBalanced(" " + name + " ");
        ParenFreeBalanced(" * ");
        ParenFreeBalanced(" ");
        ParenFreeBalanced("+");
        ParenFreeBalanced("-");
        assert Balanced(shown);
        var c0 := node.children[0];
        RenderBalanced(c0, show);
        var s0 := Render(c0, show).value;
        if n == 2 {
          var c1 := node.children[1];
          RenderBalanced(c1, show);
          var s1 := Render(c1, show).value;
          BalancedGrouped(c0.token, s0);
          BalancedGrouped(c1.token, s1);
          BalancedJoin3(Grouped(c0.token, s0), shown, Grouped(c1.token, s1));
        } else {
          BalancedUnaryText(name, shown, opType, c0.token, s0);
        }
    }
  }

  lemma BalancedUnaryText<T>(name: string, shown: string, opType: OperatorType, child: Token<T>, s: string)
    requires Balanced(shown) && Balanced(s)
    ensures Balanced(UnaryText(name, shown, opType, child, s))
  {
    var w := "(" + s + ")";
    BalancedWrap(s);
    ParenFreeBalanced(" ");
    var u := UnaryText(name, shown, opType, child, s);
    if u == shown + s {
      BalancedConcat(shown, s);
    } else if u == shown + "(" + s + ")" {
      assert u == shown + w;
      BalancedConcat(shown, w);
    } else if u == "(" + s + ") " + shown {
      assert u == w + " " + shown;
      BalancedJoin3(w, " ", shown);
    } else if u == shown + " " + s {
      BalancedJoin3(shown, " ", s);
    } else {
      assert u == s + " " + shown;
      BalancedJoin3(s, " ", shown);
    }
  }

  lemma {:induction false} RenderListBalanced<T>(nodes: seq<Node<T>>, show: T -> string)
    requires forall i :: 0 <= i < |nodes| ==> AtomsParenFree(nodes[i], show)
    ensures RenderList(nodes, show).Success? ==> Balanced(RenderList(nodes, show).value)
    decreases nodes, 0
  {
    if nodes == [] {
      ParenFreeBalanced("");
    } else if RenderList(nodes, show).Success? {
      RenderBalanced(nodes[0], show);
      if |nodes| > 1 {
        assert forall i :: 0 <= i < |nodes[1..]| ==> nodes[1..][i] == nodes[i + 1];
        RenderListBalanced(nodes[1..], show);
        ParenFreeBalanced(", ");
        BalancedJoin3(Render(nodes[0], show).value, ", ", RenderList(nodes[1..], show).value);
      }
    }
  }

  // ---------------------------------------------------------------------------
  // The Expression object

  /** Constants overlaid with the caller's variables; an absent (null) variables map adds nothing. */
  function Bindings<T>(constants: map<string, T>, variables: Option<map<string, T>>): (b: map<string, T>)
    ensures variables.None? ==> b == constants
    ensures variables.Some? ==> b.Keys == constants.Keys + variables.value.Keys
    ensures variables.Some? ==> forall x :: x in variables.value ==> b[x] == variables.value[x]
    ensures forall x :: x in constants && (variables.None? || x !in variables.value) ==> x in b && b[x] == constants[x]
  {
    if variables.Some? then constants + variables.value else constants
  }

  class Expression<T> {
    /** Root of the tree; None until the builder has placed the first token. */
    var root: Option<Node<T>>

    /** The expression's own copy of the constants, taken at construction. */
    const constants: map<string, T>

    /** Conversion of an operand to text. */
    const show: T -> string

    constructor (constants: map<string, T>, show: T -> string)
      ensures root == None
      ensures this.constants == constants && this.show == show
    {
      this.root := None;
      this.constants := constants;
      this.show := show;
    }

    /** evaluate(Map): fails on an empty expression, otherwise evaluates the root over the merged bindings. */
    function EvaluateWith(variables: Option<map<string, T>>, sem: Semantics<T>): (r: Result<T, ExprError>)
      reads this
      ensures root.None? ==> r == Failure(InvalidExpression)
      ensures r.Success? <==> root.Some? && Evaluable(root.value, Bindings(constants, variables).Keys)
    {
      if root.None? then Failure(InvalidExpression)
      else
        EvaluateSucceedsIff(root.value, Bindings(constants, variables), sem);
        Evaluate(root.value, Bindings(constants, variables), sem)
    }

    /** evaluate(): constants only. */
    function EvaluateConstants(sem: Semantics<T>): (r: Result<T, ExprError>)
      reads this
      ensures r == EvaluateWith(None, sem)
      ensures r.Success? <==> root.Some? && Evaluable(root.value, constants.Keys)
    {
      assert constants + map[] == constants;
      EvaluateWith(Some(map[]), sem)
    }

    /** toString(): dereferencing a missing root fails; otherwise the printed root. */
    function ToString(): (r: Result<string, ExprError>)
      reads this
      ensures root.None? ==> r == Failure(NullPointer)
      ensures r.Success? <==> root.Some? && Printable(root.value)
    {
      if root.None? then Failure(NullPointer)
      else
        RenderSucceedsIff(root.value, show);
        Render(root.value, show)
    }
  }

  /**
   * A caller's variable shadows a constant of the same name, and variables that the tree
   * does not mention leave the result unchanged.
   */
  lemma CallerVariablesOverride<T>(e: Expression<T>, variables: map<string, T>, sem: Semantics<T>, x: string)
    requires e.root.Some? && e.root.value.token == Variable(x)
    requires x in variables
    ensures e.EvaluateWith(Some(variables), sem) == Success(variables[x])
  {
  }

  lemma IrrelevantVariablesIgnored<T>(e: Expression<T>, variables: map<string, T>, sem: Semantics<T>)
    requires e.root.Some?
    requires variables.Keys !! FreeVariables(e.root.value)
    ensures e.EvaluateWith(Some(variables), sem) == e.EvaluateWith(None, sem)
  {
    EvaluateDependsOnlyOnFreeVariables(e.root.value, Bindings(e.constants, Some(variables)), e.constants, sem);
  }
}
