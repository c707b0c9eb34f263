/**
 * The tree builder (ExpressionBuilder.java): tokens are popped off a postfix stack; the
 * first becomes the root and each later one is inserted into the tree, trying the most
 * recently added child first and otherwise taking a free slot of the current node.
 */
module Builder {
  import opened Wrappers
  import opened Tokens
  import opened Expressions

  /**
   * Children the builder lets a node take: the parameter count of a function (none when
   * it is variadic, since no size is below -1), the arity of an operator, none for leaves.
   */
  function Slots<T>(tok: Token<T>): nat {
    match tok
    case Function(_, parameters, _) => if parameters < 0 then 0 else parameters
    case Operator(_, opType) => Arity(opType)
    case _ => 0
  }

  predicate Inner<T>(tok: Token<T>) {
    tok.Function? || tok.Operator?
  }

  function Size<T>(node: Node<T>): nat
    decreases node, 1
  {
    1 + SizeAll(node.children)
  }

  function SizeAll<T>(nodes: seq<Node<T>>): nat
    decreases nodes, 0
  {
    if nodes == [] then 0 else Size(nodes[0]) + SizeAll(nodes[1..])
  }

  /** The tokens of a tree, with multiplicity. */
  ghost function TokenBag<T>(node: Node<T>): multiset<Token<T>>
    decreases node, 1
  {
    multiset{node.token} + TokenBagAll(node.children)
  }

  ghost function TokenBagAll<T>(nodes: seq<Node<T>>): multiset<Token<T>>
    decreases nodes, 0
  {
    if nodes == [] then multiset{} else TokenBag(nodes[0]) + TokenBagAll(nodes[1..])
  }

  /** No node holds more children than it has slots. */
  ghost predicate Bounded<T>(node: Node<T>)
    decreases node
  {
    && |node.children| <= Slots(node.token)
    && forall i :: 0 <= i < |node.children| ==> Bounded(node.children[i])
  }

  /** Every node holds exactly as many children as it has slots. */
  ghost predicate Complete<T>(node: Node<T>)
    decreases node
  {
    && |node.children| == Slots(node.token)
    && forall i :: 0 <= i < |node.children| ==> Complete(node.children[i])
  }

  /**
   * formTree(Node, Token): None when the token finds no place (the Java method's `false`);
   * otherwise the tree with the token added as a new leaf.
   */
  function Insert<T>(node: Node<T>, token: Token<T>): (r: Option<Node<T>>)
    ensures !Inner(node.token) ==> r.None?
    ensures Complete(node) ==> r.None?
    ensures r.Some? ==> r.value.token == node.token && |r.value.children| > 0
    ensures r.Some? ==> Size(r.value) == Size(node) + 1
    ensures r.Some? ==> TokenBag(r.value) == TokenBag(node) + multiset{token}
    ensures r.Some? && Bounded(node) ==> Bounded(r.value)
    decreases node
  {
    if !Inner(node.token) then None
    else
      var placed := if |node.children| > 0 then Insert(node.children[0], token) else None;
      if placed.Some? then
        var cs := [placed.value] + node.children[1..];
        assert cs[1..] == node.children[1..];
        assert forall i :: 1 <= i < |cs| ==> cs[i] == node.children[i];
        Some(Node(node.token, cs))
      else if |node.children| < Slots(node.token) then
        var cs := [Leaf(token)] + node.children;
        assert cs[1..] == node.children;
        assert Size(Leaf(token)) == 1 && TokenBag(Leaf(token)) == multiset{token};
        Some(Node(node.token, cs))
      else None
  }

  /** A variadic function node never takes a child of its own. */
  lemma VariadicFunctionTakesNoChild<T>(tok: Token<T>, token: Token<T>)
    requires tok.Function? && tok.parameters == VariableParameters
    ensures Insert(Leaf(tok), token) == None
  {
  }

  function SizeOf<T>(root: Option<Node<T>>): nat {
    if root.Some? then Size(root.value) else 0
  }

  ghost function TokenBagOf<T>(root: Option<Node<T>>): multiset<Token<T>> {
    if root.Some? then TokenBag(root.value) else multiset{}
  }

  ghost predicate BoundedOf<T>(root: Option<Node<T>>) {
    root.Some? ==> Bounded(root.value)
  }

  lemma LeafFacts<T>(token: Token<T>)
    ensures Size(Leaf(token)) == 1 && TokenBag(Leaf(token)) == multiset{token} && Bounded(Leaf(token))
  {
    assert TokenBagAll<T>([]) == multiset{};
  }

  /** One pop of the loop: the first token becomes the root, later ones are inserted. */
  function Place<T>(root: Option<Node<T>>, token: Token<T>): Option<Node<T>> {
    if root.None? then Some(Leaf(token)) else Insert(root.value, token)
  }

  /** State of the tree when the loop stops: the root as built so far and whether a token was refused. */
  datatype Drained<T> = Drained(root: Option<Node<T>>, failed: bool)

  /**
   * The loop of formTree(Stack): pops from the top (the end of the sequence) until the
   * stack is empty or a token finds no place.
   */
  function DrainStack<T>(root: Option<Node<T>>, stack: seq<Token<T>>): Drained<T>
    decreases |stack|
  {
    if stack == [] then Drained(root, false)
    else
      match Place(root, stack[|stack| - 1])
      case None => Drained(root, true)
      case Some(n) => DrainStack(Some(n), stack[..|stack| - 1])
  }

  /**
   * What the loop guarantees: the first token popped is the root and stays the root; on
   * success every popped token is in the tree exactly once (the node count grows by the
   * stack size); a failure happens only on a later token; children never exceed slots.
   */
  lemma {:induction false} DrainStackKeeps<T>(root: Option<Node<T>>, stack: seq<Token<T>>)
    ensures var d := DrainStack(root, stack);
      && (!d.failed ==> SizeOf(d.root) == SizeOf(root) + |stack|)
      && (!d.failed ==> TokenBagOf(d.root) == TokenBagOf(root) + multiset(stack))
      && (d.failed ==> |stack| > 0 && d.root.Some?)
      && (BoundedOf(root) ==> BoundedOf(d.root))
      && (root.Some? ==> d.root.Some? && d.root.value.token == root.value.token)
      && (root.None? && |stack| > 0 ==> d.root.Some? && d.root.value.token == stack[|stack| - 1])
    decreases |stack|
  {
    if stack != [] {
      var top := stack[|stack| - 1];
      var rest := stack[..|stack| - 1];
      assert stack == rest + [top];
      var placed := Place(root, top);
      if root.None? {
        LeafFacts(top);
      }
      if placed.Some? {
        DrainStackKeeps(placed, rest);
      }
    }
  }

  lemma LastOfConcat<X>(a: seq<X>, b: seq<X>)
    requires b != []
    ensures (a + b)[|a + b| - 1] == b[|b| - 1]
    ensures (a + b)[..|a + b| - 1] == a + b[..|b| - 1]
  {
  }

  /** One pop of the loop on a non-empty stack. */
  lemma DrainStackPop<T>(root: Option<Node<T>>, stack: seq<Token<T>>)
    requires stack != []
    ensures DrainStack(root, stack) ==
      (match Place(root, stack[|stack| - 1])
       case None => Drained(root, true)
       case Some(n) => DrainStack(Some(n), stack[..|stack| - 1]))
  {
  }

  /** The stack is a concatenation: its upper part is drained first, then the lower part. */
  lemma {:induction false} DrainSplit<T>(root: Option<Node<T>>, lower: seq<Token<T>>, upper: seq<Token<T>>)
    ensures DrainStack(root, lower + upper) ==
      (var m := DrainStack(root, upper); if m.failed then m else DrainStack(m.root, lower))
    decreases |upper|
  {
    if upper == [] {
      assert lower + upper == lower;
    } else {
      var top := upper[|upper| - 1];
      var upper' := upper[..|upper| - 1];
      LastOfConcat(lower, upper);
      DrainStackPop(root, lower + upper);
      DrainStackPop(root, upper);
      match Place(root, top)
      case None =>
      case Some(n) => DrainSplit(Some(n), lower, upper');
    }
  }

  // ---------------------------------------------------------------------------
  // The builder inverts the postfix traversal of a complete tree.

  /** Tokens of a tree in postfix order: children left to right, then the node. */
  function Postorder<T>(node: Node<T>): seq<Token<T>>
    decreases node, 1
  {
    PostorderAll(node.children) + [node.token]
  }

  function PostorderAll<T>(nodes: seq<Node<T>>): seq<Token<T>>
    decreases nodes, 0
  {
    if nodes == [] then [] else PostorderAll(nodes[..|nodes| - 1]) + Postorder(nodes[|nodes| - 1])
  }

  /** A node of the tree with a hole in its first child: the path from the root down to the insertion point. */
  datatype Frame<T> = Frame(token: Token<T>, rest: seq<Node<T>>)

  function Fill<T>(k: seq<Frame<T>>, x: Node<T>): Node<T>
    decreases |k|
  {
    if k == [] then x else Node(k[0].token, [Fill(k[1..], x)] + k[0].rest)
  }

  ghost predicate InnerFrames<T>(k: seq<Frame<T>>) {
    forall i :: 0 <= i < |k| ==> Inner(k[i].token)
  }

  lemma {:induction false} FillExtend<T>(k: seq<Frame<T>>, f: Frame<T>, x: Node<T>)
    ensures Fill(k + [f], x) == Fill(k, Node(f.token, [x] + f.rest))
    decreases |k|
  {
    if k != [] {
      assert (k + [f])[1..] == k[1..] + [f];
      FillExtend(k[1..], f, x);
    }
  }

  /** An insertion that succeeds at the hole succeeds, unchanged, through the whole path above it. */
  lemma {:induction false} InsertThroughPath<T>(k: seq<Frame<T>>, x: Node<T>, token: Token<T>)
    requires InnerFrames(k)
    requires Insert(x, token).Some?
    ensures Insert(Fill(k, x), token) == Some(Fill(k, Insert(x, token).value))
    decreases |k|
  {
    if k != [] {
      InsertThroughPath(k[1..], x, token);
    }
  }

  /**
   * Where a token goes: down the chain of first children to the deepest node that still has
   * a free slot and whose first child (if any) is already complete; there it becomes a new
   * leaf in front of the existing children, and every node above is otherwise unchanged.
   */
  lemma InsertTakesFirstOpenSlot<T>(k: seq<Frame<T>>, tok: Token<T>, rest: seq<Node<T>>, t: Token<T>)
    requires InnerFrames(k) && Inner(tok) && |rest| < Slots(tok)
    requires |rest| > 0 ==> Complete(rest[0])
    ensures Insert(Fill(k, Node(tok, rest)), t) == Some(Fill(k, Node(tok, [Leaf(t)] + rest)))
  {
    assert Insert(Node(tok, rest), t) == Some(Node(tok, [Leaf(t)] + rest));
    InsertThroughPath(k, Node(tok, rest), t);
  }

  /**
   * Draining the postfix tokens of a complete tree c, starting from a tree whose insertion
   * point is a node with a free slot and complete children, puts c there as the new first child.
   */
  lemma {:induction false} DrainSubtree<T>(c: Node<T>, k: seq<Frame<T>>, tok: Token<T>, rest: seq<Node<T>>)
    requires Complete(c) && InnerFrames(k) && Inner(tok)
    requires forall i :: 0 <= i < |rest| ==> Complete(rest[i])
    requires |rest| < Slots(tok)
    ensures DrainStack(Some(Fill(k, Node(tok, rest))), Postorder(c))
      == Drained(Some(Fill(k, Node(tok, [c] + rest))), false)
    decreases c, 1
  {
    var start := Fill(k, Node(tok, rest));
    var leaf := Leaf(c.token);
    var placed := Fill(k, Node(tok, [leaf] + rest));
    assert DrainStack(Some(start), [c.token]) == Drained(Some(placed), false) by {
      InsertTakesFirstOpenSlot(k, tok, rest, c.token);
      DrainStackPop(Some(start), [c.token]);
      assert [c.token][..0] == [];
    }
    DrainSplit(Some(start), PostorderAll(c.children), [c.token]);
    if c.children == [] {
      assert c == leaf;
    } else {
      var cs := c.children;
      var k' := k + [Frame(tok, rest)];
      assert Fill(k', leaf) == placed by {
        FillExtend(k, Frame(tok, rest), leaf);
      }
      assert Fill(k', c) == Fill(k, Node(tok, [c] + rest)) by {
        FillExtend(k, Frame(tok, rest), c);
      }
      assert InnerFrames(k');
      WholeSlices(cs);
      DrainChildren(cs, |cs|, k', c.token);
    }
  }

  lemma WholeSlices<X>(s: seq<X>)
    ensures s[|s|..] == [] && s[..|s|] == s
  {
  }

  lemma ConsSlice<X>(s: seq<X>, j: nat)
    requires 0 < j <= |s|
    ensures [s[j - 1]] + s[j..] == s[j - 1..]
  {
  }

  /** The children's postfix tokens, last child first, fill the node's slots right to left. */
  lemma {:induction false} DrainChildren<T>(cs: seq<Node<T>>, j: nat, k: seq<Frame<T>>, tok: Token<T>)
    requires j <= |cs| <= Slots(tok)
    requires forall i :: 0 <= i < |cs| ==> Complete(cs[i])
    requires InnerFrames(k) && Inner(tok)
    ensures DrainStack(Some(Fill(k, Node(tok, cs[j..]))), PostorderAll(cs[..j]))
      == Drained(Some(Fill(k, Node(tok, cs))), false)
    decreases cs, 0, j
  {
    if j == 0 {
      assert cs[0..] == cs;
    } else {
      var c := cs[j - 1];
      var rest := cs[j..];
      var lower := PostorderAll(cs[..j - 1]);
      assert PostorderAll(cs[..j]) == lower + Postorder(c) by {
        var prefix := cs[..j];
        assert prefix[..|prefix| - 1] == cs[..j - 1];
        assert prefix[|prefix| - 1] == c;
      }
      assert forall i :: 0 <= i < |rest| ==> Complete(rest[i]) by {
        forall i | 0 <= i < |rest|
          ensures Complete(rest[i])
        {
          assert rest[i] == cs[j + i];
        }
      }
      DrainSubtree(c, k, tok, rest);
      DrainSplit(Some(Fill(k, Node(tok, rest))), lower, Postorder(c));
      ConsSlice(cs, j);
      DrainChildren(cs, j - 1, k, tok);
    }
  }

  /** Building from the postfix form of a complete tree gives back exactly that tree. */
  lemma BuildInvertsPostorder<T>(t: Node<T>)
    requires Complete(t)
    ensures DrainStack(None, Postorder(t)) == Drained(Some(t), false)
  {
    DrainSplit(None, PostorderAll(t.children), [t.token]);
    if t.children != [] {
      assert t.children[|t.children|..] == [];
      assert t.children[..|t.children|] == t.children;
      DrainChildren(t.children, |t.children|, [], t.token);
    }
  }

  /** Hence a complete tree rebuilt from its postfix form evaluates as the original does. */
  lemma RebuiltTreeEvaluatesAlike<T>(t: Node<T>, vars: map<string, T>, sem: Semantics<T>)
    requires Complete(t)
    ensures var d := DrainStack(None, Postorder(t));
      !d.failed && d.root.Some? && Evaluate(d.root.value, vars, sem) == Evaluate(t, vars, sem)
  {
    BuildInvertsPostorder(t);
  }

  /**
   * The builder does not check that every slot is filled: a binary operator with one
   * operand is built without complaint, and only evaluation rejects it.
   */
  lemma OpenSlotsSurviveBuild<T>(vars: map<string, T>, sem: Semantics<T>)
    ensures var plus: Token<T> := Operator("+", Infix);
      var half := Node(plus, [Leaf(Variable("x"))]);
      && DrainStack(None, [Variable("x"), plus]) == Drained(Some(half), false)
      && Evaluate(half, vars, sem) == Failure(InvalidExpression)
  {
    var plus: Token<T> := Operator("+", Infix);
    var x: Token<T> := Variable("x");
    var s := [x, plus];
    assert s[..|s| - 1] == [x];
    assert Place(None, plus) == Some(Leaf(plus));
    assert DrainStack(None, s) == DrainStack(Some(Leaf(plus)), [x]);
    assert Slots(plus) == 2;
    assert [Leaf(x)] + Leaf(plus).children == [Leaf(x)];
    assert Insert(Leaf(plus), x) == Some(Node(plus, [Leaf(x)]));
    assert [x][..0] == [];
    assert DrainStack(Some(Leaf(plus)), [x]) == DrainStack(Some(Node(plus, [Leaf(x)])), []);
  }

  // ---------------------------------------------------------------------------
  // The builder object

  class ExpressionBuilder<T> {
    /** The expression under construction; null outside build. */
    var expression: Expression?<T>

    /** Constants of the dictionary, copied into each new expression. */
    var constants: map<string, T>

    const show: T -> string

    constructor (constants: map<string, T>, show: T -> string)
      ensures expression == null && this.constants == constants && this.show == show
    {
      this.expression := null;
      this.constants := constants;
      this.show := show;
    }

    /**
     * formTree(Stack): drains the postfix stack into the expression's tree; false stands
     * for the "Invalid expression" exception, raised when a token finds no place.
     */
    method FormTree(postfix: seq<Token<T>>) returns (ok: bool)
      requires expression != null
      modifies expression
      ensures ok == !DrainStack(old(expression.root), postfix).failed
      ensures expression.root == DrainStack(old(expression.root), postfix).root
    {
      var stack := postfix;
      while stack != []
        invariant DrainStack(expression.root, stack) == DrainStack(old(expression.root), postfix)
        decreases |stack|
      {
        var token := stack[|stack| - 1];
        stack := stack[..|stack| - 1];
        if expression.root.None? {
          expression.root := Some(Leaf(token));
        } else {
          var placed := Insert(expression.root.value, token);
          if placed.None? {
            return false;
          }
          expression.root := placed;
        }
      }
      return true;
    }

    /**
     * build: a fresh expression over the dictionary's constants, the tree formed from the
     * postfix stack, and the working reference cleared whether or not the build failed.
     */
    method Build(postfix: seq<Token<T>>) returns (r: Result<Expression<T>, ExprError>)
      modifies this
      ensures expression == null && constants == old(constants)
      ensures r.Success? <==> !DrainStack(None, postfix).failed
      ensures r.Failure? ==> r.error == InvalidExpression
      ensures r.Success? ==> fresh(r.value)
      ensures r.Success? ==> r.value.root == DrainStack(None, postfix).root
      ensures r.Success? ==> r.value.constants == constants && r.value.show == show
    {
      expression := new Expression(constants, show);
      var ok := FormTree(postfix);
      var built := expression;
      expression := null;
      if ok {
        r := Success(built);
      } else {
        r := Failure(InvalidExpression);
      }
    }
  }
}
