# expr4j expression engine in Dafny

A model of the core of expr4j, a Java library that parses expressions over an arbitrary
operand type `T` into a tree and then evaluates or prints that tree. The model covers:

- **The token model.** Operands, variables, operators and functions. The Function token
  has a validating constructor and the `VARIABLE_PARAMETERS = -1` sentinel (`tokens.dfy`).
- **The tree builder.** `formTree` drains a postfix token stack into an n-ary tree. Each
  token is placed in the most recent child first, then in the node's own free slot.
  `build` clears its working reference whatever happens (`builder.dfy`).
- **The Expression object and its recursive algorithms.** The evaluator (`evaluate`) and
  the printer (`toString`). The object holds the root, its own copy of the constants and
  the operand printer (`expression.dfy`, with `parens.dfy` for balanced parentheses).
- **The older operator registry.** A mutable map from label to properties, seeded with the
  built-in operators, functions and constants. It has `isOperator`, `isFunction`,
  `addFunction` and `removeFunction`, whose failures are checked in a fixed order
  (`repository.dfy`).

Java exceptions and `null` become `Result`, `Outcome` and `Option` values (`wrappers.dfy`).
Operator and function results are given by a semantics parameter
`sem: (Token<T>, seq<T>) -> T`. Operand text is given by a parameter `show: T -> string`.

Main results:

- **Builder round trip.** For every complete tree (each node has exactly its slot count of
  children), building from the tree's postfix token order gives back exactly that tree
  (`Builder.BuildInvertsPostorder`).
- **Builder loop invariant.** The first popped token becomes the root and stays the root.
  On success, every popped token is in the tree exactly once, as a multiset. Children
  never exceed a node's slots.
- **Evaluation.** Evaluation succeeds exactly on trees that have the right child counts and
  only bound variables. Its result depends only on the tree's own variables.
- **Printing.** Printing succeeds exactly on well-shaped trees. It only ever adds
  parentheses in matching pairs. A function prints as its label and its joined argument
  texts.
- **Registry.** Neither registry operation can disturb a predefined entry. Adding a fresh
  function and then removing it restores the map.

Behaviour of the Java code that the model reproduces and that a reader might not expect:

- **Variadic functions.** The Javadoc of `VARIABLE_PARAMETERS` and of the two-argument
  constructors says such a function "supports variable number of parameters"
  (Function.java:37) and that the constructor "creates a function with variable number of
  parameters" (Function.java:97). But `formTree` only adds a child while `size < parameters`
  (ExpressionBuilder.java:83). `evaluate` and `toString` demand `size == parameters`
  (Expression.java:128, 209). With `parameters == -1`, a variadic function node never
  takes a child and never evaluates or prints (`Builder.VariadicFunctionTakesNoChild`,
  `Expressions.VariadicFunctionNeverEvaluates`).
- **Open slots.** The loop of `formTree(Stack)` (ExpressionBuilder.java:109-123) stops when
  the stack is empty and does not reject nodes whose slots are still open. The missing
  operand is only noticed when the tree is evaluated or printed (`Builder.OpenSlotsSurviveBuild`,
  `Expressions.WrongChildCountFails`).
- **Existing user functions.** `addFunction` puts the new entry into the map without
  checking for an existing one (OperatorRepository.java:170). So it silently overwrites a
  user function that is already registered.
- **Removing `+`.** `removeFunction("+")` reports an invalid name. The name-syntax check
  (OperatorRepository.java:181) runs before the "not found" check, so that error comes
  first. `removeFunction("uminus")` reports "not found" (`Repository.RemovalErrorsByName`).

## Model

| member | source | states |
|---|---|---|
| Tokens.NewFunction | src/main/java/in/pratanumandal/expr4j/token/Function.java:63-71 | construction succeeds iff parameters >= -1, else fails with InvalidNumberOfParameters(parameters); a constructed token is valid and stores label, count and operation unchanged |
| Tokens.NewGreedyFunction | src/main/java/in/pratanumandal/expr4j/token/Function.java:80-82 | delegates with the same label and count: succeeds iff count >= -1, giving a greedy function; otherwise fails with InvalidNumberOfParameters(count) |
| Tokens.NewLazyFunction | src/main/java/in/pratanumandal/expr4j/token/Function.java:91-93 | delegates with the same label and count: succeeds iff count >= -1, giving a lazy function; otherwise fails with InvalidNumberOfParameters(count) |
| Tokens.NewVariadicFunction | src/main/java/in/pratanumandal/expr4j/token/Function.java:102-115 | the two-argument constructors never fail and always give parameters == -1 |
| Tokens.FunctionToStringDecodes | src/main/java/in/pratanumandal/expr4j/token/Function.java:141-147 | the text is `Function{label='` + label + `', parameters=` + a numeral + `}`; the label sits verbatim at a known place and the numeral reads back as the parameter count |
| Builder.Insert | src/main/java/in/pratanumandal/expr4j/ExpressionBuilder.java:74-103 | an operand or variable node, and a node whose subtree has no free slot, refuse the token; on success the node keeps its token, grows by exactly one node whose token is the inserted one, and no node gets more children than its slots |
| Builder.InsertTakesFirstOpenSlot | src/main/java/in/pratanumandal/expr4j/ExpressionBuilder.java:80-98 | following first children down from the root, the token becomes a new leaf at index 0 of the deepest node that has a free slot and whose first child is complete; every node on the path above keeps its token and other children |
| Builder.VariadicFunctionTakesNoChild | src/main/java/in/pratanumandal/expr4j/ExpressionBuilder.java:78-86 | a function node with parameters == -1 never accepts a direct child |
| Builder.DrainStackKeeps | src/main/java/in/pratanumandal/expr4j/ExpressionBuilder.java:108-124 | the first popped token becomes the root and stays the root; on success the tree grows by the stack size and its token multiset by exactly the stack's tokens; a failure happens only on a later token with a root in place; children never exceed slots |
| Builder.DrainSplit | src/main/java/in/pratanumandal/expr4j/ExpressionBuilder.java:109-123 | draining a stack is draining its upper part, then, unless that failed, its lower part |
| Builder.BuildInvertsPostorder | src/main/java/in/pratanumandal/expr4j/ExpressionBuilder.java:108-124 | for every complete tree, draining its postfix token order from an empty root succeeds and gives back exactly that tree |
| Builder.RebuiltTreeEvaluatesAlike | src/main/java/in/pratanumandal/expr4j/ExpressionBuilder.java:108-124 | a complete tree rebuilt from its postfix order evaluates exactly as the original does |
| Builder.OpenSlotsSurviveBuild | src/main/java/in/pratanumandal/expr4j/ExpressionBuilder.java:108-124 | building `x +` succeeds with a half-filled `+` node, which evaluation then rejects as an invalid expression |
| Builder.ExpressionBuilder.constructor | src/main/java/in/pratanumandal/expr4j/ExpressionBuilder.java:55-57 | a new builder holds no expression under construction |
| Builder.ExpressionBuilder.FormTree | src/main/java/in/pratanumandal/expr4j/ExpressionBuilder.java:108-124 | the while loop leaves the expression's root and its success flag exactly as the stack-draining specification gives them |
| Builder.ExpressionBuilder.Build | src/main/java/in/pratanumandal/expr4j/ExpressionBuilder.java:133-165 | afterwards the working expression is null on both paths; success iff no token was refused, failure is Invalid expression; the result is a fresh expression over the constants, whose root is the drained tree |
| Expressions.EvaluateAll | src/main/java/in/pratanumandal/expr4j/Expression.java:132-135 | children are evaluated in order 0..n-1: on success there is one operand per child and operand i is child i's value; on failure the error is that of the first failing child, all earlier children having succeeded |
| Expressions.EvaluateSucceedsIff | src/main/java/in/pratanumandal/expr4j/Expression.java:111-161 | evaluation succeeds iff every variable is bound and every function and operator node has exactly its parameter count or arity of children |
| Expressions.EvaluateAllSucceedsIff | src/main/java/in/pratanumandal/expr4j/Expression.java:149-152 | evaluating a child list succeeds iff every child is evaluable |
| Expressions.EvaluateDependsOnlyOnFreeVariables | src/main/java/in/pratanumandal/expr4j/Expression.java:111-161 | two binding maps that agree on the tree's variables give the same result, value or error |
| Expressions.EvaluateAllDependsOnlyOnFreeVariables | src/main/java/in/pratanumandal/expr4j/Expression.java:132-135 | the same for a child list |
| Expressions.ReportedVariableIsMissing | src/main/java/in/pratanumandal/expr4j/Expression.java:113-120 | a "Variable not found" error names a variable that occurs in the tree and is not bound |
| Expressions.VariadicFunctionNeverEvaluates | src/main/java/in/pratanumandal/expr4j/Expression.java:127-130 | a function node with parameters == -1 always fails with Invalid expression |
| Expressions.WrongChildCountFails | src/main/java/in/pratanumandal/expr4j/Expression.java:124-147 | a function or operator node whose child count differs from its parameter count or arity fails with Invalid expression, both when evaluated and when printed |
| Expressions.ImplicitMultiplicationText | src/main/java/in/pratanumandal/expr4j/Expression.java:230-256 | implicit multiplication prints as " * " iff the neighbours are operand and operand, operand and sign, or sign and operand; otherwise as " " |
| Expressions.RenderListJoins | src/main/java/in/pratanumandal/expr4j/Expression.java:213 | a function's argument text is its children's texts joined by ", " |
| Expressions.RenderedFunction | src/main/java/in/pratanumandal/expr4j/Expression.java:205-216 | a function node with the right child count prints as `label(c1, c2, ...)` |
| Expressions.RenderSucceedsIff | src/main/java/in/pratanumandal/expr4j/Expression.java:197-342 | printing succeeds iff every function and operator node has the right child count and implicit multiplication is binary |
| Expressions.RenderListSucceedsIff | src/main/java/in/pratanumandal/expr4j/Expression.java:213 | printing a child list succeeds iff every child is printable |
| Expressions.RenderBalanced | src/main/java/in/pratanumandal/expr4j/Expression.java:197-342 | when no label or operand text holds a parenthesis, every printed expression has balanced parentheses |
| Expressions.Bindings | src/main/java/in/pratanumandal/expr4j/Expression.java:175-176 | the merged map holds every constant and every variable, a variable wins over a constant of the same name, and a null variables map adds nothing |
| Expressions.Expression.constructor | src/main/java/in/pratanumandal/expr4j/Expression.java:89-92 | a new expression has no root and holds the given constants and operand printer |
| Expressions.Expression.EvaluateWith | src/main/java/in/pratanumandal/expr4j/Expression.java:170-179 | a missing root fails with Invalid expression; otherwise evaluation succeeds iff the root is evaluable over the constants plus the variables |
| Expressions.Expression.EvaluateConstants | src/main/java/in/pratanumandal/expr4j/Expression.java:186-188 | evaluating with an empty map is evaluating with a null one: it succeeds iff the root is evaluable over the constants alone |
| Expressions.Expression.ToString | src/main/java/in/pratanumandal/expr4j/Expression.java:347-350 | a missing root fails with a null dereference; otherwise printing succeeds iff the root is printable |
| Expressions.CallerVariablesOverride | src/main/java/in/pratanumandal/expr4j/Expression.java:164-178 | a caller's variable shadows a constant of the same name |
| Expressions.IrrelevantVariablesIgnored | src/main/java/in/pratanumandal/expr4j/Expression.java:175-178 | variables the tree does not mention do not change the result |
| Repository.BinaryPrecedence | src/main/java/tk/pratanumandal/expr4j/OperatorRepository.java:62-79 | seeded priorities: parentheses < `+`,`-` (equal) < `*`,`/`,`%` (equal) < `^` |
| Repository.UnaryPrecedence | src/main/java/tk/pratanumandal/expr4j/OperatorRepository.java:79-116 | `^` < unary minus = unary plus = `sin`, at the function priority 4; every seeded function sits at that priority |
| Repository.CollectNames | src/main/java/tk/pratanumandal/expr4j/OperatorRepository.java:127-133 | the fill loop lists every label of the map exactly once and nothing else |
| Repository.AfterAdd | src/main/java/tk/pratanumandal/expr4j/OperatorRepository.java:165-171 | fails, in this order, with NullName for a null name, InvalidName for a name not matching `[a-zA-Z0-9]+`, NullFunction for a null definition, CannotOverride for a predefined name; succeeds iff none applies, and then the name maps to (parameters, priority 4, function) and every other key keeps its entry |
| Repository.AfterRemove | src/main/java/tk/pratanumandal/expr4j/OperatorRepository.java:179-185 | fails, in this order, with NullName, InvalidName, FunctionNotFound for a name absent or without a function, CannotRemove for a predefined name; succeeds iff none applies, and then exactly that key is gone and every other entry is unchanged |
| Repository.TransitionsKeepProtected | src/main/java/tk/pratanumandal/expr4j/OperatorRepository.java:165-185 | neither operation can change or remove a predefined entry |
| Repository.SeededNamesCannotBeOverridden | src/main/java/tk/pratanumandal/expr4j/OperatorRepository.java:169 | adding a valid predefined name fails with "Cannot override predefined function" |
| Repository.SeededNamesCannotBeRemoved | src/main/java/tk/pratanumandal/expr4j/OperatorRepository.java:182-183 | removing a valid predefined name fails: "Cannot remove" for a predefined function, "Function not found" for a predefined non-function |
| Repository.AddThenRemoveRestores | src/main/java/tk/pratanumandal/expr4j/OperatorRepository.java:170-184 | adding a fresh valid function and removing it again restores the map |
| Repository.RemovalErrorsByName | src/main/java/tk/pratanumandal/expr4j/OperatorRepository.java:179-184 | removing null, `+`, `uminus` and `sin` fails with null name, invalid name, not found and cannot remove respectively |
| Repository.OperatorRepository.constructor | src/main/java/tk/pratanumandal/expr4j/OperatorRepository.java:56-135 | the registry starts as the seeded map, and the predefined list names exactly its labels, each once |
| Repository.OperatorRepository.IsOperator | src/main/java/tk/pratanumandal/expr4j/OperatorRepository.java:143-145 | key membership; every predefined label is an operator while the invariant holds |
| Repository.OperatorRepository.IsFunction | src/main/java/tk/pratanumandal/expr4j/OperatorRepository.java:153-155 | defined only for present labels; a predefined label is a function iff it was seeded with one |
| Repository.OperatorRepository.AddFunction | src/main/java/tk/pratanumandal/expr4j/OperatorRepository.java:165-171 | the outcome and the new map are those of the add transition (checks in addFunction's order); the map is unchanged on failure; the invariant is kept |
| Repository.OperatorRepository.RemoveFunction | src/main/java/tk/pratanumandal/expr4j/OperatorRepository.java:179-185 | the outcome and the new map are those of the remove transition (checks in removeFunction's order); the map is unchanged on failure; the invariant is kept |
| Repository.AddThenRemove | src/main/java/tk/pratanumandal/expr4j/OperatorRepository.java:165-185 | a client that adds a fresh function and removes it leaves the registry map as it found it |

## Left out

- The tokenizer, the shunting-yard parser and `ExpressionDictionary` are not part of this model. The postfix token stack is taken as input.
- The operand hooks are not modelled: `stringToOperand`, the number patterns (ExpressionBuilder.java:182-200) and `reset()`. The builder's constants stand in for the dictionary's constant map.
- The operations carried by functions and operators are not modelled. This covers `evaluateGreedily` and `evaluateLazily`, and the registry's floating-point lambdas (`Math.sin`, `MathExtras`). Their results come from the semantics parameter, so lazy evaluation's selective evaluation of children is not modelled.
- A registry entry keeps only its parameter count, priority and whether it has a function. The `Properties` class and operator associativity are not part of this model.
- The tree is a value: `children.add(0, …)` and the assignment to `expression.root` rebuild the tree rather than update nodes in place. Sharing of `Node` objects between trees is not modelled.
- `Expression.getConstants` is not modelled: it is a read-only view of the constants field.
- The labels of unary plus, unary minus and implicit multiplication are defined in `Operator.java`, which is not part of this model. The model uses three distinct stand-in labels. Comparing labels by reference (Expression.java:268, 286) is modelled as string inequality.
- `Repository.OperatorRepository.IsFunction`: requires the label to be present. The Java method dereferences `null` for an absent label, and it is only ever called after `isOperator` succeeded.
- `PREDEFINED_OPERATORS` is modelled as a sequence whose order is left open, because a `HashMap`'s iteration order is unspecified.
- The registry's static fields are modelled as one object's fields. Static initialisation order is not modelled.
- Parameter counts and priorities are unbounded integers. Java's 32-bit `int` range is not modelled, since no operation here does arithmetic on them.
- Errors thrown by the semantics of a function or operator are not modelled.
