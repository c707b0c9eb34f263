/**
 * The operator registry of the older package (tk.pratanumandal.expr4j.OperatorRepository):
 * a mutable map from label to properties, seeded with the built-in operators, functions
 * and constants, whose seeded names are frozen against removal and override.
 */
module Repository {
  import opened Wrappers

  /**
   * What the registry records per label: operand count, priority (higher binds tighter)
   * and whether a function definition is attached. The definition itself is not modelled.
   */
  datatype Properties = Properties(parameters: int, priority: int, hasFunction: bool)

  /** The priority every user-defined function is registered with. */
  const FunctionPriority: int := 4

  function Unary(priority: int): Properties { Properties(1, priority, false) }
  function Binary(priority: int): Properties { Properties(2, priority, false) }
  function MathFunction(parameters: int): Properties { Properties(parameters, FunctionPriority, true) }
  function Constant(): Properties { Properties(0, 5, false) }

  /** The registry as the static initialiser leaves it. */
  function Predefined(): map<string, Properties> {
    map[
      "(" := Unary(0), ")" := Unary(0),
      "," := Properties(0, 0, false),
      "+" := Binary(1), "-" := Binary(1),
      "*" := Binary(2), "/" := Binary(2), "%" := Binary(2),
      "^" := Binary(3),
      "uminus" := Unary(4), "uplus" := Unary(4),
      "abs" := MathFunction(1),
      "sin" := MathFunction(1), "cos" := MathFunction(1), "tan" := MathFunction(1),
      "asin" := MathFunction(1), "acos" := MathFunction(1), "atan" := MathFunction(1),
      "sinh" := MathFunction(1), "cosh" := MathFunction(1), "tanh" := MathFunction(1),
      "asinh" := MathFunction(1), "acosh" := MathFunction(1), "atanh" := MathFunction(1),
      "deg" := MathFunction(1), "rad" := MathFunction(1),
      "round" := MathFunction(1), "floor" := MathFunction(1), "ceil" := MathFunction(1),
      "ln" := MathFunction(1), "log10" := MathFunction(1), "log" := MathFunction(2),
      "sqrt" := MathFunction(1), "cbrt" := MathFunction(1),
      "rand" := Constant(), "pi" := Constant(), "e" := Constant()
    ]
  }

  datatype RepositoryError =
    | NullName
    | InvalidName(name: string)
    | NullFunction
    | CannotOverride(name: string)
    | FunctionNotFound(name: string)
    | CannotRemove(name: string)

  predicate IsAlphanumeric(c: char) {
    ('a' <= c <= 'z') || ('A' <= c <= 'Z') || ('0' <= c <= '9')
  }

  /** A whole-string match of `[a-zA-Z0-9]+`. */
  predicate ValidName(s: string) {
    |s| > 0 && forall i :: 0 <= i < |s| ==> IsAlphanumeric(s[i])
  }

  /**
   * The registry's invariant: the predefined list names exactly the seeded labels, and
   * every seeded label is still present with its seeded properties.
   */
  ghost predicate Protected(ops: map<string, Properties>, predefined: seq<string>) {
    && (forall n :: n in predefined <==> n in Predefined())
    && (forall n :: n in Predefined() ==> n in ops && ops[n] == Predefined()[n])
  }

  /**
   * addFunction as a transition of the registry map; `defined` says whether a function
   * definition (rather than null) was passed. The checks run in addFunction's order:
   * null name, then name syntax, then null definition, then predefined name.
   */
  function AfterAdd(ops: map<string, Properties>, predefined: seq<string>, name: Option<string>,
                    parameters: int, defined: bool): (r: Result<map<string, Properties>, RepositoryError>)
    ensures r.Success? <==> name.Some? && ValidName(name.value) && defined && name.value !in predefined
    ensures r.Success? ==> name.value in r.value && r.value[name.value] == MathFunction(parameters)
    ensures r.Success? ==> r.value.Keys == ops.Keys + {name.value}
    ensures r.Success? ==> forall n :: n in ops && n != name.value ==> r.value[n] == ops[n]
    ensures name.None? ==> r == Failure(NullName)
    ensures name.Some? && !ValidName(name.value) ==> r == Failure(InvalidName(name.value))
    ensures name.Some? && ValidName(name.value) && !defined ==> r == Failure(NullFunction)
    ensures name.Some? && ValidName(name.value) && defined && name.value in predefined ==>
      r == Failure(CannotOverride(name.value))
  {
    if name.None? then Failure(NullName)
    else if !ValidName(name.value) then Failure(InvalidName(name.value))
    else if !defined then Failure(NullFunction)
    else if name.value in predefined then Failure(CannotOverride(name.value))
    else Success(ops[name.value := MathFunction(parameters)])
  }

  /**
   * removeFunction as a transition of the registry map. The checks run in removeFunction's
   * order: null name, then name syntax, then presence as a function, then predefined name.
   */
  function AfterRemove(ops: map<string, Properties>, predefined: seq<string>, name: Option<string>)
    : (r: Result<map<string, Properties>, RepositoryError>)
    ensures r.Success? <==>
      && name.Some? && ValidName(name.value)
      && name.value in ops && ops[name.value].hasFunction
      && name.value !in predefined
    ensures r.Success? ==> r.value.Keys == ops.Keys - {name.value}
    ensures r.Success? ==> forall n :: n in r.value ==> r.value[n] == ops[n]
    ensures name.None? ==> r == Failure(NullName)
    ensures name.Some? && !ValidName(name.value) ==> r == Failure(InvalidName(name.value))
    ensures name.Some? && ValidName(name.value) && (name.value !in ops || !ops[name.value].hasFunction) ==>
      r == Failure(FunctionNotFound(name.value))
    ensures (name.Some? && ValidName(name.value) && name.value in ops && ops[name.value].hasFunction
             && name.value in predefined) ==> r == Failure(CannotRemove(name.value))
  {
    if name.None? then Failure(NullName)
    else if !ValidName(name.value) then Failure(InvalidName(name.value))
    else if name.value !in ops || !ops[name.value].hasFunction then Failure(FunctionNotFound(name.value))
    else if name.value in predefined then Failure(CannotRemove(name.value))
    else Success(ops - {name.value})
  }

  /** Neither transition can disturb a seeded entry. */
  lemma TransitionsKeepProtected(ops: map<string, Properties>, predefined: seq<string>,
                                 name: Option<string>, parameters: int, defined: bool)
    requires Protected(ops, predefined)
    ensures AfterAdd(ops, predefined, name, parameters, defined).Success? ==>
      Protected(AfterAdd(ops, predefined, name, parameters, defined).value, predefined)
    ensures AfterRemove(ops, predefined, name).Success? ==>
      Protected(AfterRemove(ops, predefined, name).value, predefined)
  {
  }

  /** Under the invariant, adding a seeded label that passes the earlier checks is refused as an override. */
  lemma SeededNamesCannotBeOverridden(ops: map<string, Properties>, predefined: seq<string>,
                                      name: string, parameters: int)
    requires Protected(ops, predefined)
    requires name in Predefined() && ValidName(name)
    ensures AfterAdd(ops, predefined, Some(name), parameters, true) == Failure(CannotOverride(name))
  {
  }

  /**
   * Under the invariant, removing a seeded label never succeeds: a seeded function is refused
   * as predefined, while a seeded non-function (like `uminus`) is reported as not found,
   * because the not-found check runs first.
   */
  lemma SeededNamesCannotBeRemoved(ops: map<string, Properties>, predefined: seq<string>, name: string)
    requires Protected(ops, predefined)
    requires name in Predefined() && ValidName(name)
    ensures Predefined()[name].hasFunction ==> AfterRemove(ops, predefined, Some(name)) == Failure(CannotRemove(name))
    ensures !Predefined()[name].hasFunction ==> AfterRemove(ops, predefined, Some(name)) == Failure(FunctionNotFound(name))
  {
  }

  /** Registering a fresh function and removing it again leaves the registry as it was. */
  lemma {:induction false} AddThenRemoveRestores(ops: map<string, Properties>, predefined: seq<string>,
                                                 name: string, parameters: int)
    requires ValidName(name) && name !in ops && name !in predefined
    ensures AfterAdd(ops, predefined, Some(name), parameters, true).Success?
    ensures AfterRemove(AfterAdd(ops, predefined, Some(name), parameters, true).value, predefined, Some(name))
      == Success(ops)
  {
    var added := ops[name := MathFunction(parameters)];
    assert added - {name} == ops;
  }

  /** Which check fires first, on labels of each kind. */
  lemma RemovalErrorsByName(ops: map<string, Properties>, predefined: seq<string>)
    requires Protected(ops, predefined)
    ensures AfterRemove(ops, predefined, Some("+")) == Failure(InvalidName("+"))
    ensures AfterRemove(ops, predefined, Some("uminus")) == Failure(FunctionNotFound("uminus"))
    ensures AfterRemove(ops, predefined, Some("sin")) == Failure(CannotRemove("sin"))
    ensures AfterRemove(ops, predefined, None) == Failure(NullName)
  {
    assert !IsAlphanumeric("+"[0]);
    assert "uminus" in Predefined() && ValidName("uminus");
    SeededNamesCannotBeRemoved(ops, predefined, "uminus");
    assert "sin" in Predefined() && ValidName("sin");
    SeededNamesCannotBeRemoved(ops, predefined, "sin");
  }

  /** Built-in binary precedence: additive below multiplicative below power, parentheses below all. */
  lemma BinaryPrecedence()
    ensures var p := Predefined();
      && p["("].priority < p["+"].priority
      && p["+"].priority == p["-"].priority < p["*"].priority
      && p["*"].priority == p["/"].priority == p["%"].priority < p["^"].priority
  {
    var p := Predefined();
    assert p["("] == Unary(0);
    assert p["+"] == Binary(1) && p["-"] == Binary(1);
    assert p["*"] == Binary(2) && p["/"] == Binary(2) && p["%"] == Binary(2);
    assert p["^"] == Binary(3);
  }

  /** The unary signs and every seeded function bind tighter than power, at the function priority. */
  lemma UnaryPrecedence()
    ensures var p := Predefined();
      && p["^"].priority < p["uminus"].priority == p["uplus"].priority == p["sin"].priority
      && p["uminus"].priority == FunctionPriority
      && forall n :: n in p && p[n].hasFunction ==> p[n].priority == FunctionPriority
  {
    var p := Predefined();
    assert p["^"] == Binary(3);
    assert p["uminus"] == Unary(4) && p["uplus"] == Unary(4);
    assert p["sin"] == MathFunction(1);
  }

  /**
   * The PREDEFINED_OPERATORS fill loop: lists every label of `m` exactly once
   * (in an order the model leaves open, as a HashMap's iteration order is).
   */
  method CollectNames(m: map<string, Properties>) returns (names: seq<string>)
    ensures forall n :: n in names <==> n in m
    ensures forall i, j :: 0 <= i < j < |names| ==> names[i] != names[j]
    ensures |names| == |m.Keys|
  {
    names := [];
    var remaining := m.Keys;
    while remaining != {}
      invariant forall n :: n in m <==> n in names || n in remaining
      invariant forall n :: n in names ==> n !in remaining
      invariant forall i, j :: 0 <= i < j < |names| ==> names[i] != names[j]
      invariant |names| + |remaining| == |m.Keys|
      decreases |remaining|
    {
      var k :| k in remaining;
      names := names + [k];
      remaining := remaining - {k};
    }
  }

  /** The registry object: the OPERATORS map, which changes, and the frozen predefined list. */
  class OperatorRepository {
    var operators: map<string, Properties>
    const predefined: seq<string>

    ghost predicate Valid()
      reads this
    {
      Protected(operators, predefined)
    }

    /** The static initialiser: seed the map, then list its labels as the predefined ones. */
    constructor ()
      ensures operators == Predefined()
      ensures forall n :: n in predefined <==> n in Predefined()
      ensures |predefined| == |Predefined().Keys|
      ensures Valid()
    {
      var names := CollectNames(Predefined());
      operators := Predefined();
      predefined := names;
    }

    /** isOperator: the label is registered; every seeded label is, while the invariant holds. */
    function IsOperator(op: string): (r: bool)
      reads this
      ensures Valid() && op in Predefined() ==> r
    {
      op in operators
    }

    /** isFunction: the registered label carries a function definition (absent labels are not allowed). */
    function IsFunction(op: string): (r: bool)
      reads this
      requires op in operators
      ensures Valid() && op in Predefined() ==> (r <==> Predefined()[op].hasFunction)
    {
      operators[op].hasFunction
    }

    /** addFunction; `definition` stands for the possibly-null function object. */
    method AddFunction<F>(name: Option<string>, parameters: int, definition: Option<F>)
      returns (r: Outcome<RepositoryError>)
      modifies this`operators
      ensures var next := AfterAdd(old(operators), predefined, name, parameters, definition.Some?);
        && (next.Success? ==> r.Pass? && operators == next.value)
        && (next.Failure? ==> r == Fail(next.error) && operators == old(operators))
      ensures old(Valid()) ==> Valid()
    {
      if Valid() {
        TransitionsKeepProtected(operators, predefined, name, parameters, definition.Some?);
      }
      if name.None? {
        return Fail(NullName);
      }
      var key := name.value;
      if !ValidName(key) {
        return Fail(InvalidName(key));
      }
      if definition.None? {
        return Fail(NullFunction);
      }
      if key in predefined {
        return Fail(CannotOverride(key));
      }
      operators := operators[key := MathFunction(parameters)];
      r := Pass;
    }

    /** removeFunction. */
    method RemoveFunction(name: Option<string>) returns (r: Outcome<RepositoryError>)
      modifies this`operators
      ensures var next := AfterRemove(old(operators), predefined, name);
        && (next.Success? ==> r.Pass? && operators == next.value)
        && (next.Failure? ==> r == Fail(next.error) && operators == old(operators))
      ensures old(Valid()) ==> Valid()
    {
      if Valid() {
        TransitionsKeepProtected(operators, predefined, name, 0, false);
      }
      if name.None? {
        return Fail(NullName);
      }
      var key := name.value;
      if !ValidName(key) {
        return Fail(InvalidName(key));
      }
      if !IsOperator(key) || !IsFunction(key) {
        return Fail(FunctionNotFound(key));
      }
      if key in predefined {
        return Fail(CannotRemove(key));
      }
      operators := operators - {key};
      r := Pass;
    }
  }

  /** A client registering a fresh function and removing it finds the registry unchanged. */
  method AddThenRemove(repo: OperatorRepository, name: string, parameters: int) returns (ok: bool)
    requires ValidName(name) && name !in repo.operators && name !in repo.predefined
    modifies repo
    ensures ok && repo.operators == old(repo.operators)
  {
    AddThenRemoveRestores(repo.operators, repo.predefined, name, parameters);
    var added := repo.AddFunction(Some(name), parameters, Some(0));
    var removed := repo.RemoveFunction(Some(name));
    ok := added.Pass? && removed.Pass?;
  }
}
