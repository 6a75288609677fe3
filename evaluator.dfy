/**
 * `evaluate` and its special forms (etoiletoi-kt/src/main/kotlin/lisp.kt:83-150,
 * 260-340), `LispLambda.invoke` (lines 69-76) and `eval` (lines 38-40).
 *
 * Evaluation threads the store of frames: `define` and `set!` change a frame
 * in place in the source, so every step returns the store it leaves behind,
 * also when it fails (what a step changed before an exception stays changed).
 * The source evaluates without any bound and can recurse until the stack
 * overflows; here every nested `evaluate` costs one unit of `fuel`, and
 * running out gives `Exhausted`.
 */
module Evaluator {
  import opened Wrappers
  import opened LispValues
  import opened Environments
  import Parser

  datatype Outcome = Outcome(res: Result<Value>, store: Store)

  /** `st'` keeps every frame of `st`: the same parent and at least the same names. */
  predicate Extends(st: Store, st': Store) {
    |st| <= |st'| &&
    forall f :: 0 <= f < |st| ==> st'[f].parent == st[f].parent && st[f].values.Keys <= st'[f].values.Keys
  }

  /** The names `evaluate` dispatches on before it looks anything up. */
  predicate IsSpecialForm(name: string) {
    name in {"quote", "if", "define", "lambda", "set!", "+"}
  }

  /** `evaluate(expr, env)`. */
  function Eval(fuel: nat, expr: Value, env: FrameId, st: Store): (out: Outcome)
    requires env < |st|
    ensures Extends(st, out.store)
    decreases fuel, 0
  {
    if fuel == 0 then Outcome(Err(Exhausted), st)
    else match expr
      case Symbol(name) =>
        (match Get(st, env, name)
         case Some(v) => Outcome(Ok(v), st)
         case None => Outcome(Err(Lisp(UnboundSymbol(name))), st))
      case Number(_) => Outcome(Ok(expr), st)
      case List(items) =>
        if |items| == 0 then Outcome(Err(Lisp(EmptyList)), st)
        else
          var head, operands := items[0], items[1..];
          (match head
           case Symbol(name) =>
             if name == "quote" then Outcome(EvalQuote(operands), st)
             else if name == "if" then EvalIf(fuel - 1, operands, env, st)
             else if name == "define" then EvalDefine(fuel - 1, operands, env, st)
             else if name == "lambda" then Outcome(EvalLambda(operands, env), st)
             else if name == "set!" then EvalSet(fuel - 1, operands, env, st)
             else if name == "+" then EvalSum(fuel - 1, operands, env, st, 0)
             else
               // `evaluate(head, env)` on a Symbol is a lookup
               (match Get(st, env, name)
                case None => Outcome(Err(Lisp(UnboundSymbol(name))), st)
                case Some(Lambda(params, body, captured)) => Invoke(fuel - 1, params, body, captured, operands, st)
                case Some(_) => Outcome(Err(Lisp(NotAFunction(name))), st))
           case Lambda(params, body, captured) =>
             // `operands.subList(1, operands.size)`: one more operand is dropped
             if |operands| < 1 then Outcome(Err(Host(IllegalArgument)), st)
             else Invoke(fuel - 1, params, body, captured, operands[1..], st)
           case _ => Outcome(Err(Lisp(InvalidExpression)), st))
      case _ => Outcome(Err(Lisp(InvalidExpression)), st)
  }

  /** `evalQuote`. */
  function EvalQuote(operands: seq<Value>): (r: Result<Value>)
    ensures r.Ok? <==> |operands| == 1
    ensures r.Ok? ==> r.value == operands[0]
    ensures r.Err? ==> r.error == Lisp(QuoteArity)
  {
    if |operands| != 1 then Err(Lisp(QuoteArity)) else Ok(operands[0])
  }

  /** `evalLambda`: the parameter list is not checked element by element. */
  function EvalLambda(operands: seq<Value>, env: FrameId): (r: Result<Value>)
    ensures r.Ok? <==> |operands| == 2 && operands[0].List?
    ensures r.Ok? ==> r.value == Lambda(operands[0].items, operands[1], env)
    ensures r.Err? ==> r.error == Lisp(if |operands| != 2 then LambdaArity else InvalidArgumentList)
  {
    if |operands| != 2 then Err(Lisp(LambdaArity))
    else if !operands[0].List? then Err(Lisp(InvalidArgumentList))
    else Ok(Lambda(operands[0].items, operands[1], env))
  }

  /** `evalIf`: only `Bool(false)` selects the else-branch. */
  function EvalIf(fuel: nat, operands: seq<Value>, env: FrameId, st: Store): (out: Outcome)
    requires env < |st|
    ensures Extends(st, out.store)
    decreases fuel, 1
  {
    if |operands| != 3 then Outcome(Err(Lisp(IfArity)), st)
    else
      var cond := Eval(fuel, operands[0], env, st);
      if cond.res.Err? then cond
      else if cond.res.value != Bool(false) then Eval(fuel, operands[1], env, cond.store)
      else Eval(fuel, operands[2], env, cond.store)
  }

  /** `evalDefine`. */
  function EvalDefine(fuel: nat, operands: seq<Value>, env: FrameId, st: Store): (out: Outcome)
    requires env < |st|
    ensures Extends(st, out.store)
    decreases fuel, 1
  {
    if |operands| != 2 then Outcome(Err(Lisp(DefineArity)), st)
    else if !operands[0].Symbol? then Outcome(Err(Lisp(DefineNeedsSymbol)), st)
    else
      var value := Eval(fuel, operands[1], env, st);
      if value.res.Err? then value
      else Outcome(value.res, Define(value.store, env, operands[0].name, value.res.value))
  }

  /** `evalSet`: the name must be bound in the current frame, checked before the value is evaluated. */
  function EvalSet(fuel: nat, operands: seq<Value>, env: FrameId, st: Store): (out: Outcome)
    requires env < |st|
    ensures Extends(st, out.store)
    decreases fuel, 1
  {
    if |operands| != 2 then Outcome(Err(Lisp(SetArity)), st)
    else if !operands[0].Symbol? then Outcome(Err(Lisp(SetNeedsSymbol)), st)
    else if !IsDefined(st, env, operands[0].name) then Outcome(Err(Lisp(SetNotDefined(operands[0].name))), st)
    else
      var value := Eval(fuel, operands[1], env, st);
      if value.res.Err? then value
      else match Set(value.store, env, operands[0].name, value.res.value)
        case Ok(st') => Outcome(value.res, st')
        case Err(e) => Outcome(Err(e), value.store)
  }

  /**
   * `evalSum` with `sum` added up so far: evaluates the operands left to
   * right; each result must be a Number.
   */
  function EvalSum(fuel: nat, operands: seq<Value>, env: FrameId, st: Store, sum: int): (out: Outcome)
    requires env < |st|
    ensures Extends(st, out.store)
    ensures out.res.Ok? ==> out.res.value.Number?
    decreases fuel, 1 + |operands|
  {
    if |operands| == 0 then Outcome(Ok(Number(sum)), st)
    else
      var first := Eval(fuel, operands[0], env, st);
      if first.res.Err? then first
      else if !first.res.value.Number? then Outcome(Err(Host(ClassCast)), first.store)
      else EvalSum(fuel, operands[1..], env, first.store, sum + first.res.value.n)
  }

  /**
   * The frame `invoke` fills from the first `k` parameters: each must be a
   * Symbol and is bound to the operand at its position, unevaluated.
   */
  function Bindings(params: seq<Value>, args: seq<Value>, k: nat): Result<map<string, Value>>
    requires k <= |params|
  {
    if k == 0 then Ok(map[])
    else match Bindings(params, args, k - 1)
      case Err(e) => Err(e)
      case Ok(frame) =>
        if !params[k - 1].Symbol? then Err(Host(ClassCast))
        else if k - 1 >= |args| then Err(Host(IndexOutOfBounds))
        else Ok(frame[params[k - 1].name := args[k - 1]])
  }

  /**
   * `LispLambda.invoke`: one new frame whose parent is the captured frame,
   * holding the parameters bound to the raw operands; the body is evaluated there.
   */
  function Invoke(fuel: nat, params: seq<Value>, body: Value, captured: FrameId, args: seq<Value>, st: Store): (out: Outcome)
    ensures Extends(st, out.store)
    decreases fuel, 1
  {
    match Bindings(params, args, |params|)
    case Err(e) => Outcome(Err(e), st)
    case Ok(frame) => Eval(fuel, body, |st|, NewFrame(st, Some(captured), frame))
  }

  /** `eval(program, env)`: parse, then evaluate. */
  function Run(fuel: nat, program: string, env: FrameId, st: Store): (out: Outcome)
    requires env < |st|
    ensures Extends(st, out.store)
  {
    match Parser.Parse(program)
    case Err(e) => Outcome(Err(e), st)
    case Ok(expr) => Eval(fuel, expr, env, st)
  }

  /**
   * The loop of `LispLambda.invoke` that fills the new frame, one
   * `define` per parameter, stopping at the first crash.
   */
  method BindParameters(params: seq<Value>, args: seq<Value>) returns (r: Result<map<string, Value>>)
    ensures r == Bindings(params, args, |params|)
  {
    var frame: map<string, Value> := map[];
    var index := 0;
    while index < |params|
      invariant 0 <= index <= |params|
      invariant Bindings(params, args, index) == Ok(frame)
    {
      if !params[index].Symbol? {
        BindingsFailureSticks(params, args, index + 1, |params|);
        return Err(Host(ClassCast));
      }
      if index >= |args| {
        BindingsFailureSticks(params, args, index + 1, |params|);
        return Err(Host(IndexOutOfBounds));
      }
      frame := frame[params[index].name := args[index]];
      index := index + 1;
    }
    return Ok(frame);
  }

  /** Once binding has crashed, binding more parameters reports the same crash. */
  lemma {:induction false} BindingsFailureSticks(params: seq<Value>, args: seq<Value>, k: nat, k': nat)
    requires k <= k' <= |params|
    requires Bindings(params, args, k).Err?
    ensures Bindings(params, args, k') == Bindings(params, args, k)
    decreases k'
  {
    if k' > k {
      BindingsFailureSticks(params, args, k, k' - 1);
    }
  }

  /**
   * Binding succeeds exactly when every parameter is a Symbol and there are
   * at least as many operands; otherwise the host crashes with a cast or an
   * index error.
   */
  lemma {:induction false} BindingsSucceed(params: seq<Value>, args: seq<Value>, k: nat)
    requires k <= |params|
    ensures Bindings(params, args, k).Ok? <==> (forall i :: 0 <= i < k ==> params[i].Symbol?) && k <= |args|
    ensures Bindings(params, args, k).Err? ==> Bindings(params, args, k).error in {Host(ClassCast), Host(IndexOutOfBounds)}
  {
    if k > 0 {
      BindingsSucceed(params, args, k - 1);
    }
  }

  /** A successful binding holds exactly the parameter names. */
  lemma {:induction false} BindingsNames(params: seq<Value>, args: seq<Value>, k: nat)
    requires k <= |params| && k <= |args| && forall i :: 0 <= i < k ==> params[i].Symbol?
    ensures Bindings(params, args, k).Ok?
    ensures Bindings(params, args, k).value.Keys == set i | 0 <= i < k :: params[i].name
  {
    if k > 0 {
      BindingsNames(params, args, k - 1);
      assert (set i | 0 <= i < k :: params[i].name) == (set i | 0 <= i < k - 1 :: params[i].name) + {params[k - 1].name};
    }
  }

  /** Each name is bound to the operand at the position of its last occurrence among the parameters. */
  lemma {:induction false} BindingsLastWins(params: seq<Value>, args: seq<Value>, k: nat, i: nat)
    requires i < k <= |params| && k <= |args| && forall j :: 0 <= j < k ==> params[j].Symbol?
    requires forall j :: i < j < k ==> params[j] != params[i]
    ensures Bindings(params, args, k).Ok? && params[i].name in Bindings(params, args, k).value
    ensures Bindings(params, args, k).value[params[i].name] == args[i]
  {
    BindingsSucceed(params, args, k);
    if i < k - 1 {
      BindingsLastWins(params, args, k - 1, i);
      assert params[k - 1] != params[i];
      assert params[k - 1].name != params[i].name;
    }
  }

  /** The sum of a list of numerals. */
  function Total(ops: seq<Value>): int
    requires forall i :: 0 <= i < |ops| ==> ops[i].Number?
  {
    if |ops| == 0 then 0 else ops[0].n + Total(ops[1..])
  }

  /** `+` over numerals adds them up and leaves the store alone, given one unit of fuel per operand. */
  lemma {:induction false} SumOfNumerals(fuel: nat, ops: seq<Value>, env: FrameId, st: Store, sum: int)
    requires env < |st| && fuel >= 1
    requires forall i :: 0 <= i < |ops| ==> ops[i].Number?
    ensures EvalSum(fuel, ops, env, st, sum) == Outcome(Ok(Number(sum + Total(ops))), st)
    decreases |ops|
  {
    if |ops| > 0 {
      SumOfNumerals(fuel, ops[1..], env, st, sum + ops[0].n);
    }
  }

  /**
   * Special forms are recognised before any lookup: `(+ n1 ... nk)` adds the
   * numerals whatever `+` is bound to in the environment.
   */
  lemma PlusIsSpecial(fuel: nat, ops: seq<Value>, env: FrameId, st: Store)
    requires env < |st| && fuel >= 2
    requires forall i :: 0 <= i < |ops| ==> ops[i].Number?
    ensures Eval(fuel, List([Symbol("+")] + ops), env, st) == Outcome(Ok(Number(Total(ops))), st)
  {
    assert ([Symbol("+")] + ops)[1..] == ops;
    SumOfNumerals(fuel - 1, ops, env, st, 0);
  }

  /**
   * `+` works through its operands in order: the sum over `ops` is the sum
   * over the first `k`, continued over the rest from the store and the total
   * that prefix leaves, unless the prefix already failed.
   */
  lemma {:induction false} SumSplits(fuel: nat, ops: seq<Value>, k: nat, env: FrameId, st: Store, sum: int)
    requires env < |st| && k <= |ops|
    ensures var pre := EvalSum(fuel, ops[..k], env, st, sum);
      EvalSum(fuel, ops, env, st, sum) ==
        if pre.res.Err? then pre else EvalSum(fuel, ops[k..], env, pre.store, pre.res.value.n)
    decreases k
  {
    if k == 0 {
      assert ops[..0] == [] && ops[0..] == ops;
    } else {
      var first := Eval(fuel, ops[0], env, st);
      assert ops[..k][0] == ops[0] && ops[..k][1..] == ops[1..][..k - 1];
      if first.res.Ok? && first.res.value.Number? {
        SumSplits(fuel, ops[1..], k - 1, env, first.store, sum + first.res.value.n);
        assert ops[1..][k - 1..] == ops[k..];
      }
    }
  }

  /**
   * The first `+` operand that evaluates to something other than a Number
   * crashes the host with a failed cast: the store is the one that operand
   * left, so the operands after it are never evaluated.
   */
  lemma SumStopsAtNonNumber(fuel: nat, ops: seq<Value>, k: nat, env: FrameId, st: Store)
    requires env < |st| && fuel >= 1 && k < |ops|
    requires EvalSum(fuel - 1, ops[..k], env, st, 0).res.Ok?
    requires var v := Eval(fuel - 1, ops[k], env, EvalSum(fuel - 1, ops[..k], env, st, 0).store);
      v.res.Ok? && !v.res.value.Number?
    ensures Eval(fuel, List([Symbol("+")] + ops), env, st)
      == Outcome(Err(Host(ClassCast)), Eval(fuel - 1, ops[k], env, EvalSum(fuel - 1, ops[..k], env, st, 0).store).store)
  {
    assert ([Symbol("+")] + ops)[1..] == ops;
    SumSplits(fuel - 1, ops, k, env, st, 0);
    assert ops[k..][0] == ops[k];
  }

  /** `(quote e)` yields `e` unevaluated, whatever it holds. */
  lemma QuoteReturnsOperand(fuel: nat, e: Value, env: FrameId, st: Store)
    requires env < |st| && fuel >= 1
    ensures Eval(fuel, List([Symbol("quote"), e]), env, st) == Outcome(Ok(e), st)
  {
    assert [Symbol("quote"), e][1..] == [e];
  }

  /**
   * `(define name e)` evaluates `e`, then binds its value in the current
   * frame, whether or not an ancestor binds `name`, and yields that value;
   * `name` then looks up to it. When `e` fails, nothing is bound.
   */
  lemma DefineBindsInCurrentFrame(fuel: nat, name: string, e: Value, env: FrameId, st: Store)
    requires env < |st| && fuel >= 1
    ensures var value := Eval(fuel - 1, e, env, st);
      var out := Eval(fuel, List([Symbol("define"), Symbol(name), e]), env, st);
      if value.res.Err? then out == value
      else out == Outcome(value.res, Define(value.store, env, name, value.res.value)) &&
           Get(out.store, env, name) == Some(value.res.value)
  {
    var ops := [Symbol(name), e];
    assert [Symbol("define"), Symbol(name), e][1..] == ops;
    assert Eval(fuel, List([Symbol("define"), Symbol(name), e]), env, st) == EvalDefine(fuel - 1, ops, env, st);
    var value := Eval(fuel - 1, e, env, st);
    if value.res.Ok? {
      DefineIsLocal(value.store, env, name, value.res.value, env, name);
    }
  }

  /**
   * `(set! name e)` needs `name` in the current frame, and checks that before
   * it evaluates `e`: when the current frame lacks `name` (even if an
   * ancestor binds it) the form fails at once and nothing changes, whatever
   * `e` would do; otherwise it evaluates `e` and overwrites that binding.
   */
  lemma SetNeedsCurrentFrame(fuel: nat, name: string, e: Value, env: FrameId, st: Store)
    requires env < |st| && fuel >= 1
    ensures var out := Eval(fuel, List([Symbol("set!"), Symbol(name), e]), env, st);
      var value := Eval(fuel - 1, e, env, st);
      if !IsDefined(st, env, name) then
        out == Outcome(Err(Lisp(SetNotDefined(name))), st)
      else if value.res.Err? then
        out == value
      else
        out == Outcome(value.res, Define(value.store, env, name, value.res.value))
  {
    var ops := [Symbol(name), e];
    assert [Symbol("set!"), Symbol(name), e][1..] == ops;
    assert Eval(fuel, List([Symbol("set!"), Symbol(name), e]), env, st) == EvalSet(fuel - 1, ops, env, st);
  }

  /**
   * `define` and `set!` need a Symbol as their first operand, and `lambda` a
   * List: otherwise they fail before evaluating anything.
   */
  lemma FormsCheckFirstOperand(fuel: nat, x: Value, e: Value, env: FrameId, st: Store)
    requires env < |st| && fuel >= 1
    ensures !x.Symbol? ==> Eval(fuel, List([Symbol("define"), x, e]), env, st) == Outcome(Err(Lisp(DefineNeedsSymbol)), st)
    ensures !x.Symbol? ==> Eval(fuel, List([Symbol("set!"), x, e]), env, st) == Outcome(Err(Lisp(SetNeedsSymbol)), st)
    ensures !x.List? ==> Eval(fuel, List([Symbol("lambda"), x, e]), env, st) == Outcome(Err(Lisp(InvalidArgumentList)), st)
  {
    assert [Symbol("define"), x, e][1..] == [x, e];
    assert [Symbol("set!"), x, e][1..] == [x, e];
    assert [Symbol("lambda"), x, e][1..] == [x, e];
  }

  /**
   * `if` takes its else-branch only when the condition yields `Bool(false)`;
   * every other value, numbers and the empty list included, selects the
   * then-branch.
   */
  lemma IfSelectsOnFalseOnly(fuel: nat, c: Value, t: Value, e: Value, env: FrameId, st: Store)
    requires env < |st| && fuel >= 2
    ensures var cond := Eval(fuel - 1, c, env, st);
      var out := Eval(fuel, List([Symbol("if"), c, t, e]), env, st);
      if cond.res.Err? then out == cond
      else if cond.res.value == Bool(false) then out == Eval(fuel - 1, e, env, cond.store)
      else out == Eval(fuel - 1, t, env, cond.store)
  {
    assert [Symbol("if"), c, t, e][1..] == [c, t, e];
    assert Eval(fuel, List([Symbol("if"), c, t, e]), env, st) == EvalIf(fuel - 1, [c, t, e], env, st);
  }

  /**
   * A call binds the parameters to the operands as written, not to their
   * values: a closure returning its parameter returns the operand itself,
   * here an unevaluated symbol.
   */
  lemma OperandsPassedUnevaluated(fuel: nat, f: string, x: string, arg: Value, c: FrameId, env: FrameId, st: Store)
    requires env < |st| && c < |st| && fuel >= 2 && !IsSpecialForm(f)
    requires Get(st, env, f) == Some(Lambda([Symbol(x)], Symbol(x), c))
    ensures Eval(fuel, List([Symbol(f), arg]), env, st)
      == Outcome(Ok(arg), st + [Frame(map[x := arg], Some(c))])
  {
    assert [Symbol(f), arg][1..] == [arg];
    assert Eval(fuel, List([Symbol(f), arg]), env, st) == Invoke(fuel - 1, [Symbol(x)], Symbol(x), c, [arg], st);
    assert Bindings([Symbol(x)], [arg], 1) == Ok(map[x := arg]);
    var st' := st + [Frame(map[x := arg], Some(c))];
    assert Eval(fuel - 1, Symbol(x), |st|, st') == Outcome(Ok(arg), st');
  }

  /**
   * A closure resolves its free names when it runs, in the frame it was
   * created in: a parameterless closure whose body is `name` yields whatever
   * that frame's chain binds to `name` at call time.
   */
  lemma ClosureLooksUpAtCallTime(fuel: nat, f: string, name: string, c: FrameId, env: FrameId, st: Store)
    requires env < |st| && c < |st| && fuel >= 2 && !IsSpecialForm(f)
    requires Get(st, env, f) == Some(Lambda([], Symbol(name), c))
    ensures var out := Eval(fuel, List([Symbol(f)]), env, st);
      out.store == st + [Frame(map[], Some(c))] &&
      match Get(st, c, name)
      case Some(v) => out.res == Ok(v)
      case None => out.res == Err(Lisp(UnboundSymbol(name)))
  {
    var st' := st + [Frame(map[], Some(c))];
    assert [Symbol(f)][1..] == [];
    assert Eval(fuel, List([Symbol(f)]), env, st) == Invoke(fuel - 1, [], Symbol(name), c, [], st);
    assert Bindings([], [], 0) == Ok(map[]);
    assert Invoke(fuel - 1, [], Symbol(name), c, [], st) == Eval(fuel - 1, Symbol(name), |st|, st');
    assert Get(st', |st|, name) == Get(st', c, name);
    assert Get(st', c, name) == Get(st, c, name) by {
      GetOfPrefix(st, st', c, name);
    }
  }

  /** Appending frames does not change any lookup from a frame already there. */
  lemma {:induction false} GetOfPrefix(st: Store, st': Store, f: FrameId, name: string)
    requires f < |st| <= |st'| && st'[..|st|] == st
    ensures Get(st', f, name) == Get(st, f, name)
    decreases f
  {
    assert st'[f] == st[f];
    match st[f].parent
    case Some(p) =>
      if p < f {
        GetOfPrefix(st, st', p, name);
      }
    case None =>
  }

  /**
   * Fuel bounds only the depth of evaluation, never its result: once an
   * evaluation finishes within some fuel, any larger fuel gives the same
   * value and the same store.
   */
  lemma {:induction false} EvalMonotone(fuel: nat, more: nat, expr: Value, env: FrameId, st: Store)
    requires env < |st| && fuel <= more
    requires Eval(fuel, expr, env, st).res != Err(Exhausted)
    ensures Eval(more, expr, env, st) == Eval(fuel, expr, env, st)
    decreases fuel, 0
  {
    if expr.List? && |expr.items| > 0 {
      var head, operands := expr.items[0], expr.items[1..];
      match head
      case Symbol(name) =>
        if name == "if" {
          IfMonotone(fuel - 1, more - 1, operands, env, st);
        } else if name == "define" {
          DefineMonotone(fuel - 1, more - 1, operands, env, st);
        } else if name == "set!" {
          SetMonotone(fuel - 1, more - 1, operands, env, st);
        } else if name == "+" {
          SumMonotone(fuel - 1, more - 1, operands, env, st, 0);
        } else if name != "quote" && name != "lambda" {
          match Get(st, env, name)
          case Some(Lambda(params, body, captured)) =>
            InvokeMonotone(fuel - 1, more - 1, params, body, captured, operands, st);
          case _ =>
        }
      case Lambda(params, body, captured) =>
        if |operands| >= 1 {
          InvokeMonotone(fuel - 1, more - 1, params, body, captured, operands[1..], st);
        }
      case _ =>
    }
  }

  lemma {:induction false} IfMonotone(fuel: nat, more: nat, operands: seq<Value>, env: FrameId, st: Store)
    requires env < |st| && fuel <= more
    requires EvalIf(fuel, operands, env, st).res != Err(Exhausted)
    ensures EvalIf(more, operands, env, st) == EvalIf(fuel, operands, env, st)
    decreases fuel, 1
  {
    if |operands| == 3 {
      var cond := Eval(fuel, operands[0], env, st);
      EvalMonotone(fuel, more, operands[0], env, st);
      if cond.res.Ok? {
        if cond.res.value != Bool(false) {
          EvalMonotone(fuel, more, operands[1], env, cond.store);
        } else {
          EvalMonotone(fuel, more, operands[2], env, cond.store);
        }
      }
    }
  }

  lemma {:induction false} DefineMonotone(fuel: nat, more: nat, operands: seq<Value>, env: FrameId, st: Store)
    requires env < |st| && fuel <= more
    requires EvalDefine(fuel, operands, env, st).res != Err(Exhausted)
    ensures EvalDefine(more, operands, env, st) == EvalDefine(fuel, operands, env, st)
    decreases fuel, 1
  {
    if |operands| == 2 && operands[0].Symbol? {
      EvalMonotone(fuel, more, operands[1], env, st);
    }
  }

  lemma {:induction false} SetMonotone(fuel: nat, more: nat, operands: seq<Value>, env: FrameId, st: Store)
    requires env < |st| && fuel <= more
    requires EvalSet(fuel, operands, env, st).res != Err(Exhausted)
    ensures EvalSet(more, operands, env, st) == EvalSet(fuel, operands, env, st)
    decreases fuel, 1
  {
    if |operands| == 2 && operands[0].Symbol? && IsDefined(st, env, operands[0].name) {
      EvalMonotone(fuel, more, operands[1], env, st);
    }
  }

  lemma {:induction false} SumMonotone(fuel: nat, more: nat, operands: seq<Value>, env: FrameId, st: Store, sum: int)
    requires env < |st| && fuel <= more
    requires EvalSum(fuel, operands, env, st, sum).res != Err(Exhausted)
    ensures EvalSum(more, operands, env, st, sum) == EvalSum(fuel, operands, env, st, sum)
    decreases fuel, 1 + |operands|
  {
    if |operands| > 0 {
      var first := Eval(fuel, operands[0], env, st);
      EvalMonotone(fuel, more, operands[0], env, st);
      if first.res.Ok? && first.res.value.Number? {
        SumMonotone(fuel, more, operands[1..], env, first.store, sum + first.res.value.n);
      }
    }
  }

  lemma {:induction false} InvokeMonotone(fuel: nat, more: nat, params: seq<Value>, body: Value, captured: FrameId, args: seq<Value>, st: Store)
    requires fuel <= more
    requires Invoke(fuel, params, body, captured, args, st).res != Err(Exhausted)
    ensures Invoke(more, params, body, captured, args, st) == Invoke(fuel, params, body, captured, args, st)
    decreases fuel, 1
  {
    match Bindings(params, args, |params|)
    case Ok(frame) =>
      EvalMonotone(fuel, more, body, |st|, st + [Frame(frame, Some(captured))]);
    case Err(_) =>
  }

  /** A value with no `Bool` anywhere inside it, closures' parameters and bodies included. */
  predicate BoolFree(v: Value) {
    match v
    case Bool(_) => false
    case List(items) => forall i :: 0 <= i < |items| ==> BoolFree(items[i])
    case Lambda(params, body, _) => (forall i :: 0 <= i < |params| ==> BoolFree(params[i])) && BoolFree(body)
    case _ => true
  }

  /** Every value bound in every frame is free of `Bool`. */
  predicate StoreBoolFree(st: Store) {
    forall f, name :: 0 <= f < |st| && name in st[f].values ==> BoolFree(st[f].values[name])
  }

  /**
   * No expression can produce a `Bool` unless one is already there: the
   * reader has no syntax for booleans and no form or builtin creates one.
   */
  lemma {:induction false} EvalBoolFree(fuel: nat, expr: Value, env: FrameId, st: Store)
    requires env < |st| && BoolFree(expr) && StoreBoolFree(st)
    ensures var out := Eval(fuel, expr, env, st);
      StoreBoolFree(out.store) && (out.res.Ok? ==> BoolFree(out.res.value))
    decreases fuel, 0
  {
    if fuel > 0 {
      match expr
      case Symbol(name) =>
        GetBoolFree(st, env, name);
      case List(items) =>
        if |items| > 0 {
          var head, operands := items[0], items[1..];
          assert forall i :: 0 <= i < |operands| ==> BoolFree(operands[i]) by {
            forall i | 0 <= i < |operands| ensures BoolFree(operands[i]) {
              assert operands[i] == items[i + 1];
            }
          }
          match head
          case Symbol(name) =>
            if name == "if" {
              IfBoolFree(fuel - 1, operands, env, st);
            } else if name == "define" {
              DefineBoolFree(fuel - 1, operands, env, st);
            } else if name == "set!" {
              SetBoolFree(fuel - 1, operands, env, st);
            } else if name == "+" {
              SumBoolFree(fuel - 1, operands, env, st, 0);
            } else if name != "quote" && name != "lambda" {
              GetBoolFree(st, env, name);
              match Get(st, env, name)
              case Some(Lambda(params, body, captured)) =>
                InvokeBoolFree(fuel - 1, params, body, captured, operands, st);
              case _ =>
            }
          case Lambda(params, body, captured) =>
            if |operands| >= 1 {
              assert forall i :: 0 <= i < |operands[1..]| ==> operands[1..][i] == operands[i + 1];
              InvokeBoolFree(fuel - 1, params, body, captured, operands[1..], st);
            }
          case _ =>
        }
      case _ =>
    }
  }

  /** A lookup in a store without `Bool` finds no `Bool`. */
  lemma {:induction false} GetBoolFree(st: Store, f: FrameId, name: string)
    requires f < |st| && StoreBoolFree(st)
    ensures Get(st, f, name).Some? ==> BoolFree(Get(st, f, name).value)
    decreases f
  {
    if name !in st[f].values {
      match st[f].parent
      case Some(p) =>
        if p < f {
          GetBoolFree(st, p, name);
        }
      case None =>
    }
  }

  /** Binding a value without `Bool` keeps the store free of `Bool`. */
  lemma DefineKeepsStoreBoolFree(st: Store, f: FrameId, name: string, v: Value)
    requires f < |st| && StoreBoolFree(st) && BoolFree(v)
    ensures StoreBoolFree(Define(st, f, name, v))
  {
  }

  lemma {:induction false} IfBoolFree(fuel: nat, operands: seq<Value>, env: FrameId, st: Store)
    requires env < |st| && StoreBoolFree(st)
    requires forall i :: 0 <= i < |operands| ==> BoolFree(operands[i])
    ensures var out := EvalIf(fuel, operands, env, st);
      StoreBoolFree(out.store) && (out.res.Ok? ==> BoolFree(out.res.value))
    decreases fuel, 1
  {
    if |operands| == 3 {
      var cond := Eval(fuel, operands[0], env, st);
      EvalBoolFree(fuel, operands[0], env, st);
      if cond.res.Ok? {
        EvalBoolFree(fuel, operands[1], env, cond.store);
        EvalBoolFree(fuel, operands[2], env, cond.store);
      }
    }
  }

  lemma {:induction false} DefineBoolFree(fuel: nat, operands: seq<Value>, env: FrameId, st: Store)
    requires env < |st| && StoreBoolFree(st)
    requires forall i :: 0 <= i < |operands| ==> BoolFree(operands[i])
    ensures var out := EvalDefine(fuel, operands, env, st);
      StoreBoolFree(out.store) && (out.res.Ok? ==> BoolFree(out.res.value))
    decreases fuel, 1
  {
    if |operands| == 2 && operands[0].Symbol? {
      var value := Eval(fuel, operands[1], env, st);
      EvalBoolFree(fuel, operands[1], env, st);
      if value.res.Ok? {
        DefineKeepsStoreBoolFree(value.store, env, operands[0].name, value.res.value);
      }
    }
  }

  lemma {:induction false} SetBoolFree(fuel: nat, operands: seq<Value>, env: FrameId, st: Store)
    requires env < |st| && StoreBoolFree(st)
    requires forall i :: 0 <= i < |operands| ==> BoolFree(operands[i])
    ensures var out := EvalSet(fuel, operands, env, st);
      StoreBoolFree(out.store) && (out.res.Ok? ==> BoolFree(out.res.value))
    decreases fuel, 1
  {
    if |operands| == 2 && operands[0].Symbol? && IsDefined(st, env, operands[0].name) {
      var value := Eval(fuel, operands[1], env, st);
      EvalBoolFree(fuel, operands[1], env, st);
      if value.res.Ok? && IsDefined(value.store, env, operands[0].name) {
        DefineKeepsStoreBoolFree(value.store, env, operands[0].name, value.res.value);
      }
    }
  }

  lemma {:induction false} SumBoolFree(fuel: nat, operands: seq<Value>, env: FrameId, st: Store, sum: int)
    requires env < |st| && StoreBoolFree(st)
    requires forall i :: 0 <= i < |operands| ==> BoolFree(operands[i])
    ensures var out := EvalSum(fuel, operands, env, st, sum);
      StoreBoolFree(out.store) && (out.res.Ok? ==> BoolFree(out.res.value))
    decreases fuel, 1 + |operands|
  {
    if |operands| > 0 {
      var first := Eval(fuel, operands[0], env, st);
      EvalBoolFree(fuel, operands[0], env, st);
      if first.res.Ok? && first.res.value.Number? {
        assert forall i :: 0 <= i < |operands[1..]| ==> operands[1..][i] == operands[i + 1];
        SumBoolFree(fuel, operands[1..], env, first.store, sum + first.res.value.n);
      }
    }
  }

  lemma {:induction false} InvokeBoolFree(fuel: nat, params: seq<Value>, body: Value, captured: FrameId, args: seq<Value>, st: Store)
    requires StoreBoolFree(st) && BoolFree(body)
    requires forall i :: 0 <= i < |args| ==> BoolFree(args[i])
    ensures var out := Invoke(fuel, params, body, captured, args, st);
      StoreBoolFree(out.store) && (out.res.Ok? ==> BoolFree(out.res.value))
    decreases fuel, 1
  {
    match Bindings(params, args, |params|)
    case Ok(frame) =>
      BindingsBoolFree(params, args, |params|);
      var st' := st + [Frame(frame, Some(captured))];
      assert StoreBoolFree(st') by {
        forall f, name | 0 <= f < |st'| && name in st'[f].values
          ensures BoolFree(st'[f].values[name])
        {
          if f < |st| {
            assert st'[f] == st[f];
          }
        }
      }
      EvalBoolFree(fuel, body, |st|, st');
    case Err(_) =>
  }

  /** The frame of a call holds only operands. */
  lemma {:induction false} BindingsBoolFree(params: seq<Value>, args: seq<Value>, k: nat)
    requires k <= |params|
    requires forall i :: 0 <= i < |args| ==> BoolFree(args[i])
    ensures Bindings(params, args, k).Ok? ==>
      forall name :: name in Bindings(params, args, k).value ==> BoolFree(Bindings(params, args, k).value[name])
  {
    if k > 0 {
      BindingsBoolFree(params, args, k - 1);
    }
  }

  /** A `Bool` never arises from what the reader builds. */
  lemma {:induction false} ShapedIsBoolFree(v: Value)
    requires Parser.Shaped(v)
    ensures BoolFree(v)
  {
    if v.List? && |v.items| > 0 {
      ShapedIsBoolFree(v.items[|v.items| - 1]);
    }
  }

  /**
   * Running a parsed program in a store without `Bool` leaves a store
   * without `Bool` and yields no `Bool`: a whole session stays free of them.
   */
  lemma RunBoolFree(fuel: nat, program: string, env: FrameId, st: Store)
    requires env < |st| && StoreBoolFree(st)
    ensures var out := Run(fuel, program, env, st);
      StoreBoolFree(out.store) && (out.res.Ok? ==> BoolFree(out.res.value))
  {
    var parsed := Parser.Parse(program);
    if parsed.Ok? {
      ShapedIsBoolFree(parsed.value);
      EvalBoolFree(fuel, parsed.value, env, st);
    }
  }

  /**
   * Hence in such a store an `if` whose condition has no `Bool` always takes
   * its then-branch; the else-branch is unreachable from parsed programs.
   */
  lemma IfTakesThenBranch(fuel: nat, c: Value, t: Value, e: Value, env: FrameId, st: Store)
    requires env < |st| && fuel >= 2 && StoreBoolFree(st) && BoolFree(c)
    ensures var cond := Eval(fuel - 1, c, env, st);
      var out := Eval(fuel, List([Symbol("if"), c, t, e]), env, st);
      out == if cond.res.Err? then cond else Eval(fuel - 1, t, env, cond.store)
  {
    IfSelectsOnFalseOnly(fuel, c, t, e, env, st);
    EvalBoolFree(fuel - 1, c, env, st);
  }

  /** A lookup in a well-formed store finds a closure only if it captures a frame of the store. */
  lemma {:induction false} GetWithin(st: Store, f: FrameId, name: string)
    requires f < |st| && WellFormed(st)
    ensures Get(st, f, name).Some? ==> ClosuresWithin(Get(st, f, name).value, |st|)
    decreases f
  {
    if name !in st[f].values {
      match st[f].parent
      case Some(p) =>
        GetWithin(st, p, name);
      case None =>
    }
  }

  /** Binding a value whose closures lie in the store keeps the store well-formed. */
  lemma DefineKeepsWellFormed(st: Store, f: FrameId, name: string, v: Value)
    requires f < |st| && WellFormed(st) && ClosuresWithin(v, |st|)
    ensures WellFormed(Define(st, f, name, v))
  {
  }

  /** The frame of a call holds only operands. */
  lemma {:induction false} BindingsWithin(params: seq<Value>, args: seq<Value>, k: nat, n: nat)
    requires k <= |params|
    requires forall i :: 0 <= i < |args| ==> ClosuresWithin(args[i], n)
    ensures Bindings(params, args, k).Ok? ==>
      forall name :: name in Bindings(params, args, k).value ==> ClosuresWithin(Bindings(params, args, k).value[name], n)
  {
    if k > 0 {
      BindingsWithin(params, args, k - 1, n);
    }
  }

  /**
   * Evaluation keeps the store well-formed: every frame it creates has a
   * parent below it, and every closure it yields or binds captures a frame
   * of the store.
   */
  lemma {:induction false} EvalWellFormed(fuel: nat, expr: Value, env: FrameId, st: Store)
    requires env < |st| && WellFormed(st) && ClosuresWithin(expr, |st|)
    ensures var out := Eval(fuel, expr, env, st);
      WellFormed(out.store) && (out.res.Ok? ==> ClosuresWithin(out.res.value, |out.store|))
    decreases fuel, 0
  {
    if fuel > 0 {
      match expr
      case Symbol(name) =>
        GetWithin(st, env, name);
      case List(items) =>
        if |items| > 0 {
          var head, operands := items[0], items[1..];
          assert forall i :: 0 <= i < |operands| ==> ClosuresWithin(operands[i], |st|) by {
            forall i | 0 <= i < |operands| ensures ClosuresWithin(operands[i], |st|) {
              assert operands[i] == items[i + 1];
            }
          }
          match head
          case Symbol(name) =>
            if name == "if" {
              IfWellFormed(fuel - 1, operands, env, st);
            } else if name == "define" {
              DefineWellFormed(fuel - 1, operands, env, st);
            } else if name == "set!" {
              SetWellFormed(fuel - 1, operands, env, st);
            } else if name == "+" {
              SumWellFormed(fuel - 1, operands, env, st, 0);
            } else if name != "quote" && name != "lambda" {
              GetWithin(st, env, name);
              match Get(st, env, name)
              case Some(Lambda(params, body, captured)) =>
                InvokeWellFormed(fuel - 1, params, body, captured, operands, st);
              case _ =>
            }
          case Lambda(params, body, captured) =>
            if |operands| >= 1 {
              assert forall i :: 0 <= i < |operands[1..]| ==> operands[1..][i] == operands[i + 1];
              InvokeWellFormed(fuel - 1, params, body, captured, operands[1..], st);
            }
          case _ =>
        }
      case _ =>
    }
  }

  lemma {:induction false} IfWellFormed(fuel: nat, operands: seq<Value>, env: FrameId, st: Store)
    requires env < |st| && WellFormed(st)
    requires forall i :: 0 <= i < |operands| ==> ClosuresWithin(operands[i], |st|)
    ensures var out := EvalIf(fuel, operands, env, st);
      WellFormed(out.store) && (out.res.Ok? ==> ClosuresWithin(out.res.value, |out.store|))
    decreases fuel, 1
  {
    if |operands| == 3 {
      var cond := Eval(fuel, operands[0], env, st);
      EvalWellFormed(fuel, operands[0], env, st);
      if cond.res.Ok? {
        ClosuresWithinGrows(operands[1], |st|, |cond.store|);
        ClosuresWithinGrows(operands[2], |st|, |cond.store|);
        EvalWellFormed(fuel, operands[1], env, cond.store);
        EvalWellFormed(fuel, operands[2], env, cond.store);
      }
    }
  }

  lemma {:induction false} DefineWellFormed(fuel: nat, operands: seq<Value>, env: FrameId, st: Store)
    requires env < |st| && WellFormed(st)
    requires forall i :: 0 <= i < |operands| ==> ClosuresWithin(operands[i], |st|)
    ensures var out := EvalDefine(fuel, operands, env, st);
      WellFormed(out.store) && (out.res.Ok? ==> ClosuresWithin(out.res.value, |out.store|))
    decreases fuel, 1
  {
    if |operands| == 2 && operands[0].Symbol? {
      var value := Eval(fuel, operands[1], env, st);
      EvalWellFormed(fuel, operands[1], env, st);
      if value.res.Ok? {
        DefineKeepsWellFormed(value.store, env, operands[0].name, value.res.value);
      }
    }
  }

  lemma {:induction false} SetWellFormed(fuel: nat, operands: seq<Value>, env: FrameId, st: Store)
    requires env < |st| && WellFormed(st)
    requires forall i :: 0 <= i < |operands| ==> ClosuresWithin(operands[i], |st|)
    ensures var out := EvalSet(fuel, operands, env, st);
      WellFormed(out.store) && (out.res.Ok? ==> ClosuresWithin(out.res.value, |out.store|))
    decreases fuel, 1
  {
    if |operands| == 2 && operands[0].Symbol? && IsDefined(st, env, operands[0].name) {
      var value := Eval(fuel, operands[1], env, st);
      EvalWellFormed(fuel, operands[1], env, st);
      if value.res.Ok? && IsDefined(value.store, env, operands[0].name) {
        DefineKeepsWellFormed(value.store, env, operands[0].name, value.res.value);
      }
    }
  }

  lemma {:induction false} SumWellFormed(fuel: nat, operands: seq<Value>, env: FrameId, st: Store, sum: int)
    requires env < |st| && WellFormed(st)
    requires forall i :: 0 <= i < |operands| ==> ClosuresWithin(operands[i], |st|)
    ensures WellFormed(EvalSum(fuel, operands, env, st, sum).store)
    decreases fuel, 1 + |operands|
  {
    if |operands| > 0 {
      var first := Eval(fuel, operands[0], env, st);
      EvalWellFormed(fuel, operands[0], env, st);
      if first.res.Ok? && first.res.value.Number? {
        forall i | 0 <= i < |operands[1..]| ensures ClosuresWithin(operands[1..][i], |first.store|) {
          assert operands[1..][i] == operands[i + 1];
          ClosuresWithinGrows(operands[i + 1], |st|, |first.store|);
        }
        SumWellFormed(fuel, operands[1..], env, first.store, sum + first.res.value.n);
      }
    }
  }

  lemma {:induction false} InvokeWellFormed(fuel: nat, params: seq<Value>, body: Value, captured: FrameId, args: seq<Value>, st: Store)
    requires WellFormed(st) && ClosuresWithin(Lambda(params, body, captured), |st|)
    requires forall i :: 0 <= i < |args| ==> ClosuresWithin(args[i], |st|)
    ensures var out := Invoke(fuel, params, body, captured, args, st);
      WellFormed(out.store) && (out.res.Ok? ==> ClosuresWithin(out.res.value, |out.store|))
    decreases fuel, 1
  {
    match Bindings(params, args, |params|)
    case Ok(frame) =>
      BindingsWithin(params, args, |params|, |st|);
      var st' := NewFrame(st, Some(captured), frame);
      assert WellFormed(st') by {
        forall f, name | 0 <= f < |st'| && name in st'[f].values
          ensures ClosuresWithin(st'[f].values[name], |st'|)
        {
          if f < |st| {
            assert st'[f] == st[f];
          }
          ClosuresWithinGrows(st'[f].values[name], |st|, |st'|);
        }
        forall f | 0 <= f < |st'| && st'[f].parent.Some? ensures st'[f].parent.value < f {
          if f < |st| {
            assert st'[f] == st[f];
          }
        }
      }
      ClosuresWithinGrows(body, |st|, |st'|);
      EvalWellFormed(fuel, body, |st|, st');
    case Err(_) =>
  }

  /** What the reader builds holds no closure at all. */
  lemma {:induction false} ShapedHasNoClosures(v: Value, n: nat)
    requires Parser.Shaped(v)
    ensures ClosuresWithin(v, n)
  {
    if v.List? && |v.items| > 0 {
      ShapedHasNoClosures(v.items[|v.items| - 1], n);
    }
  }

  /** Running a parsed program keeps a well-formed store well-formed. */
  lemma RunWellFormed(fuel: nat, program: string, env: FrameId, st: Store)
    requires env < |st| && WellFormed(st)
    ensures var out := Run(fuel, program, env, st);
      WellFormed(out.store) && (out.res.Ok? ==> ClosuresWithin(out.res.value, |out.store|))
  {
    var parsed := Parser.Parse(program);
    if parsed.Ok? {
      ShapedHasNoClosures(parsed.value, |st|);
      EvalWellFormed(fuel, parsed.value, env, st);
    }
  }

  /**
   * How `evaluate` dispatches on the shape of an expression: numbers are
   * values, symbols are looked up, the empty list, a `Bool`, a closure and a
   * list headed by anything but a Symbol or a closure are errors, and
   * `lambda` captures the current frame.
   */
  lemma EvalDispatch(fuel: nat, expr: Value, env: FrameId, st: Store)
    requires env < |st| && fuel >= 1
    ensures expr.Number? ==> Eval(fuel, expr, env, st) == Outcome(Ok(expr), st)
    ensures expr.Symbol? && Get(st, env, expr.name).Some? ==>
      Eval(fuel, expr, env, st) == Outcome(Ok(Get(st, env, expr.name).value), st)
    ensures expr.Symbol? && Get(st, env, expr.name).None? ==>
      Eval(fuel, expr, env, st) == Outcome(Err(Lisp(UnboundSymbol(expr.name))), st)
    ensures expr == List([]) ==> Eval(fuel, expr, env, st) == Outcome(Err(Lisp(EmptyList)), st)
    ensures expr.Bool? || expr.Lambda? ==> Eval(fuel, expr, env, st) == Outcome(Err(Lisp(InvalidExpression)), st)
    ensures expr.List? && |expr.items| > 0 && (expr.items[0].Number? || expr.items[0].List? || expr.items[0].Bool?) ==>
      Eval(fuel, expr, env, st) == Outcome(Err(Lisp(InvalidExpression)), st)
  {
  }

  /**
   * A Symbol head that is no special form must look up to a closure, which
   * is then called with the raw operands; anything else fails.
   */
  lemma CallThroughSymbol(fuel: nat, name: string, operands: seq<Value>, env: FrameId, st: Store)
    requires env < |st| && fuel >= 1 && !IsSpecialForm(name)
    ensures var out := Eval(fuel, List([Symbol(name)] + operands), env, st);
      match Get(st, env, name)
      case None => out == Outcome(Err(Lisp(UnboundSymbol(name))), st)
      case Some(Lambda(params, body, captured)) => out == Invoke(fuel - 1, params, body, captured, operands, st)
      case Some(_) => out == Outcome(Err(Lisp(NotAFunction(name))), st)
  {
    assert ([Symbol(name)] + operands)[1..] == operands;
  }

  /**
   * A list whose head is already a closure value drops its first operand
   * before the call, and crashes the host when there is none to drop.
   */
  lemma ClosureHeadDropsOperand(fuel: nat, params: seq<Value>, body: Value, captured: FrameId, operands: seq<Value>, env: FrameId, st: Store)
    requires env < |st| && fuel >= 1
    ensures var out := Eval(fuel, List([Lambda(params, body, captured)] + operands), env, st);
      if operands == [] then out == Outcome(Err(Host(IllegalArgument)), st)
      else out == Invoke(fuel - 1, params, body, captured, operands[1..], st)
  {
    assert ([Lambda(params, body, captured)] + operands)[1..] == operands;
  }

  /**
   * Special forms check their operand count first: with the wrong number of
   * operands they fail at once and leave the store as it was.
   */
  lemma SpecialFormArity(fuel: nat, name: string, operands: seq<Value>, env: FrameId, st: Store)
    requires env < |st| && fuel >= 1
    ensures var out := Eval(fuel, List([Symbol(name)] + operands), env, st);
      (name == "quote" && |operands| != 1 ==> out == Outcome(Err(Lisp(QuoteArity)), st)) &&
      (name == "if" && |operands| != 3 ==> out == Outcome(Err(Lisp(IfArity)), st)) &&
      (name == "define" && |operands| != 2 ==> out == Outcome(Err(Lisp(DefineArity)), st)) &&
      (name == "lambda" && |operands| != 2 ==> out == Outcome(Err(Lisp(LambdaArity)), st)) &&
      (name == "set!" && |operands| != 2 ==> out == Outcome(Err(Lisp(SetArity)), st))
  {
    assert ([Symbol(name)] + operands)[1..] == operands;
  }

  /** `(lambda params body)` makes a closure over the current frame and changes nothing. */
  lemma LambdaCapturesFrame(fuel: nat, params: seq<Value>, body: Value, env: FrameId, st: Store)
    requires env < |st| && fuel >= 1
    ensures Eval(fuel, List([Symbol("lambda"), List(params), body]), env, st) == Outcome(Ok(Lambda(params, body, env)), st)
  {
    assert [Symbol("lambda"), List(params), body][1..] == [List(params), body];
  }

  /**
   * A `lambda` the reader has built never makes a closure: the reader puts a
   * nested list only last, so a parameter list is never followed by a body,
   * and the form fails on its arity or on its argument list.
   */
  lemma ParsedLambdaFails(fuel: nat, items: seq<Value>, env: FrameId, st: Store)
    requires env < |st| && fuel >= 1
    requires Parser.Shaped(List(items)) && |items| > 0 && items[0] == Symbol("lambda")
    ensures Eval(fuel, List(items), env, st)
      == Outcome(Err(Lisp(if |items| != 3 then LambdaArity else InvalidArgumentList)), st)
  {
    if |items| == 3 {
      assert Parser.IsAtom(items[1]);
    }
  }

  /** `(lambda (x) x)` reads as `(lambda (x))` and fails with the arity message. */
  lemma LambdaTextFails(fuel: nat, ts: seq<string>, env: FrameId, st: Store)
    requires env < |st| && fuel >= 1
    requires ts == ["(", "lambda", "(", "x", ")", "x", ")"]
    ensures Parser.ParseListSpec(ts).res == Ok(List([Symbol("lambda"), List([Symbol("x")])]))
    ensures Eval(fuel, Parser.ParseListSpec(ts).res.value, env, st) == Outcome(Err(Lisp(LambdaArity)), st)
  {
    assert Parser.ParseAtom("lambda") == Symbol("lambda") by {
      assert !Parser.IsNumeric("lambda") by { assert Parser.Trim("lambda") == "lambda"; }
    }
    assert Parser.ParseAtom("x") == Symbol("x") by {
      assert !Parser.IsNumeric("x") by { assert Parser.Trim("x") == "x"; }
    }
    assert Parser.Atoms(["lambda"]) == [Symbol("lambda")] && Parser.Atoms(["x"]) == [Symbol("x")];
    Parser.NestedListEndsEnclosing(["lambda"], ["x"], ["x", ")"]);
    assert ["("] + ["lambda"] + ["("] + ["x"] + [")"] + ["x", ")"] == ts;
    assert Parser.Atoms(["lambda"]) + [List(Parser.Atoms(["x"]))] == [Symbol("lambda"), List([Symbol("x")])];
  }
}
