/**
 * `addGlobals` and `getStandardEnv` (etoiletoi-kt/src/main/kotlin/lisp.kt:153-207):
 * the four closures every program starts with, and what calling them does.
 */
module Bootstrap {
  import opened Wrappers
  import opened LispValues
  import opened Environments
  import opened Evaluator
  import Parser

  /** The closure `(lambda (x y) (op x y))` over frame `f`, as bound to `+`, `-` and `*`. */
  function BinaryClosure(op: string, f: FrameId): Value {
    Lambda([Symbol("x"), Symbol("y")], List([Symbol(op), Symbol("x"), Symbol("y")]), f)
  }

  /** The closure `(lambda (x) (+ x (+ x 2)))` over frame `f`, as bound to `fx`. */
  function FxClosure(f: FrameId): Value {
    Lambda([Symbol("x")], List([Symbol("+"), Symbol("x"), List([Symbol("+"), Symbol("x"), Number(2)])]), f)
  }

  /** The names `addGlobals` binds. */
  const GlobalNames: set<string> := {"+", "fx", "-", "*"}

  /**
   * `addGlobals(env)`: binds the four closures, each capturing `f` itself,
   * in frame `f`; other names and other frames are untouched.
   */
  function AddGlobals(st: Store, f: FrameId): (r: Store)
    requires f < |st|
    ensures |r| == |st| && r[f].parent == st[f].parent
    ensures forall g :: 0 <= g < |st| && g != f ==> r[g] == st[g]
    ensures r[f].values.Keys == st[f].values.Keys + GlobalNames
    ensures forall name :: name in st[f].values && name !in GlobalNames ==> r[f].values[name] == st[f].values[name]
    ensures Get(r, f, "+") == Some(BinaryClosure("+", f)) && Get(r, f, "fx") == Some(FxClosure(f))
    ensures Get(r, f, "-") == Some(BinaryClosure("-", f)) && Get(r, f, "*") == Some(BinaryClosure("*", f))
  {
    var withPlus := Define(st, f, "+", BinaryClosure("+", f));
    var withFx := Define(withPlus, f, "fx", FxClosure(f));
    var withMinus := Define(withFx, f, "-", BinaryClosure("-", f));
    Define(withMinus, f, "*", BinaryClosure("*", f))
  }

  /** `getStandardEnv()`: one root frame, index 0, holding the globals and nothing else. */
  function StandardEnv(): (r: Store)
    ensures |r| == 1 && r[0].parent == None && r[0].values.Keys == GlobalNames
    ensures Get(r, 0, "+") == Some(BinaryClosure("+", 0)) && Get(r, 0, "fx") == Some(FxClosure(0))
    ensures Get(r, 0, "-") == Some(BinaryClosure("-", 0)) && Get(r, 0, "*") == Some(BinaryClosure("*", 0))
  {
    AddGlobals(NewFrame([], None), 0)
  }

  /** The standard environment holds no `Bool`, so the programs run in it never produce one. */
  lemma StandardEnvBoolFree()
    ensures StoreBoolFree(StandardEnv())
  {
    var st := StandardEnv();
    forall op | op in GlobalNames - {"fx"} ensures BoolFree(BinaryClosure(op, 0)) {
      assert BoolFree(List([Symbol(op), Symbol("x"), Symbol("y")]));
    }
    assert BoolFree(List([Symbol("+"), Symbol("x"), Number(2)]));
    assert BoolFree(FxClosure(0));
    forall name | name in st[0].values ensures BoolFree(st[0].values[name]) {
      assert Get(st, 0, name) == Some(st[0].values[name]);
    }
  }

  /** The standard environment is well-formed: its one frame has no parent and its closures capture it. */
  lemma StandardEnvWellFormed()
    ensures WellFormed(StandardEnv())
  {
    var st := StandardEnv();
    forall name | name in st[0].values ensures ClosuresWithin(st[0].values[name], 1) {
      assert Get(st, 0, name) == Some(st[0].values[name]);
      assert ClosuresWithin(List([Symbol("+"), Symbol("x"), Number(2)]), 1);
      assert ClosuresWithin(List([Symbol(name), Symbol("x"), Symbol("y")]), 1);
    }
  }

  /** Binding the two parameters of a binary closure. */
  lemma BindTwo(a: Value, b: Value)
    ensures Bindings([Symbol("x"), Symbol("y")], [a, b], 2) == Ok(map["x" := a, "y" := b])
  {
    assert Bindings([Symbol("x"), Symbol("y")], [a, b], 1) == Ok(map["x" := a]);
  }

  /**
   * Calling `fx` on a numeral `n` yields `2n + 2`, leaving behind the one
   * frame the call created, binding `x` to the numeral.
   */
  lemma FxDoublesPlusTwo(fuel: nat, n: int, env: FrameId, st: Store, c: FrameId)
    requires env < |st| && c < |st| && fuel >= 4
    requires Get(st, env, "fx") == Some(FxClosure(c))
    ensures Eval(fuel, List([Symbol("fx"), Number(n)]), env, st)
      == Outcome(Ok(Number(2 * n + 2)), st + [Frame(map["x" := Number(n)], Some(c))])
  {
    var call := st + [Frame(map["x" := Number(n)], Some(c))];
    var inner := List([Symbol("+"), Symbol("x"), Number(2)]);
    var body := List([Symbol("+"), Symbol("x"), inner]);
    assert [Symbol("fx"), Number(n)][1..] == [Number(n)];
    assert Eval(fuel, List([Symbol("fx"), Number(n)]), env, st) == Invoke(fuel - 1, [Symbol("x")], body, c, [Number(n)], st);
    assert Bindings([Symbol("x")], [Number(n)], 1) == Ok(map["x" := Number(n)]);
    assert Invoke(fuel - 1, [Symbol("x")], body, c, [Number(n)], st) == Eval(fuel - 1, body, |st|, call);
    assert body.items[1..] == [Symbol("x"), inner];
    assert Eval(fuel - 1, body, |st|, call) == EvalSum(fuel - 2, [Symbol("x"), inner], |st|, call, 0);
    assert Get(call, |st|, "x") == Some(Number(n));
    assert Eval(fuel - 2, Symbol("x"), |st|, call) == Outcome(Ok(Number(n)), call);
    assert [Symbol("x"), inner][1..] == [inner];
    assert EvalSum(fuel - 2, [Symbol("x"), inner], |st|, call, 0) == EvalSum(fuel - 2, [inner], |st|, call, n);
    assert inner.items[1..] == [Symbol("x"), Number(2)];
    assert Eval(fuel - 2, inner, |st|, call) == EvalSum(fuel - 3, [Symbol("x"), Number(2)], |st|, call, 0);
    assert Eval(fuel - 3, Symbol("x"), |st|, call) == Outcome(Ok(Number(n)), call);
    assert [Symbol("x"), Number(2)][1..] == [Number(2)];
    assert EvalSum(fuel - 3, [Symbol("x"), Number(2)], |st|, call, 0) == EvalSum(fuel - 3, [Number(2)], |st|, call, n);
    assert Eval(fuel - 3, Number(2), |st|, call) == Outcome(Ok(Number(2)), call);
    assert EvalSum(fuel - 3, [Number(2)], |st|, call, n) == Outcome(Ok(Number(n + 2)), call);
    assert EvalSum(fuel - 2, [inner], |st|, call, n) == Outcome(Ok(Number(2 * n + 2)), call);
  }

  /** In the standard environment `(fx 5)` is 12. */
  lemma FxFive(fuel: nat)
    requires fuel >= 4
    ensures Eval(fuel, List([Symbol("fx"), Number(5)]), 0, StandardEnv()).res == Ok(Number(12))
  {
    FxDoublesPlusTwo(fuel, 5, 0, StandardEnv(), 0);
  }

  /** Read and evaluated in the standard environment, the program `(fx 5)` yields 12. */
  lemma RunFxFive(fuel: nat, program: string)
    requires fuel >= 4 && program == "(fx 5)"
    ensures Run(fuel, program, 0, StandardEnv()).res == Ok(Number(12))
  {
    Parser.ParseFxExample(program);
    FxFive(fuel);
  }

  /**
   * The session `main` runs: in the standard environment, `(define x 211)`
   * and then `(fx 5)`, whose value 12 is what `main` prints.
   */
  lemma MainSession(fuel: nat, define: string, call: string)
    requires fuel >= 4 && define == "(define x 211)" && call == "(fx 5)"
    ensures var first := Run(fuel, define, 0, StandardEnv());
      first.res == Ok(Number(211)) && Run(fuel, call, 0, first.store).res == Ok(Number(12))
  {
    var st := StandardEnv();
    Parser.ParseDefineExample(define);
    DefineBindsInCurrentFrame(fuel, "x", Number(211), 0, st);
    var st1 := Define(st, 0, "x", Number(211));
    assert Run(fuel, define, 0, st) == Outcome(Ok(Number(211)), st1);
    DefineIsLocal(st, 0, "x", Number(211), 0, "fx");
    Parser.ParseFxExample(call);
    FxDoublesPlusTwo(fuel, 5, 0, st1, 0);
  }

  /**
   * The `+` closure adds its two operands when reached under another name,
   * since its body is the `+` special form; `(+ ...)` itself never calls it.
   */
  lemma PlusClosureAdds(fuel: nat, name: string, m: int, n: int, env: FrameId, st: Store, c: FrameId)
    requires env < |st| && c < |st| && fuel >= 3 && !IsSpecialForm(name)
    requires Get(st, env, name) == Some(BinaryClosure("+", c))
    ensures Eval(fuel, List([Symbol(name), Number(m), Number(n)]), env, st).res == Ok(Number(m + n))
  {
    var call := st + [Frame(map["x" := Number(m), "y" := Number(n)], Some(c))];
    var body := List([Symbol("+"), Symbol("x"), Symbol("y")]);
    assert [Symbol(name), Number(m), Number(n)][1..] == [Number(m), Number(n)];
    BindTwo(Number(m), Number(n));
    assert Eval(fuel, List([Symbol(name), Number(m), Number(n)]), env, st)
      == Invoke(fuel - 1, [Symbol("x"), Symbol("y")], body, c, [Number(m), Number(n)], st);
    assert Eval(fuel, List([Symbol(name), Number(m), Number(n)]), env, st) == Eval(fuel - 1, body, |st|, call);
    assert body.items[1..] == [Symbol("x"), Symbol("y")];
    assert Eval(fuel - 1, body, |st|, call) == EvalSum(fuel - 2, [Symbol("x"), Symbol("y")], |st|, call, 0);
    assert Eval(fuel - 2, Symbol("x"), |st|, call) == Outcome(Ok(Number(m)), call);
    assert Eval(fuel - 2, Symbol("y"), |st|, call) == Outcome(Ok(Number(n)), call);
    assert [Symbol("x"), Symbol("y")][1..] == [Symbol("y")];
    assert EvalSum(fuel - 2, [Symbol("x"), Symbol("y")], |st|, call, 0) == EvalSum(fuel - 2, [Symbol("y")], |st|, call, m);
    assert EvalSum(fuel - 2, [Symbol("y")], |st|, call, m) == Outcome(Ok(Number(m + n)), call);
  }

  /**
   * A closure `(lambda (x y) (op x y))` that finds itself under `op` in its
   * own frame calls itself for ever: no fuel is enough. This is what `-` and
   * `*` do.
   */
  lemma {:induction false} SelfCallDiverges(fuel: nat, op: string, a: Value, b: Value, env: FrameId, st: Store, c: FrameId)
    requires env < |st| && c < |st| && !IsSpecialForm(op)
    requires Get(st, env, op) == Some(BinaryClosure(op, c))
    requires Get(st, c, op) == Some(BinaryClosure(op, c))
    requires op != "x" && op != "y"
    ensures Eval(fuel, List([Symbol(op), a, b]), env, st).res == Err(Exhausted)
    decreases fuel
  {
    if fuel > 0 {
      var call := st + [Frame(map["x" := a, "y" := b], Some(c))];
      var body := List([Symbol(op), Symbol("x"), Symbol("y")]);
      assert [Symbol(op), a, b][1..] == [a, b];
      BindTwo(a, b);
      assert Eval(fuel, List([Symbol(op), a, b]), env, st) == Eval(fuel - 1, body, |st|, call);
      GetOfPrefix(st, call, c, op);
      assert Get(call, |st|, op) == Get(call, c, op);
      SelfCallDiverges(fuel - 1, op, Symbol("x"), Symbol("y"), |st|, call, c);
    }
  }

  /** In the standard environment `(- a b)` never returns, whatever the operands. */
  lemma MinusDiverges(fuel: nat, a: Value, b: Value)
    ensures Eval(fuel, List([Symbol("-"), a, b]), 0, StandardEnv()).res == Err(Exhausted)
  {
    SelfCallDiverges(fuel, "-", a, b, 0, StandardEnv(), 0);
  }

  /** In the standard environment `(* a b)` never returns, whatever the operands. */
  lemma TimesDiverges(fuel: nat, a: Value, b: Value)
    ensures Eval(fuel, List([Symbol("*"), a, b]), 0, StandardEnv()).res == Err(Exhausted)
  {
    SelfCallDiverges(fuel, "*", a, b, 0, StandardEnv(), 0);
  }
}
