/**
 * `Environment` (etoiletoi-kt/src/main/kotlin/lisp.kt:13-35): a frame of
 * bindings with an optional parent. All frames live in one store, a sequence
 * indexed by `FrameId`; a frame's parent is an index into the same store.
 * The interpreter only ever creates a frame whose parent already exists, so a
 * parent index is always smaller than the frame's own index: `WellFormed`
 * states this, and module Evaluator proves that evaluation keeps it.
 */
module Environments {
  import opened Wrappers
  import opened LispValues

  datatype Frame = Frame(values: map<string, Value>, parent: Option<FrameId>)

  type Store = seq<Frame>

  /**
   * `Environment(parent)`, appended to the store, followed by the `define`s
   * that fill it with `values` (none for a bare `Environment(parent)`).
   */
  function NewFrame(st: Store, parent: Option<FrameId>, values: map<string, Value> := map[]): (r: Store)
    ensures |r| == |st| + 1 && r[..|st|] == st
    ensures r[|st|].values == values && r[|st|].parent == parent
  {
    st + [Frame(values, parent)]
  }

  /** Every closure inside `v`, also inside lists and closure bodies, captures a frame below `n`. */
  predicate ClosuresWithin(v: Value, n: nat) {
    match v
    case List(items) => forall i :: 0 <= i < |items| ==> ClosuresWithin(items[i], n)
    case Lambda(params, body, env) =>
      env < n && (forall i :: 0 <= i < |params| ==> ClosuresWithin(params[i], n)) && ClosuresWithin(body, n)
    case _ => true
  }

  /**
   * The store the interpreter builds: every parent lies below its frame, and
   * every closure bound anywhere captures a frame of the store.
   */
  predicate WellFormed(st: Store) {
    (forall f :: 0 <= f < |st| && st[f].parent.Some? ==> st[f].parent.value < f) &&
    (forall f, name :: 0 <= f < |st| && name in st[f].values ==> ClosuresWithin(st[f].values[name], |st|))
  }

  lemma {:induction false} ClosuresWithinGrows(v: Value, n: nat, m: nat)
    requires ClosuresWithin(v, n) && n <= m
    ensures ClosuresWithin(v, m)
  {
    match v
    case List(items) =>
      forall i | 0 <= i < |items| ensures ClosuresWithin(items[i], m) {
        ClosuresWithinGrows(items[i], n, m);
      }
    case Lambda(params, body, env) =>
      forall i | 0 <= i < |params| ensures ClosuresWithin(params[i], m) {
        ClosuresWithinGrows(params[i], n, m);
      }
      ClosuresWithinGrows(body, n, m);
    case _ =>
  }

  /** The frames `get` visits from `f`: `f` itself, then its ancestors, innermost first. */
  function Chain(st: Store, f: FrameId): (c: seq<FrameId>)
    requires f < |st|
    ensures |c| > 0 && c[0] == f
    ensures forall k :: 0 <= k < |c| ==> c[k] < |st|
    decreases f
  {
    match st[f].parent
    case Some(p) => if p < f then [f] + Chain(st, p) else [f]
    case None => [f]
  }

  /** `Environment.get`: the binding in `f`, else the one its parent chain finds. */
  function Get(st: Store, f: FrameId, name: string): Option<Value>
    requires f < |st|
    decreases f
  {
    if name in st[f].values then Some(st[f].values[name])
    else match st[f].parent
      case Some(p) => if p < f then Get(st, p, name) else None
      case None => None
  }

  /** `Environment.isDefined`: the current frame only, never its ancestors. */
  predicate IsDefined(st: Store, f: FrameId, name: string)
    requires f < |st|
  {
    name in st[f].values
  }

  /** `Environment.define`: insert or overwrite `name` in frame `f`; no other frame changes. */
  function Define(st: Store, f: FrameId, name: string, v: Value): (r: Store)
    requires f < |st|
    ensures |r| == |st| && r[f].parent == st[f].parent
    ensures r[f].values == st[f].values[name := v]
    ensures forall g :: 0 <= g < |st| && g != f ==> r[g] == st[g]
  {
    st[f := Frame(st[f].values[name := v], st[f].parent)]
  }

  /**
   * `Environment.set`: fails when `name` is not bound in frame `f` itself,
   * even if an ancestor binds it; otherwise overwrites that one entry.
   */
  function Set(st: Store, f: FrameId, name: string, v: Value): (r: Result<Store>)
    requires f < |st|
    ensures r.Err? <==> name !in st[f].values
    ensures r.Err? ==> r.error == Lisp(NotDefinedInContext(name))
    ensures r.Ok? ==> |r.value| == |st| && r.value[f].values == st[f].values[name := v]
    ensures r.Ok? ==> r.value[f].parent == st[f].parent
    ensures r.Ok? ==> forall g :: 0 <= g < |st| && g != f ==> r.value[g] == st[g]
  {
    if !IsDefined(st, f, name) then Err(Lisp(NotDefinedInContext(name)))
    else Ok(Define(st, f, name, v))
  }

  /**
   * Reference reading of a lookup: scan the frames `c`, innermost first, and
   * take the first binding of `name`.
   */
  function FirstBinding(st: Store, c: seq<FrameId>, name: string): (r: Option<Value>)
    requires forall k :: 0 <= k < |c| ==> c[k] < |st|
    ensures r.None? <==> forall k :: 0 <= k < |c| ==> name !in st[c[k]].values
    ensures r.Some? ==> exists k :: 0 <= k < |c| && name in st[c[k]].values && r.value == st[c[k]].values[name] &&
                                    forall j :: 0 <= j < k ==> name !in st[c[j]].values
  {
    if c == [] then None
    else if name in st[c[0]].values then Some(st[c[0]].values[name])
    else
      var r := FirstBinding(st, c[1..], name);
      assert forall k :: 1 <= k < |c| ==> c[k] == c[1..][k - 1];
      if r.Some? then
        var k :| 0 <= k < |c[1..]| && name in st[c[1..][k]].values && r.value == st[c[1..][k]].values[name] &&
                 forall j :: 0 <= j < k ==> name !in st[c[1..][j]].values;
        assert forall j :: 0 <= j < k + 1 ==> name !in st[c[j]].values;
        r
      else r
  }

  /** `get` returns the binding of the innermost frame on the chain that has `name`. */
  lemma {:induction false} GetIsInnermost(st: Store, f: FrameId, name: string)
    requires f < |st|
    ensures Get(st, f, name) == FirstBinding(st, Chain(st, f), name)
    decreases f
  {
    if name !in st[f].values {
      match st[f].parent
      case Some(p) =>
        if p < f {
          GetIsInnermost(st, p, name);
          assert Chain(st, f)[1..] == Chain(st, p);
        }
      case None =>
    }
  }

  /**
   * `define` is local: after defining `name` in frame `f`, a lookup from any
   * frame `g` changes only for that very name, and only when `f` is on `g`'s
   * chain; there it finds the new value when `g` is `f`.
   */
  lemma {:induction false} DefineIsLocal(st: Store, f: FrameId, name: string, v: Value, g: FrameId, m: string)
    requires f < |st| && g < |st|
    ensures Chain(Define(st, f, name, v), g) == Chain(st, g)
    ensures m != name || f !in Chain(st, g) ==> Get(Define(st, f, name, v), g, m) == Get(st, g, m)
    ensures g == f ==> Get(Define(st, f, name, v), g, name) == Some(v)
    decreases g
  {
    var st' := Define(st, f, name, v);
    assert st'[g].parent == st[g].parent;
    match st[g].parent
    case Some(p) =>
      if p < g {
        DefineIsLocal(st, f, name, v, p, m);
      }
    case None =>
  }

  /**
   * In a well-formed store the chain from `f` follows the parent links all
   * the way to a frame without parent: the cut-off `p < f` in `Chain` and
   * `Get` never applies.
   */
  lemma {:induction false} ChainReachesRoot(st: Store, f: FrameId)
    requires f < |st| && WellFormed(st)
    ensures var c := Chain(st, f);
      st[c[|c| - 1]].parent.None? && forall k :: 0 <= k < |c| - 1 ==> st[c[k]].parent == Some(c[k + 1])
    decreases f
  {
    match st[f].parent
    case Some(p) =>
      ChainReachesRoot(st, p);
      var c := Chain(st, f);
      assert c == [f] + Chain(st, p);
      assert forall k :: 1 <= k < |c| ==> c[k] == Chain(st, p)[k - 1];
    case None =>
  }
}
