/**
 * The recursive-descent parser (etoiletoi-kt/src/main/kotlin/lisp.kt:210-257).
 *
 * `parseList` and `parseSublist` share one mutable token list: `parseList`
 * looks at the first token but does not remove it, `parseSublist` works on
 * the view that starts after the `(`, and after each element it removes the
 * first token of that view. For an atom that token is the atom itself; for a
 * nested list it is the nested list's `(`, which the inner call left in
 * place, so the view then starts at the nested list's `)` and the enclosing
 * loop stops there. The functions below describe the token list left behind
 * by each call; class `TokenList` performs the same steps in place.
 */
module Parser {
  import opened LispValues
  import Tokenizer

  predicate IsDigit(c: char) {
    '0' <= c <= '9'
  }

  predicate AllDigits(s: string) {
    |s| > 0 && forall i :: 0 <= i < |s| ==> IsDigit(s[i])
  }

  /** A decimal integer with an optional sign. */
  predicate IsNumeral(s: string) {
    if |s| > 0 && (s[0] == '+' || s[0] == '-') then AllDigits(s[1..]) else AllDigits(s)
  }

  /** The characters `toDoubleOrNull` ignores around a number: the control characters and the space. */
  predicate IsTrimmed(c: char) {
    c <= ' '
  }

  function TrimStart(s: string): string {
    if s != [] && IsTrimmed(s[0]) then TrimStart(s[1..]) else s
  }

  function TrimEnd(s: string): string {
    if s != [] && IsTrimmed(s[|s| - 1]) then TrimEnd(s[..|s| - 1]) else s
  }

  /** `s` without the control and space characters at either end. */
  function Trim(s: string): string {
    TrimEnd(TrimStart(s))
  }

  /**
   * The tokens `toDoubleOrNull` accepts, as far as this model goes: decimal
   * integers with an optional sign, with control and space characters
   * around them ignored.
   */
  predicate IsNumeric(token: string) {
    IsNumeral(Trim(token))
  }

  function DigitsValue(ds: string): nat
    requires forall i :: 0 <= i < |ds| ==> IsDigit(ds[i])
  {
    if ds == [] then 0
    else
      assert IsDigit(ds[|ds| - 1]);
      DigitsValue(ds[..|ds| - 1]) * 10 + (ds[|ds| - 1] as int - '0' as int)
  }

  /** The value of a decimal integer with an optional sign. */
  function NumeralValue(s: string): int
    requires IsNumeral(s)
  {
    if s[0] == '-' then -(DigitsValue(s[1..]) as int)
    else if s[0] == '+' then DigitsValue(s[1..])
    else DigitsValue(s)
  }

  /** `token.toDouble()` on a numeric token. */
  function NumberValue(token: string): int
    requires IsNumeric(token)
  {
    NumeralValue(Trim(token))
  }

  /** `parseAtom`: a numeric token becomes a Number, any other token a Symbol naming it. */
  function ParseAtom(token: string): (v: Value)
    ensures v.Number? <==> IsNumeric(token)
    ensures v.Number? ==> v.n == NumberValue(token)
    ensures !v.Number? ==> v == Symbol(token)
  {
    if IsNumeric(token) then Number(NumberValue(token)) else Symbol(token)
  }

  /** Decimal rendering of a whole number. */
  function Decimal(n: nat): (s: string)
    ensures |s| > 0
  {
    if n < 10 then ['0' + n as char] else Decimal(n / 10) + ['0' + (n % 10) as char]
  }

  function Render(n: int): string {
    if n < 0 then "-" + Decimal(-n) else Decimal(n)
  }

  lemma {:induction false} DecimalDigits(n: nat)
    ensures forall i :: 0 <= i < |Decimal(n)| ==> IsDigit(Decimal(n)[i])
    ensures DigitsValue(Decimal(n)) == n
  {
    var s := Decimal(n);
    if n >= 10 {
      DecimalDigits(n / 10);
      assert s[..|s| - 1] == Decimal(n / 10);
    }
  }

  /** A number's decimal rendering parses back to that number. */
  lemma RenderParses(n: int)
    ensures ParseAtom(Render(n)) == Number(n)
  {
    var s := Render(n);
    if n < 0 {
      DecimalDigits(-n);
      assert s[1..] == Decimal(-n);
    } else {
      DecimalDigits(n);
      assert s[0] != '-' && s[0] != '+';
    }
    assert !IsTrimmed(s[0]) && !IsTrimmed(s[|s| - 1]);
    assert Trim(s) == s;
  }

  /** A numeral with a line break attached, as in `(+ 1\n 2)`, is still read as a Number. */
  lemma NumeralWithLineBreak()
    ensures ParseAtom("1\n") == Number(1)
  {
    assert "1\n"[..1] == "1";
    assert Trim("1\n") == "1";
    assert DigitsValue("1"[..0]) == 0;
  }

  predicate IsAtom(v: Value) {
    v.Number? || v.Symbol?
  }

  /**
   * The trees the parser builds: Numbers, Symbols and Lists only, and in a
   * List only the last element can itself be a List.
   */
  predicate Shaped(v: Value) {
    match v
    case Number(_) => true
    case Symbol(_) => true
    case List(items) =>
      (forall i :: 0 <= i < |items| - 1 ==> IsAtom(items[i])) &&
      (|items| > 0 ==> Shaped(items[|items| - 1]))
    case _ => false
  }

  /** The outcome of a parsing step and the token list it leaves behind. */
  datatype ParseOut = ParseOut(res: Result<Value>, rest: seq<string>)

  /**
   * `parseList` on the token list `ts`. An atom and a nested list leave their
   * first token in place; a nested list leaves `(` followed by its own `)`.
   */
  function ParseListSpec(ts: seq<string>): (out: ParseOut)
    ensures |out.rest| <= |ts|
    ensures out.res.Err? ==> out.res.error in {Lisp(UnexpectedEof), Lisp(UnexpectedClose)}
    ensures out.res.Ok? ==> Shaped(out.res.value)
    ensures out.res.Ok? && !out.res.value.List? ==> out.rest == ts
    ensures out.res.Ok? && out.res.value.List? ==> |out.rest| >= 2 && out.rest[0] == "(" && out.rest[1] == ")"
    decreases |ts|, 0
  {
    if ts == [] then ParseOut(Err(Lisp(UnexpectedEof)), ts)
    else if ts[0] == "(" then
      var sub := ParseSublistSpec(ts[1..], []);
      ParseOut(sub.res, ["("] + sub.rest)
    else if ts[0] == ")" then ParseOut(Err(Lisp(UnexpectedClose)), ts)
    else ParseOut(Ok(ParseAtom(ts[0])), ts)
  }

  /**
   * `parseSublist` on the view `ts`, with `values` already collected: parse an
   * element, drop the view's first token, repeat until the view starts with `)`.
   */
  function ParseSublistSpec(ts: seq<string>, values: seq<Value>): (out: ParseOut)
    ensures |out.rest| <= |ts|
    ensures out.res.Err? ==> out.res.error in {Lisp(UnexpectedEof), Lisp(UnexpectedClose)}
    ensures out.res.Ok? ==> |out.rest| > 0 && out.rest[0] == ")"
    ensures out.res.Ok? ==> out.res.value.List? && values <= out.res.value.items
    ensures out.res.Ok? && (forall i :: 0 <= i < |values| ==> IsAtom(values[i])) ==> Shaped(out.res.value)
    decreases |ts|, 1
  {
    if |ts| > 0 && ts[0] == ")" then ParseOut(Ok(List(values)), ts)
    else
      var elem := ParseListSpec(ts);
      if elem.res.Err? then elem
      else ParseSublistSpec(elem.rest[1..], values + [elem.res.value])
  }

  /**
   * `parse`: tokenize, then parse one expression; tokens after it are ignored.
   * The result is always a tree of Numbers, Symbols and Lists: never a Bool
   * and never a closure.
   */
  function Parse(program: string): (r: Result<Value>)
    ensures Tokenizer.Tokenize(program) == [] ==> r == Err(Lisp(UnexpectedEof))
    ensures r.Err? ==> r.error in {Lisp(UnexpectedEof), Lisp(UnexpectedClose)}
    ensures r.Ok? ==> Shaped(r.value)
  {
    ParseListSpec(Tokenizer.Tokenize(program)).res
  }

  /** The token list that `tokenize` returns and the parser consumes in place. */
  class TokenList {
    var items: seq<string>

    constructor (tokens: seq<string>)
      ensures items == tokens
    {
      items := tokens;
    }

    /** `removeFirst` on the view of `items` that starts at index `from`. */
    method RemoveFirst(from: nat)
      requires from < |items|
      modifies this
      ensures items == old(items[..from] + items[from + 1..])
    {
      items := items[..from] + items[from + 1..];
    }

    /** `parseList` on the view of `items` that starts at index `from`. */
    method ParseList(from: nat) returns (r: Result<Value>)
      requires from <= |items|
      modifies this
      ensures from <= |items| && items[..from] == old(items[..from])
      ensures ParseOut(r, items[from..]) == ParseListSpec(old(items[from..]))
      decreases |items| - from, 0
    {
      if from == |items| {
        return Err(Lisp(UnexpectedEof));
      }
      var token := items[from];
      if token == "(" {
        ghost var before := items;
        assert before[from..][1..] == before[from + 1..];
        r := ParseSublist(from + 1);
        assert items[from..] == ["("] + items[from + 1..];
      } else if token == ")" {
        r := Err(Lisp(UnexpectedClose));
      } else {
        r := Ok(ParseAtom(token));
      }
    }

    /** `parseSublist` on the view of `items` that starts at index `from`. */
    method ParseSublist(from: nat) returns (r: Result<Value>)
      requires from <= |items|
      modifies this
      ensures from <= |items| && items[..from] == old(items[..from])
      ensures ParseOut(r, items[from..]) == ParseSublistSpec(old(items[from..]), [])
      decreases |items| - from, 1
    {
      var values: seq<Value> := [];
      while from == |items| || items[from] != ")"
        invariant from <= |items| <= old(|items|)
        invariant items[..from] == old(items[..from])
        invariant ParseSublistSpec(items[from..], values) == ParseSublistSpec(old(items[from..]), [])
        decreases |items| - from
      {
        ghost var view := items[from..];
        var value := ParseList(from);
        if value.Err? {
          return value;
        }
        values := values + [value.value];
        ghost var rest := items[from..];
        RemoveFirst(from);
        assert items[from..] == rest[1..];
      }
      // The source checks for an exhausted view once more after the loop; the
      // loop only ends at a `)`, so that check never fails and is not repeated here.
      r := Ok(List(values));
    }
  }

  /** `parse` run in place on a fresh token list gives the result `Parse` describes. */
  method ParseProgram(program: string) returns (r: Result<Value>)
    ensures r == Parse(program)
  {
    var tokens := new TokenList(Tokenizer.Tokenize(program));
    r := tokens.ParseList(0);
  }

  /** The atoms that `parseAtom` makes of the tokens `xs`, in order. */
  function Atoms(xs: seq<string>): (vs: seq<Value>)
    ensures |vs| == |xs| && forall i :: 0 <= i < |xs| ==> vs[i] == ParseAtom(xs[i])
  {
    if xs == [] then [] else [ParseAtom(xs[0])] + Atoms(xs[1..])
  }

  predicate NoParens(xs: seq<string>) {
    forall i :: 0 <= i < |xs| ==> xs[i] != "(" && xs[i] != ")"
  }

  /** Inside a list, a run of atom tokens is collected element by element, in order. */
  lemma {:induction false} SublistCollectsAtoms(xs: seq<string>, rest: seq<string>, values: seq<Value>)
    requires NoParens(xs)
    ensures ParseSublistSpec(xs + rest, values) == ParseSublistSpec(rest, values + Atoms(xs))
  {
    if xs == [] {
      assert xs + rest == rest && values + Atoms(xs) == values;
    } else {
      var ts := xs + rest;
      var a := ParseAtom(xs[0]);
      assert ts[0] == xs[0] && ts[1..] == xs[1..] + rest;
      assert xs[0] != "(" && xs[0] != ")";
      assert ParseListSpec(ts) == ParseOut(Ok(a), ts);
      assert ParseSublistSpec(ts, values) == ParseSublistSpec(ts[1..], values + [a]);
      assert NoParens(xs[1..]) by {
        forall i | 0 <= i < |xs[1..]| ensures xs[1..][i] != "(" && xs[1..][i] != ")" {
          assert xs[1..][i] == xs[i + 1];
        }
      }
      SublistCollectsAtoms(xs[1..], rest, values + [a]);
      var tail := Atoms(xs[1..]);
      assert Atoms(xs) == [a] + tail;
      assert values + [a] + tail == values + Atoms(xs) by {
        var l, r := values + [a] + tail, values + ([a] + tail);
        assert |l| == |r|;
        forall i | 0 <= i < |l| ensures l[i] == r[i] {
          if i > |values| {
            assert l[i] == tail[i - |values| - 1];
          }
        }
      }
    }
  }

  /**
   * A nested list ends the enclosing list: in `( xs ( ys ) zs`, the atoms
   * `xs` and the nested list are collected and nothing in `zs` is, whatever
   * `zs` holds (even no closing parenthesis at all).
   */
  lemma NestedListEndsEnclosing(xs: seq<string>, ys: seq<string>, zs: seq<string>)
    requires NoParens(xs) && NoParens(ys)
    ensures ParseListSpec(["("] + xs + ["("] + ys + [")"] + zs).res == Ok(List(Atoms(xs) + [List(Atoms(ys))]))
  {
    var close := [")"] + zs;
    var inner := ["("] + ys + close;
    var ts := ["("] + xs + inner;
    assert ["("] + xs + ["("] + ys + [")"] + zs == ts;
    assert ts[0] == "(" && ts[1..] == xs + inner;
    var nested := List(Atoms(ys));
    NestedListLeavesClose(ys, close);
    // the enclosing list: the atoms, then the nested list, then the loop meets that `)`
    assert (["("] + close)[1..] == close;
    assert ParseSublistSpec(inner, Atoms(xs)) == ParseSublistSpec(close, Atoms(xs) + [nested]);
    SublistCollectsAtoms(xs, inner, []);
    assert [] + Atoms(xs) == Atoms(xs);
  }

  /** A nested list of atoms is parsed whole and leaves its `(` and `)` in the view. */
  lemma NestedListLeavesClose(ys: seq<string>, close: seq<string>)
    requires NoParens(ys) && |close| > 0 && close[0] == ")"
    ensures ParseListSpec(["("] + ys + close) == ParseOut(Ok(List(Atoms(ys))), ["("] + close)
  {
    var inner := ["("] + ys + close;
    assert inner[0] == "(" && inner[1..] == ys + close;
    SublistCollectsAtoms(ys, close, []);
    assert [] + Atoms(ys) == Atoms(ys);
    assert ParseSublistSpec(close, Atoms(ys)) == ParseOut(Ok(List(Atoms(ys))), close);
  }

  /** `(a (b) c)` parses as `(a (b))`: the `c` is never collected. */
  lemma NestedListExample(ts: seq<string>)
    requires ts == ["(", "a", "(", "b", ")", "c", ")"]
    ensures ParseListSpec(ts).res == Ok(List([Symbol("a"), List([Symbol("b")])]))
  {
    assert !IsDigit('a') && !IsDigit('b');
    assert ParseAtom("a") == Symbol("a") && ParseAtom("b") == Symbol("b");
    assert Atoms(["a"]) == [Symbol("a")] && Atoms(["b"]) == [Symbol("b")];
    NestedListEndsEnclosing(["a"], ["b"], ["c", ")"]);
    assert ["("] + ["a"] + ["("] + ["b"] + [")"] + ["c", ")"] == ts;
    assert Atoms(["a"]) + [List(Atoms(["b"]))] == [Symbol("a"), List([Symbol("b")])];
  }

  /** A list with no `)` after its `(` fails with "Unexpected EOF while parsing". */
  lemma {:induction false} UnclosedSublist(ts: seq<string>, values: seq<Value>)
    requires ")" !in ts
    ensures ParseSublistSpec(ts, values).res == Err(Lisp(UnexpectedEof))
    decreases |ts|
  {
    if ts != [] {
      if ts[0] == "(" {
        UnclosedSublist(ts[1..], []);
      } else {
        UnclosedSublist(ts[1..], values + [ParseAtom(ts[0])]);
      }
    }
  }

  lemma UnclosedList(ts: seq<string>)
    requires ")" !in ts && |ts| > 0 && ts[0] == "("
    ensures ParseListSpec(ts).res == Err(Lisp(UnexpectedEof))
  {
    UnclosedSublist(ts[1..], []);
  }

  /** A `)` where an expression is expected fails with "Unexpected ')' while parsing". */
  lemma CloseWhereExpressionExpected(ts: seq<string>)
    requires |ts| > 0 && ts[0] == ")"
    ensures ParseListSpec(ts).res == Err(Lisp(UnexpectedClose))
  {
  }

  /** The tokens of a flat list, `(`, atoms and `)`, read as the List of the atoms. */
  lemma FlatTokensParse(atoms: seq<string>)
    requires NoParens(atoms)
    ensures ParseListSpec(["("] + atoms + [")"]).res == Ok(List(Atoms(atoms)))
  {
    var ts := ["("] + atoms + [")"];
    assert ts[0] == "(" && ts[1..] == atoms + [")"];
    SublistCollectsAtoms(atoms, [")"], []);
    assert [] + Atoms(atoms) == Atoms(atoms);
  }

  /** No plain atom is a parenthesis token. */
  lemma PlainAtomsNoParens(atoms: seq<string>)
    requires forall i :: 0 <= i < |atoms| ==> Tokenizer.PlainAtom(atoms[i])
    ensures NoParens(atoms)
  {
    forall i | 0 <= i < |atoms| ensures atoms[i] != "(" && atoms[i] != ")" {
      assert "("[0] == '(' && ")"[0] == ')';
    }
  }

  /** A flat list written with single spaces, `(a1 a2 ... an)`, reads as the List of its atoms. */
  lemma ParseFlat(atoms: seq<string>)
    requires forall i :: 0 <= i < |atoms| ==> Tokenizer.PlainAtom(atoms[i])
    ensures Parse("(" + Tokenizer.Spaced(atoms) + ")") == Ok(List(Atoms(atoms)))
  {
    Tokenizer.TokenizeFlat(atoms);
    PlainAtomsNoParens(atoms);
    FlatTokensParse(atoms);
  }

  lemma SumAtoms()
    ensures Atoms(["+", "1", "2"]) == [Symbol("+"), Number(1), Number(2)]
  {
    assert !AllDigits("") && "+"[1..] == "";
    assert ParseAtom("+") == Symbol("+");
    assert DigitsValue("1"[..0]) == 0 && DigitsValue("2"[..0]) == 0;
    assert ParseAtom("1") == Number(1) && ParseAtom("2") == Number(2);
  }

  /** `(+ 1 2)` parses to the List of Symbol `+`, Number 1 and Number 2. */
  lemma ParseSumExample(program: string)
    requires program == "(+ 1 2)"
    ensures Parse(program) == Ok(List([Symbol("+"), Number(1), Number(2)]))
  {
    var atoms := ["+", "1", "2"];
    assert !Tokenizer.IsWhitespace("+"[0]) && !Tokenizer.IsWhitespace("1"[0]) && !Tokenizer.IsWhitespace("2"[0]);
    ParseFlat(atoms);
    assert "(" + Tokenizer.Spaced(atoms) + ")" == program;
    SumAtoms();
  }

  /** `()` parses to the empty List. */
  lemma ParseEmptyListExample(program: string)
    requires program == "()"
    ensures Parse(program) == Ok(List([]))
  {
    ParseFlat([]);
    assert "(" + Tokenizer.Spaced([]) + ")" == program;
  }

  /** Empty input fails with "Unexpected EOF while parsing". */
  lemma ParseNothingExample()
    ensures Parse("") == Err(Lisp(UnexpectedEof))
  {
    Tokenizer.TokenizeNothing();
  }

  lemma FxAtoms()
    ensures Atoms(["fx", "5"]) == [Symbol("fx"), Number(5)]
  {
    assert "fx"[0] == 'f' && !IsDigit('f');
    assert ParseAtom("fx") == Symbol("fx");
    assert DigitsValue("5"[..0]) == 0;
    assert ParseAtom("5") == Number(5);
  }

  /** `(fx 5)` parses to the List of Symbol `fx` and Number 5. */
  lemma ParseFxExample(program: string)
    requires program == "(fx 5)"
    ensures Parse(program) == Ok(List([Symbol("fx"), Number(5)]))
  {
    var atoms := ["fx", "5"];
    assert !Tokenizer.IsWhitespace("fx"[0]) && !Tokenizer.IsWhitespace("5"[0]);
    ParseFlat(atoms);
    assert "(" + Tokenizer.Spaced(atoms) + ")" == program;
    FxAtoms();
  }

  lemma DefineAtoms()
    ensures Atoms(["define", "x", "211"]) == [Symbol("define"), Symbol("x"), Number(211)]
  {
    assert "define"[0] == 'd' && !IsDigit('d') && "x"[0] == 'x' && !IsDigit('x');
    assert ParseAtom("define") == Symbol("define") && ParseAtom("x") == Symbol("x");
    assert "211"[..2] == "21" && "21"[..1] == "2" && "2"[..0] == "";
    assert DigitsValue("2") == 2;
    assert DigitsValue("21") == 21;
    assert DigitsValue("211") == 211;
    assert ParseAtom("211") == Number(211);
  }

  lemma DefineText()
    ensures "(" + Tokenizer.Spaced(["define", "x", "211"]) + ")" == "(define x 211)"
    ensures forall i :: 0 <= i < 3 ==> Tokenizer.PlainAtom(["define", "x", "211"][i])
  {
    assert Tokenizer.Spaced(["define", "x", "211"]) == "define" + " " + ("x" + " " + "211");
    assert !Tokenizer.IsWhitespace("define"[0]) && !Tokenizer.IsWhitespace("x"[0]) && !Tokenizer.IsWhitespace("211"[0]);
  }

  /** `(define x 211)` parses to the List of Symbols `define` and `x` and Number 211. */
  lemma ParseDefineExample(program: string)
    requires program == "(define x 211)"
    ensures Parse(program) == Ok(List([Symbol("define"), Symbol("x"), Number(211)]))
  {
    DefineText();
    ParseFlat(["define", "x", "211"]);
    DefineAtoms();
  }
}
