/**
 * `tokenize` (etoiletoi-kt/src/main/kotlin/lisp.kt:214-221): pad every
 * parenthesis with spaces, split on the space character and drop the pieces
 * that are blank.
 */
module Tokenizer {

  /**
   * Kotlin's `Char.isWhitespace` on the JVM: Java's `isWhitespace` or
   * `isSpaceChar` (the Unicode space, line and paragraph separators, and the
   * control characters tab, line feed, vertical tab, form feed, carriage
   * return and the four information separators).
   */
  predicate IsWhitespace(c: char) {
    c in {'\t', '\n', '\U{000B}', '\U{000C}', '\r', '\U{001C}', '\U{001D}', '\U{001E}', '\U{001F}',
          ' ', '\U{00A0}', '\U{1680}', '\U{2028}', '\U{2029}', '\U{202F}', '\U{205F}', '\U{3000}'}
    || ('\U{2000}' <= c <= '\U{200A}')
  }

  /** `isBlank`: every character is whitespace (so the empty string is blank). */
  predicate IsBlank(s: string) {
    forall i :: 0 <= i < |s| ==> IsWhitespace(s[i])
  }

  predicate IsParen(c: char) {
    c == '(' || c == ')'
  }

  /** `String.replace(c, r)` for a one-character pattern: every `c` becomes `r`. */
  function Replace(s: string, c: char, r: string): string {
    if s == [] then []
    else (if s[0] == c then r else [s[0]]) + Replace(s[1..], c, r)
  }

  /** The padding step: `replace("(", " ( ").replace(")", " ) ")`. */
  function Pad(s: string): string {
    Replace(Replace(s, '(', " ( "), ')', " ) ")
  }

  /**
   * `split(" ")`: the pieces between consecutive spaces, so `n` spaces give
   * `n + 1` pieces, some of them possibly empty.
   */
  function Split(s: string): (r: seq<string>)
    ensures |r| > 0
  {
    if s == [] then [""]
    else
      var rest := Split(s[1..]);
      if s[0] == ' ' then [""] + rest
      else [[s[0]] + rest[0]] + rest[1..]
  }

  /** `filter { it.isNotBlank() }`: keeps the pieces that are not blank, in order. */
  function DropBlank(ps: seq<string>): seq<string> {
    if ps == [] then []
    else if IsBlank(ps[0]) then DropBlank(ps[1..])
    else [ps[0]] + DropBlank(ps[1..])
  }

  /**
   * `DropBlank` keeps exactly the non-blank pieces: what it keeps is a
   * non-blank piece of its input, and every non-blank piece is kept
   * (`DropBlankAppend` below shows that their order is kept too).
   */
  lemma {:induction false} DropBlankKeeps(ps: seq<string>)
    ensures forall k :: 0 <= k < |DropBlank(ps)| ==> !IsBlank(DropBlank(ps)[k]) && DropBlank(ps)[k] in ps
    ensures forall i :: 0 <= i < |ps| && !IsBlank(ps[i]) ==> ps[i] in DropBlank(ps)
  {
    if ps != [] {
      DropBlankKeeps(ps[1..]);
      forall i | 0 <= i < |ps| && !IsBlank(ps[i]) ensures ps[i] in DropBlank(ps) {
        if i > 0 {
          assert ps[i] == ps[1..][i - 1];
        }
      }
    }
  }

  function Tokenize(program: string): seq<string> {
    DropBlank(Split(Pad(program)))
  }

  /** The first piece is a prefix of `s`, and no piece contains a space. */
  lemma {:induction false} SplitPieces(s: string)
    ensures Split(s)[0] <= s
    ensures forall k, j :: 0 <= k < |Split(s)| && 0 <= j < |Split(s)[k]| ==> Split(s)[k][j] != ' '
  {
    if s != [] {
      SplitPieces(s[1..]);
      var rest, r := Split(s[1..]), Split(s);
      if s[0] != ' ' {
        assert r[0] == [s[0]] + rest[0];
        forall k, j | 0 <= k < |r| && 0 <= j < |r[k]| ensures r[k][j] != ' ' {
          if k > 0 { assert r[k] == rest[k]; }
          else if j > 0 { assert r[k][j] == rest[0][j - 1]; }
        }
      } else {
        forall k, j | 0 <= k < |r| && 0 <= j < |r[k]| ensures r[k][j] != ' ' {
          assert r[k] == ([""] + rest)[k];
          if k > 0 { assert r[k] == rest[k - 1]; }
        }
      }
    }
  }

  /** Joins pieces with one space between neighbours: the inverse of `Split`. */
  function JoinWithSpaces(ps: seq<string>): string
    requires |ps| > 0
  {
    if |ps| == 1 then ps[0] else ps[0] + " " + JoinWithSpaces(ps[1..])
  }

  lemma {:induction false} SplitJoin(s: string)
    ensures JoinWithSpaces(Split(s)) == s
  {
    if s != [] {
      SplitJoin(s[1..]);
      var rest := Split(s[1..]);
      if s[0] == ' ' {
        assert Split(s) == [""] + rest;
        assert (Split(s))[1..] == rest;
      } else {
        var r := Split(s);
        assert r[0] == [s[0]] + rest[0] && r[1..] == rest[1..];
        if |rest| > 1 {
          assert JoinWithSpaces(rest) == rest[0] + " " + JoinWithSpaces(rest[1..]);
        }
      }
    }
  }

  /**
   * Every parenthesis in `s` has a space on both sides, so it is neither the
   * first nor the last character.
   */
  predicate Guarded(s: string) {
    forall i :: 0 <= i < |s| && IsParen(s[i]) ==> 0 < i < |s| - 1 && s[i - 1] == ' ' && s[i + 1] == ' '
  }

  /** Every parenthesis has a space, or the end of `s`, on both sides. */
  predicate Isolated(s: string) {
    forall i :: 0 <= i < |s| && IsParen(s[i]) ==> (i == 0 || s[i - 1] == ' ') && (i == |s| - 1 || s[i + 1] == ' ')
  }

  lemma {:induction false} ReplaceAppend(a: string, b: string, c: char, r: string)
    ensures Replace(a + b, c, r) == Replace(a, c, r) + Replace(b, c, r)
  {
    if a == [] {
      assert a + b == b;
    } else {
      var x := if a[0] == c then r else [a[0]];
      assert (a + b)[0] == a[0] && (a + b)[1..] == a[1..] + b;
      ReplaceAppend(a[1..], b, c, r);
      calc {
        Replace(a + b, c, r);
        x + Replace(a[1..] + b, c, r);
        x + (Replace(a[1..], c, r) + Replace(b, c, r));
        (x + Replace(a[1..], c, r)) + Replace(b, c, r);
        Replace(a, c, r) + Replace(b, c, r);
      }
    }
  }

  lemma GuardedAppend(a: string, b: string)
    requires Guarded(a) && Guarded(b)
    ensures Guarded(a + b)
  {
    var s := a + b;
    forall i | 0 <= i < |s| && IsParen(s[i])
      ensures 0 < i < |s| - 1 && s[i - 1] == ' ' && s[i + 1] == ' '
    {
      if i < |a| {
        assert IsParen(a[i]);
      } else {
        assert IsParen(b[i - |a|]);
      }
    }
  }

  /** After padding, no parenthesis touches another character. */
  lemma {:induction false} PadGuards(s: string)
    ensures Guarded(Pad(s))
  {
    if s != [] {
      var first := Replace(Replace([s[0]], '(', " ( "), ')', " ) ");
      assert [s[0]] + s[1..] == s;
      ReplaceAppend([s[0]], s[1..], '(', " ( ");
      ReplaceAppend(Replace([s[0]], '(', " ( "), Replace(s[1..], '(', " ( "), ')', " ) ");
      assert Replace([s[0]], '(', " ( ") == (if s[0] == '(' then " ( " else [s[0]]);
      assert first == (if s[0] == '(' then " ( " else if s[0] == ')' then " ) " else [s[0]]);
      PadGuards(s[1..]);
      GuardedAppend(first, Pad(s[1..]));
    }
  }

  /** Splitting a string whose parentheses are isolated leaves every parenthesis alone in its piece. */
  lemma {:induction false} SplitIsolates(s: string)
    requires Isolated(s)
    ensures forall k, j :: 0 <= k < |Split(s)| && 0 <= j < |Split(s)[k]| && IsParen(Split(s)[k][j]) ==>
              Split(s)[k] == [Split(s)[k][j]]
  {
    if s != [] {
      var rest := Split(s[1..]);
      assert Isolated(s[1..]) by {
        forall i | 0 <= i < |s[1..]| && IsParen(s[1..][i])
          ensures (i == 0 || s[1..][i - 1] == ' ') && (i == |s[1..]| - 1 || s[1..][i + 1] == ' ')
        {
          assert IsParen(s[i + 1]);
        }
      }
      SplitIsolates(s[1..]);
      SplitPieces(s[1..]);
      if s[0] != ' ' {
        var r := Split(s);
        var p := [s[0]] + rest[0];
        assert r[0] == p && r[1..] == rest[1..];
        forall j | 0 <= j < |p| && IsParen(p[j]) ensures p == [p[j]] {
          if IsParen(s[0]) {
            assert rest[0] == [];
          } else if j > 0 {
            assert false;
          }
        }
        forall k, j | 0 <= k < |r| && 0 <= j < |r[k]| && IsParen(r[k][j]) ensures r[k] == [r[k][j]] {
          if k > 0 { assert r[k] == rest[k]; }
        }
      }
    }
  }

  /**
   * The shape of `tokenize`'s output: no token is empty, blank or contains a
   * space, a token containing a parenthesis is that parenthesis alone, and
   * every parenthesis of the program comes out as such a token.
   */
  lemma TokensWellFormed(program: string)
    ensures forall k :: 0 <= k < |Tokenize(program)| ==>
              var t := Tokenize(program)[k];
              |t| > 0 && !IsBlank(t) && (forall j :: 0 <= j < |t| ==> t[j] != ' ') &&
              (forall j :: 0 <= j < |t| && IsParen(t[j]) ==> t == [t[j]])
    ensures TokenCount("(", Tokenize(program)) == CharCount('(', program)
    ensures TokenCount(")", Tokenize(program)) == CharCount(')', program)
  {
    var padded := Pad(program);
    PadGuards(program);
    SplitIsolates(padded);
    SplitPieces(padded);
    DropBlankKeeps(Split(padded));
    var pieces := Split(padded);
    var toks := Tokenize(program);
    forall k | 0 <= k < |toks|
      ensures var t := toks[k];
              |t| > 0 && !IsBlank(t) && (forall j :: 0 <= j < |t| ==> t[j] != ' ') &&
              (forall j :: 0 <= j < |t| && IsParen(t[j]) ==> t == [t[j]])
    {
      var t := toks[k];
      assert t in pieces;
      var m :| 0 <= m < |pieces| && pieces[m] == t;
    }
    forall c | IsParen(c)
      ensures TokenCount([c], toks) == CharCount(c, program)
    {
      IsolatedParensCount(toks, c);
      DropBlankKeepsCount(pieces, c);
      SplitKeepsCount(padded, c);
      PadKeepsParens(program, c);
    }
    assert IsParen('(') && IsParen(')');
  }

  /** `DropBlank` keeps the order of the pieces: filtering a concatenation filters each part. */
  lemma {:induction false} DropBlankAppend(a: seq<string>, b: seq<string>)
    ensures DropBlank(a + b) == DropBlank(a) + DropBlank(b)
  {
    if a == [] {
      assert a + b == b;
    } else {
      assert (a + b)[0] == a[0] && (a + b)[1..] == a[1..] + b;
      DropBlankAppend(a[1..], b);
    }
  }

  /** Pieces that are all non-blank pass the filter unchanged. */
  lemma {:induction false} DropBlankKeepsAll(ps: seq<string>)
    requires forall i :: 0 <= i < |ps| ==> !IsBlank(ps[i])
    ensures DropBlank(ps) == ps
  {
    if ps != [] {
      DropBlankKeepsAll(ps[1..]);
    }
  }

  /** Replacing a character that does not occur changes nothing. */
  lemma {:induction false} ReplaceAbsent(s: string, c: char, r: string)
    requires c !in s
    ensures Replace(s, c, r) == s
  {
    if s != [] {
      assert s == [s[0]] + s[1..];
      ReplaceAbsent(s[1..], c, r);
    }
  }

  /** Splitting a word followed by a space gives that word, then the pieces of the rest. */
  lemma {:induction false} SplitAfterWord(x: string, y: string)
    requires ' ' !in x
    ensures Split(x + " " + y) == [x] + Split(y)
  {
    var s := x + " " + y;
    if x == [] {
      assert s[0] == ' ' && s[1..] == y;
    } else {
      assert s[0] == x[0] && s[1..] == x[1..] + " " + y;
      assert ' ' !in x[1..] by {
        assert x == [x[0]] + x[1..];
      }
      SplitAfterWord(x[1..], y);
      assert [x[0]] + x[1..] == x;
    }
  }

  /** A token the reader sees as an atom: not blank, with no space and no parenthesis. */
  predicate PlainAtom(a: string) {
    !IsBlank(a) && ' ' !in a && '(' !in a && ')' !in a
  }

  /** The atoms written one after another, a single space between neighbours. */
  function Spaced(atoms: seq<string>): string {
    if atoms == [] then "" else JoinWithSpaces(atoms)
  }

  /** The pieces of a run of spaced words followed by a space are those words, then the pieces of the rest. */
  lemma {:induction false} SplitSpaced(atoms: seq<string>, y: string)
    requires atoms != [] && forall i :: 0 <= i < |atoms| ==> ' ' !in atoms[i]
    ensures Split(Spaced(atoms) + " " + y) == atoms + Split(y)
    decreases |atoms|
  {
    if |atoms| == 1 {
      SplitAfterWord(atoms[0], y);
      assert [atoms[0]] == atoms;
    } else {
      var tail := Spaced(atoms[1..]);
      assert Spaced(atoms) == atoms[0] + " " + tail;
      assert Spaced(atoms) + " " + y == atoms[0] + " " + (tail + " " + y);
      SplitAfterWord(atoms[0], tail + " " + y);
      SplitSpaced(atoms[1..], y);
      assert [atoms[0]] + atoms[1..] == atoms;
    }
  }

  /** A character that no atom holds and that is not a space does not occur in the spaced atoms. */
  lemma {:induction false} SpacedLacks(atoms: seq<string>, c: char)
    requires c != ' ' && forall i :: 0 <= i < |atoms| ==> c !in atoms[i]
    ensures c !in Spaced(atoms)
    decreases |atoms|
  {
    if |atoms| > 1 {
      SpacedLacks(atoms[1..], c);
      assert Spaced(atoms) == atoms[0] + " " + Spaced(atoms[1..]);
    }
  }

  /** Padding a parenthesised text whose inside has no parenthesis. */
  lemma PadFlat(inside: string)
    requires '(' !in inside && ')' !in inside
    ensures Pad("(" + inside + ")") == " ( " + inside + " ) "
  {
    ReplaceAppend("(" + inside, ")", '(', " ( ");
    ReplaceAppend("(", inside, '(', " ( ");
    assert Replace("(", '(', " ( ") == " ( " + Replace("", '(', " ( ");
    ReplaceAbsent(inside, '(', " ( ");
    ReplaceAbsent(")", '(', " ( ");
    ReplaceAppend(" ( " + inside, ")", ')', " ) ");
    ReplaceAppend(" ( ", inside, ')', " ) ");
    ReplaceAbsent(" ( ", ')', " ) ");
    ReplaceAbsent(inside, ')', " ) ");
    assert Replace(")", ')', " ) ") == " ) " + Replace("", ')', " ) ");
  }

  /** The pieces of a padded flat list: `(`, the atoms (or one empty piece when there are none), `)`. */
  lemma SplitFlat(atoms: seq<string>)
    requires forall i :: 0 <= i < |atoms| ==> ' ' !in atoms[i]
    ensures Split(" ( " + Spaced(atoms) + " ) ") == ["", "("] + (if atoms == [] then [""] else atoms) + [")", ""]
  {
    var inside := Spaced(atoms);
    var rest := inside + " " + ") ";
    assert " ( " + inside + " ) " == "" + " " + ("(" + " " + rest);
    SplitAfterWord("", "(" + " " + rest);
    SplitAfterWord("(", rest);
    assert Split(") ") == [")", ""] by {
      assert ")" + " " + "" == ") ";
      SplitAfterWord(")", "");
    }
    if atoms == [] {
      assert rest == "" + " " + ") ";
      SplitAfterWord("", ") ");
    } else {
      SplitSpaced(atoms, ") ");
    }
  }

  /** Dropping the blank pieces of a padded flat list leaves `(`, the atoms and `)`. */
  lemma DropFlat(atoms: seq<string>)
    requires forall i :: 0 <= i < |atoms| ==> !IsBlank(atoms[i])
    ensures DropBlank(["", "("] + (if atoms == [] then [""] else atoms) + [")", ""]) == ["("] + atoms + [")"]
  {
    var middle := if atoms == [] then [""] else atoms;
    DropBlankAppend(["", "("] + middle, [")", ""]);
    DropBlankAppend(["", "("], middle);
    assert !IsBlank("(") by { assert !IsWhitespace("("[0]); }
    assert !IsBlank(")") by { assert !IsWhitespace(")"[0]); }
    assert DropBlank(["", "("]) == ["("];
    assert DropBlank([")", ""]) == [")"];
    assert DropBlank(middle) == atoms by {
      if atoms != [] {
        DropBlankKeepsAll(atoms);
      }
    }
  }

  /**
   * A flat list written with single spaces, `(a1 a2 ... an)`, tokenizes to
   * `(`, the atoms in order, and `)`.
   */
  lemma TokenizeFlat(atoms: seq<string>)
    requires forall i :: 0 <= i < |atoms| ==> PlainAtom(atoms[i])
    ensures Tokenize("(" + Spaced(atoms) + ")") == ["("] + atoms + [")"]
  {
    SpacedLacks(atoms, '(');
    SpacedLacks(atoms, ')');
    PadFlat(Spaced(atoms));
    SplitFlat(atoms);
    DropFlat(atoms);
  }

  /** `tokenize("(+ 1 2)")` is `["(", "+", "1", "2", ")"]`. */
  lemma TokenizeSum(program: string)
    requires program == "(+ 1 2)"
    ensures Tokenize(program) == ["(", "+", "1", "2", ")"]
  {
    var atoms := ["+", "1", "2"];
    assert !IsWhitespace("+"[0]) && !IsWhitespace("1"[0]) && !IsWhitespace("2"[0]);
    TokenizeFlat(atoms);
    assert "(" + Spaced(atoms) + ")" == program;
  }

  /** `tokenize("()")` is `["(", ")"]`. */
  lemma TokenizeEmpty(program: string)
    requires program == "()"
    ensures Tokenize(program) == ["(", ")"]
  {
    TokenizeFlat([]);
    assert "(" + Spaced([]) + ")" == program;
  }

  /** `tokenize("(fx 5)")` is `["(", "fx", "5", ")"]`. */
  lemma TokenizeFx(program: string)
    requires program == "(fx 5)"
    ensures Tokenize(program) == ["(", "fx", "5", ")"]
  {
    var atoms := ["fx", "5"];
    assert !IsWhitespace("fx"[0]) && !IsWhitespace("5"[0]);
    TokenizeFlat(atoms);
    assert "(" + Spaced(atoms) + ")" == program;
  }

  /** `tokenize("")` is empty. */
  lemma TokenizeNothing()
    ensures Tokenize("") == []
  {
    assert Split("") == [""];
    assert IsBlank("");
  }

  /** How often `c` occurs in `s`. */
  function CharCount(c: char, s: string): nat {
    if s == [] then 0 else (if s[0] == c then 1 else 0) + CharCount(c, s[1..])
  }

  /** How often `c` occurs in all the pieces `ps` together. */
  function PiecesCount(c: char, ps: seq<string>): nat {
    if ps == [] then 0 else CharCount(c, ps[0]) + PiecesCount(c, ps[1..])
  }

  /** How many of the tokens `ts` are `t`. */
  function TokenCount(t: string, ts: seq<string>): nat {
    if ts == [] then 0 else (if ts[0] == t then 1 else 0) + TokenCount(t, ts[1..])
  }

  lemma {:induction false} CharCountAppend(c: char, a: string, b: string)
    ensures CharCount(c, a + b) == CharCount(c, a) + CharCount(c, b)
  {
    if a == [] {
      assert a + b == b;
    } else {
      assert (a + b)[0] == a[0] && (a + b)[1..] == a[1..] + b;
      CharCountAppend(c, a[1..], b);
    }
  }

  lemma {:induction false} CharCountAbsent(c: char, s: string)
    requires c !in s
    ensures CharCount(c, s) == 0
  {
    if s != [] {
      assert s == [s[0]] + s[1..];
      CharCountAbsent(c, s[1..]);
    }
  }

  /** Replacing `d` by a text that holds `c` exactly as often as `d` does keeps the count of `c`. */
  lemma {:induction false} CharCountReplace(c: char, s: string, d: char, r: string)
    requires CharCount(c, r) == (if c == d then 1 else 0)
    ensures CharCount(c, Replace(s, d, r)) == CharCount(c, s)
  {
    if s != [] {
      var x := if s[0] == d then r else [s[0]];
      assert Replace(s, d, r) == x + Replace(s[1..], d, r);
      CharCountAppend(c, x, Replace(s[1..], d, r));
      CharCountReplace(c, s[1..], d, r);
      assert CharCount(c, [s[0]]) == (if s[0] == c then 1 else 0) by {
        assert [s[0]][1..] == [];
      }
    }
  }

  /** Padding neither adds nor removes a parenthesis. */
  lemma PadKeepsParens(s: string, c: char)
    requires IsParen(c)
    ensures CharCount(c, Pad(s)) == CharCount(c, s)
  {
    assert " ( "[1..] == "( " && "( "[1..] == " " && " "[1..] == "";
    assert " ) "[1..] == ") " && ") "[1..] == " ";
    CharCountReplace(c, s, '(', " ( ");
    CharCountReplace(c, Replace(s, '(', " ( "), ')', " ) ");
  }

  /** Splitting on spaces loses no other character. */
  lemma SplitKeepsCount(s: string, c: char)
    requires c != ' '
    ensures PiecesCount(c, Split(s)) == CharCount(c, s)
  {
    SplitJoin(s);
    JoinKeepsCount(Split(s), c);
  }

  lemma {:induction false} JoinKeepsCount(ps: seq<string>, c: char)
    requires |ps| > 0 && c != ' '
    ensures CharCount(c, JoinWithSpaces(ps)) == PiecesCount(c, ps)
  {
    if |ps| > 1 {
      JoinKeepsCount(ps[1..], c);
      CharCountAppend(c, ps[0] + " ", JoinWithSpaces(ps[1..]));
      CharCountAppend(c, ps[0], " ");
      assert CharCount(c, " ") == 0 by { assert " "[1..] == ""; }
    } else {
      assert ps[1..] == [];
    }
  }

  /** Dropping blank pieces loses no character that is not whitespace. */
  lemma {:induction false} DropBlankKeepsCount(ps: seq<string>, c: char)
    requires !IsWhitespace(c)
    ensures PiecesCount(c, DropBlank(ps)) == PiecesCount(c, ps)
  {
    if ps != [] {
      DropBlankKeepsCount(ps[1..], c);
      if IsBlank(ps[0]) {
        assert c !in ps[0];
        CharCountAbsent(c, ps[0]);
      } else {
        assert DropBlank(ps) == [ps[0]] + DropBlank(ps[1..]);
        assert ([ps[0]] + DropBlank(ps[1..]))[1..] == DropBlank(ps[1..]);
      }
    }
  }

  /** Where every token holding the parenthesis `c` is `c` alone, counting `c` counts those tokens. */
  lemma {:induction false} IsolatedParensCount(ts: seq<string>, c: char)
    requires IsParen(c)
    requires forall k, j :: 0 <= k < |ts| && 0 <= j < |ts[k]| && IsParen(ts[k][j]) ==> ts[k] == [ts[k][j]]
    ensures PiecesCount(c, ts) == TokenCount([c], ts)
  {
    if ts != [] {
      assert forall k, j :: 0 <= k < |ts[1..]| && 0 <= j < |ts[1..][k]| ==> ts[1..][k][j] == ts[k + 1][j];
      IsolatedParensCount(ts[1..], c);
      if ts[0] == [c] {
        assert CharCount(c, ts[0]) == 1 by { assert ts[0][1..] == []; }
      } else {
        assert c !in ts[0];
        CharCountAbsent(c, ts[0]);
      }
    }
  }

}
