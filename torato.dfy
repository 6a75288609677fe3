/**
 * The character statistics of etoiletoi-kt/src/main/kotlin/torato.kt: which
 * character follows which in the text fed to an `AdjacentMap`, and the
 * `height` of a string, the count of its most frequent character.
 */
module Torato {
  import opened Wrappers
  import opened Tokenizer

  /** `AdjacentMap.MAX_ADJACENT_LENGTH`: the largest height a generated string may have. */
  const MaxAdjacentLength: nat := 2

  /** The largest count, in `s`, of any of the characters `s[0]`, ..., `s[k - 1]`. */
  function MostFrequent(s: string, k: nat): (m: nat)
    requires 0 < k <= |s|
    ensures exists i :: 0 <= i < k && m == CharCount(s[i], s)
    ensures forall i :: 0 <= i < k ==> CharCount(s[i], s) <= m
  {
    if k == 1 then CharCount(s[0], s)
    else
      var m := MostFrequent(s, k - 1);
      if CharCount(s[k - 1], s) > m then CharCount(s[k - 1], s) else m
  }

  /**
   * `String.height()`: the size of the largest group of equal characters;
   * `maxOf` over no groups throws, so the empty string has no height.
   */
  function Height(s: string): (h: Option<nat>)
    ensures h.None? <==> s == []
    ensures h.Some? ==> exists c :: c in s && h.value == CharCount(c, s)
    ensures h.Some? ==> forall c :: CharCount(c, s) <= h.value
  {
    if s == [] then None
    else
      var m := MostFrequent(s, |s|);
      forall c | c !in s
        ensures CharCount(c, s) == 0
      {
        CharCountAbsent(c, s);
      }
      assert forall c :: c in s ==> exists i :: 0 <= i < |s| && s[i] == c;
      Some(m)
  }

  /** A character occurs at most as often as the string is long. */
  lemma {:induction false} OccurrencesBound(s: string, c: char)
    ensures CharCount(c, s) <= |s|
  {
    if s != [] {
      OccurrencesBound(s[1..], c);
    }
  }

  /** A nonempty string has a height between 1 and its length. */
  lemma HeightBounds(s: string)
    requires s != []
    ensures 1 <= Height(s).value <= |s|
  {
    var h := Height(s).value;
    var c :| c in s && h == CharCount(c, s);
    OccurrencesBound(s, c);
  }

  /**
   * The test `generateBy` puts a candidate through: no character may occur
   * more than `MaxAdjacentLength` times. A candidate always holds at least
   * the starting character.
   */
  function WithinAdjacentLimit(s: string): (ok: bool)
    requires s != []
    ensures ok <==> forall c :: CharCount(c, s) <= MaxAdjacentLength
  {
    var h := Height(s).value;
    assert exists c :: c in s && h == CharCount(c, s);
    h <= MaxAdjacentLength
  }

  /** The successors recorded for `c`, the empty set when `c` is no key. */
  function Successors(m: map<char, set<char>>, c: char): set<char> {
    if c in m then m[c] else {}
  }

  /** One step of `input`: `d` is recorded as a successor of `c`. */
  function Record(m: map<char, set<char>>, c: char, d: char): map<char, set<char>> {
    m[c := Successors(m, c) + {d}]
  }

  /** The number of adjacent pairs in `data`, that is, the length of `data.dropLast(1)`. */
  function Pairs(data: string): nat {
    if data == [] then 0 else |data| - 1
  }

  /** The map after the first `k` steps of `input(data)`. */
  function Absorbed(m: map<char, set<char>>, data: string, k: nat): map<char, set<char>>
    requires k <= Pairs(data)
  {
    if k == 0 then m else Record(Absorbed(m, data, k - 1), data[k - 1], data[k])
  }

  /** The map after `input(data)`. */
  function Absorb(m: map<char, set<char>>, data: string): map<char, set<char>> {
    Absorbed(m, data, Pairs(data))
  }

  /** The characters that directly follow an occurrence of `c` among the first `k` positions of `data`. */
  function Followers(data: string, c: char, k: nat): set<char>
    requires k <= Pairs(data)
  {
    set j | 0 <= j < k && data[j] == c :: After(data, j)
  }

  /** The character right after position `j`. */
  function After(data: string, j: nat): char
    requires j + 1 < |data|
  {
    data[j + 1]
  }

  /** The characters at the first `k` positions of `data`, each of which gets a successor. */
  function Heads(data: string, k: nat): set<char>
    requires k <= |data|
  {
    set j | 0 <= j < k :: data[j]
  }

  /** `AdjacentMap`: a hash map from each character to the characters seen right after it. */
  class AdjacentMap {
    var successors: map<char, set<char>>

    constructor ()
      ensures successors == map[]
    {
      successors := map[];
    }

    /** `input(data)`: record every adjacent pair of `data`, left to right. */
    method Input(data: string)
      modifies this
      ensures successors == Absorb(old(successors), data)
    {
      var index := 0;
      while index < Pairs(data)
        invariant 0 <= index <= Pairs(data)
        invariant successors == Absorbed(old(successors), data, index)
      {
        var c := data[index];
        successors := successors[c := (if c in successors then successors[c] else {}) + {data[index + 1]}];
        index := index + 1;
      }
    }
  }

  /**
   * The exact result of the first `k` steps: every key keeps its old
   * successors and gains the characters that follow it in `data`; the keys
   * are the old ones and the characters that were given a successor.
   */
  lemma {:induction false} AbsorbedExact(m: map<char, set<char>>, data: string, k: nat, c: char)
    requires k <= Pairs(data)
    ensures Successors(Absorbed(m, data, k), c) == Successors(m, c) + Followers(data, c, k)
    ensures Absorbed(m, data, k).Keys == m.Keys + Heads(data, k)
  {
    if k > 0 {
      AbsorbedExact(m, data, k - 1, c);
      assert Heads(data, k) == Heads(data, k - 1) + {data[k - 1]};
      if data[k - 1] == c {
        assert Followers(data, c, k) == Followers(data, c, k - 1) + {After(data, k - 1)};
      } else {
        assert Followers(data, c, k) == Followers(data, c, k - 1);
      }
    }
  }

  /** `input(data)` adds to each key exactly the characters that follow it in `data`. */
  lemma InputExact(m: map<char, set<char>>, data: string, c: char)
    ensures Successors(Absorb(m, data), c) == Successors(m, c) + Followers(data, c, Pairs(data))
    ensures Absorb(m, data).Keys == m.Keys + Heads(data, Pairs(data))
  {
    AbsorbedExact(m, data, Pairs(data), c);
  }

  /** Afterwards every adjacent pair of `data` is recorded. */
  lemma InputRecordsEveryPair(m: map<char, set<char>>, data: string, i: nat)
    requires i + 1 < |data|
    ensures data[i] in Absorb(m, data) && data[i + 1] in Absorb(m, data)[data[i]]
  {
    InputExact(m, data, data[i]);
    assert data[i] in Heads(data, Pairs(data));
    assert After(data, i) in Followers(data, data[i], Pairs(data));
  }

  /** `input` never removes a key or a successor. */
  lemma InputOnlyAdds(m: map<char, set<char>>, data: string, c: char)
    requires c in m
    ensures c in Absorb(m, data) && m[c] <= Absorb(m, data)[c]
  {
    InputExact(m, data, c);
  }

  /**
   * A character that never stands before another one in `data` keeps its
   * entry, or its absence, as it was; a string of at most one character
   * leaves the whole map unchanged.
   */
  lemma InputLeavesOthers(m: map<char, set<char>>, data: string, c: char)
    requires c !in Heads(data, Pairs(data))
    ensures c in Absorb(m, data) <==> c in m
    ensures c in m ==> Absorb(m, data)[c] == m[c]
  {
    InputExact(m, data, c);
    assert Followers(data, c, Pairs(data)) == {} by {
      forall j | 0 <= j < Pairs(data) ensures data[j] != c {
        assert data[j] in Heads(data, Pairs(data));
      }
    }
  }

  lemma ShortInputChangesNothing(m: map<char, set<char>>, data: string)
    requires |data| <= 1
    ensures Absorb(m, data) == m
  {
  }

  /** Two maps with the same keys and the same successors everywhere are equal. */
  lemma SameSuccessors(a: map<char, set<char>>, b: map<char, set<char>>)
    requires a.Keys == b.Keys
    requires forall c :: Successors(a, c) == Successors(b, c)
    ensures a == b
  {
    forall c | c in a ensures a[c] == b[c] {
      assert Successors(a, c) == Successors(b, c);
    }
  }

  /** Feeding the same text twice records nothing new. */
  lemma InputIdempotent(m: map<char, set<char>>, data: string)
    ensures Absorb(Absorb(m, data), data) == Absorb(m, data)
  {
    var once := Absorb(m, data);
    forall c ensures Successors(Absorb(once, data), c) == Successors(once, c) {
      InputExact(m, data, c);
      InputExact(once, data, c);
    }
    InputExact(m, data, 'a');
    InputExact(once, data, 'a');
    SameSuccessors(Absorb(once, data), once);
  }

  /** The order in which texts are fed does not matter. */
  lemma InputCommutes(m: map<char, set<char>>, d: string, e: string)
    ensures Absorb(Absorb(m, d), e) == Absorb(Absorb(m, e), d)
  {
    var de, ed := Absorb(Absorb(m, d), e), Absorb(Absorb(m, e), d);
    forall c ensures Successors(de, c) == Successors(ed, c) {
      InputExact(m, d, c);
      InputExact(m, e, c);
      InputExact(Absorb(m, d), e, c);
      InputExact(Absorb(m, e), d, c);
    }
    InputExact(m, d, 'a');
    InputExact(m, e, 'a');
    InputExact(Absorb(m, d), e, 'a');
    InputExact(Absorb(m, e), d, 'a');
    SameSuccessors(de, ed);
  }
}
