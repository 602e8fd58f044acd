/** Orders and small arithmetic shared by the models: code-point order on strings,
    rounding to four decimals, and sums over finite sets. */
module Ordering {

  datatype Option<+T> = None | Some(value: T)

  datatype Result<+T> = Ok(value: T) | Err(error: string)

  /** Python's `<` on `str`: lexicographic, by code point. */
  predicate LexLess(a: string, b: string) {
    b != "" && (a == "" || a[0] < b[0] || (a[0] == b[0] && LexLess(a[1..], b[1..])))
  }

  lemma {:induction false} LexTrichotomy(a: string, b: string)
    ensures a == b || LexLess(a, b) || LexLess(b, a)
    ensures !(LexLess(a, b) && LexLess(b, a))
    ensures a == b ==> !LexLess(a, b)
  {
    if a != "" && b != "" && a[0] == b[0] {
      LexTrichotomy(a[1..], b[1..]);
      assert a == [a[0]] + a[1..] && b == [b[0]] + b[1..];
    }
  }

  lemma {:induction false} LexTransitive(a: string, b: string, c: string)
    requires LexLess(a, b) && LexLess(b, c)
    ensures LexLess(a, c)
  {
    if a != "" && a[0] == b[0] == c[0] {
      LexTransitive(a[1..], b[1..], c[1..]);
    }
  }

  function MaxReal(a: real, b: real): real {
    if a >= b then a else b
  }

  function MaxInt(a: int, b: int): int {
    if a >= b then a else b
  }

  /** Python's `round`: ties go to the even neighbour. */
  function RoundHalfEven(x: real): (r: int)
    ensures -0.5 <= x - r as real <= 0.5
    ensures x - r as real == 0.5 || x - r as real == -0.5 ==> r % 2 == 0
  {
    var f := x.Floor;
    var d := x - f as real;
    if d < 0.5 || (d == 0.5 && f % 2 == 0) then f else f + 1
  }

  function Round4(x: real): real {
    RoundHalfEven(x * 10000.0) as real / 10000.0
  }

  lemma RoundHalfEvenMonotone(x: real, y: real)
    requires x <= y
    ensures RoundHalfEven(x) <= RoundHalfEven(y)
  {
    assert x.Floor <= y.Floor;
  }

  lemma Round4Monotone(x: real, y: real)
    requires x <= y
    ensures Round4(x) <= Round4(y)
  {
    RoundHalfEvenMonotone(x * 10000.0, y * 10000.0);
  }

  lemma SubsetCardinality<T>(a: set<T>, b: set<T>)
    requires a <= b
    ensures |a| <= |b|
    ensures |a| == |b| ==> a == b
  {
    assert b == a + (b - a);
  }

  predicate AllDifferent<T(==)>(s: seq<T>) {
    forall i, j | 0 <= i < j < |s| :: s[i] != s[j]
  }

  function Members<T>(s: seq<T>): set<T> {
    set x | x in s
  }

  /** Counting finds repetitions: a list has as many members as places exactly when nothing repeats. */
  lemma {:induction false} DifferentCount<T>(s: seq<T>)
    ensures |Members(s)| <= |s|
    ensures |Members(s)| == |s| <==> AllDifferent(s)
  {
    if s != [] {
      var init, last := s[..|s| - 1], s[|s| - 1];
      DifferentCount(init);
      assert Members(s) == Members(init) + {last};
      assert s == init + [last];
      if last in init {
        assert Members(s) == Members(init);
        assert exists i | 0 <= i < |init| :: s[i] == s[|s| - 1];
      } else {
        assert AllDifferent(s) <==> AllDifferent(init);
      }
    }
  }

  /** The sum of `m` over the keys in `s`; a Python `sum` over a set of keys. */
  ghost function SumOver(m: map<string, real>, s: set<string>): real
    requires s <= m.Keys
  {
    if s == {} then 0.0 else
      var x :| x in s;
      m[x] + SumOver(m, s - {x})
  }

  /** The order in which the set is traversed does not matter. */
  lemma {:induction false} SumOverRemove(m: map<string, real>, s: set<string>, x: string)
    requires s <= m.Keys && x in s
    ensures SumOver(m, s) == m[x] + SumOver(m, s - {x})
    decreases |s|
  {
    var y :| y in s && SumOver(m, s) == m[y] + SumOver(m, s - {y});
    if x != y {
      SumOverRemove(m, s - {y}, x);
      SumOverRemove(m, s - {x}, y);
      assert s - {y} - {x} == s - {x} - {y};
    }
  }

  lemma {:induction false} SumOverMonotone(m: map<string, real>, s: set<string>, t: set<string>)
    requires s <= t <= m.Keys
    requires forall x | x in t :: m[x] >= 0.0
    ensures 0.0 <= SumOver(m, s) <= SumOver(m, t)
    decreases |t|
  {
    if t == {} {
      assert s == {};
    } else {
      var x :| x in t;
      SumOverRemove(m, t, x);
      if x in s {
        SumOverRemove(m, s, x);
      } else {
        assert s - {x} == s;
      }
      SumOverMonotone(m, s - {x}, t - {x});
    }
  }
}
