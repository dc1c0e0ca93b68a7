/** TF-IDF ranking of memory entries, over the reals. The logarithm and the square
  * root are parameters, of which only what the scores rest on is asked. */
module TfIdf {
  import opened Words

  type Fn = real -> real

  ghost predicate IsLog(ln: Fn) {
    forall x :: x >= 1.0 ==> ln(x) >= 0.0
  }

  ghost predicate IsRoot(root: Fn) {
    forall x :: x >= 0.0 ==> root(x) >= 0.0 && root(x) * root(x) == x
  }

  // ---- Tokens ----

  function Bigrams(words: seq<string>): seq<string> {
    if |words| < 2 then [] else [words[0] + "_" + words[1]] + Bigrams(words[1..])
  }

  function Tokenize(text: string): seq<string> {
    var words := Longer(Runs(Lower(text), ""), 2);
    words + Bigrams(words)
  }

  /** Neighbouring words are joined, in order. */
  lemma {:induction false} BigramsJoinNeighbours(words: seq<string>)
    ensures |Bigrams(words)| == if words == [] then 0 else |words| - 1
    ensures forall i :: 0 <= i < |Bigrams(words)| ==> Bigrams(words)[i] == words[i] + "_" + words[i + 1]
  {
    if |words| >= 2 {
      BigramsJoinNeighbours(words[1..]);
    }
  }

  /** The tokens of a text are its words of more than two characters, in order, and then
    * the neighbours among these. */
  lemma TokensAreWordsAndNeighbours(text: string, words: seq<string>, gaps: seq<string>)
    requires Spells(Lower(text), words, gaps)
    ensures var long, tokens := Longer(words, 2), Tokenize(text);
      long <= tokens && |tokens| == (if long == [] then 0 else 2 * |long| - 1)
      && forall i :: 0 <= i < |long| - 1 ==> tokens[|long| + i] == long[i] + "_" + long[i + 1]
  {
    RunsAreTheWords(Lower(text), words, gaps);
    BigramsJoinNeighbours(Longer(words, 2));
  }

  // ---- Vectors ----

  function Dot(a: seq<real>, b: seq<real>): real
    requires |a| == |b|
  {
    if a == [] then 0.0 else Dot(a[..|a| - 1], b[..|b| - 1]) + a[|a| - 1] * b[|b| - 1]
  }

  function Squares(a: seq<real>): (r: real)
    ensures r >= 0.0
  {
    if a == [] then 0.0 else Squares(a[..|a| - 1]) + a[|a| - 1] * a[|a| - 1]
  }

  // How far a and b are, place by place, from being in the proportion of x to y.
  function Gaps(a: seq<real>, b: seq<real>, x: real, y: real): (g: seq<real>)
    requires |a| == |b|
    ensures |g| == |a| && forall i :: 0 <= i < |g| ==> g[i] == Gap(a[i], b[i], x, y)
  {
    if a == [] then []
    else
      var n := |a| - 1;
      Gaps(a[..n], b[..n], x, y) + [Gap(a[n], b[n], x, y)]
  }

  function Gap(p: real, q: real, x: real, y: real): real {
    p * y - q * x
  }

  // u is s and one more product.
  predicate Grown(u: real, s: real, x: real, y: real) {
    u == s + x * y
  }

  lemma SumsGrow(a: seq<real>, b: seq<real>)
    requires |a| == |b| > 0
    ensures var n := |a| - 1;
      Grown(Squares(a), Squares(a[..n]), a[n], a[n]) && Grown(Squares(b), Squares(b[..n]), b[n], b[n])
      && Grown(Dot(a, b), Dot(a[..n], b[..n]), a[n], b[n])
  {
  }

  // What the gaps to the proportion of x to y come to.
  predicate IsRest(r: real, S: real, T: real, D: real, x: real, y: real) {
    r == S * (y * y) + T * (x * x) - 2.0 * (D * (x * y))
  }

  lemma {:induction false} SquaredGaps(a: seq<real>, b: seq<real>, x: real, y: real)
    requires |a| == |b|
    ensures IsRest(Squares(Gaps(a, b, x, y)), Squares(a), Squares(b), Dot(a, b), x, y)
  {
    if a != [] {
      var n := |a| - 1;
      var g := Gaps(a, b, x, y);
      SquaredGaps(a[..n], b[..n], x, y);
      assert g[..n] == Gaps(a[..n], b[..n], x, y);
      SumsGrow(a, b);
      SumsGrow(g, g);
      RestOneMore(Squares(a[..n]), Squares(b[..n]), Dot(a[..n], b[..n]), a[n], b[n], x, y,
                  Squares(a), Squares(b), Dot(a, b), Squares(g[..n]), Squares(g), g[n]);
    }
  }

  lemma RestOneMore(
    S: real, T: real, D: real, p: real, q: real, x: real, y: real, U: real, V: real, E: real, r: real, s: real, g: real)
    requires Grown(U, S, p, p) && Grown(V, T, q, q) && Grown(E, D, p, q) && Grown(s, r, g, g)
    requires g == Gap(p, q, x, y) && IsRest(r, S, T, D, x, y)
    ensures IsRest(s, U, V, E, x, y)
  {
  }

  ghost predicate AllZero(v: seq<real>) {
    forall i :: 0 <= i < |v| ==> v[i] == 0.0
  }

  lemma {:induction false} SquaresAreZeroExactly(v: seq<real>)
    ensures Squares(v) == 0.0 <==> AllZero(v)
  {
    if v != [] {
      var n := |v| - 1;
      SquaresAreZeroExactly(v[..n]);
      ZeroSum(Squares(v[..n]), v[n], v[n] * v[n], Squares(v));
      assert forall i :: 0 <= i < n ==> v[..n][i] == v[i];
    }
  }

  lemma ZeroSum(r: real, d: real, q: real, sum: real)
    requires r >= 0.0 && q == d * d && sum == r + q
    ensures sum == 0.0 <==> r == 0.0 && d == 0.0
  {
    if d > 0.0 {
      Positive(d, d, q);
    } else if d < 0.0 {
      var e := -d;
      assert e * e == d * d;
      Positive(e, e, q);
    } else {
      assert q == 0.0;
    }
  }

  lemma Positive(x: real, y: real, q: real)
    requires x > 0.0 && y > 0.0 && q == x * y
    ensures q > 0.0
  {
  }

  // All of a is to b as x is to y.
  ghost predicate InProportion(a: seq<real>, b: seq<real>, x: real, y: real)
    requires |a| == |b|
  {
    forall i :: 0 <= i < |a| ==> a[i] * y == b[i] * x
  }

  // The two are in one proportion at these two places.
  ghost predicate Aligned(a: seq<real>, b: seq<real>, i: nat, j: nat)
    requires i < |a| == |b| && j < |a|
  {
    a[i] * b[j] == b[i] * a[j]
  }

  // The two are in one proportion at all places.
  ghost predicate Parallel(a: seq<real>, b: seq<real>)
    requires |a| == |b|
  {
    forall i: nat, j: nat :: i < |a| && j < |a| ==> Aligned(a, b, i, j)
  }

  // The squares of all gaps between two places.
  function Lagrange(a: seq<real>, b: seq<real>): (r: real)
    requires |a| == |b|
    ensures r >= 0.0
  {
    if a == [] then 0.0
    else
      var n := |a| - 1;
      Lagrange(a[..n], b[..n]) + Squares(Gaps(a[..n], b[..n], a[n], b[n]))
  }

  // What the square of the dot product lacks of the product of the squared norms.
  predicate IsLack(r: real, S: real, T: real, D: real) {
    r == S * T - D * D
  }

  /** The squares of the gaps are what the square of the dot product lacks. */
  lemma {:induction false} LagrangesIdentity(a: seq<real>, b: seq<real>)
    requires |a| == |b|
    ensures IsLack(Lagrange(a, b), Squares(a), Squares(b), Dot(a, b))
  {
    if a != [] {
      var n := |a| - 1;
      var g := Gaps(a[..n], b[..n], a[n], b[n]);
      LagrangesIdentity(a[..n], b[..n]);
      SquaredGaps(a[..n], b[..n], a[n], b[n]);
      SumsGrow(a, b);
      LackOneMore(Squares(a[..n]), Squares(b[..n]), Dot(a[..n], b[..n]), a[n], b[n], Squares(a), Squares(b),
                  Dot(a, b), Lagrange(a[..n], b[..n]), Squares(g));
      assert Lagrange(a, b) == Lagrange(a[..n], b[..n]) + Squares(g);
    }
  }

  lemma LackOneMore(
    S: real, T: real, D: real, x: real, y: real, U: real, V: real, E: real, lack: real, rest: real)
    requires Grown(U, S, x, x) && Grown(V, T, y, y) && Grown(E, D, x, y)
    requires IsLack(lack, S, T, D) && IsRest(rest, S, T, D, x, y)
    ensures IsLack(lack + rest, U, V, E)
  {
  }

  lemma {:induction false} NothingLacksExactlyWhenParallel(a: seq<real>, b: seq<real>)
    requires |a| == |b|
    ensures Lagrange(a, b) == 0.0 <==> Parallel(a, b)
  {
    if a != [] {
      var n := |a| - 1;
      NothingLacksExactlyWhenParallel(a[..n], b[..n]);
      SquaresAreZeroExactly(Gaps(a[..n], b[..n], a[n], b[n]));
      GapsOfProportion(a[..n], b[..n], a[n], b[n]);
      ParallelOneMore(a, b);
    }
  }

  lemma GapsOfProportion(a: seq<real>, b: seq<real>, x: real, y: real)
    requires |a| == |b|
    ensures AllZero(Gaps(a, b, x, y)) <==> InProportion(a, b, x, y)
  {
    var g := Gaps(a, b, x, y);
    forall i | 0 <= i < |a| ensures g[i] == 0.0 <==> a[i] * y == b[i] * x {
    }
  }

  /** The square of the dot product is at most the product of the squared norms, and equal
    * to it exactly when the two are in one proportion. */
  lemma CauchySchwarz(a: seq<real>, b: seq<real>)
    requires |a| == |b|
    ensures IsWithin(Squares(a), Squares(b), Dot(a, b))
    ensures NothingLacks(Squares(a), Squares(b), Dot(a, b)) <==> Parallel(a, b)
  {
    LagrangesIdentity(a, b);
    NothingLacksExactlyWhenParallel(a, b);
    LackIsNeverNegative(Squares(a), Squares(b), Dot(a, b), Lagrange(a, b));
  }

  predicate IsWithin(S: real, T: real, D: real) {
    D * D <= S * T
  }

  predicate NothingLacks(S: real, T: real, D: real) {
    D * D == S * T
  }

  lemma LackIsNeverNegative(S: real, T: real, D: real, lack: real)
    requires lack >= 0.0 && IsLack(lack, S, T, D)
    ensures IsWithin(S, T, D) && (NothingLacks(S, T, D) <==> lack == 0.0)
  {
  }

  lemma ParallelOneMore(a: seq<real>, b: seq<real>)
    requires |a| == |b| > 0
    ensures var n := |a| - 1;
      Parallel(a, b) <==> Parallel(a[..n], b[..n]) && InProportion(a[..n], b[..n], a[n], b[n])
  {
    var n := |a| - 1;
    if Parallel(a, b) {
      forall i: nat, j: nat | i < n && j < n ensures Aligned(a[..n], b[..n], i, j) {
        assert Aligned(a, b, i, j);
      }
      forall i | 0 <= i < n ensures a[..n][i] * b[n] == b[..n][i] * a[n] {
        assert Aligned(a, b, i, n);
      }
    }
    if Parallel(a[..n], b[..n]) && InProportion(a[..n], b[..n], a[n], b[n]) {
      forall i: nat, j: nat | i < |a| && j < |a| ensures Aligned(a, b, i, j) {
        if i < n && j < n {
          assert Aligned(a[..n], b[..n], i, j);
        } else if i < n {
          assert a[..n][i] * b[n] == b[..n][i] * a[n];
        } else if j < n {
          assert a[..n][j] * b[n] == b[..n][j] * a[n];
        }
      }
    }
  }

  // ---- Weights ----

  function Count(terms: seq<string>, t: string): nat {
    if terms == [] then 0 else Count(terms[..|terms| - 1], t) + if terms[|terms| - 1] == t then 1 else 0
  }

  // In how many documents a term occurs.
  function Frequency(docs: seq<seq<string>>, t: string): (f: nat)
    ensures f <= |docs|
  {
    if docs == [] then 0 else Frequency(docs[..|docs| - 1], t) + if t in docs[|docs| - 1] then 1 else 0
  }

  // The distinct terms, in the order they are met.
  function Distinct(terms: seq<string>): (keys: seq<string>)
    ensures forall t :: t in keys <==> t in terms
    ensures forall i, j :: 0 <= i < j < |keys| ==> keys[i] != keys[j]
  {
    if terms == [] then []
    else
      var keys, t := Distinct(terms[..|terms| - 1]), terms[|terms| - 1];
      assert terms == terms[..|terms| - 1] + [t];
      if t in keys then keys else keys + [t]
  }

  function Idf(ln: Fn, docs: seq<seq<string>>, t: string): real {
    var n := if |docs| == 0 then 1 else |docs|;
    ln((n + 1) as real / (Frequency(docs, t) + 1) as real) + 1.0
  }

  // Rare or common, a term weighs at least 1.
  lemma IdfAtLeastOne(ln: Fn, docs: seq<seq<string>>, t: string)
    requires IsLog(ln)
    ensures Idf(ln, docs, t) >= 1.0
  {
    var n := if |docs| == 0 then 1 else |docs|;
    var a, b := (n + 1) as real, (Frequency(docs, t) + 1) as real;
    Quotient(a, b);
  }

  lemma Quotient(a: real, b: real)
    requires a >= b > 0.0
    ensures a / b >= 1.0
  {
  }

  // How often the term occurs, times how much it weighs.
  function WeightOf(ln: Fn, docs: seq<seq<string>>, t: string, terms: seq<string>): real {
    Count(terms, t) as real * Idf(ln, docs, t)
  }

  lemma WeightSign(ln: Fn, docs: seq<seq<string>>, t: string, terms: seq<string>)
    requires IsLog(ln)
    ensures WeightOf(ln, docs, t, terms) >= 0.0
    ensures WeightOf(ln, docs, t, terms) > 0.0 <==> Count(terms, t) > 0
  {
    IdfAtLeastOne(ln, docs, t);
    ScaledUp(Count(terms, t), Idf(ln, docs, t));
  }

  // The weights of the keys in a list of terms.
  function Vector(ln: Fn, docs: seq<seq<string>>, keys: seq<string>, terms: seq<string>): (v: seq<real>)
    ensures |v| == |keys|
  {
    if keys == [] then []
    else
      var n := |keys| - 1;
      Vector(ln, docs, keys[..n], terms) + [WeightOf(ln, docs, keys[n], terms)]
  }

  function Norm(root: Fn, v: seq<real>): real {
    var r := root(Squares(v));
    if r == 0.0 then 1.0 else r
  }

  function Score(ln: Fn, root: Fn, query: seq<string>, docs: seq<seq<string>>, terms: seq<string>): real {
    var keys := Distinct(query);
    Cosine(root, Vector(ln, docs, keys, query), Vector(ln, docs, keys, terms))
  }

  // Division by the product of two norms, which is never 0.
  function Ratio(d: real, x: real, y: real): real {
    if x * y == 0.0 then 0.0 else d / (x * y)
  }

  function Cosine(root: Fn, a: seq<real>, b: seq<real>): real
    requires |a| == |b|
  {
    Ratio(Dot(a, b), Norm(root, a), Norm(root, b))
  }

  ghost predicate NonNegative(v: seq<real>) {
    forall i :: 0 <= i < |v| ==> v[i] >= 0.0
  }

  // An entry is never negative, and positive exactly where the term occurs.
  ghost predicate Signed(v: seq<real>, keys: seq<string>, terms: seq<string>) {
    |v| == |keys| && forall i :: 0 <= i < |v| ==> v[i] >= 0.0 && (v[i] > 0.0 <==> Count(terms, keys[i]) > 0)
  }

  lemma SignedOneMore(v: seq<real>, keys: seq<string>, terms: seq<string>, x: real, t: string)
    requires Signed(v, keys, terms) && x >= 0.0 && (x > 0.0 <==> Count(terms, t) > 0)
    ensures Signed(v + [x], keys + [t], terms)
  {
  }

  lemma {:induction false} VectorIsSigned(ln: Fn, docs: seq<seq<string>>, keys: seq<string>, terms: seq<string>)
    requires IsLog(ln)
    ensures Signed(Vector(ln, docs, keys, terms), keys, terms)
  {
    if keys != [] {
      var n := |keys| - 1;
      VectorIsSigned(ln, docs, keys[..n], terms);
      WeightSign(ln, docs, keys[n], terms);
      SignedOneMore(Vector(ln, docs, keys[..n], terms), keys[..n], terms, WeightOf(ln, docs, keys[n], terms), keys[n]);
      assert keys == keys[..n] + [keys[n]];
    }
  }

  lemma ScaledUp(count: nat, w: real)
    requires w >= 1.0
    ensures count as real * w >= 0.0 && (count as real * w > 0.0 <==> count > 0)
  {
  }

  // Some place is positive in both.
  predicate Overlap(a: seq<real>, b: seq<real>)
    requires |a| == |b|
  {
    exists i :: 0 <= i < |a| && a[i] > 0.0 && b[i] > 0.0
  }

  lemma {:induction false} DotIsPositiveExactlyOnOverlap(a: seq<real>, b: seq<real>)
    requires |a| == |b| && NonNegative(a) && NonNegative(b)
    ensures Dot(a, b) >= 0.0
    ensures Dot(a, b) > 0.0 <==> Overlap(a, b)
  {
    if a != [] {
      var n := |a| - 1;
      DotIsPositiveExactlyOnOverlap(a[..n], b[..n]);
      ProductSign(a[n], b[n]);
      if i :| 0 <= i < n && a[..n][i] > 0.0 && b[..n][i] > 0.0 {
        assert a[i] > 0.0 && b[i] > 0.0;
      }
      if i :| 0 <= i < |a| && a[i] > 0.0 && b[i] > 0.0 {
        assert i < n ==> a[..n][i] > 0.0 && b[..n][i] > 0.0;
      }
    }
  }

  lemma ProductSign(x: real, y: real)
    requires x >= 0.0 && y >= 0.0
    ensures x * y >= 0.0 && (x * y > 0.0 <==> x > 0.0 && y > 0.0)
  {
  }

  predicate Bounds(x: real, squares: real) {
    x > 0.0 && squares <= x * x
  }

  // Also when a zero norm is replaced by 1.
  lemma NormBounds(root: Fn, a: seq<real>)
    requires IsRoot(root)
    ensures Bounds(Norm(root, a), Squares(a))
  {
  }

  lemma DotBelow(a: seq<real>, b: seq<real>, x: real, y: real)
    requires |a| == |b| && Dot(a, b) >= 0.0 && Bounds(x, Squares(a)) && Bounds(y, Squares(b))
    ensures 0.0 <= Ratio(Dot(a, b), x, y) <= 1.0
    ensures Ratio(Dot(a, b), x, y) > 0.0 <==> Dot(a, b) > 0.0
  {
    CauchySchwarz(a, b);
    BelowProduct(Dot(a, b), Squares(a), Squares(b), x, y);
    Share(Dot(a, b), x, y);
  }

  lemma BelowProduct(d: real, S: real, T: real, x: real, y: real)
    requires d >= 0.0 && S >= 0.0 && T >= 0.0 && x > 0.0 && y > 0.0
    requires IsWithin(S, T, d) && S <= x * x && T <= y * y
    ensures d <= x * y
  {
    ProductSquare(x, y);
    Grows(S, x * x, T, y * y);
    ProductSign(x, y);
    SquareRootOfProduct(d, x * y);
  }

  lemma Grows(a: real, b: real, c: real, d: real)
    requires 0.0 <= a <= b && 0.0 <= c <= d
    ensures a * c <= b * d
  {
    ProductSign(b - a, c);
    ProductSign(b, d - c);
    assert b * d - a * c == (b - a) * c + b * (d - c);
  }

  lemma CosineInRange(root: Fn, a: seq<real>, b: seq<real>)
    requires IsRoot(root) && |a| == |b| && NonNegative(a) && NonNegative(b)
    ensures 0.0 <= Cosine(root, a, b) <= 1.0
    ensures Cosine(root, a, b) > 0.0 <==> Overlap(a, b)
  {
    DotIsPositiveExactlyOnOverlap(a, b);
    NormBounds(root, a);
    NormBounds(root, b);
    DotBelow(a, b, Norm(root, a), Norm(root, b));
  }

  lemma ProductSquare(r: real, s: real)
    ensures (r * s) * (r * s) == (r * r) * (s * s)
  {
  }

  lemma SquareRootOfProduct(d: real, p: real)
    requires d >= 0.0 && p >= 0.0 && d * d <= p * p
    ensures d <= p
  {
    if d > p {
      SquareGrows(p, d);
    }
  }

  lemma SquareGrows(p: real, d: real)
    requires 0.0 <= p < d
    ensures p * p < d * d
  {
    var x, y := d - p, d + p;
    ProductSign(x, y);
    assert x * y == d * d - p * p;
  }

  /** Every score lies between 0 and 1. */
  lemma ScoreInRange(ln: Fn, root: Fn, query: seq<string>, docs: seq<seq<string>>, terms: seq<string>)
    requires IsLog(ln) && IsRoot(root)
    ensures 0.0 <= Score(ln, root, query, docs, terms) <= 1.0
  {
    var keys := Distinct(query);
    VectorIsSigned(ln, docs, keys, query);
    VectorIsSigned(ln, docs, keys, terms);
    CosineInRange(root, Vector(ln, docs, keys, query), Vector(ln, docs, keys, terms));
  }

  lemma Share(x: real, a: real, b: real)
    requires a > 0.0 && b > 0.0 && 0.0 <= x <= a * b
    ensures 0.0 <= Ratio(x, a, b) <= 1.0
    ensures Ratio(x, a, b) > 0.0 <==> x > 0.0
  {
    ProductSign(a, b);
    Fraction(x, a * b);
  }

  lemma Fraction(x: real, y: real)
    requires y > 0.0 && 0.0 <= x <= y
    ensures 0.0 <= x / y <= 1.0
    ensures x / y > 0.0 <==> x > 0.0
  {
  }

  lemma {:induction false} CountIsPositive(terms: seq<string>, t: string)
    ensures Count(terms, t) > 0 <==> t in terms
  {
    if terms != [] {
      CountIsPositive(terms[..|terms| - 1], t);
      assert terms == terms[..|terms| - 1] + [terms[|terms| - 1]];
    }
  }

  /** An entry scores above 0 exactly when it shares a term with the query. */
  lemma ScoreIsPositiveExactlyOnASharedTerm(
    ln: Fn, root: Fn, query: seq<string>, docs: seq<seq<string>>, terms: seq<string>)
    requires IsLog(ln) && IsRoot(root)
    ensures Score(ln, root, query, docs, terms) > 0.0 <==> exists t :: t in query && t in terms
  {
    var keys := Distinct(query);
    VectorIsSigned(ln, docs, keys, query);
    VectorIsSigned(ln, docs, keys, terms);
    var q, d := Vector(ln, docs, keys, query), Vector(ln, docs, keys, terms);
    CosineInRange(root, q, d);
    forall t ensures (Count(query, t) > 0 <==> t in query) && (Count(terms, t) > 0 <==> t in terms) {
      CountIsPositive(query, t);
      CountIsPositive(terms, t);
    }
    if t :| t in query && t in terms {
      var i :| 0 <= i < |keys| && keys[i] == t;
      assert q[i] > 0.0 && d[i] > 0.0;
    }
    if i :| 0 <= i < |q| && q[i] > 0.0 && d[i] > 0.0 {
      assert keys[i] in query && keys[i] in terms;
    }
  }

  // ---- What decides the score ----

  // Bigger numbers have bigger logarithms.
  ghost predicate IsRising(ln: Fn) {
    ln(1.0) == 0.0 && forall x, y :: 1.0 <= x < y ==> ln(x) < ln(y)
  }

  lemma {:induction false} CountIsMultiplicity(terms: seq<string>, t: string)
    ensures Count(terms, t) == multiset(terms)[t]
  {
    if terms != [] {
      CountIsMultiplicity(terms[..|terms| - 1], t);
      assert terms == terms[..|terms| - 1] + [terms[|terms| - 1]];
    }
  }

  lemma {:induction false} FrequencyIsNumber(docs: seq<seq<string>>, t: string)
    ensures Frequency(docs, t) == |set i | 0 <= i < |docs| && t in docs[i]|
  {
    if docs != [] {
      var n := |docs| - 1;
      FrequencyIsNumber(docs[..n], t);
      assert (set i | 0 <= i < |docs| && t in docs[i])
        == (set i | 0 <= i < n && t in docs[..n][i]) + if t in docs[n] then {n} else {};
    }
  }

  lemma Larger(a: real, b: real, c: real)
    requires a > 0.0 && 0.0 < b < c
    ensures a / b > a / c
  {
    var p, q := a / b, a / c;
    assert p * b == a && q * c == a;
    if p <= q {
      assert p > 0.0;
      Smaller(p, q, b, c);
    }
  }

  lemma Smaller(p: real, q: real, b: real, c: real)
    requires 0.0 < p <= q && 0.0 < b < c
    ensures p * b < q * c
  {
    Positive(p, c - b, p * (c - b));
    ProductSign(q - p, c);
    assert q * c - p * b == (q - p) * c + p * (c - b);
  }

  /** Terms weigh more the fewer documents hold them; those that every document holds
    * weigh 1, the least. */
  lemma RarerTermsWeighMore(ln: Fn, docs: seq<seq<string>>, t: string, u: string)
    requires IsRising(ln) && docs != []
    ensures Idf(ln, docs, t) > Idf(ln, docs, u) <==>
      |set i | 0 <= i < |docs| && t in docs[i]| < |set i | 0 <= i < |docs| && u in docs[i]|
    ensures Idf(ln, docs, t) == 1.0 <==> forall i :: 0 <= i < |docs| ==> t in docs[i]
  {
    FrequencyIsNumber(docs, t);
    FrequencyIsNumber(docs, u);
    RarerWeighsMore(ln, docs, t, u);
    RarerWeighsMore(ln, docs, u, t);
    HeldByAll(docs, t);
    LeastWeight(ln, docs, t);
  }

  lemma RarerWeighsMore(ln: Fn, docs: seq<seq<string>>, t: string, u: string)
    requires IsRising(ln) && docs != []
    ensures Frequency(docs, t) < Frequency(docs, u) ==> Idf(ln, docs, t) > Idf(ln, docs, u)
    ensures Frequency(docs, t) == Frequency(docs, u) ==> Idf(ln, docs, t) == Idf(ln, docs, u)
  {
    var n, f, g := (|docs| + 1) as real, (Frequency(docs, t) + 1) as real, (Frequency(docs, u) + 1) as real;
    Quotient(n, g);
    if f < g {
      Larger(n, f, g);
      assert 1.0 <= n / g < n / f;
    }
  }

  lemma LeastWeight(ln: Fn, docs: seq<seq<string>>, t: string)
    requires IsRising(ln) && docs != []
    ensures Idf(ln, docs, t) == 1.0 <==> Frequency(docs, t) == |docs|
  {
    var n, f := (|docs| + 1) as real, (Frequency(docs, t) + 1) as real;
    Itself(n);
    if f < n {
      Larger(n, f, n);
      assert ln(1.0) < ln(n / f);
    } else {
      assert f == n;
    }
  }

  lemma Itself(n: real)
    requires n > 0.0
    ensures n / n == 1.0
  {
  }

  lemma {:induction false} HeldByAll(docs: seq<seq<string>>, t: string)
    ensures Frequency(docs, t) == |docs| <==> forall i :: 0 <= i < |docs| ==> t in docs[i]
  {
    if docs != [] {
      var n := |docs| - 1;
      HeldByAll(docs[..n], t);
      assert forall i :: 0 <= i < n ==> docs[..n][i] == docs[i];
    }
  }

  // The side of a square of this size.
  predicate IsSide(x: real, square: real) {
    x > 0.0 && x * x == square
  }

  lemma NormIsPositive(root: Fn, a: seq<real>)
    requires IsRoot(root) && exists i :: 0 <= i < |a| && a[i] > 0.0
    ensures IsSide(Norm(root, a), Squares(a))
  {
    SquaresAreZeroExactly(a);
    var r := root(Squares(a));
    assert r * r == Squares(a);
  }

  lemma CosineIsOne(root: Fn, a: seq<real>, b: seq<real>)
    requires IsRoot(root) && |a| == |b| && NonNegative(a) && NonNegative(b)
    ensures Cosine(root, a, b) == 1.0 <==> Overlap(a, b) && Parallel(a, b)
  {
    CosineInRange(root, a, b);
    if Overlap(a, b) {
      DotIsPositiveExactlyOnOverlap(a, b);
      NormIsPositive(root, a);
      NormIsPositive(root, b);
      CauchySchwarz(a, b);
      RatioIsOne(Dot(a, b), Squares(a), Squares(b), Norm(root, a), Norm(root, b));
    }
  }

  lemma RatioIsOne(d: real, S: real, T: real, x: real, y: real)
    requires d > 0.0 && IsSide(x, S) && IsSide(y, T)
    ensures Ratio(d, x, y) == 1.0 <==> NothingLacks(S, T, d)
  {
    var p := x * y;
    ProductSign(x, y);
    ProductSquare(x, y);
    OneExactly(d, p);
    if d * d == S * T {
      SquareRootOfProduct(d, p);
      SquareRootOfProduct(p, d);
    }
  }

  lemma OneExactly(d: real, p: real)
    requires p > 0.0
    ensures d / p == 1.0 <==> d == p
  {
    assert d / p * p == d;
  }

  // The text holds the two terms in the proportion in which the query does.
  ghost predicate SameShare(query: seq<string>, terms: seq<string>, t: string, u: string) {
    multiset(query)[t] * multiset(terms)[u] == multiset(terms)[t] * multiset(query)[u]
  }

  ghost predicate SameShares(query: seq<string>, terms: seq<string>) {
    forall t, u :: t in query && u in query ==> SameShare(query, terms, t, u)
  }

  predicate Weighs(x: real, count: nat, w: real) {
    x == count as real * w
  }

  // The weights are in proportion exactly when the counts are.
  ghost predicate Agree(x: real, y: real, z: real, u: real, m: nat, n: nat, p: nat, q: nat) {
    x * y == z * u <==> m * n == p * q
  }

  lemma WeighedShares(m: nat, n: nat, p: nat, q: nat, v: real, w: real, x: real, y: real, z: real, u: real)
    requires v >= 1.0 && w >= 1.0
    requires Weighs(x, m, v) && Weighs(y, n, w) && Weighs(z, p, v) && Weighs(u, q, w)
    ensures Agree(x, y, z, u, m, n, p, q)
  {
    var r := v * w;
    Positive(v, w, r);
    Regroup(m, n, v, w, x, y, r);
    Regroup(p, q, v, w, z, u, r);
    Cancels((m * n) as real, (p * q) as real, r);
  }

  lemma Regroup(m: nat, n: nat, v: real, w: real, x: real, y: real, r: real)
    requires Weighs(x, m, v) && Weighs(y, n, w) && r == v * w
    ensures x * y == (m * n) as real * r
  {
    assert (m * n) as real == m as real * n as real;
  }

  lemma Cancels(a: real, b: real, r: real)
    requires r > 0.0
    ensures a * r == b * r <==> a == b
  {
    if a > b {
      Positive(a - b, r, (a - b) * r);
    } else if b > a {
      Positive(b - a, r, (b - a) * r);
    }
  }

  lemma ParallelExactlyWithSameShares(ln: Fn, docs: seq<seq<string>>, query: seq<string>, terms: seq<string>)
    requires IsLog(ln)
    ensures var keys := Distinct(query);
      Parallel(Vector(ln, docs, keys, query), Vector(ln, docs, keys, terms)) <==> SameShares(query, terms)
  {
    var keys := Distinct(query);
    var a, b := Vector(ln, docs, keys, query), Vector(ln, docs, keys, terms);
    if Parallel(a, b) {
      forall t, u | t in query && u in query ensures SameShare(query, terms, t, u) {
        var i: nat :| i < |keys| && keys[i] == t;
        var j: nat :| j < |keys| && keys[j] == u;
        assert Aligned(a, b, i, j);
        AlignedAt(ln, docs, query, terms, i, j);
      }
    }
    if SameShares(query, terms) {
      forall i: nat, j: nat | i < |a| && j < |a| ensures Aligned(a, b, i, j) {
        assert SameShare(query, terms, keys[i], keys[j]);
        AlignedAt(ln, docs, query, terms, i, j);
      }
    }
  }

  lemma AlignedAt(ln: Fn, docs: seq<seq<string>>, query: seq<string>, terms: seq<string>, i: nat, j: nat)
    requires IsLog(ln) && i < |Distinct(query)| && j < |Distinct(query)|
    ensures var keys := Distinct(query);
      Aligned(Vector(ln, docs, keys, query), Vector(ln, docs, keys, terms), i, j)
      <==> SameShare(query, terms, keys[i], keys[j])
  {
    SharesAt(ln, docs, Distinct(query), query, terms, i, j);
  }

  lemma SharesAt(
    ln: Fn, docs: seq<seq<string>>, keys: seq<string>, query: seq<string>, terms: seq<string>, i: nat, j: nat)
    requires IsLog(ln) && i < |keys| && j < |keys|
    ensures var a, b := Vector(ln, docs, keys, query), Vector(ln, docs, keys, terms);
      Agree(a[i], b[j], b[i], a[j], multiset(query)[keys[i]], multiset(terms)[keys[j]], multiset(terms)[keys[i]],
        multiset(query)[keys[j]])
  {
    var a, b := Vector(ln, docs, keys, query), Vector(ln, docs, keys, terms);
    var t, u := keys[i], keys[j];
    WeightAt(ln, docs, keys, query, i);
    WeightAt(ln, docs, keys, query, j);
    WeightAt(ln, docs, keys, terms, i);
    WeightAt(ln, docs, keys, terms, j);
    IdfAtLeastOne(ln, docs, t);
    IdfAtLeastOne(ln, docs, u);
    WeighedShares(multiset(query)[t], multiset(terms)[u], multiset(terms)[t], multiset(query)[u],
                  Idf(ln, docs, t), Idf(ln, docs, u), a[i], b[j], b[i], a[j]);
  }

  lemma WeightAt(ln: Fn, docs: seq<seq<string>>, keys: seq<string>, terms: seq<string>, i: nat)
    requires i < |keys|
    ensures Weighs(Vector(ln, docs, keys, terms)[i], multiset(terms)[keys[i]], Idf(ln, docs, keys[i]))
  {
    VectorAt(ln, docs, keys, terms, i);
    WeightIs(ln, docs, keys[i], terms);
  }

  lemma WeightIs(ln: Fn, docs: seq<seq<string>>, t: string, terms: seq<string>)
    ensures Weighs(WeightOf(ln, docs, t, terms), multiset(terms)[t], Idf(ln, docs, t))
  {
    CountIsMultiplicity(terms, t);
  }

  /** The best score, 1, is that of the entries that hold the terms of the query in the
    * shares in which the query holds them. */
  lemma ScoreIsOneExactlyWithSameShares(
    ln: Fn, root: Fn, query: seq<string>, docs: seq<seq<string>>, terms: seq<string>)
    requires IsLog(ln) && IsRoot(root)
    ensures Score(ln, root, query, docs, terms) == 1.0 <==>
      (exists t :: t in query && t in terms) && SameShares(query, terms)
  {
    var keys := Distinct(query);
    VectorIsSigned(ln, docs, keys, query);
    VectorIsSigned(ln, docs, keys, terms);
    var a, b := Vector(ln, docs, keys, query), Vector(ln, docs, keys, terms);
    CosineIsOne(root, a, b);
    CosineInRange(root, a, b);
    ScoreIsPositiveExactlyOnASharedTerm(ln, root, query, docs, terms);
    ParallelExactlyWithSameShares(ln, docs, query, terms);
  }

  predicate IsProduct(d: real, x: real, y: real) {
    d == x * y
  }

  predicate Scales(s: real, x: real, p: real) {
    s * x == p
  }

  lemma {:induction false} OnlyOnePlace(a: seq<real>, b: seq<real>, k: nat)
    requires |a| == |b| && forall i :: 0 <= i < |b| && i != k ==> b[i] == 0.0
    ensures k < |b| ==> IsProduct(Dot(a, b), a[k], b[k]) && IsProduct(Squares(b), b[k], b[k])
    ensures k >= |b| ==> Dot(a, b) == 0.0 && Squares(b) == 0.0
  {
    if b != [] {
      var n := |b| - 1;
      OnlyOnePlace(a[..n], b[..n], k);
    }
  }

  lemma OnePlaceCosine(root: Fn, a: seq<real>, b: seq<real>, k: nat)
    requires IsRoot(root) && k < |a| == |b| && b[k] > 0.0
    requires forall i :: 0 <= i < |b| && i != k ==> b[i] == 0.0
    ensures Scales(Cosine(root, a, b), Norm(root, a), a[k])
  {
    OnlyOnePlace(a, b, k);
    NormIsPositive(root, b);
    NormBounds(root, a);
    OneTerm(Dot(a, b), Squares(b), a[k], b[k], Norm(root, a), Norm(root, b));
  }

  lemma OneTerm(d: real, S: real, p: real, q: real, x: real, y: real)
    requires IsProduct(d, p, q) && IsProduct(S, q, q) && q > 0.0 && x > 0.0 && IsSide(y, S)
    ensures Scales(Ratio(d, x, y), x, p)
  {
    SquareRootOfProduct(y, q);
    SquareRootOfProduct(q, y);
    Positive(x, q, x * q);
    var s := p * q / (x * q);
    assert s * (x * q) == p * q;
    assert s * x * q == p * q;
    Cancels(s * x, p, q);
  }

  // The score of an entry that shares one term with the query.
  lemma OneSharedTermScores(
    ln: Fn, root: Fn, query: seq<string>, docs: seq<seq<string>>, terms: seq<string>, t: string)
    returns (p: real)
    requires IsLog(ln) && IsRoot(root)
    requires t in query && t in terms && forall u :: u in query && u in terms ==> u == t
    ensures var x := Norm(root, Vector(ln, docs, Distinct(query), query));
      x > 0.0 && Scales(Score(ln, root, query, docs, terms), x, p) && Weighs(p, multiset(query)[t], Idf(ln, docs, t))
  {
    var keys := Distinct(query);
    var a, b := Vector(ln, docs, keys, query), Vector(ln, docs, keys, terms);
    var k :| 0 <= k < |keys| && keys[k] == t;
    VectorIsSigned(ln, docs, keys, terms);
    forall i | 0 <= i < |b| && i != k ensures b[i] == 0.0 {
      CountIsPositive(terms, keys[i]);
      assert keys[i] in query;
    }
    CountIsPositive(terms, t);
    OnePlaceCosine(root, a, b, k);
    WeightAt(ln, docs, keys, query, k);
    NormBounds(root, a);
    p := a[k];
  }

  /** Of two entries that each share one term with the query, which holds both equally
    * often, the one that shares the rarer term scores higher. */
  lemma RarerTermRanksHigher(
    ln: Fn, root: Fn, query: seq<string>, docs: seq<seq<string>>, d: seq<string>, e: seq<string>, t: string, u: string)
    requires IsRising(ln) && IsLog(ln) && IsRoot(root) && docs != []
    requires t in query && t in d && forall v :: v in query && v in d ==> v == t
    requires u in query && u in e && forall v :: v in query && v in e ==> v == u
    requires multiset(query)[t] == multiset(query)[u]
    ensures Score(ln, root, query, docs, d) > Score(ln, root, query, docs, e) <==>
      |set i | 0 <= i < |docs| && t in docs[i]| < |set i | 0 <= i < |docs| && u in docs[i]|
  {
    var p := OneSharedTermScores(ln, root, query, docs, d, t);
    var q := OneSharedTermScores(ln, root, query, docs, e, u);
    RarerTermsWeighMore(ln, docs, t, u);
    SameOrder(Score(ln, root, query, docs, d), Score(ln, root, query, docs, e),
              Norm(root, Vector(ln, docs, Distinct(query), query)), p, q, multiset(query)[t],
              Idf(ln, docs, t), Idf(ln, docs, u));
  }

  lemma SameOrder(s: real, r: real, x: real, p: real, q: real, c: nat, v: real, w: real)
    requires x > 0.0 && c > 0 && Scales(s, x, p) && Scales(r, x, q) && Weighs(p, c, v) && Weighs(q, c, w)
    ensures s > r <==> v > w
  {
    var n := c as real;
    if s > r {
      Positive(s - r, x, (s - r) * x);
    }
    if s <= r {
      ProductSign(r - s, x);
    }
    if v > w {
      Positive(n, v - w, n * (v - w));
    }
    if v <= w {
      ProductSign(n, w - v);
    }
  }

  // ---- The ranking itself ----

  function At<V>(m: map<string, V>, t: string, zero: V): (v: V)
    ensures if t in m then v == m[t] else v == zero
  {
    if t in m then m[t] else zero
  }

  method Frequencies(docs: seq<seq<string>>) returns (df: map<string, nat>)
    ensures forall t :: At(df, t, 0) == Frequency(docs, t)
  {
    df := map[];
    for k := 0 to |docs|
      invariant forall t :: At(df, t, 0) == Frequency(docs[..k], t)
    {
      var rest := set t | t in docs[k];
      ghost var before := df;
      while rest != {}
        invariant forall t :: t in rest ==> t in docs[k]
        invariant forall t :: At(df, t, 0) == At(before, t, 0) + if t in docs[k] && t !in rest then 1 else 0
      {
        var t :| t in rest;
        rest := rest - {t};
        df := df[t := At(df, t, 0) + 1];
      }
      assert docs[..k + 1][..k] == docs[..k];
    }
    assert docs[..|docs|] == docs;
  }

  // What the occurrences of a term add up to.
  function Weight(terms: seq<string>, idf: map<string, real>, t: string): real {
    if t in idf then Count(terms, t) as real * idf[t] else 0.0
  }

  lemma OneMoreTerm(terms: seq<string>, i: nat, idf: map<string, real>, t: string)
    requires i < |terms|
    ensures Weight(terms[..i + 1], idf, t)
         == Weight(terms[..i], idf, t) + if t == terms[i] && t in idf then idf[t] else 0.0
  {
    assert terms[..i + 1][..i] == terms[..i];
    if t in idf {
      Distribute(Count(terms[..i], t), idf[t]);
    }
  }

  lemma Distribute(count: nat, w: real)
    ensures (count + 1) as real * w == count as real * w + w
  {
  }

  // The weights of an entry's terms, as far as the query asks for them.
  method Weigh(terms: seq<string>, idf: map<string, real>) returns (vec: map<string, real>)
    ensures forall t :: At(vec, t, 0.0) == Weight(terms, idf, t)
  {
    vec := map[];
    for i := 0 to |terms|
      invariant forall t :: At(vec, t, 0.0) == Weight(terms[..i], idf, t)
    {
      forall t ensures Weight(terms[..i + 1], idf, t)
                    == Weight(terms[..i], idf, t) + if t == terms[i] && t in idf then idf[t] else 0.0
      {
        OneMoreTerm(terms, i, idf, t);
      }
      if terms[i] in idf {
        vec := vec[terms[i] := At(vec, terms[i], 0.0) + idf[terms[i]]];
      }
    }
    assert terms[..|terms|] == terms;
  }

  lemma SumsOneMore(v: seq<real>, w: seq<real>, i: nat, x: real, y: real)
    requires i < |v| == |w| && v[i] == x && w[i] == y
    ensures Dot(v[..i + 1], w[..i + 1]) == Dot(v[..i], w[..i]) + x * y
    ensures Squares(w[..i + 1]) == Squares(w[..i]) + y * y
  {
    assert v[..i + 1][..i] == v[..i] && w[..i + 1][..i] == w[..i];
  }

  // The dot product and the squared norm of two weight tables, over the query's terms.
  method Sums(keys: seq<string>, a: map<string, real>, b: map<string, real>, ghost v: seq<real>, ghost w: seq<real>)
    returns (dot: real, squares: real)
    requires |v| == |w| == |keys|
    requires forall i :: 0 <= i < |keys| ==> At(a, keys[i], 0.0) == v[i] && At(b, keys[i], 0.0) == w[i]
    ensures dot == Dot(v, w) && squares == Squares(w)
  {
    dot, squares := 0.0, 0.0;
    for i := 0 to |keys|
      invariant dot == Dot(v[..i], w[..i]) && squares == Squares(w[..i])
    {
      var x, y := At(a, keys[i], 0.0), At(b, keys[i], 0.0);
      SumsOneMore(v, w, i, x, y);
      dot := dot + x * y;
      squares := squares + y * y;
    }
    assert v[..|v|] == v && w[..|w|] == w;
  }

  lemma {:induction false} VectorAt(ln: Fn, docs: seq<seq<string>>, keys: seq<string>, terms: seq<string>, i: nat)
    requires i < |keys|
    ensures Vector(ln, docs, keys, terms)[i] == WeightOf(ln, docs, keys[i], terms)
  {
    if i < |keys| - 1 {
      VectorAt(ln, docs, keys[..|keys| - 1], terms, i);
    }
  }

  ghost predicate IdfTable(ln: Fn, docs: seq<seq<string>>, keys: seq<string>, idf: map<string, real>) {
    forall i :: 0 <= i < |keys| ==> keys[i] in idf && idf[keys[i]] == Idf(ln, docs, keys[i])
  }

  // The weights of the terms, as a table and as a vector.
  method WeighKeys(ln: Fn, docs: seq<seq<string>>, keys: seq<string>, idf: map<string, real>, terms: seq<string>)
    returns (vec: map<string, real>)
    requires IdfTable(ln, docs, keys, idf)
    ensures forall i :: 0 <= i < |keys| ==> At(vec, keys[i], 0.0) == Vector(ln, docs, keys, terms)[i]
  {
    vec := Weigh(terms, idf);
    forall i | 0 <= i < |keys| ensures At(vec, keys[i], 0.0) == Vector(ln, docs, keys, terms)[i] {
      VectorAt(ln, docs, keys, terms, i);
    }
  }

  method NormOf(root: Fn, squares: real) returns (norm: real)
    ensures forall v :: Squares(v) == squares ==> norm == Norm(root, v)
  {
    norm := if root(squares) == 0.0 then 1.0 else root(squares);
  }

  method IdfOf(ln: Fn, docs: seq<seq<string>>, keys: seq<string>) returns (idf: map<string, real>)
    ensures IdfTable(ln, docs, keys, idf)
  {
    var df := Frequencies(docs);
    var n := if |docs| == 0 then 1 else |docs|;
    idf := map t | t in keys :: ln((n + 1) as real / (At(df, t, 0) + 1) as real) + 1.0;
  }

  /** The score of every entry against the query; none for a query without terms. */
  method Rank(ln: Fn, root: Fn, query: seq<string>, docs: seq<seq<string>>) returns (scores: seq<real>)
    ensures |scores| == if query == [] then 0 else |docs|
    ensures forall k :: 0 <= k < |scores| ==> scores[k] == Score(ln, root, query, docs, docs[k])
  {
    scores := [];
    if query == [] {
      return;
    }
    var keys := Distinct(query);
    var idf := IdfOf(ln, docs, keys);
    var qVec := WeighKeys(ln, docs, keys, idf, query);
    ghost var q := Vector(ln, docs, keys, query);
    var _, qSquares := Sums(keys, qVec, qVec, q, q);
    var qNorm := NormOf(root, qSquares);
    for k := 0 to |docs|
      invariant |scores| == k
      invariant forall j :: 0 <= j < k ==> scores[j] == Score(ln, root, query, docs, docs[j])
    {
      var score := ScoreOne(ln, root, docs, keys, idf, qVec, qNorm, docs[k], q);
      scores := scores + [score];
    }
  }

  method ScoreOne(ln: Fn, root: Fn, docs: seq<seq<string>>, keys: seq<string>, idf: map<string, real>,
                  qVec: map<string, real>, qNorm: real, terms: seq<string>, ghost q: seq<real>)
    returns (score: real)
    requires IdfTable(ln, docs, keys, idf) && |q| == |keys| && qNorm == Norm(root, q)
    requires forall i :: 0 <= i < |keys| ==> At(qVec, keys[i], 0.0) == q[i]
    ensures score == Cosine(root, q, Vector(ln, docs, keys, terms))
  {
    ghost var d := Vector(ln, docs, keys, terms);
    var dVec := WeighKeys(ln, docs, keys, idf, terms);
    var dot, dSquares := Sums(keys, qVec, dVec, q, d);
    var dNorm := NormOf(root, dSquares);
    score := Ratio(dot, qNorm, dNorm);
  }

  /** The ranking of texts against a query. */
  method RankTexts(ln: Fn, root: Fn, query: string, texts: seq<string>) returns (scores: seq<real>)
    requires IsLog(ln) && IsRoot(root)
    ensures |scores| == if Tokenize(query) == [] then 0 else |texts|
    ensures forall k :: 0 <= k < |scores| ==> 0.0 <= scores[k] <= 1.0
    ensures forall k :: 0 <= k < |scores| ==>
      (scores[k] > 0.0 <==> exists t :: t in Tokenize(query) && t in Tokenize(texts[k]))
  {
    var docs := seq(|texts|, i requires 0 <= i < |texts| => Tokenize(texts[i]));
    scores := Rank(ln, root, Tokenize(query), docs);
    forall k | 0 <= k < |scores|
      ensures 0.0 <= scores[k] <= 1.0
      ensures scores[k] > 0.0 <==> exists t :: t in Tokenize(query) && t in Tokenize(texts[k])
    {
      ScoreInRange(ln, root, Tokenize(query), docs, docs[k]);
      ScoreIsPositiveExactlyOnASharedTerm(ln, root, Tokenize(query), docs, docs[k]);
    }
  }
}
