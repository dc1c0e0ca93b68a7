/** The words of a text: its maximal runs of letters and digits, in lower case. */
module Words {

  function Lower(s: string): (r: string)
    ensures |r| == |s|
    ensures forall i :: 0 <= i < |s| ==>
      if 'A' <= s[i] <= 'Z' then r[i] as int - 'a' as int == s[i] as int - 'A' as int else r[i] == s[i]
  {
    seq(|s|, i requires 0 <= i < |s| => if 'A' <= s[i] <= 'Z' then 'a' + (s[i] - 'A') else s[i])
  }

  predicate IsWordChar(c: char) {
    'a' <= c <= 'z' || '0' <= c <= '9'
  }

  // The maximal runs of letters and digits.
  function Runs(s: string, current: string): seq<string>
    decreases |s|
  {
    if s == [] then if current == [] then [] else [current]
    else if IsWordChar(s[0]) then Runs(s[1..], current + [s[0]])
    else (if current == [] then [] else [current]) + Runs(s[1..], [])
  }

  function Longer(words: seq<string>, n: nat): seq<string> {
    if words == [] then []
    else (if |words[0]| > n then [words[0]] else []) + Longer(words[1..], n)
  }

  // ---- What the runs are ----

  predicate IsWord(w: string) {
    w != [] && forall i :: 0 <= i < |w| ==> 'a' <= w[i] <= 'z' || '0' <= w[i] <= '9'
  }

  predicate IsGap(g: string) {
    forall i :: 0 <= i < |g| ==> !('a' <= g[i] <= 'z' || '0' <= g[i] <= '9')
  }

  // The words with a gap before, between and after them.
  function Spelled(words: seq<string>, gaps: seq<string>): string
    requires |gaps| == |words| + 1
  {
    if words == [] then gaps[0] else gaps[0] + words[0] + Spelled(words[1..], gaps[1..])
  }

  /** The text is made of these words: nothing but gaps is around them, and two of them are
    * never next to one another. */
  ghost predicate Spells(s: string, words: seq<string>, gaps: seq<string>) {
    |gaps| == |words| + 1 && s == Spelled(words, gaps)
    && (forall i :: 0 <= i < |words| ==> IsWord(words[i]))
    && (forall i :: 0 <= i < |gaps| ==> IsGap(gaps[i]))
    && forall i :: 0 < i < |words| ==> gaps[i] != []
  }

  lemma {:induction false} RunsThroughWord(w: string, rest: string, current: string)
    requires forall i :: 0 <= i < |w| ==> IsWordChar(w[i])
    ensures Runs(w + rest, current) == Runs(rest, current + w)
  {
    if w == [] {
      assert w + rest == rest && current + w == current;
    } else {
      RunsThroughWord(w[1..], rest, current + [w[0]]);
      assert (w + rest)[1..] == w[1..] + rest && current + [w[0]] + w[1..] == current + w;
    }
  }

  lemma {:induction false} RunsThroughGap(g: string, rest: string, current: string)
    requires IsGap(g) && (g != [] || current == [])
    ensures Runs(g + rest, current) == (if current == [] then [] else [current]) + Runs(rest, [])
  {
    if g == [] {
      assert g + rest == rest;
    } else {
      RunsThroughGap(g[1..], rest, []);
      assert (g + rest)[1..] == g[1..] + rest;
    }
  }

  /** The runs of a text that is made of some words are those words. */
  lemma {:induction false} RunsAreTheWords(s: string, words: seq<string>, gaps: seq<string>)
    requires Spells(s, words, gaps)
    ensures Runs(s, "") == words
    decreases |words|
  {
    if words == [] {
      RunsThroughGap(gaps[0], "", "");
      assert gaps[0] + "" == s;
    } else {
      var w, rest := words[0], Spelled(words[1..], gaps[1..]);
      assert s == gaps[0] + (w + rest);
      RunsThroughGap(gaps[0], w + rest, "");
      RunsThroughWord(w, rest, "");
      assert "" + w == w;
      RunEnds(rest, words[1..], gaps[1..], w);
      RunsAreTheWords(rest, words[1..], gaps[1..]);
    }
  }

  // A word ends where the next gap begins, or the text.
  lemma RunEnds(rest: string, words: seq<string>, gaps: seq<string>, w: string)
    requires Spells(rest, words, gaps) && w != [] && (words != [] ==> gaps[0] != [])
    ensures Runs(rest, w) == [w] + Runs(rest, "")
  {
    var after := if words == [] then "" else words[0] + Spelled(words[1..], gaps[1..]);
    assert rest == gaps[0] + after;
    if gaps[0] != [] {
      RunsThroughGap(gaps[0], after, w);
      RunsThroughGap(gaps[0], after, "");
    }
  }

  /** And every text is made of words. */
  lemma {:induction false} EveryTextIsSpelled(s: string) returns (words: seq<string>, gaps: seq<string>)
    ensures Spells(s, words, gaps)
  {
    if s == [] {
      words, gaps := [], [""];
    } else {
      words, gaps := EveryTextIsSpelled(s[1..]);
      assert s == [s[0]] + s[1..];
      if !IsWordChar(s[0]) {
        gaps := [[s[0]] + gaps[0]] + gaps[1..];
      } else if words != [] && gaps[0] == [] {
        words, gaps := LongerFirst(s, words, gaps);
      } else {
        words, gaps := [[s[0]]] + words, [""] + gaps;
        assert words[1..] + [] == words[1..] && gaps[1..] + [] == gaps[1..];
      }
    }
  }

  lemma LongerFirst(s: string, words: seq<string>, gaps: seq<string>)
    returns (more: seq<string>, after: seq<string>)
    requires s != [] && IsWordChar(s[0]) && Spells(s[1..], words, gaps) && words != [] && gaps[0] == []
    ensures Spells(s, more, after)
  {
    more, after := [[s[0]] + words[0]] + words[1..], gaps;
    assert more[1..] == words[1..];
    assert s == [s[0]] + s[1..];
  }

  lemma RunsAreWords(s: string)
    ensures forall i :: 0 <= i < |Runs(s, "")| ==> IsWord(Runs(s, "")[i])
  {
    var words, gaps := EveryTextIsSpelled(s);
    RunsAreTheWords(s, words, gaps);
  }

  // ---- What is left of them ----

  lemma {:induction false} LongerInOrder(a: seq<string>, b: seq<string>, n: nat)
    ensures Longer(a + b, n) == Longer(a, n) + Longer(b, n)
  {
    if a == [] {
      assert a + b == b;
    } else {
      assert (a + b)[1..] == a[1..] + b;
      assert Longer(a[1..] + b, n) == Longer(a[1..], n) + Longer(b, n) by { LongerInOrder(a[1..], b, n); }
      Together(if |a[0]| > n then [a[0]] else [], Longer(a[1..], n), Longer(b, n));
    }
  }

  lemma Together<T>(a: seq<T>, b: seq<T>, c: seq<T>)
    ensures a + b + c == a + (b + c)
  {
  }

  /** The words of more than n characters, each as often as it occurs. */
  lemma {:induction false} LongerKeepsCounts(words: seq<string>, n: nat)
    ensures forall w :: multiset(Longer(words, n))[w] == if |w| > n then multiset(words)[w] else 0
    ensures forall w :: w in Longer(words, n) ==> w in words
  {
    if words != [] {
      LongerKeepsCounts(words[1..], n);
      assert words == [words[0]] + words[1..];
    }
  }
}
