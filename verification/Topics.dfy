/** Which facts are versions of one another: the topic of a statement is its words
  * up to the first word that announces a change. */
module Topics {

  import opened Words

  const CHANGE_WORDS: set<string> := {
    "updated", "changed", "changing", "now", "new", "current", "latest", "previous", "final", "revised",
    "was", "were", "becomes", "becoming", "is", "are", "will", "the", "this", "not", "longer", "no", "still"
  }

  function SkipChange(words: seq<string>, change: set<string>): seq<string> {
    if words != [] && words[0] in change then SkipChange(words[1..], change) else words
  }

  function UpToChange(words: seq<string>, change: set<string>): seq<string> {
    if words == [] || words[0] in change then [] else [words[0]] + UpToChange(words[1..], change)
  }

  function Take<T>(s: seq<T>, n: nat): seq<T> {
    if |s| <= n then s else s[..n]
  }

  function TopicWords(words: seq<string>, change: set<string>): seq<string> {
    var subject := UpToChange(SkipChange(words, change), change);
    Take(if subject == [] then Take(words, 4) else subject, 6)
  }

  function JoinWords(words: seq<string>): string {
    if words == [] then "" else if |words| == 1 then words[0] else words[0] + " " + JoinWords(words[1..])
  }

  function WordsOf(content: string): seq<string> {
    Longer(Runs(Lower(content), ""), 1)
  }

  function TopicKey(kind: string, content: string): string {
    kind + ":" + JoinWords(TopicWords(WordsOf(content), CHANGE_WORDS))
  }

  predicate AllIn(words: seq<string>, change: set<string>) {
    forall i :: 0 <= i < |words| ==> words[i] in change
  }

  predicate NoneIn(words: seq<string>, change: set<string>) {
    forall i :: 0 <= i < |words| ==> words[i] !in change
  }

  lemma {:induction false} SkipsLead(lead: seq<string>, rest: seq<string>, change: set<string>)
    requires AllIn(lead, change) && rest != [] && rest[0] !in change
    ensures SkipChange(lead + rest, change) == rest
  {
    if lead == [] {
      assert lead + rest == rest;
    } else {
      SkipsLead(lead[1..], rest, change);
      assert (lead + rest)[1..] == lead[1..] + rest;
    }
  }

  lemma {:induction false} StopsAtChange(subject: seq<string>, rest: seq<string>, change: set<string>)
    requires NoneIn(subject, change) && (rest == [] || rest[0] in change)
    ensures UpToChange(subject + rest, change) == subject
  {
    if subject == [] {
      assert subject + rest == rest;
    } else {
      StopsAtChange(subject[1..], rest, change);
      assert (subject + rest)[1..] == subject[1..] + rest;
    }
  }

  /** Statements about one subject share a topic, however they go on after the first
    * change word and whatever change words they lead with. */
  lemma RestatementsShareATopic(lead: seq<string>, subject: seq<string>, rest: seq<string>, change: set<string>)
    requires AllIn(lead, change) && NoneIn(subject, change) && subject != [] && (rest == [] || rest[0] in change)
    ensures TopicWords(lead + subject + rest, change) == Take(subject, 6)
  {
    assert lead + subject + rest == lead + (subject + rest);
    SkipsLead(lead, subject + rest, change);
    StopsAtChange(subject, rest, change);
  }

  // A statement about the subject: change words, the subject, and from a change word on anything.
  ghost predicate IsAbout(content: string, subject: seq<string>, change: set<string>) {
    exists lead, rest :: WordsOf(content) == lead + subject + rest
      && AllIn(lead, change) && (rest == [] || rest[0] in change)
  }

  /** Two statements about one subject, of one kind, are versions of one fact. */
  lemma StatementsAboutOneSubjectShareATopic(kind: string, a: string, b: string, subject: seq<string>)
    requires subject != [] && NoneIn(subject, CHANGE_WORDS)
    requires IsAbout(a, subject, CHANGE_WORDS) && IsAbout(b, subject, CHANGE_WORDS)
    ensures TopicKey(kind, a) == TopicKey(kind, b)
  {
    TopicOfStatement(a, subject, CHANGE_WORDS);
    TopicOfStatement(b, subject, CHANGE_WORDS);
  }

  lemma TopicOfStatement(content: string, subject: seq<string>, change: set<string>)
    requires subject != [] && NoneIn(subject, change) && IsAbout(content, subject, change)
    ensures TopicWords(WordsOf(content), change) == Take(subject, 6)
  {
    var lead, rest :| WordsOf(content) == lead + subject + rest
      && AllIn(lead, change) && (rest == [] || rest[0] in change);
    RestatementsShareATopic(lead, subject, rest, change);
  }

  // ---- When two statements share a topic ----

  /** The subject of a statement: its words after the leading change words and before the next
    * change word, or its first four words when nothing else is there. */
  ghost predicate IsSubject(words: seq<string>, subject: seq<string>) {
    exists lead, kept, rest :: words == lead + kept + rest && Cut(lead, kept, rest)
      && if kept == [] then SameUpTo(subject, words, 4) && |subject| <= 4 else subject == kept
  }

  // The first n words of both are the same.
  predicate SameUpTo(s: seq<string>, t: seq<string>, n: nat) {
    (|s| == |t| || (n <= |s| && n <= |t|)) && forall i :: 0 <= i < n && i < |s| && i < |t| ==> s[i] == t[i]
  }

  lemma TakeIsSame(s: seq<string>, t: seq<string>, n: nat)
    ensures Take(s, n) == Take(t, n) <==> SameUpTo(s, t, n)
    ensures s == Take(t, n) <==> SameUpTo(s, t, n) && |s| <= n
  {
    assert forall i :: 0 <= i < |Take(s, n)| ==> Take(s, n)[i] == s[i];
    assert forall i :: 0 <= i < |Take(t, n)| ==> Take(t, n)[i] == t[i];
  }

  predicate Cut(lead: seq<string>, kept: seq<string>, rest: seq<string>) {
    AllIn(lead, CHANGE_WORDS) && NoneIn(kept, CHANGE_WORDS)
    && (rest != [] ==> kept != [] && rest[0] in CHANGE_WORDS)
  }

  // The subject that the two loops read.
  function Subject(words: seq<string>): seq<string> {
    var kept := UpToChange(SkipChange(words, CHANGE_WORDS), CHANGE_WORDS);
    if kept == [] then Take(words, 4) else kept
  }

  lemma {:induction false} SkipsAll(words: seq<string>, change: set<string>)
    requires AllIn(words, change)
    ensures SkipChange(words, change) == []
  {
    if words != [] {
      SkipsAll(words[1..], change);
    }
  }

  lemma CutIsRead(lead: seq<string>, kept: seq<string>, rest: seq<string>)
    requires Cut(lead, kept, rest)
    ensures UpToChange(SkipChange(lead + kept + rest, CHANGE_WORDS), CHANGE_WORDS) == kept
  {
    if kept == [] {
      assert lead + kept + rest == lead;
      SkipsAll(lead, CHANGE_WORDS);
    } else {
      assert lead + kept + rest == lead + (kept + rest);
      SkipsLead(lead, kept + rest, CHANGE_WORDS);
      StopsAtChange(kept, rest, CHANGE_WORDS);
    }
  }

  // Where the loops cut a statement.
  lemma {:induction false} LeadIsSkipped(words: seq<string>, change: set<string>) returns (lead: seq<string>)
    ensures words == lead + SkipChange(words, change) && AllIn(lead, change)
    ensures SkipChange(words, change) != [] ==> SkipChange(words, change)[0] !in change
  {
    lead := [];
    if words != [] && words[0] in change {
      var l := LeadIsSkipped(words[1..], change);
      lead := [words[0]] + l;
    }
  }

  lemma {:induction false} SubjectIsKept(words: seq<string>, change: set<string>) returns (rest: seq<string>)
    ensures words == UpToChange(words, change) + rest && NoneIn(UpToChange(words, change), change)
    ensures rest != [] ==> rest[0] in change
  {
    rest := words;
    if words != [] && words[0] !in change {
      rest := SubjectIsKept(words[1..], change);
    }
  }

  /** Every statement has exactly one subject. */
  lemma SubjectIsUnique(words: seq<string>, subject: seq<string>)
    ensures IsSubject(words, subject) <==> subject == Subject(words)
  {
    var lead := LeadIsSkipped(words, CHANGE_WORDS);
    var kept := UpToChange(SkipChange(words, CHANGE_WORDS), CHANGE_WORDS);
    var rest := SubjectIsKept(SkipChange(words, CHANGE_WORDS), CHANGE_WORDS);
    assert words == lead + kept + rest && Cut(lead, kept, rest);
    TakeIsSame(subject, words, 4);
    if IsSubject(words, subject) {
      var l, k, r :| words == l + k + r && Cut(l, k, r)
        && if k == [] then SameUpTo(subject, words, 4) && |subject| <= 4 else subject == k;
      CutIsRead(l, k, r);
    }
  }

  // Words in which no blank occurs.
  predicate NoBlanks(words: seq<string>) {
    forall i :: 0 <= i < |words| ==> words[i] != "" && ' ' !in words[i]
  }

  // What stands behind the first word of a joined text.
  function Behind(words: seq<string>): string
    requires words != []
  {
    if |words| == 1 then "" else " " + JoinWords(words[1..])
  }

  lemma FirstWordEnds(w: string, v: string, x: string, y: string)
    requires ' ' !in w && ' ' !in v && w + x == v + y
    requires (x == "" || x[0] == ' ') && (y == "" || y[0] == ' ')
    ensures w == v && x == y
  {
    assert forall i :: 0 <= i < |w| ==> w[i] in w;
    assert forall i :: 0 <= i < |v| ==> v[i] in v;
    assert x != "" ==> (w + x)[|w|] == x[0];
    assert y != "" ==> (v + y)[|v|] == y[0];
    assert (w + x)[..|w|] == w && (v + y)[..|v|] == v && (w + x)[|w|..] == x && (v + y)[|v|..] == y;
  }

  lemma JoinBegins(words: seq<string>)
    requires words != []
    ensures JoinWords(words) == words[0] + Behind(words)
    ensures |words| > 1 ==> Behind(words) == " " + JoinWords(words[1..])
    ensures |words| == 1 ==> words == [words[0]]
  {
    if |words| > 1 {
      Together(words[0], " ", JoinWords(words[1..]));
    } else {
      assert words[0] + "" == words[0];
    }
  }

  lemma {:induction false} JoinIsInjective(a: seq<string>, b: seq<string>)
    requires NoBlanks(a) && NoBlanks(b) && JoinWords(a) == JoinWords(b)
    ensures a == b
  {
    if a != [] && b != [] {
      SameBehind(a, b);
      if |a| > 1 && |b| > 1 {
        assert JoinWords(a[1..]) == JoinWords(b[1..]) by { BehindIsInjective(a, b); }
        JoinIsInjective(a[1..], b[1..]);
        assert a == [a[0]] + a[1..] && b == [b[0]] + b[1..];
      }
    } else {
      NoWordsJoinToNothing(a);
      NoWordsJoinToNothing(b);
    }
  }

  lemma SameBehind(a: seq<string>, b: seq<string>)
    requires NoBlanks(a) && NoBlanks(b) && JoinWords(a) == JoinWords(b) && a != [] && b != []
    ensures a[0] == b[0] && Behind(a) == Behind(b)
    ensures |a| == 1 <==> |b| == 1
    ensures |a| == 1 ==> a == b
  {
    JoinBegins(a);
    JoinBegins(b);
    FirstWordEnds(a[0], b[0], Behind(a), Behind(b));
  }

  lemma BehindIsInjective(a: seq<string>, b: seq<string>)
    requires |a| > 1 && |b| > 1 && Behind(a) == Behind(b)
    ensures JoinWords(a[1..]) == JoinWords(b[1..])
  {
    assert Behind(a)[1..] == JoinWords(a[1..]) && Behind(b)[1..] == JoinWords(b[1..]);
  }

  lemma NoWordsJoinToNothing(words: seq<string>)
    requires NoBlanks(words)
    ensures JoinWords(words) == "" <==> words == []
  {
    if words != [] {
      JoinBegins(words);
    }
  }

  lemma WordsHaveNoBlanks(content: string)
    ensures NoBlanks(WordsOf(content))
  {
    var runs := Runs(Lower(content), "");
    RunsAreWords(Lower(content));
    LongerKeepsCounts(runs, 1);
    forall i | 0 <= i < |WordsOf(content)| ensures WordsOf(content)[i] != "" && ' ' !in WordsOf(content)[i] {
      assert WordsOf(content)[i] in WordsOf(content);
      var j :| 0 <= j < |runs| && runs[j] == WordsOf(content)[i];
      assert IsWord(runs[j]);
    }
  }

  lemma TopicWordsHaveNoBlanks(content: string)
    ensures NoBlanks(TopicWords(WordsOf(content), CHANGE_WORDS))
  {
    WordsHaveNoBlanks(content);
    SubjectIsAmong(WordsOf(content));
    var words, subject := WordsOf(content), Subject(WordsOf(content));
    forall i | 0 <= i < |Take(subject, 6)| ensures Take(subject, 6)[i] != "" && ' ' !in Take(subject, 6)[i] {
      assert subject[i] in words;
    }
  }

  lemma SubjectIsAmong(words: seq<string>)
    ensures forall i :: 0 <= i < |Subject(words)| ==> Subject(words)[i] in words
  {
    var kept := SkipChange(words, CHANGE_WORDS);
    var lead := LeadIsSkipped(words, CHANGE_WORDS);
    var rest := SubjectIsKept(kept, CHANGE_WORDS);
    assert forall i :: 0 <= i < |kept| ==> kept[i] == words[|lead| + i];
    assert forall i :: 0 <= i < |UpToChange(kept, CHANGE_WORDS)| ==> UpToChange(kept, CHANGE_WORDS)[i] == kept[i];
  }

  // The first six words of the subjects are the same.
  ghost predicate SameSubject(a: string, b: string) {
    exists s, t :: IsSubject(WordsOf(a), s) && IsSubject(WordsOf(b), t) && SameUpTo(s, t, 6)
  }

  /** Statements of one kind share a topic exactly when the first six words of their subjects
    * are the same. */
  lemma TopicsAreEqualExactlyForOneSubject(kind: string, a: string, b: string)
    ensures TopicKey(kind, a) == TopicKey(kind, b) <==> SameSubject(a, b)
  {
    var u, v := WordsOf(a), WordsOf(b);
    forall s ensures (IsSubject(u, s) <==> s == Subject(u)) && (IsSubject(v, s) <==> s == Subject(v)) {
      SubjectIsUnique(u, s);
      SubjectIsUnique(v, s);
    }
    var x, y := TopicWords(u, CHANGE_WORDS), TopicWords(v, CHANGE_WORDS);
    assert x == Take(Subject(u), 6) && y == Take(Subject(v), 6);
    TakeIsSame(Subject(u), Subject(v), 6);
    if TopicKey(kind, a) == TopicKey(kind, b) {
      assert (kind + ":" + JoinWords(x))[|kind| + 1..] == JoinWords(x);
      assert (kind + ":" + JoinWords(y))[|kind| + 1..] == JoinWords(y);
      TopicWordsHaveNoBlanks(a);
      TopicWordsHaveNoBlanks(b);
      JoinIsInjective(x, y);
    }
  }

  // ---- Contradiction markers ----

  predicate Contains(s: string, part: string) {
    exists i :: 0 <= i <= |s| && part <= s[i..]
  }

  const NEGATIONS: seq<string> :=
    [" not ", "never", "no longer", "isn't", "doesn't", "rejected", "abandoned", "blocked", "no "]
  const CONTRASTS: seq<string> :=
    ["instead", "rather than", "changed to", "replaced", "switched", "moved away", "no longer"]

  predicate ContainsAny(s: string, parts: seq<string>) {
    exists i :: 0 <= i < |parts| && Contains(s, parts[i])
  }

  // The later statement negates or replaces something.
  predicate Contradicts(content: string) {
    ContainsAny(Lower(content), NEGATIONS) || ContainsAny(Lower(content), CONTRASTS)
  }

  // The part stands somewhere in the text.
  ghost predicate StandsIn(s: string, part: string) {
    exists a, b :: s == a + part + b
  }

  lemma ContainsIsStandsIn(s: string, part: string)
    ensures Contains(s, part) <==> StandsIn(s, part)
  {
    if i :| 0 <= i <= |s| && part <= s[i..] {
      assert s == s[..i] + part + s[i..][|part|..];
    }
    if a, b :| s == a + part + b {
      assert s[|a|..] == part + b;
    }
  }

  /** A statement contradicts the one before exactly when one of the markers stands in it,
    * whatever the case of its letters. */
  lemma ContradictsExactlyByAMarker(content: string)
    ensures Contradicts(content)
       <==> exists marker :: marker in NEGATIONS + CONTRASTS && StandsIn(Lower(content), marker)
  {
    forall marker ensures Contains(Lower(content), marker) <==> StandsIn(Lower(content), marker) {
      ContainsIsStandsIn(Lower(content), marker);
    }
    if marker :| marker in NEGATIONS + CONTRASTS && StandsIn(Lower(content), marker) {
      assert marker in NEGATIONS || marker in CONTRASTS;
    }
    if i :| 0 <= i < |NEGATIONS| && Contains(Lower(content), NEGATIONS[i]) {
      assert NEGATIONS[i] in NEGATIONS + CONTRASTS;
    }
    if i :| 0 <= i < |CONTRASTS| && Contains(Lower(content), CONTRASTS[i]) {
      assert CONTRASTS[i] in NEGATIONS + CONTRASTS;
    }
  }
}
