/** Strict application of a unified diff to the lines of a file. */
module UnifiedDiff {
  import opened Wrappers

  datatype Op = Context | Removed | Added
  datatype Edit = Edit(op: Op, content: string)
  datatype Hunk = Hunk(start: nat, edits: seq<Edit>)

  // The line without the newlines at its end.
  function StripNewline(s: string): (r: string)
    ensures r <= s && AllNewlines(s[|r|..]) && (r != [] ==> r[|r| - 1] != '\n')
  {
    if s != [] && s[|s| - 1] == '\n' then
      var r := StripNewline(s[..|s| - 1]);
      assert s[|r|..] == s[..|s| - 1][|r|..] + ['\n'];
      r
    else s
  }

  predicate AllNewlines(s: string) {
    forall i :: 0 <= i < |s| ==> s[i] == '\n'
  }

  // The lines a hunk consumes, as the patch writes them.
  function Consumed(edits: seq<Edit>): seq<string> {
    if edits == [] then []
    else
      var n := |edits| - 1;
      Consumed(edits[..n]) + if edits[n].op == Added then [] else [edits[n].content]
  }

  function End(h: Hunk): nat {
    h.start + |Consumed(h.edits)|
  }

  // Lines match up to trailing newlines.
  predicate Matches(block: seq<string>, expected: seq<string>) {
    |block| == |expected|
    && forall i :: 0 <= i < |block| ==> StripNewline(block[i]) == StripNewline(expected[i])
  }

  predicate HunkFits(original: seq<string>, h: Hunk) {
    End(h) <= |original| && Matches(original[h.start..End(h)], Consumed(h.edits))
  }

  /** Every hunk finds its lines in the file, and no hunk starts before the one
    * before it ends. */
  predicate Applicable(original: seq<string>, hunks: seq<Hunk>) {
    (forall i :: 0 <= i < |hunks| ==> HunkFits(original, hunks[i]))
    && forall i, j :: 0 <= i < j < |hunks| ==> End(hunks[i]) <= hunks[j].start
  }

  // The block that takes the place of a consumed block: context keeps the file's own line.
  function Replacement(block: seq<string>, edits: seq<Edit>): seq<string>
    requires |block| == |Consumed(edits)|
  {
    if edits == [] then []
    else
      var n, k := |edits| - 1, |block| - 1;
      match edits[n].op
      case Added => Replacement(block, edits[..n]) + [edits[n].content]
      case Context => Replacement(block[..k], edits[..n]) + [block[k]]
      case Removed => Replacement(block[..k], edits[..n])
  }

  // From line idx on: what is between the hunks stays, every hunk's block is replaced.
  predicate Ordered(original: seq<string>, idx: nat, hunks: seq<Hunk>)
    decreases |hunks|
  {
    if hunks == [] then idx <= |original|
    else idx <= hunks[0].start && End(hunks[0]) <= |original| && Ordered(original, End(hunks[0]), hunks[1..])
  }

  function Block(original: seq<string>, h: Hunk): seq<string>
    requires End(h) <= |original|
  {
    original[h.start..End(h)]
  }

  function Patched(original: seq<string>, idx: nat, hunks: seq<Hunk>): seq<string>
    requires Ordered(original, idx, hunks)
    decreases |hunks|
  {
    if hunks == [] then original[idx..]
    else
      original[idx..hunks[0].start] + Replacement(Block(original, hunks[0]), hunks[0].edits)
      + Patched(original, End(hunks[0]), hunks[1..])
  }

  // The state the loop is in is one from which the rest decides.
  predicate FitFrom(original: seq<string>, idx: nat, hunks: seq<Hunk>) {
    Ordered(original, idx, hunks) && forall i :: 0 <= i < |hunks| ==> HunkFits(original, hunks[i])
  }

  lemma {:induction false} FitFromIsApplicable(original: seq<string>, idx: nat, hunks: seq<Hunk>)
    requires idx <= |original|
    ensures FitFrom(original, idx, hunks)
       <==> Applicable(original, hunks) && forall i :: 0 <= i < |hunks| ==> idx <= hunks[i].start
    decreases |hunks|
  {
    if hunks != [] {
      var h, rest := hunks[0], hunks[1..];
      assert forall i :: 0 <= i < |rest| ==> rest[i] == hunks[i + 1];
      if End(h) <= |original| {
        FitFromIsApplicable(original, End(h), rest);
        HeadDecides(original, idx, hunks);
        if FitFrom(original, idx, hunks) {
          forall i, j | 0 <= i < j < |hunks| ensures End(hunks[i]) <= hunks[j].start {
            assert hunks[j] == rest[j - 1];
            assert i > 0 ==> hunks[i] == rest[i - 1];
          }
        }
      } else {
        assert !HunkFits(original, hunks[0]);
      }
    }
  }

  // The first i edits of a hunk have been followed up to line idx.
  predicate Followed(original: seq<string>, start: nat, idx: nat, edits: seq<Edit>, lines: seq<string>) {
    start <= idx <= |original| && |Consumed(edits)| == idx - start
    && Matches(original[start..idx], Consumed(edits))
    && lines == Replacement(original[start..idx], edits)
  }

  // One hunk, from the line it starts at.
  method ApplyEdits(
    original: seq<string>, start: nat, edits: seq<Edit>)
    returns (ok: bool, idx: nat, lines: seq<string>)
    requires start <= |original|
    ensures ok ==> Followed(original, start, idx, edits, lines)
    ensures !ok ==> !HunkFits(original, Hunk(start, edits))
  {
    idx, lines := start, [];
    for i := 0 to |edits|
      invariant Followed(original, start, idx, edits[..i], lines)
    {
      var edit := edits[i];
      if edit.op == Added {
        FollowAdded(original, start, idx, edits, i, lines);
        lines := lines + [edit.content];
      } else {
        if idx >= |original| || StripNewline(original[idx]) != StripNewline(edit.content) {
          MismatchRefuses(original, start, idx, edits, i);
          return false, idx, lines;
        }
        FollowLine(original, start, idx, edits, i, lines);
        if edit.op == Context {
          lines := lines + [original[idx]];
        }
        idx := idx + 1;
      }
    }
    assert edits[..|edits|] == edits;
    ok := true;
  }

  lemma FollowAdded(original: seq<string>, start: nat, idx: nat, edits: seq<Edit>, i: nat, lines: seq<string>)
    requires i < |edits| && Followed(original, start, idx, edits[..i], lines) && edits[i].op == Added
    ensures Followed(original, start, idx, edits[..i + 1], lines + [edits[i].content])
  {
    OneMoreEdit(original[start..idx], edits, i);
  }

  lemma FollowLine(original: seq<string>, start: nat, idx: nat, edits: seq<Edit>, i: nat, lines: seq<string>)
    requires i < |edits| && Followed(original, start, idx, edits[..i], lines) && edits[i].op != Added
    requires idx < |original| && StripNewline(original[idx]) == StripNewline(edits[i].content)
    ensures var kept := if edits[i].op == Context then [original[idx]] else [];
      Followed(original, start, idx + 1, edits[..i + 1], lines + kept)
  {
    var block, line := original[start..idx], original[idx];
    OneMoreEdit(block, edits, i);
    SliceGrows(original, start, idx);
    MatchesOneMore(block, Consumed(edits[..i]), line, edits[i].content);
  }

  lemma SliceGrows<T>(s: seq<T>, i: nat, j: nat)
    requires i <= j < |s|
    ensures s[i..j + 1] == s[i..j] + [s[j]]
  {
  }

  lemma MatchesOneMore(block: seq<string>, expected: seq<string>, line: string, content: string)
    requires Matches(block, expected) && StripNewline(line) == StripNewline(content)
    ensures Matches(block + [line], expected + [content])
  {
  }

  lemma MismatchRefuses(original: seq<string>, start: nat, idx: nat, edits: seq<Edit>, i: nat)
    requires i < |edits| && edits[i].op != Added && start <= idx && |Consumed(edits[..i])| == idx - start
    requires idx < |original| ==> StripNewline(original[idx]) != StripNewline(edits[i].content)
    ensures !HunkFits(original, Hunk(start, edits))
  {
    assert edits[..i + 1][..i] == edits[..i];
    ConsumedGrows(edits, i + 1);
    assert Consumed(edits)[idx - start] == edits[i].content;
    var end := End(Hunk(start, edits));
    if end <= |original| {
      assert original[start..end][idx - start] == original[idx];
    }
  }

  lemma {:induction false} ConsumedGrows(edits: seq<Edit>, n: nat)
    requires n <= |edits|
    ensures Consumed(edits[..n]) <= Consumed(edits)
    decreases |edits|
  {
    if n == |edits| {
      assert edits[..n] == edits;
    } else {
      var e := edits[..|edits| - 1];
      ConsumedGrows(e, n);
      assert e[..n] == edits[..n];
    }
  }

  lemma OneMoreEdit(block: seq<string>, edits: seq<Edit>, i: nat)
    requires i < |edits| && |block| == |Consumed(edits[..i])|
    ensures Consumed(edits[..i + 1]) == Consumed(edits[..i]) + if edits[i].op == Added then [] else [edits[i].content]
    ensures edits[i].op == Added ==>
      Replacement(block, edits[..i + 1]) == Replacement(block, edits[..i]) + [edits[i].content]
    ensures edits[i].op != Added ==> forall line ::
      Replacement(block + [line], edits[..i + 1])
      == Replacement(block, edits[..i]) + if edits[i].op == Context then [line] else []
  {
    assert edits[..i + 1][..i] == edits[..i];
    assert forall line :: (block + [line])[..|block|] == block;
  }

  /** Applies the hunks front to back. Succeeds exactly when all of them fit in
    * order, and then replaces their blocks and nothing else. */
  method ApplyHunks(original: seq<string>, hunks: seq<Hunk>) returns (r: Option<seq<string>>)
    ensures r.Some? <==> Applicable(original, hunks)
    ensures r.Some? <==> AllFindLines(original, hunks)
    ensures r.Some? ==> Ordered(original, 0, hunks) && r.value == Patched(original, 0, hunks)
  {
    FitFromIsApplicable(original, 0, hunks);
    AppliesExactlyWhenLinesAreFound(original, hunks);
    var lines: seq<string>, idx: nat := [], 0;
    for i := 0 to |hunks|
      invariant Pending(original, hunks, hunks[i..], idx, lines)
    {
      var h := hunks[i];
      HeadDecides(original, idx, hunks[i..]);
      assert hunks[i..][1..] == hunks[i + 1..];
      if h.start < idx || h.start > |original| {
        return None;
      }
      var ok, next, newLines := ApplyEdits(original, h.start, h.edits);
      if !ok {
        return None;
      }
      HunkDone(original, hunks, hunks[i..], idx, lines, next, newLines);
      lines := lines + original[idx..h.start] + newLines;
      idx := next;
    }
    r := Some(lines + original[idx..]);
  }

  // What the loop over hunks keeps: the rest decides, and completes the lines so far.
  ghost predicate Pending(original: seq<string>, hunks: seq<Hunk>, rest: seq<Hunk>, idx: nat, lines: seq<string>) {
    idx <= |original|
    && (FitFrom(original, 0, hunks) <==> FitFrom(original, idx, rest))
    && (FitFrom(original, 0, hunks) ==> Patched(original, 0, hunks) == lines + Patched(original, idx, rest))
  }

  lemma HunkDone(
    original: seq<string>, hunks: seq<Hunk>, rest: seq<Hunk>, idx: nat, lines: seq<string>, next: nat,
    newLines: seq<string>)
    requires Pending(original, hunks, rest, idx, lines) && rest != []
    requires idx <= rest[0].start <= |original| && Followed(original, rest[0].start, next, rest[0].edits, newLines)
    ensures Pending(original, hunks, rest[1..], next, lines + original[idx..rest[0].start] + newLines)
  {
    HeadDecides(original, idx, rest);
    assert HunkFits(original, rest[0]) && next == End(rest[0]);
  }

  lemma HeadDecides(original: seq<string>, idx: nat, hunks: seq<Hunk>)
    requires hunks != []
    ensures FitFrom(original, idx, hunks)
       <==> idx <= hunks[0].start && HunkFits(original, hunks[0]) && FitFrom(original, End(hunks[0]), hunks[1..])
  {
    if idx <= hunks[0].start && HunkFits(original, hunks[0]) && FitFrom(original, End(hunks[0]), hunks[1..]) {
      forall i | 0 <= i < |hunks| ensures HunkFits(original, hunks[i]) {
        assert i > 0 ==> hunks[i] == hunks[1..][i - 1];
      }
    }
    if FitFrom(original, idx, hunks) {
      assert HunkFits(original, hunks[0]);
    }
  }

  // ---- What fits, line by line ----

  /** The two lines are equal up to newlines at their ends. */
  ghost predicate SameLine(a: string, b: string) {
    exists k: nat, m: nat ::
      k <= |a| && m <= |b| && a[..k] == b[..m] && AllNewlines(a[k..]) && AllNewlines(b[m..])
  }

  // What is left of a text followed by newlines only.
  lemma {:induction false} StripsAllNewlines(s: string, k: nat)
    requires k <= |s| && AllNewlines(s[k..])
    ensures StripNewline(s) == StripNewline(s[..k])
  {
    if k == |s| {
      assert s[..k] == s;
    } else {
      var init := s[..|s| - 1];
      assert s[k..][|s| - 1 - k] == s[|s| - 1];
      assert forall i :: 0 <= i < |init| - k ==> init[k..][i] == s[k..][i];
      assert init[..k] == s[..k];
      StripsAllNewlines(init, k);
    }
  }

  lemma SameLineIsStripped(a: string, b: string)
    ensures SameLine(a, b) <==> StripNewline(a) == StripNewline(b)
  {
    if k: nat, m: nat :| k <= |a| && m <= |b| && a[..k] == b[..m] && AllNewlines(a[k..]) && AllNewlines(b[m..]) {
      StripsAllNewlines(a, k);
      StripsAllNewlines(b, m);
    }
    if StripNewline(a) == StripNewline(b) {
      var r := StripNewline(a);
      assert a[..|r|] == r && b[..|r|] == r;
    }
  }

  // How many lines of the file the first i edits stand for, and how many of the result.
  function OldLines(edits: seq<Edit>, i: nat): nat
    requires i <= |edits|
  {
    if i == 0 then 0 else OldLines(edits, i - 1) + if edits[i - 1].op == Added then 0 else 1
  }

  function NewLines(edits: seq<Edit>, i: nat): nat
    requires i <= |edits|
  {
    if i == 0 then 0 else NewLines(edits, i - 1) + if edits[i - 1].op == Removed then 0 else 1
  }

  /** The hunk finds its lines: every context or removed line stands in the file where the
    * hunk has it, up to newlines at the end. */
  ghost predicate FindsLines(original: seq<string>, h: Hunk) {
    h.start + OldLines(h.edits, |h.edits|) <= |original|
    && forall i :: 0 <= i < |h.edits| && h.edits[i].op != Added ==>
      LineAt(original, h.start + OldLines(h.edits, i), h.edits[i].content)
  }

  ghost predicate LineAt(original: seq<string>, at: nat, content: string) {
    at < |original| && SameLine(original[at], content)
  }

  // And every hunk starts after the lines of those before it.
  ghost predicate AllFindLines(original: seq<string>, hunks: seq<Hunk>) {
    (forall j :: 0 <= j < |hunks| ==> FindsLines(original, hunks[j]))
    && forall i, j :: 0 <= i < j < |hunks| ==>
      hunks[i].start + OldLines(hunks[i].edits, |hunks[i].edits|) <= hunks[j].start
  }

  lemma {:induction false} ConsumedLength(edits: seq<Edit>, n: nat)
    requires n <= |edits|
    ensures |Consumed(edits[..n])| == OldLines(edits, n)
  {
    if n > 0 {
      ConsumedLength(edits, n - 1);
      assert edits[..n][..n - 1] == edits[..n - 1];
    }
  }

  // The line an edit stands for among those consumed.
  lemma ConsumedLine(edits: seq<Edit>, i: nat)
    requires i < |edits| && edits[i].op != Added
    ensures OldLines(edits, i) < |Consumed(edits)| && Consumed(edits)[OldLines(edits, i)] == edits[i].content
  {
    ConsumedLength(edits, i);
    ConsumedGrows(edits, i + 1);
    assert edits[..i + 1][..i] == edits[..i];
  }

  // Every line consumed is one an edit stands for.
  lemma {:induction false} LineHasEdit(edits: seq<Edit>, n: nat, k: nat) returns (i: nat)
    requires n <= |edits| && k < OldLines(edits, n)
    ensures i < n && edits[i].op != Added && OldLines(edits, i) == k
  {
    i := n - 1;
    if edits[n - 1].op == Added || OldLines(edits, n - 1) != k {
      i := LineHasEdit(edits, n - 1, k);
    }
  }

  // The k-th consumed line is the file's, as the code compares them.
  predicate SameAt(original: seq<string>, start: nat, expected: seq<string>, k: nat)
    requires k < |expected|
  {
    start + k < |original| && StripNewline(original[start + k]) == StripNewline(expected[k])
  }

  lemma FitsAt(original: seq<string>, h: Hunk, k: nat)
    requires HunkFits(original, h) && k < |Consumed(h.edits)|
    ensures SameAt(original, h.start, Consumed(h.edits), k)
  {
    SliceAt(original, h.start, |Consumed(h.edits)|, k);
  }

  lemma FitsWhenSame(original: seq<string>, h: Hunk)
    requires End(h) <= |original|
    requires forall k :: 0 <= k < |Consumed(h.edits)| ==> SameAt(original, h.start, Consumed(h.edits), k)
    ensures HunkFits(original, h)
  {
    var block, expected := original[h.start..End(h)], Consumed(h.edits);
    forall k | 0 <= k < |block| ensures StripNewline(block[k]) == StripNewline(expected[k]) {
      SliceAt(original, h.start, |expected|, k);
      assert SameAt(original, h.start, expected, k);
    }
  }

  lemma SliceAt(s: seq<string>, from: int, len: nat, k: nat)
    requires 0 <= from && from + len <= |s| && k < len
    ensures s[from..from + len][k] == s[from + k]
  {
  }

  lemma LineMatches(original: seq<string>, h: Hunk, i: nat)
    requires i < |h.edits| && h.edits[i].op != Added
    ensures var k := OldLines(h.edits, i);
      k < |Consumed(h.edits)|
      && (LineAt(original, h.start + k, h.edits[i].content) <==> SameAt(original, h.start, Consumed(h.edits), k))
  {
    var at := h.start + OldLines(h.edits, i);
    ConsumedLine(h.edits, i);
    LineIsStripped(original, at, h.edits[i].content);
  }

  lemma LineIsStripped(original: seq<string>, at: nat, content: string)
    ensures LineAt(original, at, content)
       <==> at < |original| && StripNewline(original[at]) == StripNewline(content)
  {
    if at < |original| {
      SameLineIsStripped(original[at], content);
    }
  }

  lemma FitsExactlyWhenLinesAreFound(original: seq<string>, h: Hunk)
    ensures HunkFits(original, h) <==> FindsLines(original, h)
  {
    ConsumedLength(h.edits, |h.edits|);
    assert h.edits[..|h.edits|] == h.edits;
    if HunkFits(original, h) {
      FitFindsLines(original, h);
    }
    if FindsLines(original, h) {
      FoundLinesFit(original, h);
    }
  }

  lemma FoundLinesFit(original: seq<string>, h: Hunk)
    requires FindsLines(original, h) && |Consumed(h.edits)| == OldLines(h.edits, |h.edits|)
    ensures HunkFits(original, h)
  {
    forall k | 0 <= k < |Consumed(h.edits)| ensures SameAt(original, h.start, Consumed(h.edits), k) {
      FoundLineFits(original, h, k);
    }
    FitsWhenSame(original, h);
  }

  lemma FoundLineFits(original: seq<string>, h: Hunk, k: nat)
    requires FindsLines(original, h) && k < |Consumed(h.edits)| && k < OldLines(h.edits, |h.edits|)
    ensures SameAt(original, h.start, Consumed(h.edits), k)
  {
    var i := LineHasEdit(h.edits, |h.edits|, k);
    LineMatches(original, h, i);
  }

  lemma FitFindsLines(original: seq<string>, h: Hunk)
    requires HunkFits(original, h) && |Consumed(h.edits)| == OldLines(h.edits, |h.edits|)
    ensures FindsLines(original, h)
  {
    forall i | 0 <= i < |h.edits| && h.edits[i].op != Added
      ensures LineAt(original, h.start + OldLines(h.edits, i), h.edits[i].content)
    {
      LineMatches(original, h, i);
      FitsAt(original, h, OldLines(h.edits, i));
    }
  }

  /** So hunks apply exactly when each finds its lines, behind those before it. */
  lemma AppliesExactlyWhenLinesAreFound(original: seq<string>, hunks: seq<Hunk>)
    ensures Applicable(original, hunks) <==> AllFindLines(original, hunks)
  {
    forall j | 0 <= j < |hunks|
      ensures HunkFits(original, hunks[j]) <==> FindsLines(original, hunks[j])
      ensures End(hunks[j]) == hunks[j].start + OldLines(hunks[j].edits, |hunks[j].edits|)
    {
      FitsExactlyWhenLinesAreFound(original, hunks[j]);
      ConsumedLength(hunks[j].edits, |hunks[j].edits|);
      assert hunks[j].edits[..|hunks[j].edits|] == hunks[j].edits;
    }
  }

  lemma {:induction false} ReplacementLines(block: seq<string>, edits: seq<Edit>, n: nat)
    requires n <= |edits| && |block| == |Consumed(edits[..n])|
    ensures |Replacement(block, edits[..n])| == NewLines(edits, n)
  {
    if n > 0 {
      assert edits[..n][..n - 1] == edits[..n - 1];
      ReplacementLines(if edits[n - 1].op == Added then block else block[..|block| - 1], edits, n - 1);
    }
  }

  // The new block, line by line: context lines are the file's own, added lines the hunk's.
  lemma {:induction false} ReplacementLine(block: seq<string>, edits: seq<Edit>, n: nat, i: nat)
    requires i < n <= |edits| && |block| == |Consumed(edits[..n])| && edits[i].op != Removed
    ensures NewLines(edits, i) < |Replacement(block, edits[..n])|
    ensures edits[i].op == Context ==> OldLines(edits, i) < |block|
    ensures Replacement(block, edits[..n])[NewLines(edits, i)]
         == if edits[i].op == Added then edits[i].content else block[OldLines(edits, i)]
  {
    assert edits[..n][..n - 1] == edits[..n - 1];
    var before := if edits[n - 1].op == Added then block else block[..|block| - 1];
    if i == n - 1 {
      ReplacementLines(before, edits, n - 1);
      ConsumedLength(edits, n - 1);
    } else {
      ReplacementLine(before, edits, n - 1, i);
    }
  }

  // The line of the i-th edit in the result, when the hunk has been moved by d: an added line,
  // or a context line as the file has it.
  predicate Lands(original: seq<string>, result: seq<string>, h: Hunk, d: int, i: nat)
    requires i < |h.edits|
  {
    var was := h.start + OldLines(h.edits, i);
    var at := h.start + d + NewLines(h.edits, i);
    0 <= at < |result|
    && match h.edits[i].op
       case Added => result[at] == h.edits[i].content
       case Context => was < |original| && result[at] == original[was]
       case Removed => true
  }

  /** Where the lines of the hunks are in the result: every added line, and every context line
    * as the file has it, follows those before it, moved by the hunks before. */
  lemma LinesLand(original: seq<string>, hunks: seq<Hunk>, result: seq<string>, j: nat, i: nat)
    requires Ordered(original, 0, hunks) && result == Patched(original, 0, hunks)
    requires j < |hunks| && i < |hunks[j].edits| && hunks[j].edits[i].op != Removed
    ensures Lands(original, result, hunks[j], Shift(hunks, j), i)
  {
    assert Sits(original, result, hunks[j], Shift(hunks, j)) by { OnlyBlocksChange(original, hunks, result); }
    LineSits(original, result, hunks[j], Shift(hunks, j), i);
  }

  lemma LineSits(original: seq<string>, result: seq<string>, h: Hunk, d: int, i: nat)
    requires Sits(original, result, h, d) && i < |h.edits| && h.edits[i].op != Removed
    ensures Lands(original, result, h, d, i)
  {
    var block, lines, k := Block(original, h), Replacement(Block(original, h), h.edits), NewLines(h.edits, i);
    assert k < |lines| && (h.edits[i].op == Context ==> OldLines(h.edits, i) < |block|)
      && lines[k] == if h.edits[i].op == Added then h.edits[i].content else block[OldLines(h.edits, i)] by {
      assert h.edits[..|h.edits|] == h.edits;
      ReplacementLine(block, h.edits, |h.edits|, i);
    }
    SliceAt(result, h.start + d, |lines|, k);
  }

  // ---- What the result is, line by line ----

  // Added minus removed lines.
  function Net(edits: seq<Edit>): int {
    if edits == [] then 0
    else
      var n := |edits| - 1;
      Net(edits[..n]) + match edits[n].op case Added => 1 case Removed => -1 case Context => 0
  }

  // How far the first i hunks move the lines after them.
  function Shift(hunks: seq<Hunk>, i: nat): int
    requires i <= |hunks|
  {
    if i == 0 then 0 else Net(hunks[0].edits) + Shift(hunks[1..], i - 1)
  }

  lemma {:induction false} ReplacementLength(block: seq<string>, edits: seq<Edit>)
    requires |block| == |Consumed(edits)|
    ensures |Replacement(block, edits)| == |block| + Net(edits)
  {
    if edits != [] {
      var n := |edits| - 1;
      ReplacementLength(if edits[n].op == Added then block else block[..|block| - 1], edits[..n]);
    }
  }

  // The lines between hunk i - 1 and hunk i.
  function GapStart(idx: nat, hunks: seq<Hunk>, i: nat): nat
    requires i <= |hunks|
  {
    if i == 0 then idx else End(hunks[i - 1])
  }

  function GapEnd(original: seq<string>, hunks: seq<Hunk>, i: nat): nat
    requires i <= |hunks|
  {
    if i == |hunks| then |original| else hunks[i].start
  }

  // Lines lo..hi of the original are found in the result, moved by d.
  predicate Moved(original: seq<string>, result: seq<string>, lo: int, hi: int, d: int) {
    0 <= lo <= hi <= |original| && 0 <= lo + d && hi + d <= |result| && result[lo + d..hi + d] == original[lo..hi]
  }

  predicate Holds(result: seq<string>, at: int, lines: seq<string>) {
    0 <= at && at + |lines| <= |result| && result[at..at + |lines|] == lines
  }

  // The new block of a hunk sits in the result, moved by d.
  predicate Sits(original: seq<string>, result: seq<string>, h: Hunk, d: int) {
    End(h) <= |original| && Holds(result, h.start + d, Replacement(Block(original, h), h.edits))
  }

  lemma {:induction false} PatchedLength(original: seq<string>, idx: nat, hunks: seq<Hunk>)
    requires Ordered(original, idx, hunks)
    ensures |Patched(original, idx, hunks)| == |original| - idx + Shift(hunks, |hunks|)
    decreases |hunks|
  {
    if hunks != [] {
      PatchedLength(original, End(hunks[0]), hunks[1..]);
      ReplacementLength(Block(original, hunks[0]), hunks[0].edits);
    }
  }

  // From line at on, the result is what the hunks make of the original from line idx on.
  predicate FromHere(original: seq<string>, idx: nat, hunks: seq<Hunk>, result: seq<string>, at: nat) {
    Ordered(original, idx, hunks) && at <= |result| && result[at..] == Patched(original, idx, hunks)
  }

  // The first hunk's part of the result: the lines before it and its new block.
  lemma Peel(original: seq<string>, idx: nat, hunks: seq<Hunk>, result: seq<string>, at: nat) returns (next: nat)
    requires FromHere(original, idx, hunks, result, at) && hunks != []
    ensures var h := hunks[0]; var lines := Replacement(Block(original, h), h.edits); var start := at + h.start - idx;
      next == start + |lines| <= |result|
      && result[at..start] == original[idx..h.start] && result[start..next] == lines
    ensures FromHere(original, End(hunks[0]), hunks[1..], result, next)
  {
    var h := hunks[0];
    var gap, lines := original[idx..h.start], Replacement(Block(original, h), h.edits);
    next := at + |gap| + |lines|;
    Layout(result, at, gap, lines, Patched(original, End(h), hunks[1..]));
  }

  lemma Layout<T>(s: seq<T>, at: nat, a: seq<T>, b: seq<T>, c: seq<T>)
    requires at <= |s| && s[at..] == a + b + c
    ensures var i, j := at + |a|, at + |a| + |b|; j <= |s| && s[at..i] == a && s[i..j] == b && s[j..] == c
  {
    var t := s[at..];
    var i, j := at + |a|, at + |a| + |b|;
    assert t[..|a|] == a && t[|a|..|a| + |b|] == b && t[|a| + |b|..] == c;
    assert s[at..i] == t[..|a|] && s[i..j] == t[|a|..|a| + |b|] && s[j..] == t[|a| + |b|..];
  }

  // What follows the first hunk, and how far that has moved it.
  lemma PeelRest(original: seq<string>, idx: nat, hunks: seq<Hunk>, result: seq<string>, at: nat) returns (next: nat)
    requires FromHere(original, idx, hunks, result, at) && hunks != []
    ensures FromHere(original, End(hunks[0]), hunks[1..], result, next)
    ensures next - End(hunks[0]) == at - idx + Net(hunks[0].edits)
  {
    next := Peel(original, idx, hunks, result, at);
    ReplacementLength(Block(original, hunks[0]), hunks[0].edits);
  }

  lemma {:induction false} GapIsKept(
    original: seq<string>, idx: nat, hunks: seq<Hunk>, result: seq<string>, at: nat, i: nat)
    requires FromHere(original, idx, hunks, result, at) && i <= |hunks|
    ensures Moved(original, result, GapStart(idx, hunks, i), GapEnd(original, hunks, i), at - idx + Shift(hunks, i))
    decreases |hunks|
  {
    if i == 0 {
      FirstGap(original, idx, hunks, result, at);
    } else {
      var next := PeelRest(original, idx, hunks, result, at);
      GapIsKept(original, End(hunks[0]), hunks[1..], result, next, i - 1);
      NextGap(original, idx, hunks, i, at - idx, next - End(hunks[0]));
    }
  }

  // The lines before the first hunk, or to the end of the file when there is none.
  lemma FirstGap(original: seq<string>, idx: nat, hunks: seq<Hunk>, result: seq<string>, at: nat)
    requires FromHere(original, idx, hunks, result, at)
    ensures Moved(original, result, idx, GapEnd(original, hunks, 0), at - idx)
  {
    if hunks != [] {
      var next := Peel(original, idx, hunks, result, at);
    } else {
      assert result[at..|result|] == result[at..] && original[idx..|original|] == original[idx..];
    }
  }

  // A later gap, seen from behind the first hunk.
  lemma NextGap(original: seq<string>, idx: nat, hunks: seq<Hunk>, i: nat, moved: int, next: int)
    requires 0 < i <= |hunks| && next == moved + Net(hunks[0].edits)
    ensures GapStart(idx, hunks, i) == GapStart(End(hunks[0]), hunks[1..], i - 1)
    ensures GapEnd(original, hunks, i) == GapEnd(original, hunks[1..], i - 1)
    ensures next + Shift(hunks[1..], i - 1) == moved + Shift(hunks, i)
  {
  }

  lemma {:induction false} BlockIsReplaced(
    original: seq<string>, idx: nat, hunks: seq<Hunk>, result: seq<string>, at: nat, i: nat)
    requires FromHere(original, idx, hunks, result, at) && i < |hunks|
    ensures Sits(original, result, hunks[i], at - idx + Shift(hunks, i))
    decreases |hunks|
  {
    if i > 0 {
      var next := PeelRest(original, idx, hunks, result, at);
      BlockIsReplaced(original, End(hunks[0]), hunks[1..], result, next, i - 1);
    } else {
      var next := Peel(original, idx, hunks, result, at);
    }
  }

  /** The result holds every hunk's new block where the hunks before have moved it,
    * every line between the hunks likewise, and nothing else: its length differs by
    * the added minus the removed lines. */
  lemma OnlyBlocksChange(original: seq<string>, hunks: seq<Hunk>, result: seq<string>)
    requires Ordered(original, 0, hunks) && result == Patched(original, 0, hunks)
    ensures |result| == |original| + Shift(hunks, |hunks|)
    ensures forall i :: 0 <= i < |hunks| ==> Sits(original, result, hunks[i], Shift(hunks, i))
    ensures forall i :: 0 <= i <= |hunks| ==>
      Moved(original, result, GapStart(0, hunks, i), GapEnd(original, hunks, i), Shift(hunks, i))
  {
    PatchedLength(original, 0, hunks);
    var start := 0;
    assert result[start..] == result && FromHere(original, start, hunks, result, start);
    forall i | 0 <= i < |hunks| ensures Sits(original, result, hunks[i], Shift(hunks, i)) {
      BlockIsReplaced(original, start, hunks, result, start, i);
    }
    forall i | 0 <= i <= |hunks|
      ensures Moved(original, result, GapStart(0, hunks, i), GapEnd(original, hunks, i), Shift(hunks, i))
    {
      GapIsKept(original, start, hunks, result, start, i);
    }
  }

  // ---- Undoing a patch ----

  function Opposite(edit: Edit): Edit {
    match edit.op
    case Added => Edit(Removed, edit.content)
    case Removed => Edit(Added, edit.content)
    case Context => edit
  }

  function Swap(edits: seq<Edit>): (r: seq<Edit>)
    ensures |r| == |edits|
  {
    if edits == [] then [] else Swap(edits[..|edits| - 1]) + [Opposite(edits[|edits| - 1])]
  }

  // The inverse hunks, at the places the result has the new blocks.
  function Inverse(original: seq<string>, idx: nat, hunks: seq<Hunk>, at: nat): (r: seq<Hunk>)
    requires Ordered(original, idx, hunks)
    ensures |r| == |hunks|
    decreases |hunks|
  {
    if hunks == [] then []
    else
      var first := Hunk(at + hunks[0].start - idx, Swap(hunks[0].edits));
      [first] + Inverse(original, End(hunks[0]), hunks[1..], End(first))
  }

  // The removed lines equal the file's, newlines included.
  predicate ExactRemovals(block: seq<string>, edits: seq<Edit>)
    requires |block| == |Consumed(edits)|
  {
    edits == []
    || var n, k := |edits| - 1, |block| - 1;
       match edits[n].op
       case Added => ExactRemovals(block, edits[..n])
       case Context => ExactRemovals(block[..k], edits[..n])
       case Removed => block[k] == edits[n].content && ExactRemovals(block[..k], edits[..n])
  }

  // lines is the new block of edits; following the swapped edits gives the block back.
  ghost predicate Restores(block: seq<string>, edits: seq<Edit>, lines: seq<string>, back: seq<Edit>) {
    Matches(block, Consumed(edits)) && lines == Replacement(block, edits) && Matches(lines, Consumed(back))
    && |Replacement(lines, back)| == |block|
    && (Replacement(lines, back) == block <==> ExactRemovals(block, edits))
  }

  lemma AddedRestores(block: seq<string>, edits: seq<Edit>, lines: seq<string>, back: seq<Edit>, text: string)
    requires Restores(block, edits, lines, back)
    ensures Restores(block, edits + [Edit(Added, text)], lines + [text], back + [Edit(Removed, text)])
  {
    LastEdit(edits, Edit(Added, text));
    LastEdit(back, Edit(Removed, text));
    assert (lines + [text])[..|lines|] == lines;
  }

  lemma RemovedRestores(
    block: seq<string>, edits: seq<Edit>, lines: seq<string>, back: seq<Edit>, line: string, text: string)
    requires Restores(block, edits, lines, back) && StripNewline(line) == StripNewline(text)
    ensures Restores(block + [line], edits + [Edit(Removed, text)], lines, back + [Edit(Added, text)])
  {
    LastEdit(edits, Edit(Removed, text));
    LastEdit(back, Edit(Added, text));
    assert (block + [line])[..|block|] == block;
    SameEnd(Replacement(lines, back), text, block, line);
  }

  lemma ContextRestores(
    block: seq<string>, edits: seq<Edit>, lines: seq<string>, back: seq<Edit>, line: string, text: string)
    requires Restores(block, edits, lines, back) && StripNewline(line) == StripNewline(text)
    ensures Restores(block + [line], edits + [Edit(Context, text)], lines + [line], back + [Edit(Context, text)])
  {
    LastEdit(edits, Edit(Context, text));
    LastEdit(back, Edit(Context, text));
    assert (block + [line])[..|block|] == block && (lines + [line])[..|lines|] == lines;
    SameEnd(Replacement(lines, back), line, block, line);
  }

  lemma SameEnd<T>(a: seq<T>, x: T, b: seq<T>, y: T)
    requires |a| == |b|
    ensures a + [x] == b + [y] <==> a == b && x == y
  {
    if a + [x] == b + [y] {
      assert a == (a + [x])[..|a|] == (b + [y])[..|b|] == b;
      assert (a + [x])[|a|] == (b + [y])[|b|];
    }
  }

  lemma LastEdit(edits: seq<Edit>, e: Edit)
    ensures var more := edits + [e]; more[..|more| - 1] == edits && more[|more| - 1] == e
  {
  }

  lemma {:induction false} SwapRestores(block: seq<string>, edits: seq<Edit>)
    requires Matches(block, Consumed(edits))
    ensures Restores(block, edits, Replacement(block, edits), Swap(edits))
  {
    if edits != [] {
      var n, k := |edits| - 1, |block| - 1;
      var init, e := edits[..n], edits[n];
      assert edits == init + [e];
      if e.op == Added {
        SwapRestores(block, init);
        AddedRestores(block, init, Replacement(block, init), Swap(init), e.content);
      } else {
        var b, line := block[..k], block[k];
        assert block == b + [line];
        assert StripNewline(line) == StripNewline(Consumed(edits)[k]);
        SwapRestores(b, init);
        if e.op == Removed {
          RemovedRestores(b, init, Replacement(b, init), Swap(init), line, e.content);
        } else {
          ContextRestores(b, init, Replacement(b, init), Swap(init), line, e.content);
        }
      }
    }
  }

  predicate AllExact(original: seq<string>, hunks: seq<Hunk>)
    requires forall i :: 0 <= i < |hunks| ==> End(hunks[i]) <= |original|
  {
    forall i :: 0 <= i < |hunks| ==> ExactRemovals(Block(original, hunks[i]), hunks[i].edits)
  }

  // back undoes, from line at of the result, what hunks do from line idx of the original.
  ghost predicate Undoes(
    original: seq<string>, idx: nat, hunks: seq<Hunk>, result: seq<string>, at: nat, back: seq<Hunk>) {
    FitFrom(original, idx, hunks) && FitFrom(result, at, back)
    && |Patched(result, at, back)| == |original| - idx
    && (Patched(result, at, back) == original[idx..] <==> AllExact(original, hunks))
  }

  lemma {:induction false} InverseFits(
    original: seq<string>, idx: nat, hunks: seq<Hunk>, result: seq<string>, at: nat, back: seq<Hunk>)
    requires FitFrom(original, idx, hunks) && FromHere(original, idx, hunks, result, at)
    requires back == Inverse(original, idx, hunks, at)
    ensures Undoes(original, idx, hunks, result, at, back)
    decreases |hunks|
  {
    if hunks != [] {
      HeadDecides(original, idx, hunks);
      InverseHead(original, idx, hunks, at);
      PeelBack(original, idx, hunks, result, at, back[0]);
      InverseFits(original, End(hunks[0]), hunks[1..], result, End(back[0]), back[1..]);
      InverseStep(original, idx, hunks, result, at, back);
    }
  }

  // The inverse hunk b sits on the new block of hunk h, and restores its old one.
  ghost predicate OnNewBlock(original: seq<string>, idx: nat, h: Hunk, result: seq<string>, at: nat, b: Hunk) {
    idx <= h.start && HunkFits(original, h) && at <= b.start && End(b) <= |result|
    && result[at..b.start] == original[idx..h.start]
    && Restores(Block(original, h), h.edits, Block(result, b), b.edits)
  }

  lemma PeelBack(original: seq<string>, idx: nat, hunks: seq<Hunk>, result: seq<string>, at: nat, b: Hunk)
    requires FromHere(original, idx, hunks, result, at) && hunks != [] && HunkFits(original, hunks[0])
    requires b == Hunk(at + hunks[0].start - idx, Swap(hunks[0].edits))
    ensures OnNewBlock(original, idx, hunks[0], result, at, b)
    ensures FromHere(original, End(hunks[0]), hunks[1..], result, End(b))
  {
    var h := hunks[0];
    var next := Peel(original, idx, hunks, result, at);
    OnBlock(original, idx, h, result, at, b, Replacement(Block(original, h), h.edits), next);
  }

  lemma OnBlock(
    original: seq<string>, idx: nat, h: Hunk, result: seq<string>, at: nat, b: Hunk, lines: seq<string>,
    end: nat)
    requires idx <= h.start && HunkFits(original, h) && lines == Replacement(Block(original, h), h.edits)
    requires b == Hunk(at + h.start - idx, Swap(h.edits)) && end == b.start + |lines| <= |result|
    requires result[at..b.start] == original[idx..h.start] && result[b.start..end] == lines
    ensures OnNewBlock(original, idx, h, result, at, b) && End(b) == end
  {
    SwapRestores(Block(original, h), h.edits);
    SitsOnBlock(original, idx, h, result, at, b, lines);
  }

  lemma SitsOnBlock(original: seq<string>, idx: nat, h: Hunk, result: seq<string>, at: nat, b: Hunk, lines: seq<string>)
    requires idx <= h.start && HunkFits(original, h) && b.start == at + h.start - idx && b.start + |lines| <= |result|
    requires result[at..b.start] == original[idx..h.start] && result[b.start..b.start + |lines|] == lines
    requires Restores(Block(original, h), h.edits, lines, b.edits)
    ensures OnNewBlock(original, idx, h, result, at, b) && End(b) == b.start + |lines|
  {
  }

  lemma InverseHead(original: seq<string>, idx: nat, hunks: seq<Hunk>, at: nat)
    requires Ordered(original, idx, hunks) && hunks != []
    ensures var back := Inverse(original, idx, hunks, at);
      back[0] == Hunk(at + hunks[0].start - idx, Swap(hunks[0].edits))
      && back[1..] == Inverse(original, End(hunks[0]), hunks[1..], End(back[0]))
  {
  }

  lemma InverseStep(original: seq<string>, idx: nat, hunks: seq<Hunk>, result: seq<string>, at: nat, back: seq<Hunk>)
    requires hunks != [] && back != [] && OnNewBlock(original, idx, hunks[0], result, at, back[0])
    requires Undoes(original, End(hunks[0]), hunks[1..], result, End(back[0]), back[1..])
    ensures Undoes(original, idx, hunks, result, at, back)
  {
    var h := hunks[0];
    PatchedStep(result, at, back);
    HeadDecides(original, idx, hunks);
    AllExactSplits(original, hunks);
    ThreeParts(original, idx, h.start, End(h));
    SameParts(original[idx..h.start], Replacement(Block(result, back[0]), back[0].edits), Block(original, h),
              Patched(result, End(back[0]), back[1..]), original[End(h)..]);
  }

  lemma ThreeParts<T>(s: seq<T>, i: nat, j: nat, k: nat)
    requires i <= j <= k <= |s|
    ensures s[i..] == s[i..j] + s[j..k] + s[k..]
  {
  }

  lemma PatchedStep(result: seq<string>, at: nat, back: seq<Hunk>)
    requires back != [] && at <= back[0].start && HunkFits(result, back[0]) && FitFrom(result, End(back[0]), back[1..])
    ensures FitFrom(result, at, back)
    ensures Patched(result, at, back)
         == result[at..back[0].start] + Replacement(Block(result, back[0]), back[0].edits)
            + Patched(result, End(back[0]), back[1..])
  {
    HeadDecides(result, at, back);
  }

  lemma SameParts<T>(gap: seq<T>, a: seq<T>, b: seq<T>, c: seq<T>, d: seq<T>)
    requires |a| == |b|
    ensures gap + a + c == gap + b + d <==> a == b && c == d
  {
    var x, y := gap + a + c, gap + b + d;
    assert x[|gap|..][..|a|] == a && y[|gap|..][..|a|] == b;
    assert x[|gap| + |a|..] == c && y[|gap| + |a|..] == d;
  }

  lemma AllExactSplits(original: seq<string>, hunks: seq<Hunk>)
    requires hunks != [] && forall i :: 0 <= i < |hunks| ==> End(hunks[i]) <= |original|
    ensures forall i :: 0 <= i < |hunks| - 1 ==> End(hunks[1..][i]) <= |original|
    ensures AllExact(original, hunks)
      <==> ExactRemovals(Block(original, hunks[0]), hunks[0].edits) && AllExact(original, hunks[1..])
  {
    if ExactRemovals(Block(original, hunks[0]), hunks[0].edits) && AllExact(original, hunks[1..]) {
      forall i | 0 <= i < |hunks| ensures ExactRemovals(Block(original, hunks[i]), hunks[i].edits) {
        assert i > 0 ==> hunks[i] == hunks[1..][i - 1];
      }
    }
  }

  /** A patch that applies can always be undone by its inverse, and the original
    * comes back exactly when the removed lines were given with their newlines. */
  lemma InverseRestoresExactly(original: seq<string>, hunks: seq<Hunk>)
    requires Applicable(original, hunks)
    ensures FitFrom(original, 0, hunks)
    ensures var result := Patched(original, 0, hunks); var back := Inverse(original, 0, hunks, 0);
      Applicable(result, back) && Ordered(result, 0, back)
      && (Patched(result, 0, back) == original <==> AllExact(original, hunks))
  {
    FitFromIsApplicable(original, 0, hunks);
    var result, back := Patched(original, 0, hunks), Inverse(original, 0, hunks, 0);
    var start := 0;
    assert result[start..] == result && original[start..] == original;
    InverseFits(original, start, hunks, result, start, back);
    FitFromIsApplicable(result, start, back);
  }
}
