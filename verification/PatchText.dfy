/** The text of a unified diff: `@@ -a,b +c,d @@` headers and lines marked ' ', '-', '+'. */
module PatchText {
  import opened Wrappers
  import opened Text
  import opened UnifiedDiff

  // ---- Reading ----

  // A line number and an optional ",count"; what follows them is returned.
  function ReadRange(s: string): Option<(nat, string)> {
    var first := Digits(s);
    if first == [] then None
    else
      var rest := s[|first|..];
      if rest != [] && rest[0] == ',' && Digits(rest[1..]) != []
      then Some((Number(first), rest[1 + |Digits(rest[1..])|..]))
      else Some((Number(first), rest))
  }

  // The second range and the end of a header.
  function ReadSecond(rest: string): Option<nat> {
    if !(" +" <= rest) then None
    else
      match ReadRange(rest[2..])
      case None => None
      case Some((number, tail)) => if " @@" <= tail then Some(number) else None
  }

  // The line number of the second range, when the line is a well-formed header.
  function ReadHeader(line: string): Option<nat> {
    if !("@@ -" <= line) then None
    else
      match ReadRange(line[4..])
      case None => None
      case Some((_, rest)) => ReadSecond(rest)
  }

  function HeaderStart(line: string): nat {
    match ReadHeader(line)
    case None => 0
    case Some(number) => if number == 0 then 0 else number - 1
  }

  function ReadOp(c: char): Option<Op> {
    if c == ' ' then Some(Context) else if c == '-' then Some(Removed) else if c == '+' then Some(Added) else None
  }

  // A header starts a hunk, a marked line is an edit, every other line is passed over.
  datatype Line = Header(start: nat) | Marked(edit: Edit) | Other

  function Read(line: string): Line {
    if |line| >= 2 && line[0] == '@' && line[1] == '@' then Header(HeaderStart(line))
    else if line != [] && ReadOp(line[0]).Some? then Marked(Edit(ReadOp(line[0]).value, line[1..]))
    else Other
  }

  type Reader = string -> Line

  const READ: Reader := (line: string) => Read(line)

  function ReadAll(read: Reader, lines: seq<string>): (r: seq<Line>)
    ensures |r| == |lines|
  {
    seq(|lines|, i requires 0 <= i < |lines| => read(lines[i]))
  }

  // The edits up to the next header.
  function Edits(lines: seq<Line>): seq<Edit> {
    if lines == [] || lines[0].Header? then []
    else (if lines[0].Marked? then [lines[0].edit] else []) + Edits(lines[1..])
  }

  // One hunk for every header line, with the edits that follow it.
  function Hunks(lines: seq<Line>): seq<Hunk> {
    if lines == [] then []
    else (if lines[0].Header? then [Hunk(lines[0].start, Edits(lines[1..]))] else []) + Hunks(lines[1..])
  }

  // The hunks to come: the one being read, closed by the next header, and those after it.
  function Coming(current: Option<Hunk>, lines: seq<Line>): seq<Hunk> {
    (match current case None => [] case Some(h) => [Hunk(h.start, h.edits + Edits(lines))]) + Hunks(lines)
  }

  // What one line does: it may finish the hunk being read, start one, or extend it.
  function After(current: Option<Hunk>, line: Line): Option<Hunk> {
    match line
    case Header(start) => Some(Hunk(start, []))
    case Other => current
    case Marked(edit) => if current.None? then None else Some(Hunk(current.value.start, current.value.edits + [edit]))
  }

  function Finished(current: Option<Hunk>, line: Line): seq<Hunk> {
    if line.Header? && current.Some? then [current.value] else []
  }

  lemma OneLine(current: Option<Hunk>, line: Line, rest: seq<Line>)
    ensures Coming(current, [line] + rest) == Finished(current, line) + Coming(After(current, line), rest)
  {
    assert ([line] + rest)[1..] == rest && [] + Edits(rest) == Edits(rest);
    if current.Some? {
      var edits := current.value.edits;
      match line {
        case Header(start) => assert edits + [] == edits;
        case Other =>
        case Marked(edit) => assert edits + ([edit] + Edits(rest)) == (edits + [edit]) + Edits(rest);
      }
    }
  }

  lemma ReadAllFrom(read: Reader, lines: seq<string>, i: nat)
    requires i < |lines|
    ensures ReadAll(read, lines[i..]) == [read(lines[i])] + ReadAll(read, lines[i + 1..])
  {
  }

  // The hunks found and those to come are the hunks of the whole.
  ghost predicate Reading(lines: seq<Line>, hunks: seq<Hunk>, current: Option<Hunk>, rest: seq<Line>) {
    hunks + Coming(current, rest) == Hunks(lines)
  }

  lemma ReadOn(lines: seq<Line>, hunks: seq<Hunk>, current: Option<Hunk>, line: Line, rest: seq<Line>)
    requires Reading(lines, hunks, current, [line] + rest)
    ensures line.Header? && current.Some? ==> Reading(lines, hunks + [current.value], After(current, line), rest)
    ensures !(line.Header? && current.Some?) ==> Reading(lines, hunks, After(current, line), rest)
  {
    OneLine(current, line, rest);
    var coming := Coming(After(current, line), rest);
    if line.Header? && current.Some? {
      assert hunks + ([current.value] + coming) == hunks + [current.value] + coming;
    } else {
      assert [] + coming == coming;
    }
  }

  method ParseHunks(read: Reader, lines: seq<string>) returns (hunks: seq<Hunk>)
    ensures hunks == Hunks(ReadAll(read, lines))
  {
    hunks := [];
    var current: Option<Hunk> := None;
    for i := 0 to |lines|
      invariant Reading(ReadAll(read, lines), hunks, current, ReadAll(read, lines[i..]))
    {
      var line := read(lines[i]);
      ReadAllFrom(read, lines, i);
      ReadOn(ReadAll(read, lines), hunks, current, line, ReadAll(read, lines[i + 1..]));
      if line.Header? {
        if current.Some? {
          hunks := hunks + [current.value];
        }
        current := Some(Hunk(line.start, []));
      } else if current.Some? && line.Marked? {
        current := Some(Hunk(current.value.start, current.value.edits + [line.edit]));
      }
    }
    if current.Some? {
      assert current.value.edits + [] == current.value.edits;
      hunks := hunks + [current.value];
    }
  }

  /** Reads a patch and applies it: refused exactly when its hunks do not fit. */
  method ApplyUnifiedDiff(original: seq<string>, patch: seq<string>) returns (r: Option<seq<string>>)
    ensures r.Some? <==> Applicable(original, Hunks(ReadAll(READ, patch)))
    ensures r.Some? <==> AllFindLines(original, Hunks(ReadAll(READ, patch)))
    ensures r.Some? ==>
      Ordered(original, 0, Hunks(ReadAll(READ, patch))) && r.value == Patched(original, 0, Hunks(ReadAll(READ, patch)))
  {
    var hunks := ParseHunks(READ, patch);
    r := ApplyHunks(original, hunks);
  }

  // ---- Which lines are read as what ----

  ghost predicate AllDigits(s: string) {
    s != [] && forall c :: c in s ==> '0' <= c <= '9'
  }

  // Digits, or digits, a comma and digits.
  ghost predicate IsRange(r: string, number: string) {
    AllDigits(number) && number <= r && (r == number || (r[|number|] == ',' && AllDigits(r[|number| + 1..])))
  }

  // The line begins with @@ -a +b @@ for these two ranges, the second of which has this number.
  ghost predicate HasRanges(line: string, a: string, b: string, first: string, number: string) {
    IsRange(a, first) && IsRange(b, number) && "@@ -" + (a + (" +" + (b + " @@"))) <= line
  }

  ghost predicate IsHeader(line: string, number: string) {
    exists a, b, first :: HasRanges(line, a, b, first, number)
  }

  lemma RangeIsRead(r: string, number: string, rest: string)
    requires IsRange(r, number) && rest != [] && rest[0] == ' '
    ensures ReadRange(r + rest) == Some((Number(number), rest))
  {
    if r == number {
      DigitsOf(number, rest);
      assert (number + rest)[|number|..] == rest;
    } else {
      var n := r[|number| + 1..];
      var tail := "," + (n + rest);
      assert r == number + "," + n;
      assert r + rest == number + tail;
      DigitsOf(number, tail);
      DigitsOf(n, rest);
      assert (number + tail)[|number|..] == tail && tail[1..] == n + rest;
      assert tail[1 + |n|..] == rest;
    }
  }

  lemma RangeIsThere(s: string) returns (r: string, number: string)
    requires ReadRange(s).Some?
    ensures IsRange(r, number) && s == r + ReadRange(s).value.1 && Number(number) == ReadRange(s).value.0
  {
    number := Digits(s);
    var rest := s[|number|..];
    var n := if rest != [] then Digits(rest[1..]) else [];
    if rest != [] && rest[0] == ',' && n != [] {
      r := number + "," + n;
      assert rest == "," + n + rest[1 + |n|..];
      assert s == number + rest;
      assert r[|number| + 1..] == n;
    } else {
      r := number;
    }
  }

  /** A line announces a hunk by number exactly when it has the form of a header, and then
    * by the number of its second range. */
  lemma HeadersAreRecognisedExactly(line: string, number: string)
    ensures IsHeader(line, number) ==> ReadHeader(line) == Some(Number(number))
    ensures ReadHeader(line).Some? ==> exists n :: IsHeader(line, n)
  {
    if a, b, first :| HasRanges(line, a, b, first, number) {
      RangesAreRead(line, a, b, first, number);
    }
    if ReadHeader(line).Some? {
      var n := HeaderIsThere(line);
    }
  }

  lemma RangesAreRead(line: string, a: string, b: string, first: string, number: string)
    requires HasRanges(line, a, b, first, number)
    ensures ReadHeader(line) == Some(Number(number))
  {
    var head := "@@ -" + (a + (" +" + (b + " @@")));
    var tail := line[|head|..];
    var last := " @@" + tail;
    var second := " +" + (b + last);
    assert line == head + tail;
    assert line == "@@ -" + (a + second);
    Dropped("@@ -", a + second);
    RangeIsRead(a, first, second);
    Dropped(" +", b + last);
    RangeIsRead(b, number, last);
  }

  lemma SecondIsThere(rest: string) returns (b: string, number: string, tail: string)
    requires ReadSecond(rest).Some?
    ensures IsRange(b, number) && rest == " +" + (b + (" @@" + tail))
  {
    b, number := RangeIsThere(rest[2..]);
    var last := ReadRange(rest[2..]).value.1;
    tail := last[3..];
    assert last == " @@" + tail;
    assert rest == " +" + rest[2..];
  }

  lemma HeaderIsThere(line: string) returns (number: string)
    requires ReadHeader(line).Some?
    ensures IsHeader(line, number)
  {
    var a, first := RangeIsThere(line[4..]);
    var rest := ReadRange(line[4..]).value.1;
    var b, n, tail := SecondIsThere(rest);
    number := n;
    assert line == "@@ -" + (a + (" +" + (b + (" @@" + tail))));
    Regrouped(line, a, b, tail);
    assert HasRanges(line, a, b, first, number);
  }

  lemma Regrouped(line: string, a: string, b: string, tail: string)
    requires line == "@@ -" + (a + (" +" + (b + (" @@" + tail))))
    ensures "@@ -" + (a + (" +" + (b + " @@"))) <= line
  {
    assert line == "@@ -" + (a + (" +" + (b + " @@"))) + tail;
  }

  /** Lines that begin with @@ start a hunk, those that begin with a blank, a minus or a
    * plus are edits of that kind, and all others are passed over. */
  lemma LinesAreReadByTheirMark(line: string)
    ensures Read(line).Header? <==> "@@" <= line
    ensures Read(line).Header? ==>
      forall number :: IsHeader(line, number) ==>
        Read(line).start == if Number(number) == 0 then 0 else Number(number) - 1
    ensures Read(line).Header? && (forall number :: !IsHeader(line, number)) ==> Read(line).start == 0
    ensures Read(line).Marked? <==> line != [] && line[0] in " -+"
    ensures Read(line).Marked? ==>
      Read(line).edit.content == line[1..]
      && Read(line).edit.op == if line[0] == ' ' then Context else if line[0] == '-' then Removed else Added
  {
    forall number | IsHeader(line, number) ensures ReadHeader(line) == Some(Number(number)) {
      HeadersAreRecognisedExactly(line, number);
    }
    HeadersAreRecognisedExactly(line, "");
  }

  // The edits among these lines.
  function MarkedOf(lines: seq<Line>): seq<Edit> {
    if lines == [] then []
    else (if lines[0].Marked? then [lines[0].edit] else []) + MarkedOf(lines[1..])
  }

  lemma {:induction false} EditsUpTo(lines: seq<Line>, n: nat)
    requires n <= |lines| && forall i :: 0 <= i < n ==> !lines[i].Header?
    requires n < |lines| ==> lines[n].Header?
    ensures Edits(lines) == MarkedOf(lines[..n])
    decreases |lines|
  {
    if n > 0 {
      EditsUpTo(lines[1..], n - 1);
      assert lines[..n][1..] == lines[1..][..n - 1];
    }
  }

  // These are the places of the headers, in order.
  ghost predicate HeadersAt(lines: seq<Line>, at: seq<nat>) {
    (forall j, k :: 0 <= j < k < |at| ==> at[j] < at[k])
    && (forall k :: 0 <= k < |at| ==> at[k] < |lines|)
    && forall i :: 0 <= i < |lines| ==> (lines[i].Header? <==> i in at)
  }

  lemma {:induction false} HeaderPlaces(lines: seq<Line>) returns (at: seq<nat>)
    ensures HeadersAt(lines, at)
  {
    at := [];
    if lines != [] {
      var n := |lines| - 1;
      at := HeaderPlaces(lines[..n]);
      at := at + if lines[n].Header? then [n] else [];
    }
  }

  // Where the lines of the k-th hunk end.
  function EndOf(lines: seq<Line>, at: seq<nat>, k: nat): nat
    requires k < |at|
  {
    if k + 1 < |at| then at[k + 1] else |lines|
  }

  // The hunk is that of the k-th header.
  ghost predicate HoldsAt(lines: seq<Line>, at: seq<nat>, k: nat, h: Hunk)
    requires k < |at|
  {
    at[k] < EndOf(lines, at, k) <= |lines| && lines[at[k]].Header?
    && h == Hunk(lines[at[k]].start, MarkedOf(lines[at[k] + 1..EndOf(lines, at, k)]))
  }

  /** There is one hunk for each header; it begins where that says and holds the edits up
    * to the next header, whatever lines are between them. */
  lemma {:induction false} HunksAreGroupedByHeaders(lines: seq<Line>, at: seq<nat>)
    requires HeadersAt(lines, at)
    ensures |Hunks(lines)| == |at|
    ensures forall k: nat :: k < |at| ==> HoldsAt(lines, at, k, Hunks(lines)[k])
    decreases |lines|
  {
    assert at != [] ==> at[0] < |lines|;
    if lines != [] {
      var later := Moved(lines, at);
      HunksAreGroupedByHeaders(lines[1..], later);
      if lines[0].Header? {
        FirstHunkHolds(lines, at);
      }
      var d := if lines[0].Header? then 1 else 0;
      forall k: nat | k < |at| ensures HoldsAt(lines, at, k, Hunks(lines)[k]) {
        if k >= d {
          assert Hunks(lines)[k] == Hunks(lines[1..])[k - d];
          HoldsLater(lines, at, later, d, k, Hunks(lines)[k]);
        }
      }
    }
  }

  lemma HoldsLater(lines: seq<Line>, at: seq<nat>, later: seq<nat>, d: nat, k: nat, h: Hunk)
    requires lines != [] && d <= k < |at| && |later| == |at| - d
    requires forall j :: 0 <= j < |later| ==> later[j] + 1 == at[j + d]
    requires HoldsAt(lines[1..], later, k - d, h)
    ensures HoldsAt(lines, at, k, h)
  {
    var end := EndOf(lines[1..], later, k - d);
    assert EndOf(lines, at, k) == end + 1;
    assert lines[1..][later[k - d] + 1..end] == lines[at[k] + 1..end + 1];
  }

  // The places of the headers after the first line.
  lemma Moved(lines: seq<Line>, at: seq<nat>) returns (later: seq<nat>)
    requires lines != [] && HeadersAt(lines, at)
    ensures HeadersAt(lines[1..], later) && (lines[0].Header? <==> at != [] && at[0] == 0)
    ensures var d := if lines[0].Header? then 1 else 0;
      |later| == |at| - d && forall j :: 0 <= j < |later| ==> later[j] + 1 == at[j + d]
  {
    var d := if lines[0].Header? then 1 else 0;
    if lines[0].Header? {
      var k :| 0 <= k < |at| && at[k] == 0;
    } else if at != [] {
      assert at[0] in at;
    }
    forall j | d <= j < |at| ensures at[j] > 0 {
      assert at[j] in at;
      assert j > 0 ==> at[0] < at[j];
    }
    later := seq(|at| - d, j requires 0 <= j < |at| - d => at[j + d] - 1);
    forall i | 0 <= i < |lines| - 1 ensures lines[1..][i].Header? <==> i in later {
      if i + 1 in at {
        var k :| 0 <= k < |at| && at[k] == i + 1;
        assert later[k - d] == i;
      }
      if i in later {
        var j :| 0 <= j < |later| && later[j] == i;
        assert at[j + d] == i + 1;
      }
    }
  }

  lemma FirstHunkHolds(lines: seq<Line>, at: seq<nat>)
    requires lines != [] && lines[0].Header? && HeadersAt(lines, at) && at != [] && at[0] == 0
    ensures Hunks(lines) != [] && HoldsAt(lines, at, 0, Hunks(lines)[0])
  {
    var end := EndOf(lines, at, 0);
    forall i | 1 <= i < end ensures !lines[i].Header? {
      assert forall k :: 0 <= k < |at| ==> at[k] == 0 || at[k] >= end;
    }
    if end < |lines| {
      assert at[1] in at;
    }
    EditsUpTo(lines[1..], end - 1);
    assert lines[1..][..end - 1] == lines[1..end];
  }

  // ---- Writing ----

  // A range of size lines; first is the number of lines before it.
  function PrintRange(first: nat, size: nat): string {
    var number := if size == 0 then first else first + 1;
    if size == 1 then Decimal(number) else Decimal(number) + "," + Decimal(size)
  }

  function PrintHeader(oldFirst: nat, oldSize: nat, newFirst: nat, newSize: nat): string {
    "@@ -" + (PrintRange(oldFirst, oldSize) + (" +" + (PrintRange(newFirst, newSize) + " @@\n")))
  }

  function Mark(op: Op): char {
    match op case Context => ' ' case Removed => '-' case Added => '+'
  }

  function PrintEdits(edits: seq<Edit>): seq<string> {
    if edits == [] then [] else [[Mark(edits[0].op)] + edits[0].content] + PrintEdits(edits[1..])
  }

  function NewFirst(h: Hunk, moved: int): nat {
    if h.start + moved >= 0 then h.start + moved else 0
  }

  function HeaderOf(h: Hunk, moved: int): string {
    PrintHeader(h.start, |Consumed(h.edits)|, NewFirst(h, moved), NewSize(h.edits))
  }

  /** A unified diff as the standard writes it: the first range counts lines of the
    * old file, the second lines of the new one, which the hunks before have moved. */
  function Print(header: Headers, hunks: seq<Hunk>, moved: int): seq<string> {
    if hunks == [] then []
    else
      [header(hunks[0], moved)] + PrintEdits(hunks[0].edits) + Print(header, hunks[1..], moved + Net(hunks[0].edits))
  }

  type Headers = (Hunk, int) -> string

  // The headers of the standard, for a hunk and how far it has been moved.
  const STANDARD: Headers := (h: Hunk, moved: int) => HeaderOf(h, moved)

  function NewSize(edits: seq<Edit>): (size: nat)
    ensures size == |Consumed(edits)| + Net(edits)
  {
    if edits == [] then 0
    else NewSize(edits[..|edits| - 1]) + if edits[|edits| - 1].op == Removed then 0 else 1
  }

  // ---- Reading what was written ----

  lemma RangeReadsBack(first: nat, size: nat, rest: string)
    requires rest != [] && rest[0] == ' '
    ensures ReadRange(PrintRange(first, size) + rest) == Some((if size == 0 then first else first + 1, rest))
  {
    var number := if size == 0 then first else first + 1;
    var d := Decimal(number);
    NumberOfDecimal(number);
    if size == 1 {
      DigitsOf(d, rest);
      assert (d + rest)[|d|..] == rest;
    } else {
      var n := Decimal(size);
      var tail := "," + (n + rest);
      assert PrintRange(first, size) + rest == d + tail;
      DigitsOf(d, tail);
      DigitsOf(n, rest);
      assert (d + tail)[|d|..] == tail && tail[1..] == n + rest;
      assert tail[1 + |n|..] == rest;
    }
  }

  lemma Dropped(a: string, b: string)
    ensures a <= a + b && (a + b)[|a|..] == b
  {
  }

  lemma SecondReadsBack(first: nat, size: nat, tail: string)
    requires " @@" <= tail
    ensures ReadSecond(" +" + (PrintRange(first, size) + tail)) == Some(if size == 0 then first else first + 1)
  {
    Dropped(" +", PrintRange(first, size) + tail);
    RangeReadsBack(first, size, tail);
  }

  lemma HeaderReadsBack(oldFirst: nat, oldSize: nat, newFirst: nat, newSize: nat)
    ensures ReadHeader(PrintHeader(oldFirst, oldSize, newFirst, newSize))
         == Some(if newSize == 0 then newFirst else newFirst + 1)
  {
    var tail := " @@\n";
    SecondReadsBack(newFirst, newSize, tail);
    FirstReadsBack(oldFirst, oldSize, " +" + (PrintRange(newFirst, newSize) + tail));
  }

  lemma FirstReadsBack(first: nat, size: nat, rest: string)
    requires " +" <= rest
    ensures ReadHeader("@@ -" + (PrintRange(first, size) + rest)) == ReadSecond(rest)
  {
    Dropped("@@ -", PrintRange(first, size) + rest);
    RangeReadsBack(first, size, rest);
  }

  // The start the code gives a hunk that a standard diff has moved.
  function ReadStart(h: Hunk, moved: int): nat {
    if NewSize(h.edits) > 0 || NewFirst(h, moved) == 0 then NewFirst(h, moved) else NewFirst(h, moved) - 1
  }

  function AsRead(hunks: seq<Hunk>, moved: int): seq<Hunk> {
    if hunks == [] then []
    else [Hunk(ReadStart(hunks[0], moved), hunks[0].edits)] + AsRead(hunks[1..], moved + Net(hunks[0].edits))
  }

  function MarkedLines(edits: seq<Edit>): seq<Line> {
    if edits == [] then [] else [Marked(edits[0])] + MarkedLines(edits[1..])
  }

  // The lines of a printed diff, as the code reads them.
  function LinesRead(hunks: seq<Hunk>, moved: int): seq<Line> {
    if hunks == [] then []
    else
      [Header(ReadStart(hunks[0], moved))] + MarkedLines(hunks[0].edits)
      + LinesRead(hunks[1..], moved + Net(hunks[0].edits))
  }

  // Every header is read as the start of its hunk, every marked line as its edit.
  ghost predicate Announces(read: Reader, header: Headers) {
    (forall h, moved :: read(header(h, moved)) == Header(ReadStart(h, moved)))
    && forall edit: Edit :: read([Mark(edit.op)] + edit.content) == Marked(edit)
  }

  lemma EditIsRead(edit: Edit)
    ensures Read([Mark(edit.op)] + edit.content) == Marked(edit)
  {
    assert ([Mark(edit.op)] + edit.content)[1..] == edit.content;
  }

  lemma {:induction false} EditsAreRead(read: Reader, header: Headers, edits: seq<Edit>)
    requires Announces(read, header)
    ensures ReadAll(read, PrintEdits(edits)) == MarkedLines(edits)
  {
    if edits != [] {
      EditsAreRead(read, header, edits[1..]);
      ReadAllFrom(read, PrintEdits(edits), 0);
      assert PrintEdits(edits)[1..] == PrintEdits(edits[1..]) && PrintEdits(edits)[0..] == PrintEdits(edits);
    }
  }

  lemma {:induction false} LinesAreRead(read: Reader, header: Headers, hunks: seq<Hunk>, moved: int)
    requires Announces(read, header)
    ensures ReadAll(read, Print(header, hunks, moved)) == LinesRead(hunks, moved)
    decreases |hunks|
  {
    if hunks != [] {
      var h, next := hunks[0], moved + Net(hunks[0].edits);
      var rest, lines := Print(header, hunks[1..], next), LinesRead(hunks[1..], next);
      assert ReadAll(read, rest) == lines by { LinesAreRead(read, header, hunks[1..], next); }
      assert ReadAll(read, [header(h, moved)] + PrintEdits(h.edits) + rest)
          == [Header(ReadStart(h, moved))] + MarkedLines(h.edits) + lines by {
        HunkIsRead(read, header, h, moved, rest, lines);
      }
    }
  }

  lemma HunkIsRead(read: Reader, header: Headers, h: Hunk, moved: int, rest: seq<string>, lines: seq<Line>)
    requires Announces(read, header) && ReadAll(read, rest) == lines
    ensures ReadAll(read, [header(h, moved)] + PrintEdits(h.edits) + rest)
         == [Header(ReadStart(h, moved))] + MarkedLines(h.edits) + lines
  {
    EditsAreRead(read, header, h.edits);
    ReadAllParts(read, header(h, moved), PrintEdits(h.edits), rest);
  }

  lemma ReadAllParts(read: Reader, first: string, middle: seq<string>, rest: seq<string>)
    ensures ReadAll(read, [first] + middle + rest) == [read(first)] + ReadAll(read, middle) + ReadAll(read, rest)
  {
  }

  lemma HeaderIsRead(h: Hunk, moved: int)
    ensures Read(HeaderOf(h, moved)) == Header(ReadStart(h, moved))
  {
    StartReadsBack(h.start, |Consumed(h.edits)|, NewFirst(h, moved), NewSize(h.edits));
  }

  lemma StartReadsBack(oldFirst: nat, oldSize: nat, newFirst: nat, newSize: nat)
    ensures Read(PrintHeader(oldFirst, oldSize, newFirst, newSize))
         == Header(if newSize > 0 || newFirst == 0 then newFirst else newFirst - 1)
  {
    HeaderReadsBack(oldFirst, oldSize, newFirst, newSize);
    StartOfHeader(PrintHeader(oldFirst, oldSize, newFirst, newSize), if newSize == 0 then newFirst else newFirst + 1);
  }

  lemma StartOfHeader(line: string, number: nat)
    requires ReadHeader(line) == Some(number)
    ensures Read(line) == Header(if number == 0 then 0 else number - 1)
  {
  }

  lemma MarkedFirst(edit: Edit, lines: seq<Line>)
    ensures Edits([Marked(edit)] + lines) == [edit] + Edits(lines) && Hunks([Marked(edit)] + lines) == Hunks(lines)
  {
    assert ([Marked(edit)] + lines)[1..] == lines;
  }

  lemma {:induction false} EditsGroup(edits: seq<Edit>, rest: seq<Line>)
    requires rest == [] || rest[0].Header?
    ensures Edits(MarkedLines(edits) + rest) == edits && Hunks(MarkedLines(edits) + rest) == Hunks(rest)
  {
    if edits == [] {
      assert MarkedLines(edits) + rest == rest;
    } else {
      EditsGroup(edits[1..], rest);
      MarkedFirst(edits[0], MarkedLines(edits[1..]) + rest);
      assert MarkedLines(edits) + rest == [Marked(edits[0])] + (MarkedLines(edits[1..]) + rest);
    }
  }

  lemma {:induction false} LinesGroup(hunks: seq<Hunk>, moved: int)
    ensures Hunks(LinesRead(hunks, moved)) == AsRead(hunks, moved)
    decreases |hunks|
  {
    if hunks != [] {
      var h, rest := hunks[0], LinesRead(hunks[1..], moved + Net(hunks[0].edits));
      LinesGroup(hunks[1..], moved + Net(h.edits));
      HunkGroups(ReadStart(h, moved), h.edits, rest);
    }
  }

  lemma HunkGroups(start: nat, edits: seq<Edit>, rest: seq<Line>)
    requires rest == [] || rest[0].Header?
    ensures Hunks([Header(start)] + MarkedLines(edits) + rest) == [Hunk(start, edits)] + Hunks(rest)
  {
    EditsGroup(edits, rest);
    ConsTwo(Header(start), MarkedLines(edits), rest);
    HeaderFirst(start, MarkedLines(edits) + rest);
  }

  lemma HeaderFirst(start: nat, lines: seq<Line>)
    ensures Hunks([Header(start)] + lines) == [Hunk(start, Edits(lines))] + Hunks(lines)
  {
    assert ([Header(start)] + lines)[1..] == lines;
  }

  lemma ConsTwo<T>(x: T, a: seq<T>, b: seq<T>)
    ensures [x] + a + b == [x] + (a + b)
  {
  }

  /** Reading a standard unified diff gives its hunks, edit for edit and newline for
    * newline; only the starts are those of the new file. */
  lemma PrintedPatchReadsBack(hunks: seq<Hunk>, moved: int)
    ensures Hunks(ReadAll(READ, Print(STANDARD, hunks, moved))) == AsRead(hunks, moved)
  {
    forall h, m ensures READ(STANDARD(h, m)) == Header(ReadStart(h, m)) {
      HeaderIsRead(h, m);
    }
    forall edit: Edit ensures READ([Mark(edit.op)] + edit.content) == Marked(edit) {
      EditIsRead(edit);
    }
    LinesAreRead(READ, STANDARD, hunks, moved);
    LinesGroup(hunks, moved);
  }

  lemma MovedDiffReadExactlyInPlace(hunks: seq<Hunk>, moved: int)
    requires forall i :: 0 <= i < |hunks| ==> NewPlace(hunks, moved, i) >= 0
    ensures Hunks(ReadAll(READ, Print(STANDARD, hunks, moved))) == hunks <==> AllInPlace(hunks, moved)
  {
    PrintedPatchReadsBack(hunks, moved);
    AsReadLength(hunks, moved);
    forall i | 0 <= i < |hunks| ensures AsRead(hunks, moved)[i] == hunks[i] <==> InPlace(hunks, moved, i) {
      ReadAt(hunks, moved, i);
    }
    Pointwise(hunks, AsRead(hunks, moved), moved);
  }

  // The hunks of a file have places in the new file.
  lemma OrderedHunksHavePlaces(original: seq<string>, hunks: seq<Hunk>, i: nat)
    requires Ordered(original, 0, hunks) && i < |hunks|
    ensures NewPlace(hunks, 0, i) >= 0
  {
    var result := Patched(original, 0, hunks);
    OnlyBlocksChange(original, hunks, result);
    assert Sits(original, result, hunks[i], Shift(hunks, i));
  }

  /** The code takes the second range for an index into the old file. Of the hunks of any
    * file it reads those that were meant exactly when no hunk is moved by those before it
    * -- or, for a hunk that leaves nothing, when the two off-by-ones cancel. */
  lemma StandardDiffReadExactlyWhenNothingMoves(original: seq<string>, hunks: seq<Hunk>)
    requires Ordered(original, 0, hunks)
    ensures Hunks(ReadAll(READ, Print(STANDARD, hunks, 0))) == hunks <==> AllInPlace(hunks, 0)
  {
    forall i | 0 <= i < |hunks| ensures NewPlace(hunks, 0, i) >= 0 {
      OrderedHunksHavePlaces(original, hunks, i);
    }
    MovedDiffReadExactlyInPlace(hunks, 0);
  }

  predicate AllInPlace(hunks: seq<Hunk>, moved: int) {
    forall i :: 0 <= i < |hunks| ==> InPlace(hunks, moved, i)
  }

  lemma ReadAt(hunks: seq<Hunk>, moved: int, i: nat)
    requires i < |hunks| && NewPlace(hunks, moved, i) >= 0
    ensures |AsRead(hunks, moved)| == |hunks|
    ensures AsRead(hunks, moved)[i] == hunks[i] <==> InPlace(hunks, moved, i)
  {
    AsReadAt(hunks, moved, i);
    InPlaceOne(hunks[i], moved + Shift(hunks, i));
  }

  // Where hunk i starts in the new file.
  function NewPlace(hunks: seq<Hunk>, moved: int, i: nat): int
    requires i < |hunks|
  {
    hunks[i].start + moved + Shift(hunks, i)
  }

  predicate InPlace(hunks: seq<Hunk>, moved: int, i: nat)
    requires i < |hunks|
  {
    ReadInPlace(hunks[i], moved + Shift(hunks, i))
  }

  lemma Pointwise(hunks: seq<Hunk>, r: seq<Hunk>, moved: int)
    requires |r| == |hunks| && forall i :: 0 <= i < |hunks| ==> (r[i] == hunks[i] <==> InPlace(hunks, moved, i))
    ensures r == hunks <==> AllInPlace(hunks, moved)
  {
  }

  lemma InPlaceOne(h: Hunk, moved: int)
    requires h.start + moved >= 0
    ensures Hunk(ReadStart(h, moved), h.edits) == h <==> ReadInPlace(h, moved)
  {
  }

  predicate ReadInPlace(h: Hunk, moved: int) {
    if NewSize(h.edits) > 0 then moved == 0 else moved == 1 || (h.start == 0 && moved == 0)
  }

  lemma {:induction false} AsReadAt(hunks: seq<Hunk>, moved: int, i: nat)
    requires i < |hunks|
    ensures |AsRead(hunks, moved)| == |hunks|
    ensures AsRead(hunks, moved)[i] == Hunk(ReadStart(hunks[i], moved + Shift(hunks, i)), hunks[i].edits)
    decreases |hunks|
  {
    AsReadLength(hunks, moved);
    if i > 0 {
      AsReadAt(hunks[1..], moved + Net(hunks[0].edits), i - 1);
    }
  }

  lemma {:induction false} AsReadLength(hunks: seq<Hunk>, moved: int)
    ensures |AsRead(hunks, moved)| == |hunks|
    decreases |hunks|
  {
    if hunks != [] {
      AsReadLength(hunks[1..], moved + Net(hunks[0].edits));
    }
  }

  // A diff that fits its file and is refused all the same.
  lemma MovedHunkIsRefused(x: string, a: string, b: string, y: string)
    ensures var original := [a, b];
      var hunks := [Hunk(0, [Edit(Added, x), Edit(Context, a)]), Hunk(1, [Edit(Context, b), Edit(Added, y)])];
      Applicable(original, hunks) && !Applicable(original, Hunks(ReadAll(READ, Print(STANDARD, hunks, 0))))
  {
    var e0, e1 := [Edit(Added, x), Edit(Context, a)], [Edit(Context, b), Edit(Added, y)];
    var hunks := [Hunk(0, e0), Hunk(1, e1)];
    var original := [a, b];
    TwoEdits(Edit(Added, x), Edit(Context, a));
    TwoEdits(Edit(Context, b), Edit(Added, y));
    assert original[0..1] == [a] && original[1..2] == [b];
    assert Applicable(original, hunks);
    PrintedPatchReadsBack(hunks, 0);
    SecondIsMoved(hunks, 0);
    assert !HunkFits(original, AsRead(hunks, 0)[1]);
  }

  /** A diff that fits its file and is applied in the wrong place: the line meant for between
    * the second and the third is added at the end. */
  lemma MovedHunkLandsElsewhere(x: string, a: string, y: string)
    requires y != a
    ensures var original := [a, a, a];
      var hunks := [Hunk(0, [Edit(Added, x), Edit(Context, a)]), Hunk(1, [Edit(Context, a), Edit(Added, y)])];
      var read := Hunks(ReadAll(READ, Print(STANDARD, hunks, 0)));
      Applicable(original, hunks) && Ordered(original, 0, hunks) && Patched(original, 0, hunks) == [x, a, a, y, a]
      && Applicable(original, read) && Ordered(original, 0, read) && Patched(original, 0, read) == [x, a, a, a, y]
      && Patched(original, 0, read) != Patched(original, 0, hunks)
  {
    var e0, e1 := [Edit(Added, x), Edit(Context, a)], [Edit(Context, a), Edit(Added, y)];
    var hunks := [Hunk(0, e0), Hunk(1, e1)];
    assert Hunks(ReadAll(READ, Print(STANDARD, hunks, 0))) == [Hunk(0, e0), Hunk(2, e1)] by {
      AddedBefore(x, a);
      AddedBehind(a, y);
      PrintedPatchReadsBack(hunks, 0);
      SecondIsMoved(hunks, 0);
    }
    AddedAt(x, a, y, 1);
    AddedAt(x, a, y, 2);
    assert [x, a, a, y, a][3] != [x, a, a, a, y][3];
  }

  lemma AddedAt(x: string, a: string, y: string, start: nat)
    requires start == 1 || start == 2
    ensures var original := [a, a, a];
      var hunks := [Hunk(0, [Edit(Added, x), Edit(Context, a)]), Hunk(start, [Edit(Context, a), Edit(Added, y)])];
      Applicable(original, hunks) && Ordered(original, 0, hunks)
      && Patched(original, 0, hunks) == if start == 1 then [x, a, a, y, a] else [x, a, a, a, y]
  {
    var o, e0, e1 := [a, a, a], [Edit(Added, x), Edit(Context, a)], [Edit(Context, a), Edit(Added, y)];
    AddedBefore(x, a);
    AddedBehind(a, y);
    TwoHunks(o, start, e0, e1, a);
    assert Patched(o, 0, [Hunk(0, e0), Hunk(start, e1)]) == [x, a] + (o[1..start] + [a, y] + o[start + 1..]);
    LinesTogether(x, a, y, start);
  }

  lemma LinesTogether(x: string, a: string, y: string, start: nat)
    requires start == 1 || start == 2
    ensures var o := [a, a, a];
      [x, a] + (o[1..start] + [a, y] + o[start + 1..]) == if start == 1 then [x, a, a, y, a] else [x, a, a, a, y]
  {
  }

  lemma AddedBefore(x: string, a: string)
    ensures var edits := [Edit(Added, x), Edit(Context, a)];
      Consumed(edits) == [a] && Net(edits) == 1 && Replacement([a], edits) == [x, a]
  {
    var edits := [Edit(Added, x), Edit(Context, a)];
    TwoEdits(Edit(Added, x), Edit(Context, a));
    assert edits[..1] == [Edit(Added, x)] && [a][..0] == [];
    assert Replacement([], edits[..1]) == [x];
  }

  lemma AddedBehind(a: string, y: string)
    ensures var edits := [Edit(Context, a), Edit(Added, y)];
      Consumed(edits) == [a] && Net(edits) == 1 && Replacement([a], edits) == [a, y]
  {
    var edits := [Edit(Context, a), Edit(Added, y)];
    TwoEdits(Edit(Context, a), Edit(Added, y));
    assert edits[..1] == [Edit(Context, a)] && [a][..0] == [];
    assert Replacement([a], edits[..1]) == [a];
  }

  // Two hunks that each consume one such line, the first at the top.
  lemma TwoHunks(original: seq<string>, start: nat, e0: seq<Edit>, e1: seq<Edit>, a: string)
    requires 1 <= start < |original| && original[0] == a && original[start] == a
    requires Consumed(e0) == [a] && Consumed(e1) == [a]
    ensures var hunks := [Hunk(0, e0), Hunk(start, e1)];
      Applicable(original, hunks) && Ordered(original, 0, hunks)
      && Patched(original, 0, hunks)
         == Replacement([a], e0) + (original[1..start] + Replacement([a], e1) + original[start + 1..])
  {
    var h, g := Hunk(0, e0), Hunk(start, e1);
    FitsOneLine(original, h, a);
    FitsOneLine(original, g, a);
    LastHunk(original, 1, g);
    FirstHunk(original, h, [g]);
    assert [h] + [g] == [h, g];
  }

  lemma FitsOneLine(original: seq<string>, h: Hunk, a: string)
    requires h.start < |original| && original[h.start] == a && Consumed(h.edits) == [a]
    ensures End(h) == h.start + 1 && HunkFits(original, h) && Block(original, h) == [a]
  {
    assert original[h.start..h.start + 1] == [a];
  }

  lemma FirstHunk(original: seq<string>, h: Hunk, rest: seq<Hunk>)
    requires h.start == 0 && HunkFits(original, h) && FitFrom(original, End(h), rest)
    ensures FitFrom(original, 0, [h] + rest) && Applicable(original, [h] + rest)
    ensures Patched(original, 0, [h] + rest)
         == Replacement(Block(original, h), h.edits) + Patched(original, End(h), rest)
  {
    assert ([h] + rest)[1..] == rest;
    HeadDecides(original, 0, [h] + rest);
    FitFromIsApplicable(original, 0, [h] + rest);
    assert original[0..0] == [];
  }

  lemma LastHunk(original: seq<string>, idx: nat, g: Hunk)
    requires idx <= g.start && HunkFits(original, g)
    ensures FitFrom(original, idx, [g])
    ensures Patched(original, idx, [g])
         == original[idx..g.start] + Replacement(Block(original, g), g.edits) + original[End(g)..]
  {
    assert [g][1..] == [];
  }

  // The second hunk is read where the first has moved it.
  lemma SecondIsMoved(hunks: seq<Hunk>, moved: int)
    requires |hunks| == 2
    ensures |AsRead(hunks, moved)| == 2
    ensures AsRead(hunks, moved)[1] == Hunk(ReadStart(hunks[1], moved + Net(hunks[0].edits)), hunks[1].edits)
  {
    var next := moved + Net(hunks[0].edits);
    assert hunks[1..][0] == hunks[1] && hunks[1..][1..] == [];
    assert AsRead(hunks[1..], next) == [Hunk(ReadStart(hunks[1], next), hunks[1].edits)];
  }

  lemma TwoEdits(e: Edit, f: Edit)
    ensures Consumed([e, f]) == (if e.op == Added then [] else [e.content])
      + (if f.op == Added then [] else [f.content])
    ensures Net([e, f]) == Net([e]) + Net([f])
    ensures Net([e]) == match e.op case Added => 1 case Removed => -1 case Context => 0
  {
    assert [e, f][..1] == [e] && [e][..0] == [] && Consumed([e]) == if e.op == Added then [] else [e.content];
  }
}
