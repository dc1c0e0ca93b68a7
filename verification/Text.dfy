/** Decimal numerals as they appear in patch headers and entry ids, and the removal of
  * white space around a text. */
module Text {

  predicate IsDigit(c: char) {
    '0' <= c <= '9'
  }

  function Decimal(n: nat): (s: string)
    ensures s != [] && forall c :: c in s ==> IsDigit(c)
  {
    if n < 10 then ['0' + n as char] else Decimal(n / 10) + ['0' + (n % 10) as char]
  }

  function Value(c: char): nat
    requires IsDigit(c)
  {
    c as int - '0' as int
  }

  function Number(s: string): nat
    requires forall c :: c in s ==> IsDigit(c)
  {
    if s == [] then 0 else 10 * Number(s[..|s| - 1]) + Value(s[|s| - 1])
  }

  lemma {:induction false} NumberOfDecimal(n: nat)
    ensures Number(Decimal(n)) == n
  {
    if n < 10 {
      assert Decimal(n)[..0] == [];
    } else {
      NumberOfDecimal(n / 10);
      assert Decimal(n)[..|Decimal(n)| - 1] == Decimal(n / 10);
    }
  }

  // The longest prefix of digits.
  function Digits(s: string): (d: string)
    ensures d <= s && forall c :: c in d ==> IsDigit(c)
  {
    if s != [] && IsDigit(s[0]) then [s[0]] + Digits(s[1..]) else []
  }

  lemma {:induction false} DigitsOf(d: string, rest: string)
    requires forall c :: c in d ==> IsDigit(c)
    requires rest == [] || !IsDigit(rest[0])
    ensures Digits(d + rest) == d
  {
    if d == [] {
      assert d + rest == rest;
    } else {
      DigitsOf(d[1..], rest);
      assert (d + rest)[1..] == d[1..] + rest;
    }
  }

  // ---- White space ----

  function StripLeft(s: string): string {
    if s != [] && IsSpace(s[0]) then StripLeft(s[1..]) else s
  }

  function StripRight(s: string): string {
    if s != [] && IsSpace(s[|s| - 1]) then StripRight(s[..|s| - 1]) else s
  }

  predicate IsSpace(c: char) {
    c == ' ' || c == '\t' || c == '\n' || c == '\r'
  }

  function Strip(s: string): string {
    StripRight(StripLeft(s))
  }

  predicate Blank(s: string) {
    forall i :: 0 <= i < |s| ==> s[i] in " \t\n\r"
  }

  // No white space at either end.
  predicate Bare(t: string) {
    t != [] ==> t[0] !in " \t\n\r" && t[|t| - 1] !in " \t\n\r"
  }

  // t is s without the white space around it.
  ghost predicate Trims(s: string, t: string) {
    exists l, r :: s == l + t + r && Blank(l) && Blank(r) && Bare(t)
  }

  lemma {:induction false} LeftIsBlank(s: string) returns (l: string)
    ensures s == l + StripLeft(s) && Blank(l) && (StripLeft(s) != [] ==> StripLeft(s)[0] !in " \t\n\r")
  {
    l := [];
    if s != [] && IsSpace(s[0]) {
      var m := LeftIsBlank(s[1..]);
      l := [s[0]] + m;
    }
  }

  lemma {:induction false} RightIsBlank(s: string) returns (r: string)
    ensures s == StripRight(s) + r && Blank(r)
    ensures StripRight(s) != [] ==> StripRight(s)[|StripRight(s)| - 1] !in " \t\n\r"
  {
    r := [];
    if s != [] && IsSpace(s[|s| - 1]) {
      var init, last := s[..|s| - 1], s[|s| - 1];
      var m := RightIsBlank(init);
      r := m + [last];
      assert StripRight(s) == StripRight(init);
      assert StripRight(init) + m + [last] == StripRight(init) + (m + [last]);
      assert s == init + [last];
    }
  }

  lemma {:induction false} StripsLeft(l: string, t: string)
    requires Blank(l) && (t != [] ==> t[0] !in " \t\n\r")
    ensures StripLeft(l + t) == t
  {
    if l == [] {
      assert l + t == t;
    } else {
      StripsLeft(l[1..], t);
      assert (l + t)[1..] == l[1..] + t;
    }
  }

  lemma {:induction false} StripsRight(t: string, r: string)
    requires Blank(r) && (t != [] ==> t[|t| - 1] !in " \t\n\r")
    ensures StripRight(t + r) == t
  {
    if r == [] {
      assert t + r == t;
    } else {
      StripsRight(t, r[..|r| - 1]);
      assert (t + r)[..|t + r| - 1] == t + r[..|r| - 1];
    }
  }

  /** Strip takes away all white space around a text, and nothing else. */
  lemma StripTrims(s: string, t: string)
    ensures Trims(s, t) <==> t == Strip(s)
  {
    var l := LeftIsBlank(s);
    var r := RightIsBlank(StripLeft(s));
    var u := Strip(s);
    assert StripLeft(s) == u + r && s == l + u + r;
    assert u != [] ==> u[0] == StripLeft(s)[0];
    if m, n :| s == m + t + n && Blank(m) && Blank(n) && Bare(t) {
      TrimmedOnce(m, t, n);
    }
  }

  lemma TrimmedOnce(m: string, t: string, n: string)
    requires Blank(m) && Blank(n) && Bare(t)
    ensures Strip(m + t + n) == t
  {
    if t == [] {
      StripsLeft(m + t + n, []);
      assert m + t + n + [] == m + t + n;
    } else {
      assert m + t + n == m + (t + n) && (t + n)[0] == t[0];
      StripsLeft(m, t + n);
      StripsRight(t, n);
    }
  }
}
