/** The parts of Go's `strings` and `strconv` packages that the modelled code calls, on strings whose
    characters are runes. */
module Strings {
  import opened Wrappers

  // ---- Prefixes and searching ----------------------------------------------------------------

  function TrimPrefix(s: string, p: string): string {
    if p <= s then s[|p|..] else s
  }

  /** strings.Index: the first position where `sub` stands, or -1. */
  function Index(s: string, sub: string): (i: int)
    ensures -1 <= i <= |s| - |sub| || i == -1
    ensures i >= 0 ==> sub <= s[i..]
  {
    if sub <= s then 0
    else if s == "" then -1
    else
      var r := Index(s[1..], sub);
      if r < 0 then -1 else r + 1
  }

  /** strings.Split for a non-empty separator. */
  function Split(s: string, sep: string): (parts: seq<string>)
    requires sep != ""
    ensures parts != []
    decreases |s|
  {
    var i := Index(s, sep);
    if i < 0 then [s] else [s[..i]] + Split(s[i + |sep|..], sep)
  }

  lemma SplitFirst(a: string, sep: string, b: string)
    requires sep != "" && Index(a + (sep + b), sep) == |a|
    ensures Split(a + (sep + b), sep) == [a] + Split(b, sep)
  {
    hide Index;
    var s := a + (sep + b);
    assert s[..|a|] == a;
    assert s[|a| + |sep|..] == b;
  }

  predicate Lacks(s: string, c: char) { forall i :: 0 <= i < |s| ==> s[i] != c }

  /** A character that starts the separator but does not occur in `a` pushes the match behind `a`. */
  lemma {:induction false} IndexSkips(a: string, b: string, sub: string)
    requires sub != "" && Lacks(a, sub[0])
    ensures Index(a + b, sub) == if Index(b, sub) < 0 then -1 else |a| + Index(b, sub)
  {
    if a == "" {
      assert a + b == b;
    } else {
      assert (a + b)[1..] == a[1..] + b;
      assert (a + b)[0] == a[0];
      IndexSkips(a[1..], b, sub);
    }
  }

  // ---- White space ---------------------------------------------------------------------------

  /** unicode.IsSpace */
  predicate IsSpace(c: char) {
    c == '\t' || c == '\n' || c == '\U{0B}' || c == '\U{0C}' || c == '\r' || c == ' ' || c == '\U{85}' ||
    c == '\U{A0}' || c == '\U{1680}' || '\U{2000}' <= c <= '\U{200A}' || c == '\U{2028}' || c == '\U{2029}' ||
    c == '\U{202F}' || c == '\U{205F}' || c == '\U{3000}'
  }

  predicate Blank(s: string) { forall i :: 0 <= i < |s| ==> IsSpace(s[i]) }

  function TrimLeft(s: string): string {
    if s != "" && IsSpace(s[0]) then TrimLeft(s[1..]) else s
  }

  function TrimRight(s: string): string {
    if s != "" && IsSpace(s[|s| - 1]) then TrimRight(s[..|s| - 1]) else s
  }

  function TrimSpace(s: string): string { TrimRight(TrimLeft(s)) }

  lemma {:induction false} TrimRightOfBlank(s: string)
    ensures Blank(s) ==> TrimRight(s) == ""
    ensures !Blank(s) ==> TrimRight(s) != "" && !IsSpace(TrimRight(s)[|TrimRight(s)| - 1])
    ensures TrimRight(s) <= s
  {
    if s != "" && IsSpace(s[|s| - 1]) {
      TrimRightOfBlank(s[..|s| - 1]);
      assert forall i :: 0 <= i < |s| - 1 ==> s[..|s| - 1][i] == s[i];
    }
  }

  lemma {:induction false} TrimRightConcat(a: string, b: string)
    ensures TrimRight(a + b) == if Blank(b) then TrimRight(a) else a + TrimRight(b)
    decreases |b|
  {
    if b == "" {
      assert a + b == a;
    } else {
      assert (a + b)[|a + b| - 1] == b[|b| - 1];
      if IsSpace(b[|b| - 1]) {
        assert (a + b)[..|a + b| - 1] == a + b[..|b| - 1];
        TrimRightConcat(a, b[..|b| - 1]);
        assert Blank(b) == Blank(b[..|b| - 1]);
      }
    }
  }

  /** Length of the longest prefix without white space. */
  function WordLength(s: string): (n: nat)
    ensures n <= |s| && (n < |s| ==> IsSpace(s[n]))
  {
    if s == "" || IsSpace(s[0]) then 0 else 1 + WordLength(s[1..])
  }

  /** strings.Fields */
  function Fields(s: string): seq<string>
    decreases |s|
  {
    if s == "" then []
    else if IsSpace(s[0]) then Fields(s[1..])
    else var n := WordLength(s); [s[..n]] + Fields(s[n..])
  }

  predicate NoSpace(s: string) { forall i :: 0 <= i < |s| ==> !IsSpace(s[i]) }

  lemma {:induction false} WordLengthOf(a: string, b: string)
    requires NoSpace(a) && (b == "" || IsSpace(b[0]))
    ensures WordLength(a + b) == |a|
  {
    if a == "" {
      assert a + b == b;
    } else {
      assert (a + b)[1..] == a[1..] + b;
      WordLengthOf(a[1..], b);
    }
  }

  lemma FieldsOfTwo(a: string, b: string)
    requires NoSpace(a) && NoSpace(b) && a != "" && b != ""
    ensures Fields(a + ([' '] + b)) == [a, b]
  {
    var s := a + ([' '] + b);
    WordLengthOf(a, [' '] + b);
    var tail := [' '] + b;
    assert s[..|a|] == a && s[|a|..] == tail;
    assert s[0] == a[0] && Fields(s) == [a] + Fields(tail);
    assert tail[1..] == b && Fields(tail) == Fields(b);
    assert b + "" == b;
    WordLengthOf(b, "");
    assert b[..|b|] == b && b[|b|..] == "" && Fields(b) == [b] + Fields("");
  }

  // ---- Decimal numbers -----------------------------------------------------------------------

  const MAX_INT := 0x7FFF_FFFF_FFFF_FFFF
  const MIN_INT := -0x8000_0000_0000_0000

  predicate IsDigit(c: char) { '0' <= c <= '9' }

  function DigitChar(d: nat): (c: char)
    requires d < 10
    ensures IsDigit(c) && c as int - '0' as int == d
  {
    (d + '0' as int) as char
  }

  /** strconv.Itoa for a natural number. */
  function Itoa(n: nat): (s: string)
    ensures s != "" && forall i :: 0 <= i < |s| ==> IsDigit(s[i])
  {
    if n < 10 then [DigitChar(n)] else Itoa(n / 10) + [DigitChar(n % 10)]
  }

  function Digits(s: string): Option<nat>
    requires s != ""
  {
    var c := s[|s| - 1];
    if !IsDigit(c) then None
    else
      var d := c as int - '0' as int;
      if |s| == 1 then Some(d)
      else match Digits(s[..|s| - 1])
        case None => None
        case Some(n) => Some(10 * n + d)
  }

  /** strconv.Atoi: an optional sign and decimal digits, within 64 bits. */
  function Atoi(s: string): Option<int> {
    var body := if s != "" && (s[0] == '+' || s[0] == '-') then s[1..] else s;
    if body == "" then None
    else match Digits(body)
      case None => None
      case Some(n) =>
        var v: int := if s[0] == '-' then 0 - n else n;
        if MIN_INT <= v <= MAX_INT then Some(v) else None
  }

  lemma {:induction false} DigitsOfItoa(n: nat)
    ensures Digits(Itoa(n)) == Some(n)
  {
    if n >= 10 {
      DigitsOfItoa(n / 10);
      assert Itoa(n)[..|Itoa(n)| - 1] == Itoa(n / 10);
    }
  }

  lemma AtoiOfItoa(n: nat)
    requires n <= MAX_INT
    ensures Atoi(Itoa(n)) == Some(n)
  {
    assert IsDigit(Itoa(n)[0]);
    DigitsOfItoa(n);
  }

  // ---- Lines ---------------------------------------------------------------------------------

  /** Lines with a line feed between them. */
  function Join(lines: seq<string>): string
    requires lines != []
  {
    if |lines| == 1 then lines[0] else lines[0] + (['\n'] + Join(lines[1..]))
  }

  predicate AreLines(lines: seq<string>) { forall i :: 0 <= i < |lines| ==> Lacks(lines[i], '\n') }

  lemma {:induction false} SplitOfJoin(lines: seq<string>)
    requires lines != [] && AreLines(lines)
    ensures Split(Join(lines), ['\n']) == lines
  {
    if |lines| == 1 {
      IndexSkips(lines[0], "", ['\n']);
      assert lines[0] + "" == lines[0];
      assert lines == [lines[0]];
    } else {
      var rest := Join(lines[1..]);
      SplitOfJoin(lines[1..]);
      assert ['\n'] <= ['\n'] + rest;
      IndexSkips(lines[0], ['\n'] + rest, ['\n']);
      SplitFirst(lines[0], ['\n'], rest);
      assert lines == [lines[0]] + lines[1..];
    }
  }

  lemma {:induction false} JoinConcat(a: seq<string>, b: seq<string>)
    requires a != [] && b != []
    ensures Join(a + b) == Join(a) + (['\n'] + Join(b))
  {
    if |a| == 1 {
      assert (a + b)[1..] == b;
    } else {
      assert (a + b)[1..] == a[1..] + b;
      JoinConcat(a[1..], b);
    }
  }
}
