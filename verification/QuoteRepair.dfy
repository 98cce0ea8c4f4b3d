/** Escaping stray quotes inside JSON string values (internal/fix/prompt.go).

    The scanner is judged against the grammar, and the repair loop against what one inserted
    backslash does to the scan.  The standard library's parser is an oracle that says whether a text
    is valid and, if not, how many bytes it had read when it met the error. */
module QuoteRepair {
  import opened QuoteScan
  import opened JsonText

  // ---- The scan looks at nothing behind its limit --------------------------------------------

  lemma {:induction false} CloseQuoteIsLocal(a: string, b: string, limit: nat, j: nat)
    requires j <= limit <= |a| && limit <= |b| && a[..limit] == b[..limit]
    ensures CloseQuote(a, limit, j) == CloseQuote(b, limit, j)
    decreases limit - j
  {
    if j < limit {
      assert a[j] == a[..limit][j] == b[..limit][j] == b[j];
      CloseQuoteIsLocal(a, b, limit, j + 1);
      if j + 1 < limit { CloseQuoteIsLocal(a, b, limit, j + 2); }
    }
  }

  lemma {:induction false} ScalarEndIsLocal(a: string, b: string, limit: nat, j: nat)
    requires j <= limit <= |a| && limit <= |b| && a[..limit] == b[..limit]
    ensures ScalarEnd(a, limit, j) == ScalarEnd(b, limit, j)
    decreases limit - j
  {
    if j < limit {
      assert a[j] == a[..limit][j] == b[..limit][j] == b[j];
      ScalarEndIsLocal(a, b, limit, j + 1);
    }
  }

  lemma StepIsLocal(a: string, b: string, limit: nat, s: Scan)
    requires s.i < limit <= |a| && limit <= |b| && a[..limit] == b[..limit]
    ensures Step(a, limit, s) == Step(b, limit, s)
  {
    assert a[s.i] == a[..limit][s.i] == b[..limit][s.i] == b[s.i];
    CloseQuoteIsLocal(a, b, limit, s.i + 1);
    ScalarEndIsLocal(a, b, limit, s.i);
  }

  lemma {:induction false} RunIsLocal(a: string, b: string, limit: nat, s: Scan)
    requires limit <= |a| && limit <= |b| && a[..limit] == b[..limit]
    ensures Run(a, limit, s) == Run(b, limit, s)
    decreases if s.i < limit then limit - s.i else 0
  {
    if s.i < limit {
      StepIsLocal(a, b, limit, s);
      RunIsLocal(a, b, limit, Step(a, limit, s));
    }
  }

  /** On every text whose first `limit` bytes begin some valid JSON text, the scanner finds the last
      string value of that JSON text that closes before `limit`, and nothing when there is none. */
  lemma ScannerMeetsGrammar(text: string, limit: nat, doc: Padded)
    requires GoodPadded(doc) && limit <= |text| && limit <= |PrintPadded(doc)|
    requires text[..limit] == PrintPadded(doc)[..limit]
    ensures LastQuote(text, limit) == LastBefore(NoQuotes, PaddedValues(doc, 0), limit)
  {
    var t := PrintPadded(doc);
    RunIsLocal(text, t, limit, START);
    assert t[0..|t|] == t;
    ReadPadded(t, limit, START, doc);
  }

  // ---- Scans that reach a certain state ------------------------------------------------------

  /** The scan that starts in `s` comes through the state `m`. */
  predicate Reaches(text: string, limit: nat, s: Scan, m: Scan)
    requires limit <= |text|
    decreases if s.i < limit then limit - s.i else 0
  {
    s == m || (s.i < limit && Reaches(text, limit, Step(text, limit, s), m))
  }

  /** The scan found its last value because it came to that value's opening quote. */
  lemma {:induction false} OpeningIsReached(text: string, limit: nat, s: Scan) returns (m: Scan)
    requires limit <= |text| && Run(text, limit, s).last != s.last
    ensures var q := Run(text, limit, s).last;
      q.Quotes? && Reaches(text, limit, s, m) && m.i == q.opening < limit && OpensValue(text, m) &&
      CloseQuote(text, limit, m.i + 1) == q.closing < limit
    decreases if s.i < limit then limit - s.i else 0
  {
    var n := Step(text, limit, s);
    if Run(text, limit, n).last != n.last {
      m := OpeningIsReached(text, limit, n);
    } else {
      m := s;
    }
  }

  predicate OpensValue(text: string, m: Scan) {
    m.i < |text| && text[m.i] == '"' && m.phase != ObjectKeyOrEnd
  }

  // ---- One inserted backslash ----------------------------------------------------------------

  function InsertBackslash(text: string, q: nat): string
    requires q <= |text|
  {
    text[..q] + ['\\'] + text[q..]
  }

  lemma {:induction false} CloseQuoteAgrees(a: string, b: string, limit: nat, limit': nat, q: nat, j: nat)
    requires j <= limit <= |a| && j <= limit' <= |b| && q < limit && q < limit' && a[..q + 1] == b[..q + 1]
    requires CloseQuote(a, limit, j) <= q
    ensures CloseQuote(b, limit', j) == CloseQuote(a, limit, j)
    decreases limit - j
  {
    assert j <= q;
    assert a[j] == a[..q + 1][j] == b[..q + 1][j] == b[j];
    if a[j] == '\\' && j + 1 < limit {
      CloseQuoteAgrees(a, b, limit, limit', q, j + 2);
    } else if a[j] != '"' {
      CloseQuoteAgrees(a, b, limit, limit', q, j + 1);
    }
  }

  lemma {:induction false} ScalarEndAgrees(a: string, b: string, limit: nat, limit': nat, q: nat, j: nat)
    requires j <= limit <= |a| && j <= limit' <= |b| && q < limit && q < limit' && a[..q + 1] == b[..q + 1]
    requires ScalarEnd(a, limit, j) <= q
    ensures ScalarEnd(b, limit', j) == ScalarEnd(a, limit, j)
    decreases limit - j
  {
    assert a[j] == a[..q + 1][j] == b[..q + 1][j] == b[j];
    if !EndsScalar(a[j]) {
      ScalarEndAgrees(a, b, limit, limit', q, j + 1);
    }
  }

  lemma ReachesForward(text: string, limit: nat, s: Scan, m: Scan)
    requires limit <= |text| && Reaches(text, limit, s, m)
    ensures s.i <= m.i
    decreases if s.i < limit then limit - s.i else 0
  {
    if s != m { ReachesForward(text, limit, Step(text, limit, s), m); }
  }

  /** A step that ends at or before `q` depends only on the text up to there. */
  lemma {:induction false} StepAgrees(a: string, b: string, limit: nat, limit': nat, q: nat, s: Scan)
    requires q < limit <= |a| && q < limit' <= |b| && a[..q + 1] == b[..q + 1]
    requires s.i <= q && Step(a, limit, s).i <= q
    ensures Step(b, limit', s) == Step(a, limit, s)
  {
    hide Punctuation, ExpectsValue, IsSpace, IsPunctuation, AfterValue;
    assert a[s.i] == a[..q + 1][s.i] == b[..q + 1][s.i] == b[s.i];
    if CloseQuote(a, limit, s.i + 1) <= q { CloseQuoteAgrees(a, b, limit, limit', q, s.i + 1); }
    if ScalarEnd(a, limit, s.i) <= q { ScalarEndAgrees(a, b, limit, limit', q, s.i); }
  }

  /** Texts that agree up to and including position `m.i`, where a quote stands, reach `m` alike. */
  lemma {:induction false} ReachesAgree(a: string, b: string, limit: nat, limit': nat, s: Scan, m: Scan)
    requires m.i < limit <= |a| && m.i < limit' <= |b| && a[..m.i + 1] == b[..m.i + 1]
    requires Reaches(a, limit, s, m) && a[m.i] == '"'
    ensures Reaches(b, limit', s, m)
    decreases if s.i < limit then limit - s.i else 0
  {
    hide Step;
    if s != m {
      var n := Step(a, limit, s);
      ReachesForward(a, limit, n, m);
      StepAgrees(a, b, limit, limit', m.i, s);
      ReachesAgree(a, b, limit, limit', n, m);
    }
  }

  lemma {:induction false} EscapedQuoteIsPassed(text: string, limit: nat, q: nat, limit': nat, j: nat)
    requires j <= q < limit <= |text| && CloseQuote(text, limit, j) == q
    requires q + 2 <= limit' <= |text| + 1
    ensures CloseQuote(InsertBackslash(text, q), limit', j) >= q + 2
    decreases q - j
  {
    var t' := InsertBackslash(text, q);
    if j == q {
      assert t'[q] == '\\';
    } else {
      assert t'[j] == text[j];
      if text[j] == '\\' && j + 1 < limit {
        EscapedQuoteIsPassed(text, limit, q, limit', j + 2);
      } else {
        EscapedQuoteIsPassed(text, limit, q, limit', j + 1);
      }
    }
  }

  /** What one repair does: the new scan, with any new limit, still comes to the same opening quote
      in the same state, but the string that opens there no longer ends at the repaired quote. */
  lemma RepairTakesEffect(text: string, limit: nat, limit': nat) returns (m: Scan)
    requires limit <= |text| && Run(text, limit, START).last.Quotes?
    requires Run(text, limit, START).last.closing + 2 <= limit' <= |text| + 1
    ensures var q := Run(text, limit, START).last.closing;
      var t' := InsertBackslash(text, q);
      && m.i < q < limit && OpensValue(text, m) && OpensValue(t', m)
      && Reaches(text, limit, START, m) && CloseQuote(text, limit, m.i + 1) == q
      && Reaches(t', limit', START, m) && CloseQuote(t', limit', m.i + 1) > q + 1
  {
    m := OpeningIsReached(text, limit, START);
    var q := Run(text, limit, START).last.closing;
    var t' := InsertBackslash(text, q);
    assert t'[..m.i + 1] == text[..m.i + 1];
    assert t'[m.i] == text[m.i];
    ReachesAgree(text, t', limit, limit', START, m);
    EscapedQuoteIsPassed(text, limit, q, limit', m.i + 1);
  }

  // ---- The repair loop -----------------------------------------------------------------------

  datatype Check = Valid | SyntaxError(offset: int) | OtherError

  const MAX_REPAIRS: nat := 16

  function RepairQuote(text: string, check: string -> Check): Quotes {
    match check(text)
    case SyntaxError(offset) => if offset - 1 <= 0 then NoQuotes else LastQuote(text, offset - 1)
    case _ => NoQuotes
  }

  function Repair(text: string, check: string -> Check, attempts: nat): string
    decreases attempts
  {
    RunKeepsBounds(text, check);
    if attempts == 0 || check(text) == Valid || RepairQuote(text, check) == NoQuotes then text
    else Repair(InsertBackslash(text, RepairQuote(text, check).closing), check, attempts - 1)
  }

  lemma RunKeepsBounds(text: string, check: string -> Check)
    ensures var q := RepairQuote(text, check); q.Quotes? ==> q.closing < |text| && text[q.closing] == '"'
  {
    match check(text)
    case SyntaxError(offset) =>
      if offset - 1 > 0 {
        RunKeepsConsistent(text, if offset - 1 > |text| then |text| else offset - 1, START);
      }
    case _ =>
  }

  /** The text before the byte at which the parser met its error, without that byte, begins `doc`. */
  ghost predicate Begins(text: string, check: string -> Check, doc: Padded) {
    && GoodPadded(doc) && check(text).SyntaxError? && check(text).offset > 1
    && var n := check(text).offset - 1;
    && n <= |text| && n <= |PrintPadded(doc)| && text[..n] == PrintPadded(doc)[..n]
  }

  /** The quote to repair closes the last string value that ends before the byte with the error. */
  lemma {:induction false} RepairMeetsGrammar(text: string, check: string -> Check, doc: Padded)
    requires Begins(text, check, doc)
    ensures RepairQuote(text, check) == LastBefore(NoQuotes, PaddedValues(doc, 0), check(text).offset - 1)
  {
    hide Run, PaddedValues, PrintPadded, GoodPadded;
    ScannerMeetsGrammar(text, check(text).offset - 1, doc);
  }

  lemma {:induction false} AllRepairsMeetGrammar(text: string, check: string -> Check)
    ensures forall doc :: Begins(text, check, doc) ==>
      RepairQuote(text, check) == LastBefore(NoQuotes, PaddedValues(doc, 0), check(text).offset - 1)
  {
    forall doc | Begins(text, check, doc)
      ensures RepairQuote(text, check) == LastBefore(NoQuotes, PaddedValues(doc, 0), check(text).offset - 1)
    {
      RepairMeetsGrammar(text, check, doc);
    }
  }

  /** And it is there that the first backslash goes; without such a value nothing is repaired. */
  lemma {:induction false} FirstRepairMeetsGrammar(text: string, check: string -> Check, doc: Padded, attempts: nat)
    requires Begins(text, check, doc) && attempts > 0
    ensures var q := LastBefore(NoQuotes, PaddedValues(doc, 0), check(text).offset - 1);
      match q
      case NoQuotes => Repair(text, check, attempts) == text
      case Quotes(_, closing) =>
        && closing < |text| && text[closing] == '"'
        && Repair(text, check, attempts) == Repair(text[..closing] + "\\" + text[closing..], check, attempts - 1)
  {
    hide PaddedValues, RepairQuote, PrintPadded;
    RepairMeetsGrammar(text, check, doc);
    RunKeepsBounds(text, check);
  }

  /** Where there is nothing to repair: a valid text, an error that is none of syntax, or one met at the
      first byte. */
  lemma {:induction false} NothingToRepair(text: string, check: string -> Check, attempts: nat)
    requires !check(text).SyntaxError? || check(text).offset <= 1
    ensures Repair(text, check, attempts) == text
  {}

  method FindRepairQuote(text: string, check: string -> Check) returns (quote: int, ok: bool)
    ensures ok == RepairQuote(text, check).Quotes?
    ensures quote == if ok then RepairQuote(text, check).closing else -1
    ensures ok ==> 0 <= quote < |text| && text[quote] == '"'
    ensures forall doc :: Begins(text, check, doc) ==>
      var q := LastBefore(NoQuotes, PaddedValues(doc, 0), check(text).offset - 1);
      ok == q.Quotes? && quote == if ok then q.closing else -1
    ensures !check(text).SyntaxError? || check(text).offset <= 1 ==> !ok
  {
    AllRepairsMeetGrammar(text, check);
    hide LastBefore, PaddedValues, Begins, LastQuote;
    match check(text) {
      case SyntaxError(offset) =>
        var limit := offset - 1;
        if limit <= 0 {
          return -1, false;
        }
        quote, ok := FindLastValueQuoteBefore(text, limit);
      case _ =>
        return -1, false;
    }
  }

  method RepairInnerQuotes(text: string, check: string -> Check) returns (repaired: string)
    ensures repaired == Repair(text, check, MAX_REPAIRS)
    ensures check(text) == Valid ==> repaired == text
    ensures ArisesByEscaping(text, repaired, 16)
    ensures check(repaired) == Valid || RepairQuote(repaired, check) == NoQuotes || |repaired| == |text| + 16
  {
    RepairOnlyEscapes(text, check, MAX_REPAIRS);
    RepairStops(text, check, MAX_REPAIRS);
    repaired := text;
    for attempt := 0 to MAX_REPAIRS
      invariant Repair(repaired, check, MAX_REPAIRS - attempt) == Repair(text, check, MAX_REPAIRS)
    {
      if check(repaired) == Valid {
        return;
      }
      var quoteIdx, ok := FindRepairQuote(repaired, check);
      if !ok {
        return;
      }
      repaired := repaired[..quoteIdx] + ['\\'] + repaired[quoteIdx..];
    }
  }

  /** `b` is `a` with at most `n` backslashes put in, one after the other, each before a quote. */
  ghost predicate ArisesByEscaping(a: string, b: string, n: nat)
    decreases n
  {
    a == b || (n > 0 && exists q: nat ::
      q < |a| && a[q] == '"' && ArisesByEscaping(InsertBackslash(a, q), b, n - 1))
  }

  lemma {:induction false} RepairOnlyEscapes(text: string, check: string -> Check, attempts: nat)
    ensures ArisesByEscaping(text, Repair(text, check, attempts), attempts)
    decreases attempts
  {
    RunKeepsBounds(text, check);
    if attempts != 0 && check(text) != Valid && RepairQuote(text, check) != NoQuotes {
      var q := RepairQuote(text, check).closing;
      RepairOnlyEscapes(InsertBackslash(text, q), check, attempts - 1);
    }
  }

  function WithoutBackslashes(s: string): string {
    if s == "" then ""
    else (if s[0] == '\\' then "" else [s[0]]) + WithoutBackslashes(s[1..])
  }

  /** Nothing but backslashes is ever added, and nothing is lost or moved. */
  lemma {:induction false} EscapingKeepsContent(a: string, b: string, n: nat)
    requires ArisesByEscaping(a, b, n)
    ensures |a| <= |b| <= |a| + n
    ensures WithoutBackslashes(b) == WithoutBackslashes(a)
    decreases n
  {
    if a != b {
      var q: nat :| q < |a| && a[q] == '"' && ArisesByEscaping(InsertBackslash(a, q), b, n - 1);
      EscapingKeepsContent(InsertBackslash(a, q), b, n - 1);
      OneBackslash(a, q);
    }
  }

  lemma {:induction false} OneBackslash(a: string, q: nat)
    requires q <= |a|
    ensures WithoutBackslashes(InsertBackslash(a, q)) == WithoutBackslashes(a)
  {
    var b := InsertBackslash(a, q);
    if q == 0 {
      assert b[1..] == a;
    } else {
      assert b[0] == a[0] && b[1..] == InsertBackslash(a[1..], q - 1);
      OneBackslash(a[1..], q - 1);
    }
  }

  /** When the loop stops early it stops for a reason: the text is valid or offers no quote. */
  lemma {:induction false} RepairStops(text: string, check: string -> Check, attempts: nat)
    ensures var r := Repair(text, check, attempts);
      check(r) == Valid || RepairQuote(r, check) == NoQuotes || |r| == |text| + attempts
    decreases attempts
  {
    RunKeepsBounds(text, check);
    if attempts != 0 && check(text) != Valid && RepairQuote(text, check) != NoQuotes {
      RepairStops(InsertBackslash(text, RepairQuote(text, check).closing), check, attempts - 1);
    }
  }
}
