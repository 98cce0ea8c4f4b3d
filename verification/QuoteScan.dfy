/** The quote scanner of internal/fix/prompt.go: a loop over a phase and a stack of open containers
    that looks for the closing quote of the last string value before a limit.

    A `char` stands for one byte of the text. */
module QuoteScan {

  datatype Phase =
    | Value
    | End
    | ObjectKeyOrEnd
    | ObjectColon
    | ObjectValue
    | ObjectCommaOrEnd
    | ArrayValueOrEnd
    | ArrayCommaOrEnd

  datatype Kind = Object | Array

  /** The quotes of a string value that was read to its end. */
  datatype Quotes = NoQuotes | Quotes(opening: nat, closing: nat)

  /** What the loop carries from one position to the next; the top of the stack comes last. */
  datatype Scan = Scan(i: nat, phase: Phase, stack: seq<Kind>, last: Quotes)

  const START := Scan(0, Value, [], NoQuotes)

  predicate IsSpace(c: char) { c == ' ' || c == '\t' || c == '\n' || c == '\r' }

  predicate EndsScalar(c: char) { IsSpace(c) || c == ',' || c == '}' || c == ']' }

  predicate ExpectsValue(p: Phase) { p == Value || p == ObjectValue || p == ArrayValueOrEnd }

  function AfterValue(stack: seq<Kind>): Phase {
    if stack == [] then End
    else if stack[|stack| - 1] == Object then ObjectCommaOrEnd
    else ArrayCommaOrEnd
  }

  predicate TopIs(stack: seq<Kind>, k: Kind) { stack != [] && stack[|stack| - 1] == k }

  // ---- The scan as a function ----------------------------------------------------------------

  /** Position of the first unescaped quote at or after `j`, or `limit` when there is none. */
  function CloseQuote(text: string, limit: nat, j: nat): (q: nat)
    requires j <= limit <= |text|
    ensures j <= q <= limit
    ensures q < limit ==> text[q] == '"'
    decreases limit - j
  {
    if j == limit then limit
    else if text[j] == '\\' && j + 1 < limit then CloseQuote(text, limit, j + 2)
    else if text[j] == '"' then j
    else CloseQuote(text, limit, j + 1)
  }

  function ScalarEnd(text: string, limit: nat, j: nat): (e: nat)
    requires j <= limit <= |text|
    ensures j <= e <= limit
    ensures e < limit ==> EndsScalar(text[e])
    ensures forall k :: j <= k < e ==> !EndsScalar(text[k])
    decreases limit - j
  {
    if j == limit || EndsScalar(text[j]) then j else ScalarEnd(text, limit, j + 1)
  }

  predicate IsPunctuation(c: char) {
    c == '{' || c == '[' || c == '}' || c == ']' || c == ':' || c == ','
  }

  function Open(s: Scan, k: Kind): Scan {
    if ExpectsValue(s.phase)
    then s.(i := s.i + 1, stack := s.stack + [k], phase := if k == Object then ObjectKeyOrEnd else ArrayValueOrEnd)
    else s.(i := s.i + 1)
  }

  function Close(s: Scan, k: Kind): Scan {
    var mayEnd := if k == Object then s.phase == ObjectKeyOrEnd || s.phase == ObjectCommaOrEnd
                  else s.phase == ArrayValueOrEnd || s.phase == ArrayCommaOrEnd;
    if TopIs(s.stack, k) && mayEnd
    then
      var rest := s.stack[..|s.stack| - 1];
      s.(i := s.i + 1, stack := rest, phase := AfterValue(rest))
    else s.(i := s.i + 1)
  }

  function Comma(s: Scan): Scan {
    if TopIs(s.stack, Object) && s.phase == ObjectCommaOrEnd then s.(i := s.i + 1, phase := ObjectKeyOrEnd)
    else if TopIs(s.stack, Array) && s.phase == ArrayCommaOrEnd then s.(i := s.i + 1, phase := ArrayValueOrEnd)
    else s.(i := s.i + 1)
  }

  function Punctuation(c: char, s: Scan): Scan
    requires IsPunctuation(c)
  {
    match c
    case '{' => Open(s, Object)
    case '[' => Open(s, Array)
    case '}' => Close(s, Object)
    case ']' => Close(s, Array)
    case ':' => s.(i := s.i + 1, phase := if s.phase == ObjectColon then ObjectValue else s.phase)
    case _ => Comma(s)
  }

  function StringToken(text: string, limit: nat, s: Scan): Scan
    requires s.i < limit <= |text|
  {
    var q := CloseQuote(text, limit, s.i + 1);
    if q == limit then s.(i := limit)
    else if s.phase == ObjectKeyOrEnd then s.(i := q + 1, phase := ObjectColon)
    else s.(i := q + 1, phase := AfterValue(s.stack), last := Quotes(s.i, q))
  }

  /** One turn of the outer loop. */
  function Step(text: string, limit: nat, s: Scan): (r: Scan)
    requires s.i < limit <= |text|
    ensures s.i < r.i <= limit
  {
    var c := text[s.i];
    if IsSpace(c) then s.(i := s.i + 1)
    else if IsPunctuation(c) then Punctuation(c, s)
    else if c == '"' then StringToken(text, limit, s)
    else if !ExpectsValue(s.phase) then s.(i := s.i + 1)
    else s.(i := ScalarEnd(text, limit, s.i), phase := AfterValue(s.stack))
  }

  function Run(text: string, limit: nat, s: Scan): Scan
    requires limit <= |text|
    decreases if s.i < limit then limit - s.i else 0
  {
    if s.i >= limit then s else Run(text, limit, Step(text, limit, s))
  }

  // ---- Phase and stack always agree ----------------------------------------------------------

  predicate Consistent(s: Scan) {
    if s.stack == [] then s.phase == Value || s.phase == End
    else if s.stack[|s.stack| - 1] == Object
    then s.phase == ObjectKeyOrEnd || s.phase == ObjectColon || s.phase == ObjectValue || s.phase == ObjectCommaOrEnd
    else s.phase == ArrayValueOrEnd || s.phase == ArrayCommaOrEnd
  }

  /** The last recorded quotes are quotes of the text, and lie behind the scan. */
  predicate LastIsBehind(text: string, s: Scan) {
    s.last.Quotes? ==>
      s.last.opening < s.last.closing < s.i && s.last.closing < |text| &&
      text[s.last.opening] == '"' && text[s.last.closing] == '"'
  }

  lemma StepKeepsConsistent(text: string, limit: nat, s: Scan)
    requires s.i < limit <= |text| && Consistent(s)
    ensures Consistent(Step(text, limit, s))
  {}

  lemma {:induction false} RunKeepsConsistent(text: string, limit: nat, s: Scan)
    requires limit <= |text| && Consistent(s) && LastIsBehind(text, s)
    ensures Consistent(Run(text, limit, s)) && LastIsBehind(text, Run(text, limit, s))
    decreases if s.i < limit then limit - s.i else 0
  {
    if s.i < limit {
      StepKeepsConsistent(text, limit, s);
      RunKeepsConsistent(text, limit, Step(text, limit, s));
    }
  }

  // ---- The code ------------------------------------------------------------------------------

  /** The inner loop over a string: `closed` tells whether its closing quote was passed. */
  method ReadString(text: string, limit: nat, start: nat) returns (i: nat, closed: bool)
    requires start <= limit <= |text|
    ensures closed == (CloseQuote(text, limit, start) < limit)
    ensures i == if closed then CloseQuote(text, limit, start) + 1 else limit
  {
    i := start;
    while i < limit
      invariant start <= i <= limit
      invariant CloseQuote(text, limit, start) == CloseQuote(text, limit, i)
    {
      if text[i] == '\\' && i + 1 < limit {
        i := i + 2;
        continue;
      }
      if text[i] == '"' {
        return i + 1, true;
      }
      i := i + 1;
    }
    return i, false;
  }

  /** The inner loop over a number or a literal name. */
  method ReadScalar(text: string, limit: nat, start: nat) returns (i: nat)
    requires start <= limit <= |text|
    ensures i == ScalarEnd(text, limit, start)
  {
    i := start;
    while i < limit
      invariant start <= i <= limit
      invariant ScalarEnd(text, limit, start) == ScalarEnd(text, limit, i)
    {
      if EndsScalar(text[i]) {
        break;
      }
      i := i + 1;
    }
  }

  /** The arms of the switch for structural characters. */
  method ReadPunctuation(ch: char, phase: Phase, stack: seq<Kind>, ghost s: Scan)
    returns (phase': Phase, stack': seq<Kind>)
    requires IsPunctuation(ch) && s.phase == phase && s.stack == stack
    ensures Punctuation(ch, s) == s.(i := s.i + 1, phase := phase', stack := stack')
  {
    phase', stack' := phase, stack;
    match ch {
      case '{' =>
        if ExpectsValue(phase) {
          stack' := stack + [Object];
          phase' := ObjectKeyOrEnd;
        }
      case '[' =>
        if ExpectsValue(phase) {
          stack' := stack + [Array];
          phase' := ArrayValueOrEnd;
        }
      case '}' =>
        if |stack| > 0 && stack[|stack| - 1] == Object && (phase == ObjectKeyOrEnd || phase == ObjectCommaOrEnd) {
          stack' := stack[..|stack| - 1];
          phase' := AfterValue(stack');
        }
      case ']' =>
        if |stack| > 0 && stack[|stack| - 1] == Array && (phase == ArrayValueOrEnd || phase == ArrayCommaOrEnd) {
          stack' := stack[..|stack| - 1];
          phase' := AfterValue(stack');
        }
      case ':' =>
        if phase == ObjectColon {
          phase' := ObjectValue;
        }
      case _ =>
        if |stack| > 0 {
          match stack[|stack| - 1] {
            case Object =>
              if phase == ObjectCommaOrEnd {
                phase' := ObjectKeyOrEnd;
              }
            case Array =>
              if phase == ArrayCommaOrEnd {
                phase' := ArrayValueOrEnd;
              }
          }
        }
    }
  }

  lemma {:induction false} RunTurn(text: string, limit: nat, s: Scan)
    requires limit <= |text|
    ensures Run(text, limit, s) == if s.i >= limit then s else Run(text, limit, Step(text, limit, s))
  {}

  method FindLastValueQuoteBefore(text: string, limit: int) returns (quote: int, ok: bool)
    requires 0 <= limit
    ensures ok == LastQuote(text, limit).Quotes?
    ensures quote == if ok then LastQuote(text, limit).closing else -1
    ensures ok ==> quote < limit && quote < |text| && text[quote] == '"'
  {
    hide Run;
    var bound := limit;
    if bound > |text| {
      bound := |text|;
    }
    var phase := Value;
    var stack: seq<Kind> := [];
    var lastQuote := -1;
    ghost var last := NoQuotes;
    var i := 0;
    while i < bound
      invariant 0 <= i <= bound
      invariant Run(text, bound, Scan(i, phase, stack, last)) == Run(text, bound, START)
      invariant lastQuote == if last.Quotes? then last.closing else -1
    {
      ghost var s := Scan(i, phase, stack, last);
      ghost var next := Step(text, bound, s);
      RunTurn(text, bound, s);
      var ch := text[i];
      if IsSpace(ch) {
        i := i + 1;
        continue;
      }
      if IsPunctuation(ch) {
        phase, stack := ReadPunctuation(ch, phase, stack, s);
        i := i + 1;
      } else if ch == '"' {
        var isKey := phase == ObjectKeyOrEnd;
        var closed;
        i, closed := ReadString(text, bound, i + 1);
        if closed && !isKey {
          lastQuote := i - 1;
          last := Quotes(s.i, i - 1);
          phase := AfterValue(stack);
        } else if closed {
          phase := ObjectColon;
        }
      } else if !ExpectsValue(phase) {
        i := i + 1;
      } else {
        i := ReadScalar(text, bound, i);
        phase := AfterValue(stack);
      }
      assert Scan(i, phase, stack, last) == next;
    }
    RunKeepsConsistent(text, bound, START);
    RunTurn(text, bound, Scan(i, phase, stack, last));
    return lastQuote, lastQuote >= 0;
  }

  /** What the scanner finds: the last string value that closes before `limit`. */
  function LastQuote(text: string, limit: nat): Quotes {
    Run(text, if limit > |text| then |text| else limit, START).last
  }
}
