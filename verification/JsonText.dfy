/** JSON texts by the grammar of RFC 8259 (sections 2, 4, 5 and 7), as trees that know their own
    white space, and the string values that occur in them.  This is the reference the quote scanner
    is judged against: it has no phases and no stack. */
module JsonText {
  import opened Wrappers
  import opened QuoteScan

  datatype StrChar = Plain(c: char) | Escaped(c: char)

  /** Array elements have no label; object members are labelled with their name. */
  datatype Label = NoLabel | Label(pre: string, name: seq<StrChar>, mid: string)

  datatype Json =
    | Str(body: seq<StrChar>)
    | Scalar(text: string)
    | Empty(kind: Kind, space: string)
    | Node(kind: Kind, items: Items)

  datatype Items = One(item: Item) | More(item: Item, rest: Items)

  datatype Item = Item(tag: Label, value: Padded)

  /** A value between white space; a whole text is one as well. */
  datatype Padded = Padded(pre: string, v: Json, post: string)

  // ---- Printing ------------------------------------------------------------------------------

  function PrintChars(b: seq<StrChar>): string {
    if b == [] then ""
    else (match b[0] case Plain(c) => [c] case Escaped(c) => ['\\', c]) + PrintChars(b[1..])
  }

  function PrintString(b: seq<StrChar>): string { ['"'] + (PrintChars(b) + ['"']) }

  function OpenMark(k: Kind): char { if k == Object then '{' else '[' }
  function CloseMark(k: Kind): char { if k == Object then '}' else ']' }

  function Print(v: Json): string {
    match v
    case Str(b) => PrintString(b)
    case Scalar(t) => t
    case Empty(k, w) => [OpenMark(k)] + (w + [CloseMark(k)])
    case Node(k, items) => [OpenMark(k)] + (PrintItems(items) + [CloseMark(k)])
  }

  function PrintItems(items: Items): string {
    match items
    case One(x) => PrintItem(x)
    case More(x, rest) => PrintItem(x) + ([','] + PrintItems(rest))
  }

  function PrintLabel(t: Label): string {
    match t
    case NoLabel => ""
    case Label(pre, name, mid) => pre + (PrintString(name) + (mid + [':']))
  }

  function PrintItem(x: Item): string { PrintLabel(x.tag) + PrintPadded(x.value) }

  function PrintPadded(p: Padded): string { p.pre + (Print(p.v) + p.post) }

  // ---- Well-formedness -----------------------------------------------------------------------

  predicate AllSpace(w: string) { forall i :: 0 <= i < |w| ==> IsSpace(w[i]) }

  predicate GoodChars(b: seq<StrChar>) {
    forall i :: 0 <= i < |b| ==> b[i].Plain? ==> b[i].c != '"' && b[i].c != '\\'
  }

  predicate GoodScalar(t: string) {
    t != "" && forall i :: 0 <= i < |t| ==> !EndsScalar(t[i]) && !IsPunctuation(t[i]) && t[i] != '"'
  }

  predicate Good(v: Json)
    decreases v
  {
    match v
    case Str(b) => GoodChars(b)
    case Scalar(t) => GoodScalar(t)
    case Empty(_, w) => AllSpace(w)
    case Node(k, items) => GoodItems(k, items)
  }

  predicate GoodItems(k: Kind, items: Items)
    decreases items
  {
    match items
    case One(x) => GoodItem(k, x)
    case More(x, rest) => GoodItem(k, x) && GoodItems(k, rest)
  }

  predicate GoodItem(k: Kind, x: Item)
    decreases x
  {
    GoodLabel(k, x.tag) && GoodPadded(x.value)
  }

  predicate GoodLabel(k: Kind, t: Label) {
    match t
    case NoLabel => k == Array
    case Label(pre, name, mid) => k == Object && AllSpace(pre) && GoodChars(name) && AllSpace(mid)
  }

  predicate GoodPadded(p: Padded)
    decreases p
  {
    AllSpace(p.pre) && Good(p.v) && AllSpace(p.post)
  }

  // ---- The string values of a text that starts at `at`, in order -----------------------------

  function Values(v: Json, at: nat): seq<Quotes> {
    match v
    case Str(b) => [Quotes(at, at + |PrintString(b)| - 1)]
    case Scalar(_) => []
    case Empty(_, _) => []
    case Node(_, items) => ItemValues(items, at + 1)
  }

  function ItemValues(items: Items, at: nat): seq<Quotes> {
    match items
    case One(x) => PaddedValues(x.value, at + |PrintLabel(x.tag)|)
    case More(x, rest) =>
      PaddedValues(x.value, at + |PrintLabel(x.tag)|) + ItemValues(rest, at + |PrintItem(x)| + 1)
  }

  function PaddedValues(p: Padded, at: nat): seq<Quotes> { Values(p.v, at + |p.pre|) }

  /** The last string value that closes before `limit`; `before` when there is none. */
  function LastBefore(before: Quotes, vs: seq<Quotes>, limit: nat): Quotes {
    if vs == [] then before
    else
      var v := vs[|vs| - 1];
      if v.Quotes? && v.closing < limit then v else LastBefore(before, vs[..|vs| - 1], limit)
  }

  lemma {:induction false} LastBeforeConcat(before: Quotes, a: seq<Quotes>, b: seq<Quotes>, limit: nat)
    ensures LastBefore(before, a + b, limit) == LastBefore(LastBefore(before, a, limit), b, limit)
    decreases |b|
  {
    if b == [] {
      assert a + b == a;
    } else {
      assert (a + b)[..|a + b| - 1] == a + b[..|b| - 1];
      LastBeforeConcat(before, a, b[..|b| - 1], limit);
    }
  }

  predicate Within(vs: seq<Quotes>, lo: nat, hi: nat) {
    forall i :: 0 <= i < |vs| ==> vs[i].Quotes? && lo <= vs[i].opening < vs[i].closing < hi
  }

  lemma {:induction false} NoneBefore(before: Quotes, vs: seq<Quotes>, lo: nat, hi: nat, limit: nat)
    requires Within(vs, lo, hi) && limit <= lo
    ensures LastBefore(before, vs, limit) == before
  {
    if vs != [] {
      NoneBefore(before, vs[..|vs| - 1], lo, hi, limit);
    }
  }

  lemma WithinConcat(a: seq<Quotes>, b: seq<Quotes>, lo: nat, mid: nat, lo': nat, hi: nat)
    requires Within(a, lo', mid) && Within(b, mid, hi) && lo <= lo' <= mid <= hi
    ensures Within(a + b, lo, hi)
  {}

  lemma {:induction false} ValuesWithin(v: Json, at: nat)
    ensures Within(Values(v, at), at, at + |Print(v)|)
  {
    match v
    case Node(_, items) => ItemValuesWithin(items, at + 1);
    case _ =>
  }

  lemma PaddedWithin(p: Padded, at: nat)
    ensures Within(PaddedValues(p, at), at, at + |PrintPadded(p)|)
    decreases p
  {
    ValuesWithin(p.v, at + |p.pre|);
  }

  lemma {:induction false} ItemValuesWithin(items: Items, at: nat)
    ensures Within(ItemValues(items, at), at, at + |PrintItems(items)|)
  {
    var x := items.item;
    var from := at + |PrintLabel(x.tag)|;
    PaddedWithin(x.value, from);
    if items.More? {
      var next := at + |PrintItem(x)| + 1;
      ItemValuesWithin(items.rest, next);
      WithinConcat(PaddedValues(x.value, from), ItemValues(items.rest, next), at, next, from, at + |PrintItems(items)|);
    }
  }

  // ---- Reading one piece of text -------------------------------------------------------------

  predicate Occurs(text: string, at: nat, piece: string) {
    at + |piece| <= |text| && text[at..at + |piece|] == piece
  }

  lemma OccursParts(text: string, at: nat, a: string, b: string)
    requires Occurs(text, at, a + b)
    ensures Occurs(text, at, a) && Occurs(text, at + |a|, b)
  {
    assert text[at..at + |a|] == (a + b)[..|a|] == a;
    assert text[at + |a|..at + |a| + |b|] == (a + b)[|a|..] == b;
  }

  /** From `s`, the scan passes the text up to `end` with phase and stack as given, having found the
      string values `vs` in it; when the limit comes first, it has found those that close before. */
  ghost predicate Reads(text: string, limit: nat, s: Scan, vs: seq<Quotes>, end: nat, phase: Phase, stack: seq<Kind>)
    requires limit <= |text|
  {
    var last := LastBefore(s.last, vs, limit);
    if end <= limit then Run(text, limit, s) == Run(text, limit, Scan(end, phase, stack, last))
    else Run(text, limit, s).last == last
  }

  lemma ReadsThen(text: string, limit: nat, s: Scan, vs: seq<Quotes>, mid: Scan, vs': seq<Quotes>, end: nat,
                  phase: Phase, stack: seq<Kind>)
    requires s.i <= limit <= |text| && mid.i <= end
    requires Reads(text, limit, s, vs, mid.i, mid.phase, mid.stack)
    requires mid.last == LastBefore(s.last, vs, limit)
    requires mid.i <= limit ==> Reads(text, limit, mid, vs', end, phase, stack)
    requires Within(vs', mid.i, end)
    ensures Reads(text, limit, s, vs + vs', end, phase, stack)
  {
    LastBeforeConcat(s.last, vs, vs', limit);
    if mid.i > limit {
      NoneBefore(mid.last, vs', mid.i, end, limit);
    }
  }

  /** Nothing, then `vs`, then nothing: the shape of everything that has delimiters around it. */
  lemma ReadsAround(text: string, limit: nat, s: Scan, s1: Scan, vs: seq<Quotes>, s2: Scan, s3: Scan)
    requires s.i <= limit <= |text| && s1.i <= s2.i <= s3.i && s1.last == s.last
    requires s2.last == s3.last == LastBefore(s.last, vs, limit)
    requires Within(vs, s1.i, s2.i)
    requires Reads(text, limit, s, [], s1.i, s1.phase, s1.stack)
    requires s1.i <= limit ==> Reads(text, limit, s1, vs, s2.i, s2.phase, s2.stack)
    requires s2 == s3 || (s2.i <= limit ==> Reads(text, limit, s2, [], s3.i, s3.phase, s3.stack))
    ensures Reads(text, limit, s, vs, s3.i, s3.phase, s3.stack)
  {
    hide Run, Reads;
    ReadsThen(text, limit, s, [], s1, vs, s2.i, s2.phase, s2.stack);
    assert [] + vs == vs && vs + [] == vs;
    if s2 != s3 {
      ReadsThen(text, limit, s, vs, s2, [], s3.i, s3.phase, s3.stack);
    }
  }

  lemma {:induction false} ReadSpace(text: string, limit: nat, s: Scan, w: string)
    requires s.i <= limit <= |text| && Occurs(text, s.i, w) && AllSpace(w)
    ensures Reads(text, limit, s, [], s.i + |w|, s.phase, s.stack)
    decreases |w|
  {
    if w != "" && s.i < limit {
      assert text[s.i] == w[0];
      OccursParts(text, s.i, w[..1], w[1..]) by { assert w == w[..1] + w[1..]; }
      ReadSpace(text, limit, s.(i := s.i + 1), w[1..]);
    }
  }

  lemma {:induction false} FirstChar(b: seq<StrChar>) returns (head: string)
    requires b != []
    ensures head == match b[0] case Plain(c) => [c] case Escaped(c) => ['\\', c]
    ensures PrintChars(b) + ['"'] == head + (PrintChars(b[1..]) + ['"'])
    ensures |PrintChars(b)| == |head| + |PrintChars(b[1..])|
  {
    head := match b[0] case Plain(c) => [c] case Escaped(c) => ['\\', c];
    Reassociate(head, PrintChars(b[1..]), ['"']);
  }

  lemma {:induction false} CloseOfChars(text: string, limit: nat, at: nat, b: seq<StrChar>)
    requires at <= limit <= |text| && GoodChars(b) && Occurs(text, at, PrintChars(b) + ['"'])
    ensures CloseQuote(text, limit, at) == if at + |PrintChars(b)| < limit then at + |PrintChars(b)| else limit
    decreases |b|
  {
    if b == [] {
      assert text[at] == '"';
    } else {
      hide PrintChars;
      var head := FirstChar(b);
      OccursParts(text, at, head, PrintChars(b[1..]) + ['"']);
      assert text[at..at + |head|] == head && text[at] == head[0];
      if at + |head| <= limit {
        CloseOfChars(text, limit, at + |head|, b[1..]);
      }
    }
  }

  lemma ReadString'(text: string, limit: nat, s: Scan, b: seq<StrChar>)
    requires s.i < limit <= |text| && GoodChars(b) && Occurs(text, s.i, PrintString(b))
    ensures text[s.i] == '"'
    ensures CloseQuote(text, limit, s.i + 1)
         == if s.i + |PrintString(b)| <= limit then s.i + |PrintString(b)| - 1 else limit
  {
    OccursParts(text, s.i, ['"'], PrintChars(b) + ['"']);
    CloseOfChars(text, limit, s.i + 1, b);
  }

  lemma ReadMark(text: string, limit: nat, s: Scan, c: char, next: Scan)
    requires s.i <= limit <= |text| && Occurs(text, s.i, [c]) && IsPunctuation(c)
    requires next == Punctuation(c, s) && next.last == s.last
    ensures Reads(text, limit, s, [], s.i + 1, next.phase, next.stack)
  {
    assert text[s.i] == c;
  }

  lemma ReadName(text: string, limit: nat, s: Scan, b: seq<StrChar>)
    requires s.i <= limit <= |text| && GoodChars(b) && Occurs(text, s.i, PrintString(b)) && s.phase == ObjectKeyOrEnd
    ensures Reads(text, limit, s, [], s.i + |PrintString(b)|, ObjectColon, s.stack)
  {
    if s.i < limit { ReadString'(text, limit, s, b); }
  }

  lemma ReadText(text: string, limit: nat, s: Scan, b: seq<StrChar>)
    requires s.i < limit <= |text| && GoodChars(b) && Occurs(text, s.i, PrintString(b)) && ExpectsValue(s.phase)
    ensures Reads(text, limit, s, Values(Str(b), s.i), s.i + |PrintString(b)|, AfterValue(s.stack), s.stack)
  {
    ReadString'(text, limit, s, b);
    var v := Values(Str(b), s.i);
    assert v[..0] == [];
  }

  lemma {:induction false} ReadLabel(text: string, limit: nat, s: Scan, k: Kind, t: Label)
    requires s.i <= limit <= |text| && Occurs(text, s.i, PrintLabel(t)) && GoodLabel(k, t)
    requires s.phase == FirstPhase(k)
    ensures Reads(text, limit, s, [], s.i + |PrintLabel(t)|, if k == Object then ObjectValue else s.phase, s.stack)
  {
    hide Run, Reads, Occurs, PrintString, AllSpace, GoodChars;
    if t.Label? {
      var name := PrintString(t.name);
      var colon, tail := [':'], t.mid + [':'];
      OccursParts(text, s.i, t.pre, name + tail);
      var s1 := s.(i := s.i + |t.pre|);
      OccursParts(text, s1.i, name, tail);
      var s2 := s1.(i := s1.i + |name|, phase := ObjectColon);
      OccursParts(text, s2.i, t.mid, colon);
      var s3 := s2.(i := s2.i + |t.mid|);
      var s4 := s3.(i := s3.i + 1, phase := ObjectValue);
      ReadSpace(text, limit, s, t.pre);
      if s1.i <= limit { ReadName(text, limit, s1, t.name); }
      if s2.i <= limit { ReadSpace(text, limit, s2, t.mid); }
      if s3.i <= limit { ReadMark(text, limit, s3, ':', s4); }
      ReadsAround(text, limit, s, s1, [], s2, s3);
      ReadsAround(text, limit, s, s3, [], s4, s4);
    } else {
      ReadSpace(text, limit, s, "");
    }
  }

  /** Phase right after the opening mark, and after a complete value. */
  function FirstPhase(k: Kind): Phase { if k == Object then ObjectKeyOrEnd else ArrayValueOrEnd }

  predicate Delimited(text: string, limit: nat, end: nat) {
    end < limit && end < |text| ==> EndsScalar(text[end])
  }

  lemma ReadNothing(text: string, limit: nat, s: Scan, vs: seq<Quotes>, end: nat, phase: Phase, stack: seq<Kind>)
    requires s.i >= limit && limit <= |text| && s.i < end && Within(vs, s.i, end)
    ensures Reads(text, limit, s, vs, end, phase, stack)
  {
    NoneBefore(s.last, vs, s.i, end, limit);
  }

  lemma PrintNotEmpty(v: Json)
    requires Good(v)
    ensures Print(v) != ""
  {}

  lemma CloseDelimits(text: string, limit: nat, at: nat, k: Kind)
    requires Occurs(text, at, [CloseMark(k)])
    ensures Delimited(text, limit, at)
  {
    assert text[at] == CloseMark(k);
  }

  /** A container: the opening mark, what was read between the marks, the closing mark. */
  lemma ReadBracketed(text: string, limit: nat, s: Scan, k: Kind, m: string, vs: seq<Quotes>, phase: Phase)
    requires s.i < limit <= |text| && ExpectsValue(s.phase)
    requires Occurs(text, s.i, [OpenMark(k)]) && Occurs(text, s.i + 1 + |m|, [CloseMark(k)])
    requires Reads(text, limit, Open(s, k), vs, s.i + 1 + |m|, phase, Open(s, k).stack)
    requires Within(vs, s.i + 1, s.i + 1 + |m|) && (phase == FirstPhase(k) || phase == AfterValue([k]))
    ensures Reads(text, limit, s, vs, s.i + 2 + |m|, AfterValue(s.stack), s.stack)
  {
    hide Run, Reads, Occurs;
    var s1 := Open(s, k);
    ReadMark(text, limit, s, OpenMark(k), s1);
    var s2 := Scan(s1.i + |m|, phase, s1.stack, LastBefore(s.last, vs, limit));
    var s3 := s2.(i := s2.i + 1, phase := AfterValue(s.stack), stack := s.stack);
    assert s2.stack[..|s2.stack| - 1] == s.stack;
    if s2.i <= limit { ReadMark(text, limit, s2, CloseMark(k), s3); }
    ReadsAround(text, limit, s, s1, vs, s2, s3);
  }

  lemma ReadEmpty(text: string, limit: nat, s: Scan, k: Kind, w: string)
    requires s.i < limit <= |text| && Occurs(text, s.i, Print(Empty(k, w))) && AllSpace(w) && ExpectsValue(s.phase)
    ensures Reads(text, limit, s, [], s.i + |Print(Empty(k, w))|, AfterValue(s.stack), s.stack)
  {
    hide Run, Reads, Occurs, AllSpace;
    OccursParts(text, s.i, [OpenMark(k)], w + [CloseMark(k)]);
    OccursParts(text, s.i + 1, w, [CloseMark(k)]);
    ReadSpace(text, limit, Open(s, k), w);
    ReadBracketed(text, limit, s, k, w, [], FirstPhase(k));
  }

  lemma NodeParts(text: string, limit: nat, s: Scan, k: Kind, items: Items)
    requires s.i < limit <= |text| && Occurs(text, s.i, Print(Node(k, items))) && ExpectsValue(s.phase)
    ensures Occurs(text, s.i, [OpenMark(k)])
    ensures Occurs(text, s.i + 1, PrintItems(items)) && Occurs(text, s.i + 1 + |PrintItems(items)|, [CloseMark(k)])
    ensures Delimited(text, limit, s.i + 1 + |PrintItems(items)|)
    ensures var o := Open(s, k); o.i == s.i + 1 && o.last == s.last && TopIs(o.stack, k) && o.phase == FirstPhase(k)
    ensures AfterValue(Open(s, k).stack) == AfterValue([k])
  {
    hide Run, Occurs;
    var m, c := PrintItems(items), [CloseMark(k)];
    OccursParts(text, s.i, [OpenMark(k)], m + c);
    OccursParts(text, s.i + 1, m, c);
    CloseDelimits(text, limit, s.i + 1 + |m|, k);
  }

  lemma {:induction false} ReadValue(text: string, limit: nat, s: Scan, v: Json)
    requires s.i <= limit <= |text| && Occurs(text, s.i, Print(v)) && Good(v) && ExpectsValue(s.phase)
    requires Delimited(text, limit, s.i + |Print(v)|)
    ensures Reads(text, limit, s, Values(v, s.i), s.i + |Print(v)|, AfterValue(s.stack), s.stack)
    decreases v
  {
    hide Run, Reads, Occurs, GoodChars, GoodScalar, AllSpace, Open, AfterValue, TopIs, Within, PrintItems;
    ValuesWithin(v, s.i);
    PrintNotEmpty(v);
    if s.i == limit {
      ReadNothing(text, limit, s, Values(v, s.i), s.i + |Print(v)|, AfterValue(s.stack), s.stack);
    } else {
      match v
      case Str(b) => ReadText(text, limit, s, b);
      case Scalar(t) => ReadScalar'(text, limit, s, t);
      case Empty(k, w) => ReadEmpty(text, limit, s, k, w);
      case Node(k, items) =>
        NodeParts(text, limit, s, k, items);
        ReadItems(text, limit, Open(s, k), k, items);
        ItemValuesWithin(items, s.i + 1);
        ReadBracketed(text, limit, s, k, PrintItems(items), ItemValues(items, s.i + 1), AfterValue(Open(s, k).stack));
    }
  }

  lemma ReadScalar'(text: string, limit: nat, s: Scan, t: string)
    requires s.i < limit <= |text| && Occurs(text, s.i, t) && GoodScalar(t) && ExpectsValue(s.phase)
    requires Delimited(text, limit, s.i + |t|)
    ensures Reads(text, limit, s, [], s.i + |t|, AfterValue(s.stack), s.stack)
  {
    assert forall j :: s.i <= j < s.i + |t| ==> text[j] == t[j - s.i];
    var e := ScalarEnd(text, limit, s.i);
    assert e == if s.i + |t| < limit then s.i + |t| else limit;
    assert Step(text, limit, s) == s.(i := e, phase := AfterValue(s.stack));
  }

  lemma SpaceDelimits(text: string, limit: nat, at: nat, w: string)
    requires Occurs(text, at, w) && AllSpace(w) && Delimited(text, limit, at + |w|)
    ensures Delimited(text, limit, at)
  {
    if w != "" { assert text[at] == w[0]; }
  }

  lemma {:induction false} ReadPadded(text: string, limit: nat, s: Scan, p: Padded)
    requires s.i <= limit <= |text| && Occurs(text, s.i, PrintPadded(p)) && GoodPadded(p) && ExpectsValue(s.phase)
    requires Delimited(text, limit, s.i + |PrintPadded(p)|)
    ensures Reads(text, limit, s, PaddedValues(p, s.i), s.i + |PrintPadded(p)|, AfterValue(s.stack), s.stack)
    decreases p
  {
    hide Run, Reads, Occurs, Print, AllSpace, Good, Values;
    var v := Print(p.v);
    OccursParts(text, s.i, p.pre, v + p.post);
    OccursParts(text, s.i + |p.pre|, v, p.post);
    var s1 := s.(i := s.i + |p.pre|);
    var vs := Values(p.v, s1.i);
    ValuesWithin(p.v, s1.i);
    var s2 := Scan(s1.i + |v|, AfterValue(s.stack), s.stack, LastBefore(s.last, vs, limit));
    var s3 := s2.(i := s2.i + |p.post|);
    SpaceDelimits(text, limit, s2.i, p.post);
    ReadSpace(text, limit, s, p.pre);
    if s1.i <= limit { ReadValue(text, limit, s1, p.v); }
    if s2.i <= limit { ReadSpace(text, limit, s2, p.post); }
    ReadsAround(text, limit, s, s1, vs, s2, s3);
  }

  lemma {:induction false} ReadItem(text: string, limit: nat, s: Scan, k: Kind, x: Item)
    requires s.i <= limit <= |text| && Occurs(text, s.i, PrintItem(x)) && GoodItem(k, x)
    requires s.phase == FirstPhase(k)
    requires Delimited(text, limit, s.i + |PrintItem(x)|)
    ensures Reads(text, limit, s, PaddedValues(x.value, s.i + |PrintLabel(x.tag)|), s.i + |PrintItem(x)|,
                  AfterValue(s.stack), s.stack)
    decreases x
  {
    hide Run, Reads, Occurs, PrintLabel, PrintPadded;
    var tag := PrintLabel(x.tag);
    OccursParts(text, s.i, tag, PrintPadded(x.value));
    var s1 := s.(i := s.i + |tag|, phase := if k == Object then ObjectValue else s.phase);
    var vs := PaddedValues(x.value, s1.i);
    PaddedWithin(x.value, s1.i);
    ReadLabel(text, limit, s, k, x.tag);
    if s1.i <= limit { ReadPadded(text, limit, s1, x.value); }
    var s2 := Scan(s.i + |PrintItem(x)|, AfterValue(s.stack), s.stack, LastBefore(s.last, vs, limit));
    ReadsAround(text, limit, s, s1, vs, s2, s2);
  }

  lemma CommaDelimits(text: string, limit: nat, at: nat)
    requires Occurs(text, at, [','])
    ensures Delimited(text, limit, at)
  {
    assert text[at] == ',';
  }

  lemma ReadComma(text: string, limit: nat, s: Scan, vs: seq<Quotes>, next: Scan, k: Kind)
    requires s.i < next.i && s.i <= limit <= |text| && Occurs(text, next.i - 1, [',']) && TopIs(s.stack, k)
    requires Reads(text, limit, s, vs, next.i - 1, AfterValue(s.stack), s.stack)
    requires next == Scan(next.i, FirstPhase(k), s.stack, LastBefore(s.last, vs, limit))
    ensures Reads(text, limit, s, vs, next.i, next.phase, next.stack)
  {
    hide Run, Reads, Occurs;
    var s1 := Scan(next.i - 1, AfterValue(s.stack), s.stack, next.last);
    if s1.i <= limit { ReadMark(text, limit, s1, ',', next); }
    ReadsThen(text, limit, s, vs, s1, [], next.i, next.phase, next.stack);
    assert vs + [] == vs;
  }

  lemma {:induction false} SplitItems(text: string, limit: nat, at: nat, items: Items)
    requires Occurs(text, at, PrintItems(items)) && Delimited(text, limit, at + |PrintItems(items)|)
    ensures var x := items.item;
      var next := at + |PrintItem(x)| + 1;
      var vs := PaddedValues(x.value, at + |PrintLabel(x.tag)|);
      && Occurs(text, at, PrintItem(x)) && Delimited(text, limit, at + |PrintItem(x)|)
      && (items.One? ==> at + |PrintItems(items)| == next - 1 && ItemValues(items, at) == vs)
      && (items.More? ==>
            Occurs(text, next - 1, [',']) && Occurs(text, next, PrintItems(items.rest)) &&
            at + |PrintItems(items)| == next + |PrintItems(items.rest)| &&
            ItemValues(items, at) == vs + ItemValues(items.rest, next))
  {
    hide Occurs, Delimited, PrintItem, PaddedValues;
    if items.More? {
      var x, rest := items.item, items.rest;
      OccursParts(text, at, PrintItem(x), [','] + PrintItems(rest));
      OccursParts(text, at + |PrintItem(x)|, [','], PrintItems(rest));
      CommaDelimits(text, limit, at + |PrintItem(x)|);
    }
  }

  lemma {:induction false} ReadItems(text: string, limit: nat, s: Scan, k: Kind, items: Items)
    requires s.i <= limit <= |text| && Occurs(text, s.i, PrintItems(items)) && GoodItems(k, items)
    requires TopIs(s.stack, k) && s.phase == FirstPhase(k)
    requires Delimited(text, limit, s.i + |PrintItems(items)|)
    ensures Reads(text, limit, s, ItemValues(items, s.i), s.i + |PrintItems(items)|, AfterValue(s.stack), s.stack)
    decreases items, 0
  {
    hide Run, Reads, Occurs, PrintItem, PrintItems, GoodItem, AfterValue, TopIs, Within, PaddedValues, ItemValues,
      Delimited, LastBefore, FirstPhase, PrintLabel;
    var x := items.item;
    SplitItems(text, limit, s.i, items);
    ReadItem(text, limit, s, k, x);
    if items.More? {
      var next := s.i + |PrintItem(x)| + 1;
      var vs := PaddedValues(x.value, s.i + |PrintLabel(x.tag)|);
      var s2 := Scan(next, FirstPhase(k), s.stack, LastBefore(s.last, vs, limit));
      ReadComma(text, limit, s, vs, s2, k);
      ItemValuesWithin(items.rest, next);
      if next <= limit { ReadItems(text, limit, s2, k, items.rest); }
      ReadsThen(text, limit, s, vs, s2, ItemValues(items.rest, next), s.i + |PrintItems(items)|, AfterValue(s.stack),
        s.stack);
    }
  }
}
