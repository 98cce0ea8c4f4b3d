/** The brace extractor (internal/iterate/service.go, and the same code once more in
    internal/queue/enqueue_iterate.go): it cuts a JSON object out of a text by counting braces outside
    strings, and is judged against the grammar of JsonText. */
module JsonExtract {
  import opened QuoteScan
  import opened JsonText

  /** The three variables of the loop. */
  datatype Brace = Brace(depth: int, inString: bool, escape: bool)

  const OUTSIDE := Brace(0, false, false)

  function Feed(b: Brace, ch: char): Brace {
    if b.escape then b.(escape := false)
    else if ch == '\\' && b.inString then b.(escape := true)
    else if ch == '"' then b.(inString := !b.inString)
    else if b.inString then b
    else if ch == '{' then b.(depth := b.depth + 1)
    else if ch == '}' then b.(depth := b.depth - 1)
    else b
  }

  /** The character closes the outermost brace. */
  predicate Closes(b: Brace, ch: char) { !b.escape && !b.inString && ch == '}' && b.depth == 1 }

  function Search(text: string, start: nat, i: nat, b: Brace, valid: string -> bool): string
    requires start <= i <= |text|
    decreases |text| - i
  {
    if i == |text| then ""
    else if Closes(b, text[i]) && valid(text[start..i + 1]) then text[start..i + 1]
    else Search(text, start, i + 1, Feed(b, text[i]), valid)
  }

  function FirstBrace(text: string): nat {
    if text == "" || text[0] == '{' then 0 else 1 + FirstBrace(text[1..])
  }

  lemma {:induction false} FirstBraceIs(text: string)
    ensures FirstBrace(text) <= |text|
    ensures forall i :: 0 <= i < FirstBrace(text) ==> text[i] != '{'
    ensures FirstBrace(text) < |text| ==> text[FirstBrace(text)] == '{'
  {
    if text != "" && text[0] != '{' { FirstBraceIs(text[1..]); }
  }

  /** The empty text when nothing is found. */
  function Extract(text: string, valid: string -> bool): string {
    FirstBraceIs(text);
    Search(text, FirstBrace(text), FirstBrace(text), OUTSIDE, valid)
  }

  method ExtractJSON(text: string, valid: string -> bool) returns (r: string)
    ensures r == Extract(text, valid)
  {
    FirstBraceIs(text);
    hide FirstBrace;
    var start := 0;
    while start < |text| && text[start] != '{'
      invariant start <= FirstBrace(text)
    {
      start := start + 1;
    }
    if start == |text| { return ""; }
    var depth, inString, escape := 0, false, false;
    var i := start;
    while i < |text|
      invariant start <= i <= |text|
      invariant Search(text, start, i, Brace(depth, inString, escape), valid) == Extract(text, valid)
    {
      var ch := text[i];
      i := i + 1;
      if escape {
        escape := false;
      } else if ch == '\\' && inString {
        escape := true;
      } else if ch == '"' {
        inString := !inString;
      } else if !inString {
        match ch
        case '{' =>
          depth := depth + 1;
        case '}' =>
          depth := depth - 1;
          if depth == 0 {
            var candidate := text[start..i];
            if valid(candidate) { return candidate; }
          }
        case _ =>
      }
    }
    return "";
  }

  // ---- Whatever comes out is valid and starts at the first brace -----------------------------

  lemma {:induction false} SearchFindsValid(text: string, start: nat, i: nat, b: Brace, valid: string -> bool)
    requires start <= i <= |text|
    ensures var r := Search(text, start, i, b, valid);
      r == "" || (valid(r) && start + |r| <= |text| && r == text[start..start + |r|] && r[|r| - 1] == '}')
    decreases |text| - i
  {
    if i < |text| && !(Closes(b, text[i]) && valid(text[start..i + 1])) {
      SearchFindsValid(text, start, i + 1, Feed(b, text[i]), valid);
    }
  }

  /** A found object is valid JSON by the same test that the decoder's library applies, and is a part
      of the text that starts at its first opening brace. */
  lemma {:induction false} ExtractedIsValid(text: string, valid: string -> bool)
    ensures var r := Extract(text, valid);
      r == "" || (valid(r) && r[0] == '{' && r[|r| - 1] == '}' &&
                  exists start :: 0 <= start <= |text| - |r| && text[start..start + |r|] == r && '{' !in text[..start])
  {
    FirstBraceIs(text);
    var start := FirstBrace(text);
    SearchFindsValid(text, start, start, OUTSIDE, valid);
    var r := Extract(text, valid);
    if r != "" {
      assert text[start..start + |r|] == r && '{' !in text[..start];
      assert r[0] == text[start];
    }
  }

  // ---- Reading past a part of the text -------------------------------------------------------

  function AfterAll(b: Brace, w: string): Brace
    decreases |w|
  {
    if w == "" then b else AfterAll(Feed(b, w[0]), w[1..])
  }

  /** No character of `w` closes the outermost brace. */
  predicate Quiet(b: Brace, w: string)
    decreases |w|
  {
    w == "" || (!Closes(b, w[0]) && Quiet(Feed(b, w[0]), w[1..]))
  }

  lemma {:induction false} QuietConcat(b: Brace, v: string, w: string)
    requires Quiet(b, v) && Quiet(AfterAll(b, v), w)
    ensures Quiet(b, v + w) && AfterAll(b, v + w) == AfterAll(AfterAll(b, v), w)
    decreases |v|
  {
    if v == "" {
      assert v + w == w;
    } else {
      assert (v + w)[1..] == v[1..] + w;
      QuietConcat(Feed(b, v[0]), v[1..], w);
    }
  }

  lemma {:induction false} QuietChar(b: Brace, c: char)
    requires !Closes(b, c)
    ensures Quiet(b, [c]) && AfterAll(b, [c]) == Feed(b, c)
  {
    assert [c][1..] == "";
  }

  lemma {:induction false} SearchPasses(text: string, start: nat, i: nat, b: Brace, w: string, valid: string -> bool)
    requires start <= i <= i + |w| <= |text| && text[i..i + |w|] == w && Quiet(b, w)
    ensures Search(text, start, i, b, valid) == Search(text, start, i + |w|, AfterAll(b, w), valid)
    decreases |w|
  {
    if w != "" {
      assert text[i] == text[i..i + |w|][0];
      assert text[i + 1..i + 1 + |w[1..]|] == text[i..i + |w|][1..];
      SearchPasses(text, start, i + 1, Feed(b, text[i]), w[1..], valid);
    }
  }

  /** Reading `w` leaves the state as it was and closes nothing. */
  predicate Passes(b: Brace, w: string) { Quiet(b, w) && AfterAll(b, w) == b }

  lemma {:induction false} PassesConcat(b: Brace, v: string, w: string)
    requires Passes(b, v) && Passes(b, w)
    ensures Passes(b, v + w)
  {
    QuietConcat(b, v, w);
  }

  // ---- Reading past JSON ---------------------------------------------------------------------

  /** Between the braces of some object: outside strings, at least one level deep. */
  predicate Inside(b: Brace) { b.depth >= 1 && !b.inString && !b.escape }

  lemma {:induction false} PlainPasses(b: Brace, w: string)
    requires Inside(b) && forall i :: 0 <= i < |w| ==> w[i] != '{' && w[i] != '}' && w[i] != '"'
    ensures Passes(b, w)
    decreases |w|
  {
    if w != "" {
      assert forall i :: 0 <= i < |w[1..]| ==> w[1..][i] == w[i + 1];
      PlainPasses(b, w[1..]);
    }
  }

  lemma {:induction false} CharsPass(b: Brace, cs: seq<StrChar>)
    requires b.inString && !b.escape && GoodChars(cs)
    ensures Passes(b, PrintChars(cs))
    decreases |cs|
  {
    if cs != [] {
      CharsPass(b, cs[1..]);
      match cs[0]
      case Plain(c) =>
        QuietChar(b, c);
        PassesConcat(b, [c], PrintChars(cs[1..]));
      case Escaped(c) =>
        QuietChar(b, '\\');
        QuietChar(b.(escape := true), c);
        QuietConcat(b, ['\\'], [c]);
        assert ['\\'] + [c] == ['\\', c];
        PassesConcat(b, ['\\', c], PrintChars(cs[1..]));
    }
  }

  lemma {:induction false} StringPasses(b: Brace, cs: seq<StrChar>)
    requires Inside(b) && GoodChars(cs)
    ensures Passes(b, PrintString(cs))
  {
    hide PrintChars, Quiet, AfterAll;
    var within := b.(inString := true);
    QuietChar(b, '"');
    CharsPass(within, cs);
    QuietChar(within, '"');
    QuietConcat(within, PrintChars(cs), ['"']);
    QuietConcat(b, ['"'], PrintChars(cs) + ['"']);
  }

  lemma {:induction false} LabelPasses(b: Brace, t: Label, k: Kind)
    requires Inside(b) && GoodLabel(k, t)
    ensures Passes(b, PrintLabel(t))
  {
    hide Passes, PrintString;
    match t
    case NoLabel => PlainPasses(b, "");
    case Label(pre, name, mid) =>
      PlainPasses(b, pre);
      StringPasses(b, name);
      PlainPasses(b, mid);
      PlainPasses(b, [':']);
      PassesConcat(b, mid, [':']);
      PassesConcat(b, PrintString(name), mid + [':']);
      PassesConcat(b, pre, PrintString(name) + (mid + [':']));
  }

  /** What stands between an opening and its closing mark. */
  function Content(v: Json): string
    requires v.Empty? || v.Node?
  {
    if v.Empty? then v.space else PrintItems(v.items)
  }

  lemma {:induction false} BracketsPass(b: Brace, v: Json)
    requires Inside(b) && (v.Empty? || v.Node?)
    requires Passes(Feed(b, OpenMark(v.kind)), Content(v))
    ensures Passes(b, Print(v))
  {
    hide Quiet, AfterAll, PrintItems;
    var inner := Feed(b, OpenMark(v.kind));
    QuietChar(b, OpenMark(v.kind));
    QuietChar(inner, CloseMark(v.kind));
    QuietConcat(inner, Content(v), [CloseMark(v.kind)]);
    QuietConcat(b, [OpenMark(v.kind)], Content(v) + [CloseMark(v.kind)]);
  }

  lemma {:induction false} JsonPasses(b: Brace, v: Json)
    requires Inside(b) && Good(v)
    ensures Passes(b, Print(v))
    decreases v, 1
  {
    hide Passes, PrintString;
    match v
    case Str(cs) => StringPasses(b, cs);
    case Scalar(t) => PlainPasses(b, t);
    case Empty(k, w) =>
      PlainPasses(Feed(b, OpenMark(k)), w);
      BracketsPass(b, v);
    case Node(k, items) =>
      ItemsPass(Feed(b, OpenMark(k)), k, items);
      BracketsPass(b, v);
  }

  lemma {:induction false} ItemsPass(b: Brace, k: Kind, items: Items)
    requires Inside(b) && GoodItems(k, items)
    ensures Passes(b, PrintItems(items))
    decreases items, 0
  {
    hide Passes, PrintItem;
    var x := items.item;
    ItemPasses(b, k, x);
    if items.More? {
      PlainPasses(b, [',']);
      ItemsPass(b, k, items.rest);
      PassesConcat(b, [','], PrintItems(items.rest));
      PassesConcat(b, PrintItem(x), [','] + PrintItems(items.rest));
    }
  }

  lemma {:induction false} ItemPasses(b: Brace, k: Kind, x: Item)
    requires Inside(b) && GoodItem(k, x)
    ensures Passes(b, PrintItem(x))
    decreases x, 0
  {
    hide Passes, PrintLabel, Print;
    var p := x.value;
    LabelPasses(b, x.tag, k);
    PlainPasses(b, p.pre);
    PlainPasses(b, p.post);
    JsonPasses(b, p.v);
    PassesConcat(b, Print(p.v), p.post);
    PassesConcat(b, p.pre, Print(p.v) + p.post);
    PassesConcat(b, PrintLabel(x.tag), PrintPadded(p));
  }

  // ---- The result ----------------------------------------------------------------------------

  /** A JSON object that starts at the first opening brace of a text is found and cut out exactly,
      whatever stands before it and after it. */
  lemma {:induction false} ObjectIsExtracted(before: string, v: Json, rest: string, valid: string -> bool)
    requires '{' !in before && (v.Empty? || v.Node?) && v.kind == Object && Good(v) && valid(Print(v))
    ensures Extract(before + (Print(v) + rest), valid) == Print(v)
  {
    hide Quiet, AfterAll, Search, Print, PrintItems, Good;
    var text := before + (Print(v) + rest);
    FirstIsThere(before, v, rest);
    ContentPasses(v);
    var start, content := |before|, Content(v);
    PrintedObject(v);
    assert text[start..start + |Print(v)|] == Print(v);
    QuietChar(OUTSIDE, '{');
    var inner := Brace(1, false, false);
    assert Feed(OUTSIDE, '{') == inner;
    QuietConcat(OUTSIDE, ['{'], content);
    assert text[start..start + |['{'] + content|] == ['{'] + content;
    SearchPasses(text, start, start, OUTSIDE, ['{'] + content, valid);
    SearchEnds(text, start, start + |Print(v)| - 1, inner, valid);
  }

  lemma {:induction false} SearchEnds(text: string, start: nat, i: nat, b: Brace, valid: string -> bool)
    requires start <= i < |text| && Closes(b, text[i]) && valid(text[start..i + 1])
    ensures Search(text, start, i, b, valid) == text[start..i + 1]
  {}

  lemma {:induction false} PrintedObject(v: Json)
    requires (v.Empty? || v.Node?) && v.kind == Object
    ensures Print(v) == ['{'] + (Content(v) + ['}'])
  {}

  lemma {:induction false} ContentPasses(v: Json)
    requires (v.Empty? || v.Node?) && v.kind == Object && Good(v)
    ensures Passes(Brace(1, false, false), Content(v))
  {
    hide Passes, PrintItems;
    if v.Empty? {
      PlainPasses(Brace(1, false, false), v.space);
    } else {
      ItemsPass(Brace(1, false, false), Object, v.items);
    }
  }

  lemma {:induction false} FirstIsThere(before: string, v: Json, rest: string)
    requires '{' !in before && (v.Empty? || v.Node?) && v.kind == Object
    ensures FirstBrace(before + (Print(v) + rest)) == |before|
    decreases |before|
  {
    hide Print;
    PrintedObject(v);
    var text := before + (Print(v) + rest);
    if before == "" {
      assert text[0] == '{';
    } else {
      assert text[0] == before[0] && text[1..] == before[1..] + (Print(v) + rest);
      FirstIsThere(before[1..], v, rest);
    }
  }

  /** A brace that closes the outermost one behind the first opening brace, and up to which the text is
      valid JSON. */
  ghost predicate EndsObject(text: string, start: nat, i: int, valid: string -> bool) {
    start <= i < |text| && Closes(AfterAll(OUTSIDE, text[start..i]), text[i]) && valid(text[start..i + 1])
  }

  lemma {:induction false} FeedOne(b: Brace, w: string, c: char)
    ensures AfterAll(b, w + [c]) == Feed(AfterAll(b, w), c)
    decreases |w|
  {
    if w == "" {
      assert w + [c] == [c] && [c][1..] == "";
    } else {
      assert (w + [c])[1..] == w[1..] + [c];
      FeedOne(Feed(b, w[0]), w[1..], c);
    }
  }

  /** `r` is the part up to the first such brace at or behind `i`, and empty when there is none. */
  ghost predicate IsFirstObject(text: string, start: nat, i: int, valid: string -> bool, r: string) {
    if exists k :: k >= i && EndsObject(text, start, k, valid)
    then |r| > 0 && start + |r| <= |text| && r == text[start..start + |r|] &&
         EndsObject(text, start, start + |r| - 1, valid) && start + |r| - 1 >= i &&
         forall k :: i <= k < start + |r| - 1 ==> !EndsObject(text, start, k, valid)
    else r == ""
  }

  lemma {:induction false} FoundHere(text: string, start: nat, i: nat, valid: string -> bool)
    requires EndsObject(text, start, i, valid)
    ensures IsFirstObject(text, start, i, valid, text[start..i + 1])
  {
    hide AfterAll, Closes;
    var r := text[start..i + 1];
    assert start + |r| - 1 == i;
  }

  lemma {:induction false} FoundLater(text: string, start: nat, i: nat, valid: string -> bool, r: string)
    requires !EndsObject(text, start, i, valid) && IsFirstObject(text, start, i + 1, valid, r)
    ensures IsFirstObject(text, start, i, valid, r)
  {
    hide EndsObject;
    assert (exists k :: k >= i && EndsObject(text, start, k, valid)) <==>
      exists k :: k >= i + 1 && EndsObject(text, start, k, valid);
  }

  lemma {:induction false} SearchStep(text: string, start: nat, i: nat, valid: string -> bool)
    requires start <= i < |text|
    ensures var b := AfterAll(OUTSIDE, text[start..i]);
      Search(text, start, i, b, valid) ==
        if EndsObject(text, start, i, valid) then text[start..i + 1]
        else Search(text, start, i + 1, AfterAll(OUTSIDE, text[start..i + 1]), valid)
  {
    assert text[start..i + 1] == text[start..i] + [text[i]];
    FeedOne(OUTSIDE, text[start..i], text[i]);
    hide AfterAll, Feed, Closes;
  }

  lemma {:induction false} NothingLeft(text: string, start: nat, valid: string -> bool)
    requires start <= |text|
    ensures IsFirstObject(text, start, |text|, valid, "")
  {}

  lemma {:induction false} SearchIsFirst(text: string, start: nat, i: nat, valid: string -> bool)
    requires start <= i <= |text|
    ensures IsFirstObject(text, start, i, valid, Search(text, start, i, AfterAll(OUTSIDE, text[start..i]), valid))
    decreases |text| - i
  {
    if i < |text| {
      hide AfterAll, Search, EndsObject, IsFirstObject;
      SearchStep(text, start, i, valid);
      if EndsObject(text, start, i, valid) {
        FoundHere(text, start, i, valid);
      } else {
        SearchIsFirst(text, start, i + 1, valid);
        FoundLater(text, start, i, valid, Search(text, start, i + 1, AfterAll(OUTSIDE, text[start..i + 1]), valid));
      }
    } else {
      NothingLeft(text, start, valid);
    }
  }

  /** What is cut out, exactly: the text from the first opening brace to the first brace that closes it and
      makes the part valid; nothing when there is no such brace. */
  lemma {:induction false} ExtractExactly(text: string, start: nat, valid: string -> bool)
    requires start <= |text| && '{' !in text[..start] && (start < |text| ==> text[start] == '{')
    ensures IsFirstObject(text, start, start, valid, Extract(text, valid))
  {
    FirstBraceIs(text);
    var first := FirstBrace(text);
    forall i | 0 <= i < start ensures text[i] != '{' { assert text[i] == text[..start][i]; }
    assert text[start..start] == "" && AfterAll(OUTSIDE, "") == OUTSIDE;
    hide AfterAll, Search, IsFirstObject;
    SearchIsFirst(text, start, start, valid);
  }
}
