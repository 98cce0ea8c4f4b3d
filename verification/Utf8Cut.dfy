/** Cutting byte strings at UTF-8 character boundaries.

    The same decrementing loop occurs in internal/review/formatter.go, internal/store/sqlite.go and
    internal/e2e/formatter.go.  Well-formedness is the grammar of section 4 of RFC 3629. */
module Utf8Cut {

  newtype byte = b: int | 0 <= b < 256

  type bytes = seq<byte>

  predicate IsTail(b: byte) { 0x80 <= b <= 0xBF }

  predicate RuneStart(b: byte) { !IsTail(b) }

  /** Range of the second byte that may follow the first (UTF8-3 and UTF8-4 of the grammar). */
  predicate SecondByte(first: byte, b: byte) {
    if first == 0xE0 then 0xA0 <= b <= 0xBF
    else if first == 0xED then 0x80 <= b <= 0x9F
    else if first == 0xF0 then 0x90 <= b <= 0xBF
    else if first == 0xF4 then 0x80 <= b <= 0x8F
    else IsTail(b)
  }

  /** Bytes announced by a leading byte; 0 when no character starts with it. */
  function Announced(first: byte): nat {
    if first <= 0x7F then 1
    else if 0xC2 <= first <= 0xDF then 2
    else if 0xE0 <= first <= 0xEF then 3
    else if 0xF0 <= first <= 0xF4 then 4
    else 0
  }

  predicate StartsWithChar(s: bytes) {
    s != [] &&
    var n := Announced(s[0]);
    && 0 < n <= |s|
    && (n > 1 ==> SecondByte(s[0], s[1]))
    && (forall i :: 1 < i < n ==> IsTail(s[i]))
  }

  predicate ValidUtf8(s: bytes) {
    s == [] || (StartsWithChar(s) && ValidUtf8(s[Announced(s[0])..]))
  }

  /** In valid text the valid prefixes are exactly those that end before a leading byte. */
  lemma {:induction false} ValidPrefixes(s: bytes, k: nat)
    requires ValidUtf8(s) && k <= |s|
    ensures ValidUtf8(s[..k]) <==> k == |s| || RuneStart(s[k])
    decreases |s|
  {
    if s != [] {
      var n := Announced(s[0]);
      if k == 0 {
        assert RuneStart(s[0]);
      } else if k < n {
        assert IsTail(s[k]);
        assert s[..k][0] == s[0];
      } else {
        ValidPrefixes(s[n..], k - n);
        assert s[..k][n..] == s[n..][..k - n];
        assert StartsWithChar(s[..k]);
      }
    }
  }

  /** A leading byte is never more than three bytes away. */
  lemma {:induction false} BoundaryIsNear(s: bytes, k: nat)
    requires ValidUtf8(s) && k < |s|
    ensures RuneStart(s[k]) || (k >= 1 && RuneStart(s[k - 1])) || (k >= 2 && RuneStart(s[k - 2]))
            || (k >= 3 && RuneStart(s[k - 3]))
    decreases |s|
  {
    var n := Announced(s[0]);
    assert RuneStart(s[0]);
    if k >= n {
      BoundaryIsNear(s[n..], k - n);
    }
  }

  lemma {:induction false} ValidConcat(a: bytes, b: bytes)
    requires ValidUtf8(a) && ValidUtf8(b)
    ensures ValidUtf8(a + b)
    decreases |a|
  {
    if a == [] {
      assert a + b == b;
    } else {
      var n, ab := Announced(a[0]), a + b;
      ValidConcat(a[n..], b);
      assert ab[n..] == a[n..] + b && ab[0] == a[0];
      assert StartsWithChar(ab) by {
        assert forall i :: 0 <= i < n ==> ab[i] == a[i];
      }
    }
  }

  /** `r` is the longest valid UTF-8 prefix of `s` with at most `limit` bytes. */
  ghost predicate IsLongestValidPrefix(r: bytes, s: bytes, limit: nat) {
    && r <= s && |r| <= limit && ValidUtf8(r)
    && forall k :: |r| < k <= limit && k <= |s| ==> !ValidUtf8(s[..k])
  }

  /** On any bytes: `r` goes up to the last position within the limit where no byte from 0x80 to 0xBF
      stands. */
  ghost predicate IsCutAt(r: bytes, s: bytes, limit: nat) {
    && r <= s && |r| <= limit < |s| && (r != [] ==> !(0x80 <= s[|r|] <= 0xBF))
    && forall k :: |r| < k <= limit ==> 0x80 <= s[k] <= 0xBF
  }

  /** truncateToUTF8 and truncateUTF8: the two copies are the same loop. */
  method TruncateToUtf8(s: bytes, maxBytes: nat) returns (r: bytes)
    ensures r <= s
    ensures |s| > maxBytes ==> IsCutAt(r, s, maxBytes)
    ensures |s| <= maxBytes ==> r == s
    ensures |s| > maxBytes ==> |r| <= maxBytes
    ensures ValidUtf8(s) ==> IsLongestValidPrefix(r, s, maxBytes)
    ensures ValidUtf8(s) && |s| > maxBytes ==> |r| + 3 >= maxBytes
  {
    if |s| <= maxBytes {
      assert s[..|s|] == s;
      return s;
    }
    var n := maxBytes;
    while n > 0 && !RuneStart(s[n])
      invariant 0 <= n <= maxBytes
      invariant forall k :: n < k <= maxBytes ==> !RuneStart(s[k])
    {
      n := n - 1;
    }
    r := s[..n];
    if ValidUtf8(s) {
      forall k | n <= k <= maxBytes ensures ValidUtf8(s[..k]) <==> RuneStart(s[k]) {
        ValidPrefixes(s, k);
      }
      BoundaryIsNear(s, maxBytes);
      assert n == 0 ==> s[..n] == [];
    }
  }

  // ---- The callers whose output has a length limit --------------------------------------------

  const FREE_TEXT_LIMIT := 2048

  /** The notice appended to a shortened comment: two line feeds, then a parenthesised remark in
      characters of three bytes. */
  const NOTICE_LEAD: bytes := [0x0A, 0x0A, 0x5F]
  const NOTICE_CONTENT: bytes := [0xEF, 0xBC, 0x88, 0xE5, 0x86, 0x85, 0xE5, 0xAE, 0xB9]
  const NOTICE_TOO_LONG: bytes := [0xE8, 0xBF, 0x87, 0xE9, 0x95, 0xBF, 0xEF, 0xBC, 0x8C]
  const NOTICE_CUT: bytes := [0xE5, 0xB7, 0xB2, 0xE6, 0x88, 0xAA, 0xE6, 0x96, 0xAD]
  const NOTICE_END: bytes := [0xEF, 0xBC, 0x89, 0x5F]

  const TRUNC_MSG: bytes := NOTICE_LEAD + (NOTICE_CONTENT + (NOTICE_TOO_LONG + (NOTICE_CUT + NOTICE_END)))

  /** "...(truncated)" */
  const TRUNC_SUFFIX: bytes :=
    [0x2E, 0x2E, 0x2E, 0x28, 0x74, 0x72, 0x75, 0x6E, 0x63, 0x61, 0x74, 0x65, 0x64, 0x29]

  const ELLIPSIS: bytes := [0xE2, 0x80, 0xA6]

  /** `r` is a cut of `s` at `limit` bytes, followed by `suffix`; of a valid text the longest valid one. */
  ghost predicate IsShortened(r: bytes, s: bytes, limit: nat, suffix: bytes) {
    && |suffix| <= |r| <= limit + |suffix|
    && r[|r| - |suffix|..] == suffix
    && var cut := r[..|r| - |suffix|];
    && IsCutAt(cut, s, limit)
    && (ValidUtf8(s) ==> IsLongestValidPrefix(cut, s, limit))
  }

  predicate IsThree(a: byte, b: byte, c: byte) { 0xE1 <= a <= 0xEF && a != 0xED && IsTail(b) && IsTail(c) }

  /** A character of three bytes in front of valid text. */
  lemma {:induction false} ThreeBytes(a: byte, b: byte, c: byte, rest: bytes)
    requires IsThree(a, b, c) && ValidUtf8(rest)
    ensures ValidUtf8([a, b, c] + rest)
  {
    var s := [a, b, c] + rest;
    assert s[3..] == rest && StartsWithChar(s);
  }

  lemma {:induction false} ThreeChars(s: bytes)
    requires |s| == 9 && IsThree(s[0], s[1], s[2]) && IsThree(s[3], s[4], s[5]) && IsThree(s[6], s[7], s[8])
    ensures ValidUtf8(s)
  {
    assert ValidUtf8([]);
    hide ValidUtf8;
    assert s[6..] == [s[6], s[7], s[8]] + [] && s[3..] == [s[3], s[4], s[5]] + s[6..] &&
      s == [s[0], s[1], s[2]] + s[3..];
    ThreeBytes(s[6], s[7], s[8], []);
    ThreeBytes(s[3], s[4], s[5], s[6..]);
    ThreeBytes(s[0], s[1], s[2], s[3..]);
  }

  lemma {:induction false} NoticeIsValid()
    ensures ValidUtf8(TRUNC_MSG)
  {
    AsciiIsValid(NOTICE_LEAD);
    AsciiIsValid([0x5F]);
    hide ValidUtf8;
    ThreeChars(NOTICE_CONTENT);
    ThreeChars(NOTICE_TOO_LONG);
    ThreeChars(NOTICE_CUT);
    ThreeBytes(0xEF, 0xBC, 0x89, [0x5F]);
    assert NOTICE_END == [0xEF, 0xBC, 0x89] + [0x5F];
    ValidConcat(NOTICE_CUT, NOTICE_END);
    ValidConcat(NOTICE_TOO_LONG, NOTICE_CUT + NOTICE_END);
    ValidConcat(NOTICE_CONTENT, NOTICE_TOO_LONG + (NOTICE_CUT + NOTICE_END));
    ValidConcat(NOTICE_LEAD, NOTICE_CONTENT + (NOTICE_TOO_LONG + (NOTICE_CUT + NOTICE_END)));
  }

  /** The last lines of formatCommentBody (`limit` = 8000) and of formatReviewBody when the review
      could be parsed (`limit` = 60000). */
  method LimitWithNotice(full: bytes, limit: nat) returns (r: bytes)
    requires limit >= |TRUNC_MSG|
    ensures |r| <= limit
    ensures ValidUtf8(full) ==> ValidUtf8(r)
    ensures |full| <= limit ==> r == full
    ensures |full| > limit ==> IsShortened(r, full, limit - |TRUNC_MSG|, TRUNC_MSG)
    ensures |full| > limit && ValidUtf8(full) ==> |r| + 3 >= limit
  {
    r := full;
    if |r| > limit {
      var cut := TruncateToUtf8(r, limit - |TRUNC_MSG|);
      r := cut + TRUNC_MSG;
      assert r[..|r| - |TRUNC_MSG|] == cut;
      if ValidUtf8(full) {
        NoticeIsValid();
        ValidConcat(cut, TRUNC_MSG);
      }
    }
  }

  /** truncateFreeText, the cap on free text columns. */
  method TruncateFreeText(s: bytes) returns (r: bytes)
    ensures |r| <= 2048 + |TRUNC_SUFFIX|
    ensures |s| <= 2048 ==> r == s
    ensures |s| > 2048 ==> IsShortened(r, s, 2048, TRUNC_SUFFIX)
    ensures ValidUtf8(s) ==> ValidUtf8(r)
  {
    if |s| <= FREE_TEXT_LIMIT {
      return s;
    }
    var limit := FREE_TEXT_LIMIT;
    while limit > 0 && !RuneStart(s[limit])
      invariant 0 <= limit <= FREE_TEXT_LIMIT
      invariant forall k :: limit < k <= FREE_TEXT_LIMIT ==> !RuneStart(s[k])
    {
      limit := limit - 1;
    }
    var cut := s[..limit];
    r := cut + TRUNC_SUFFIX;
    assert r[..|r| - |TRUNC_SUFFIX|] == cut;
    if ValidUtf8(s) {
      forall k | limit <= k <= FREE_TEXT_LIMIT ensures ValidUtf8(s[..k]) <==> RuneStart(s[k]) {
        ValidPrefixes(s, k);
      }
      assert limit == 0 ==> cut == [];
      SuffixIsValid();
      ValidConcat(cut, TRUNC_SUFFIX);
    }
  }

  lemma SuffixIsValid()
    ensures ValidUtf8(TRUNC_SUFFIX)
  {
    AsciiIsValid(TRUNC_SUFFIX);
  }

  lemma {:induction false} AsciiIsValid(s: bytes)
    requires forall i :: 0 <= i < |s| ==> s[i] <= 0x7F
    ensures ValidUtf8(s)
  {
    if s != [] { AsciiIsValid(s[1..]); }
  }

  /** truncateString appends a three byte ellipsis after the cut, so a shortened result can pass the
      limit it was given, by at most three bytes. */
  method TruncateString(s: bytes, maxBytes: nat) returns (r: bytes)
    ensures |s| <= maxBytes ==> r == s
    ensures |s| > maxBytes ==> IsShortened(r, s, maxBytes, ELLIPSIS)
    ensures |s| > maxBytes && ValidUtf8(s) ==> maxBytes <= |r| <= maxBytes + 3
    ensures ValidUtf8(s) ==> ValidUtf8(r)
  {
    if |s| <= maxBytes {
      return s;
    }
    var cut := TruncateToUtf8(s, maxBytes);
    r := cut + ELLIPSIS;
    assert r[..|r| - 3] == cut;
    if ValidUtf8(s) {
      ThreeBytes(0xE2, 0x80, 0xA6, []);
      assert ELLIPSIS == [0xE2, 0x80, 0xA6] + [];
      ValidConcat(cut, ELLIPSIS);
    }
  }
}
