/** The pieces of java.lang.String and java.util.regex that the shader
    constructor relies on: indexOf, substring, trim, and split on the
    stage-marker pattern `(#type)( )+([a-zA-Z]+)`. */
module JavaText {
  import opened Base

  /** `pat` occurs in `s` starting at index `i`. */
  predicate OccursAt(s: string, i: int, pat: string) {
    0 <= i && i + |pat| <= |s| && s[i..i + |pat|] == pat
  }

  /** String.indexOf(pat, from): the least index at or after `from` where
      `pat` occurs, or -1 when there is none. A negative `from` searches the
      whole string. */
  function IndexOf(s: string, pat: string, from: int): (r: int)
    requires pat != []
    decreases if from < 0 then |s| + 1 else |s| - from
    ensures r == -1 || (0 <= r && from <= r && OccursAt(s, r, pat))
  {
    if from < 0 then IndexOf(s, pat, 0)
    else if from >= |s| then -1
    else if OccursAt(s, from, pat) then from
    else IndexOf(s, pat, from + 1)
  }

  /** IndexOf reports -1 exactly when nothing occurs at or after `from`, and
      otherwise no occurrence lies between `from` and the reported one. */
  lemma {:induction false} IndexOfFindsFirst(s: string, pat: string, from: int)
    requires pat != []
    decreases if from < 0 then |s| + 1 else |s| - from
    ensures IndexOf(s, pat, from) == -1 <==> forall k :: from <= k < |s| ==> !OccursAt(s, k, pat)
    ensures IndexOf(s, pat, from) != -1 ==> forall k :: from <= k < IndexOf(s, pat, from) ==> !OccursAt(s, k, pat)
  {
    if from < 0 {
      IndexOfFindsFirst(s, pat, 0);
    } else if from < |s| && !OccursAt(s, from, pat) {
      IndexOfFindsFirst(s, pat, from + 1);
    }
  }

  /** IndexOf is `r` exactly when `r` is the first occurrence at or after
      `from`, or -1 and nothing occurs there: the converse of IndexOfFindsFirst. */
  lemma IndexOfIsFirst(s: string, pat: string, from: int, r: int)
    requires pat != []
    requires r == -1 ==> forall k :: from <= k < |s| ==> !OccursAt(s, k, pat)
    requires r != -1 ==> from <= r && OccursAt(s, r, pat) && forall k :: from <= k < r ==> !OccursAt(s, k, pat)
    ensures IndexOf(s, pat, from) == r
  {
    IndexOfFindsFirst(s, pat, from);
    if r != -1 {
      var q := IndexOf(s, pat, from);
      assert q != -1 by { assert from <= r < |s|; }
      assert !(q < r) && !(r < q);
    }
  }

  /** IndexOf is `r` when the search range up to `r` (up to the end, for -1)
      does not even hold the pattern's first character. */
  lemma IndexOfIsAt(s: string, pat: string, from: nat, r: int)
    requires pat != [] && from <= |s|
    requires r == -1 || (from <= r && OccursAt(s, r, pat))
    requires pat[0] !in s[from..if r == -1 then |s| else r]
    ensures IndexOf(s, pat, from) == r
  {
    var end := if r == -1 then |s| else r;
    IndexOfFindsFirst(s, pat, from);
    forall k | from <= k < end
      ensures !OccursAt(s, k, pat)
    {
      assert s[k] == s[from..end][k - from];
    }
  }

  /** A one-character pattern occurs exactly where that character is. */
  lemma OccursAtSingle(s: string, i: int, c: char)
    ensures OccursAt(s, i, [c]) <==> 0 <= i < |s| && s[i] == c
  {
    if 0 <= i < |s| {
      assert s[i..i + 1] == [s[i]];
    }
  }

  /** String.substring(begin, end): None where Java throws
      StringIndexOutOfBoundsException. */
  function Substring(s: string, begin: int, end: int): (r: Option<string>)
    ensures r.Some? <==> 0 <= begin <= end <= |s|
    ensures r.Some? ==> |r.value| == end - begin
    ensures r.Some? ==> forall k :: 0 <= k < |r.value| ==> r.value[k] == s[begin + k]
  {
    if 0 <= begin <= end <= |s| then Some(s[begin..end]) else None
  }

  /** The characters String.trim removes: every code point up to U+0020. */
  predicate IsTrimmable(c: char) {
    c <= ' '
  }

  /** `s` has nothing trim would remove. */
  predicate IsTrimmed(s: string) {
    s == [] || (!IsTrimmable(s[0]) && !IsTrimmable(s[|s| - 1]))
  }

  /** Where a backward run of trimmable characters ending at `j` starts,
      never going below `lo`. */
  function TrailingStart(s: string, lo: nat, j: nat): (r: nat)
    requires lo <= j <= |s|
    decreases j
    ensures lo <= r <= j
    ensures forall k :: r <= k < j ==> IsTrimmable(s[k])
    ensures r == lo || !IsTrimmable(s[r - 1])
  {
    if lo < j && IsTrimmable(s[j - 1]) then TrailingStart(s, lo, j - 1) else j
  }

  /** String.trim: skip trimmable characters from the front, then from the
      back, and keep what lies between. */
  function Trim(s: string): (r: string)
    ensures IsTrimmed(r)
    ensures |r| <= |s|
    ensures IsTrimmed(s) ==> r == s
  {
    var st := RunEnd(s, 0, IsTrimmable);
    var len := TrailingStart(s, st, |s|);
    s[st..len]
  }

  /** Trim adds no character: a character absent from the input is absent
      from the result. */
  lemma TrimAddsNothing(s: string, c: char)
    requires c !in s
    ensures c !in Trim(s)
  {
    var st := RunEnd(s, 0, IsTrimmable);
    var len := TrailingStart(s, st, |s|);
    assert forall k :: 0 <= k < len - st ==> s[st..len][k] == s[st + k];
  }

  /** Trim removes exactly the trimmable padding on both sides of a word
      whose ends are not trimmable (an all-blank text trims to empty). */
  lemma TrimStripsBothEnds(pre: string, word: string, post: string)
    requires forall k :: 0 <= k < |pre| ==> IsTrimmable(pre[k])
    requires forall k :: 0 <= k < |post| ==> IsTrimmable(post[k])
    requires IsTrimmed(word)
    ensures Trim(pre + word + post) == word
  {
    var s := pre + word + post;
    var e := |pre| + |word|;
    assert forall k :: e <= k < |s| ==> s[k] == post[k - e];
    if word == [] {
      assert forall k :: 0 <= k < |pre| ==> s[k] == pre[k];
      RunEndAt(s, 0, IsTrimmable, |s|);
      assert s[|s|..|s|] == word;
    } else {
      assert s[|pre|] == word[0];
      assert forall k :: 0 <= k < |pre| ==> s[k] == pre[k];
      RunEndAt(s, 0, IsTrimmable, |pre|);
      assert s[e - 1] == word[|word| - 1];
      TrailingStartAt(s, |pre|, |s|, e);
      assert s[|pre|..e] == word;
    }
  }

  /** A backward run is determined by where it starts. */
  lemma {:induction false} TrailingStartAt(s: string, lo: nat, j: nat, b: nat)
    requires lo <= b <= j <= |s|
    requires forall k :: b <= k < j ==> IsTrimmable(s[k])
    requires b == lo || !IsTrimmable(s[b - 1])
    ensures TrailingStart(s, lo, j) == b
    decreases j
  {
    if b < j {
      TrailingStartAt(s, lo, j - 1, b);
    }
  }

  /** Trim removes exactly the padding in front of a word whose ends are not
      trimmable. */
  lemma TrimPadded(pad: string, word: string)
    requires forall k :: 0 <= k < |pad| ==> IsTrimmable(pad[k])
    requires word != [] && IsTrimmed(word)
    ensures Trim(pad + word) == word
  {
    TrimStripsBothEnds(pad, word, []);
    assert pad + word + [] == pad + word;
  }

  /** The end of the run of characters satisfying `p` that starts at `j`. */
  function RunEnd(s: string, j: nat, p: char -> bool): (r: nat)
    requires j <= |s|
    decreases |s| - j
    ensures j <= r <= |s|
    ensures forall k :: j <= k < r ==> p(s[k])
    ensures r == |s| || !p(s[r])
  {
    if j < |s| && p(s[j]) then RunEnd(s, j + 1, p) else j
  }

  /** A run is determined by where it stops. */
  lemma RunEndAt(s: string, j: nat, p: char -> bool, e: nat)
    requires j <= e <= |s|
    requires forall k :: j <= k < e ==> p(s[k])
    requires e == |s| || !p(s[e])
    ensures RunEnd(s, j, p) == e
  {
  }

  const TypeKeyword: string := "#type"

  /** No `#type` keyword starts at an index in [from, to). */
  predicate NoKeywordIn(s: string, from: int, to: int) {
    forall k :: from <= k < to ==> !OccursAt(s, k, TypeKeyword)
  }

  predicate IsSpace(c: char) {
    c == ' '
  }

  /** The regex character class `[a-zA-Z]`. */
  predicate IsAsciiLetter(c: char) {
    'a' <= c <= 'z' || 'A' <= c <= 'Z'
  }

  /** The pattern `(#type)( )+([a-zA-Z]+)` matches at index `i`. The greedy
      space run can only be followed by a letter if the longest run is, so
      backtracking never finds another match. */
  predicate MarkerAt(s: string, i: nat) {
    && OccursAt(s, i, TypeKeyword)
    && i + 5 < |s|
    && s[i + 5] == ' '
    && var k := RunEnd(s, i + 5, IsSpace);
    k < |s| && IsAsciiLetter(s[k])
  }

  /** Where the match found at `i` ends: after the longest run of spaces and
      then the longest run of letters. */
  function MarkerEnd(s: string, i: nat): (r: nat)
    requires MarkerAt(s, i)
    ensures i + 7 <= r <= |s|
    ensures RunEnd(s, i + 5, IsSpace) < r
    ensures forall k :: RunEnd(s, i + 5, IsSpace) <= k < r ==> IsAsciiLetter(s[k])
    ensures r == |s| || !IsAsciiLetter(s[r])
  {
    RunEnd(s, RunEnd(s, i + 5, IsSpace), IsAsciiLetter)
  }

  /** No match of the marker pattern starts in [from, |s|). */
  predicate NoMarkerFrom(s: string, from: nat) {
    forall i :: from <= i < |s| ==> !MarkerAt(s, i)
  }

  /** The pieces Pattern.split collects before trailing empty pieces are
      dropped: the text from `segStart` up to each match found by scanning
      from `from`, and finally the remainder. */
  function Pieces(s: string, from: nat, segStart: nat): (r: seq<string>)
    requires segStart <= from <= |s|
    decreases |s| - from
    ensures |r| >= 1
  {
    if from == |s| then [s[segStart..]]
    else if MarkerAt(s, from) then
      [s[segStart..from]] + Pieces(s, MarkerEnd(s, from), MarkerEnd(s, from))
    else Pieces(s, from + 1, segStart)
  }

  /** Pieces yields a single piece, the rest of the text, exactly when no
      match is left to find. */
  lemma {:induction false} PiecesWithoutMatch(s: string, from: nat, segStart: nat)
    requires segStart <= from <= |s|
    decreases |s| - from
    ensures |Pieces(s, from, segStart)| == 1 <==> NoMarkerFrom(s, from)
    ensures |Pieces(s, from, segStart)| == 1 ==> Pieces(s, from, segStart) == [s[segStart..]]
  {
    if from < |s| {
      PiecesWithoutMatch(s, from + 1, segStart);
      if MarkerAt(s, from) {
        PiecesWithoutMatch(s, MarkerEnd(s, from), MarkerEnd(s, from));
      }
    }
  }

  /** Removes the empty strings at the end of a list (split with limit 0). */
  function DropTrailingEmpty(p: seq<string>): (r: seq<string>)
    ensures |r| <= |p| && r == p[..|r|]
    ensures r == [] || r[|r| - 1] != []
    ensures forall k :: |r| <= k < |p| ==> p[k] == []
  {
    if p != [] && p[|p| - 1] == [] then DropTrailingEmpty(p[..|p| - 1]) else p
  }

  /** String.split("(#type)( )+([a-zA-Z]+)"): the text between successive
      matches; the input itself when nothing matches; otherwise the leading
      piece is kept even when empty and the trailing empty pieces are
      dropped. */
  function SplitOnMarkers(s: string): (r: seq<string>)
    ensures r != [s] ==> r == [] || r[|r| - 1] != []
  {
    var p := Pieces(s, 0, 0);
    if |p| == 1 then [s] else DropTrailingEmpty(p)
  }

  /** A text without a match splits into itself alone. */
  lemma SplitWithoutMatch(s: string)
    requires NoMarkerFrom(s, 0)
    ensures SplitOnMarkers(s) == [s]
  {
    PiecesWithoutMatch(s, 0, 0);
  }
}
