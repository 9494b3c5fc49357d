/** Worked inputs for the constructor's identifier scan outside well-formed
    files: the `indexOf(...) + 6` fallback to offset 5 when no `#type` is
    left, the second search starting at the first marker line's newline, and
    the runtime exceptions thrown by `substring` and by the `splitString[1]`
    and `splitString[2]` accesses in the two switches. */
module ShaderExamples {
  import opened Base
  import opened JavaText
  import opened ShaderSource

  /** A stretch without a `'#'` holds no `#type`. */
  lemma HashFreeHasNoMarker(s: string, from: nat, to: nat)
    requires from <= to <= |s| && '#' !in s[from..to]
    ensures NoKeywordIn(s, from, to)
  {
    forall k | from <= k < to
      ensures !OccursAt(s, k, TypeKeyword)
    {
      assert s[k] == s[from..to][k - from];
      if k + |TypeKeyword| <= |s| {
        assert s[k..k + |TypeKeyword|][0] == s[k];
      }
    }
  }

  /** The identifier scan when the next `#type` from `from` is at `o` and
      the next newline after it is at `eol`. */
  lemma IdentifierAtMarker(s: string, from: nat, o: nat, eol: nat)
    requires from <= o && OccursAt(s, o, TypeKeyword) && NoKeywordIn(s, from, o)
    requires o + 6 <= eol < |s| && s[eol] == '\n' && '\n' !in s[o + 6..eol]
    ensures IdentifierAfter(s, from) == Success((Trim(s[o + 6..eol]), eol))
  {
    IndexOfIsFirst(s, TypeKeyword, from, o);
    OccursAtSingle(s, eol, '\n');
    IndexOfIsAt(s, "\n", o + 6, eol);
  }

  /** The identifier scan when no `#type` is left from `from` on: `indexOf`
      yields -1, so the text is read from offset 5 up to the first newline
      after it. */
  lemma IdentifierWithoutMarker(s: string, from: nat, eol: nat)
    requires NoKeywordIn(s, from, |s|)
    requires 5 <= eol < |s| && s[eol] == '\n' && '\n' !in s[5..eol]
    ensures IdentifierAfter(s, from) == Success((Trim(s[5..eol]), eol))
  {
    IndexOfIsFirst(s, TypeKeyword, from, -1);
    OccursAtSingle(s, eol, '\n');
    IndexOfIsAt(s, "\n", 5, eol);
  }

  /** IdentifierAtMarker where no `'#'` precedes the marker. */
  lemma IdentifierAtHashFreeMarker(s: string, from: nat, o: nat, eol: nat)
    requires from <= o && OccursAt(s, o, TypeKeyword) && '#' !in s[from..o]
    requires o + 6 <= eol < |s| && s[eol] == '\n' && '\n' !in s[o + 6..eol]
    ensures IdentifierAfter(s, from) == Success((Trim(s[o + 6..eol]), eol))
  {
    HashFreeHasNoMarker(s, from, o);
    IdentifierAtMarker(s, from, o, eol);
  }

  /** IdentifierWithoutMarker where no `'#'` is left at all. */
  lemma IdentifierWithoutHash(s: string, from: nat, eol: nat)
    requires from <= |s| && '#' !in s[from..]
    requires 5 <= eol < |s| && s[eol] == '\n' && '\n' !in s[5..eol]
    ensures IdentifierAfter(s, from) == Success((Trim(s[5..eol]), eol))
  {
    HashFreeHasNoMarker(s, from, |s|);
    IdentifierWithoutMarker(s, from, eol);
  }

  /** Without any `#type`, both identifiers are read from offset 5. */
  lemma NoMarkerIdentifiers(s: string)
    requires s == "hello world\n"
    ensures StageIdentifiers(s) == Success(("world", "world"))
  {
    assert s[5..11] == " " + "world" + [];
    TrimStripsBothEnds(" ", "world", []);
    IdentifierWithoutHash(s, 0, 11);
    IdentifierWithoutHash(s, 11, 11);
  }

  /** A file without any marker ends in the IllegalStateException: the
      token at offset 5 is unknown to the first switch. */
  lemma NoMarkerIsRejected(filepath: string)
    ensures LoadShader(filepath, Some("hello world\n")) == Failure(IllegalStateException(CouldNotOpenMessage(filepath)))
  {
    NoMarkerIdentifiers("hello world\n");
  }

  /** Trim of a word behind one space, as the fallback to offset 5 reads it
      when a single space follows `#type`. */
  lemma TrimAfterSpace(word: string)
    requires word != [] && IsTrimmed(word)
    ensures Trim(" " + word) == word && Trim(word) == word
  {
    TrimStripsBothEnds(" ", word, []);
    assert " " + word + [] == " " + word;
  }

  /** The layout of the one-marker file `#type foo` + newline + `body`. */
  lemma OneUnknownMarkerLine(s: string)
    requires s == "#type foo\nbody"
    ensures OccursAt(s, 0, TypeKeyword) && s[9] == '\n' && '#' !in s[9..]
    ensures s[6..9] == "foo" && s[5..9] == " " + "foo" && '\n' !in s[5..9]
  {
    assert s[0..5] == TypeKeyword;
  }

  /** One marker: the second search finds no `#type`, falls back to offset
      5 and rereads the first marker line. */
  lemma OneUnknownMarkerIdentifiers(s: string)
    requires s == "#type foo\nbody"
    ensures StageIdentifiers(s) == Success(("foo", "foo"))
  {
    OneUnknownMarkerLine(s);
    TrimAfterSpace("foo");
    IdentifierAtHashFreeMarker(s, 0, 0, 9);
    IdentifierWithoutHash(s, 9, 9);
  }

  /** One marker with an unknown identifier: the IllegalStateException. */
  lemma OneMarkerUnknownToken(filepath: string)
    ensures LoadShader(filepath, Some("#type foo\nbody")) == Failure(IllegalStateException(CouldNotOpenMessage(filepath)))
  {
    OneUnknownMarkerIdentifiers("#type foo\nbody");
  }

  /** The layout of the one-marker file `#type vertex` + newline + `body`. */
  lemma OneVertexMarkerLine(s: string)
    requires s == "#type vertex\nbody"
    ensures OccursAt(s, 0, TypeKeyword) && s[12] == '\n' && '#' !in s[12..]
    ensures s[6..12] == "vertex" && s[5..12] == " " + "vertex" && '\n' !in s[5..12]
  {
    assert s[0..5] == TypeKeyword;
  }

  /** The same with a known identifier: both searches read `vertex`. */
  lemma OneVertexMarkerIdentifiers(s: string)
    requires s == "#type vertex\nbody"
    ensures StageIdentifiers(s) == Success(("vertex", "vertex"))
  {
    OneVertexMarkerLine(s);
    TrimAfterSpace("vertex");
    IdentifierAtHashFreeMarker(s, 0, 0, 12);
    IdentifierWithoutHash(s, 12, 12);
  }

  /** The split of that file: the empty text before the marker and the rest
      after its identifier; there is no segment 2. */
  lemma OneVertexMarkerSplit(s: string)
    requires s == "#type vertex\nbody"
    ensures SplitOnMarkers(s) == ["", "\nbody"]
  {
    assert s[0..5] == TypeKeyword;
    RunEndAt(s, 5, IsSpace, 6);
    RunEndAt(s, 6, IsAsciiLetter, 12);
    assert MarkerAt(s, 0) && MarkerEnd(s, 0) == 12;
    assert '#' !in s[12..];
    forall i | 12 <= i < |s|
      ensures !MarkerAt(s, i)
    {
      assert s[i] == s[12..][i - 12];
    }
    PiecesWithoutMatch(s, 12, 12);
    assert Pieces(s, 0, 0) == [s[0..0], s[12..]];
    assert s[12..] == "\nbody";
  }

  /** One marker with a known identifier: the first switch stores segment 1,
      and the second, reading the same identifier again, indexes segment 2
      of a two-element array and throws ArrayIndexOutOfBoundsException. */
  lemma OneMarkerKnownToken(filepath: string, s: string)
    requires s == "#type vertex\nbody"
    ensures LoadShader(filepath, Some(s)) == Failure(ArrayIndexOutOfBoundsException)
  {
    OneVertexMarkerIdentifiers(s);
    OneVertexMarkerSplit(s);
    DuplicateVertexOverwrites(s);
  }

  /** The first marker line of that file, character by character. */
  lemma StrayMarkerFirstLine(s: string)
    requires s == "#type vertex #type x\n#type fragment\nB"
    ensures OccursAt(s, 0, TypeKeyword) && s[6..20] == "vertex #type x"
  {
    assert s[0..5] == TypeKeyword;
    var first := s[6..20];
    assert forall i :: 0 <= i < 14 ==> first[i] == s[6 + i];
  }

  /** That line's text after the marker is already trimmed. */
  lemma StrayMarkerWord(w: string)
    requires w == "vertex #type x"
    ensures Trim(w) == w && '\n' !in w
  {
  }

  /** The first identifier of that file runs to the end of its line,
      stray `#type` included. */
  lemma StrayMarkerFirstIdentifier(s: string)
    requires s == "#type vertex #type x\n#type fragment\nB"
    ensures IdentifierAfter(s, 0) == Success(("vertex #type x", 20))
  {
    StrayMarkerFirstLine(s);
    StrayMarkerWord(s[6..20]);
    IdentifierAtHashFreeMarker(s, 0, 0, 20);
  }

  /** The second search, from that line's newline, finds the next line's
      marker. */
  lemma StrayMarkerSecondIdentifier(s: string)
    requires s == "#type vertex #type x\n#type fragment\nB"
    ensures IdentifierAfter(s, 20) == Success(("fragment", 35))
  {
    assert s[21..26] == TypeKeyword;
    assert s[27..35] == "fragment";
    IdentifierAtHashFreeMarker(s, 20, 21, 35);
  }

  /** The second search starts at the first marker line's newline: a
      `#type` later on that line belongs to the first identifier, and the
      second identifier comes from the next line's marker. */
  lemma SecondSearchSkipsFirstLine(s: string)
    requires s == "#type vertex #type x\n#type fragment\nB"
    ensures StageIdentifiers(s) == Success(("vertex #type x", "fragment"))
  {
    StrayMarkerFirstIdentifier(s);
    StrayMarkerSecondIdentifier(s);
  }

  /** ... so that file is rejected: its first identifier is not a stage. */
  lemma SecondMarkerOnFirstLineRejected(filepath: string)
    ensures LoadShader(filepath, Some("#type vertex #type x\n#type fragment\nB"))
         == Failure(IllegalStateException(CouldNotOpenMessage(filepath)))
  {
    SecondSearchSkipsFirstLine("#type vertex #type x\n#type fragment\nB");
  }

  /** The identifier scan when a `#type` is found at `o` but no newline
      follows its read position `o + 6` (which may lie past the end):
      `indexOf` yields -1 and `substring` throws. */
  lemma IdentifierWithoutNewline(s: string, from: nat, o: nat)
    requires from <= o && OccursAt(s, o, TypeKeyword) && NoKeywordIn(s, from, o)
    requires forall k :: o + 6 <= k < |s| ==> s[k] != '\n'
    ensures IdentifierAfter(s, from) == Failure(StringIndexOutOfBounds)
  {
    IndexOfIsFirst(s, TypeKeyword, from, o);
    forall k | o + 6 <= k < |s|
      ensures !OccursAt(s, k, "\n")
    {
      OccursAtSingle(s, k, '\n');
    }
    IndexOfIsFirst(s, "\n", o + 6, -1);
  }

  /** The offset-5 fallback with no newline from offset 5 on: `substring`
      gets -1 as its end index and throws. */
  lemma FallbackWithoutNewline(s: string, from: nat)
    requires NoKeywordIn(s, from, |s|)
    requires forall k :: 5 <= k < |s| ==> s[k] != '\n'
    ensures IdentifierAfter(s, from) == Failure(StringIndexOutOfBounds)
  {
    IndexOfIsFirst(s, TypeKeyword, from, -1);
    forall k | 5 <= k < |s|
      ensures !OccursAt(s, k, "\n")
    {
      OccursAtSingle(s, k, '\n');
    }
    IndexOfIsFirst(s, "\n", 5, -1);
  }

  /** A file with neither a marker nor a newline after offset 5 throws
      StringIndexOutOfBoundsException from the first `substring`. */
  lemma NoMarkerNoNewline(filepath: string, s: string)
    requires s == "hello world"
    ensures LoadShader(filepath, Some(s)) == Failure(StringIndexOutOfBoundsException)
  {
    assert '#' !in s;
    HashFreeHasNoMarker(s, 0, |s|);
    assert '\n' !in s;
    FallbackWithoutNewline(s, 0);
  }

  /** A marker line with no newline after it: `substring` gets -1 as its end
      index and throws StringIndexOutOfBoundsException. */
  lemma MarkerWithoutNewline(filepath: string, s: string)
    requires s == "#type vertex"
    ensures LoadShader(filepath, Some(s)) == Failure(StringIndexOutOfBoundsException)
  {
    assert s[0..5] == TypeKeyword;
    assert '\n' !in s;
    IdentifierWithoutNewline(s, 0, 0);
  }
}
