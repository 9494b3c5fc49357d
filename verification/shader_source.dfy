/** The parsing half of the `Shader(String filepath)` constructor: split the
    combined source on the stage markers, read the two stage identifiers by a
    separate scan of the raw text, and assign segment 1 and segment 2 to the
    stages those identifiers name. */
module ShaderSource {
  import opened Base
  import opened JavaText

  const VertexIdentifier: string := "vertex"
  const FragmentIdentifier: string := "fragment"

  /** The identifiers the two `switch` statements accept. */
  predicate IsStageIdentifier(id: string) {
    id == VertexIdentifier || id == FragmentIdentifier
  }

  /** The two nullable source fields of a Shader. */
  datatype Stages = Stages(vertexSource: Option<string>, fragmentSource: Option<string>)

  /** What can go wrong while parsing: the IOException raised for an unknown
      identifier, and the two runtime exceptions a malformed file provokes. */
  datatype ParseFault =
    | UnexpectedToken(token: string)
    | StringIndexOutOfBounds
    | ArrayIndexOutOfBounds

  /** The exceptions that escape the constructor. */
  datatype ShaderException =
    | IllegalStateException(message: string)
    | StringIndexOutOfBoundsException
    | ArrayIndexOutOfBoundsException

  /** A constructed Shader: its path and its two stage sources (None is null).
      The program handle is only touched by `compile`, which is not modelled. */
  datatype Shader = Shader(filepath: string, vertexShaderSource: Option<string>, fragmentShaderSource: Option<string>)

  /** The message of the IllegalStateException thrown for every IOException. */
  function CouldNotOpenMessage(filepath: string): string {
    "ERROR: Could not open file for shader: '" + filepath + "'"
  }

  /** The identifier after one `#type`: from six characters past the keyword
      up to the next newline, trimmed. Also returns the newline's index, where
      the search for the next `#type` starts. */
  function IdentifierAfter(source: string, from: int): (r: Result<(string, int), ParseFault>)
    ensures r.Failure? ==> r.error == StringIndexOutOfBounds
    ensures r.Success? ==> IsTrimmed(r.value.0)
    ensures r.Success? ==> '\n' !in r.value.0
    ensures r.Success? ==> 0 <= r.value.1 < |source| && source[r.value.1] == '\n'
  {
    var index := IndexOf(source, TypeKeyword, from) + 6;
    var eolIndex := IndexOf(source, "\n", index);
    match Substring(source, index, eolIndex)
    case None => Failure(StringIndexOutOfBounds)
    case Some(raw) =>
      NoNewlineBefore(source, index, eolIndex);
      assert forall k :: 0 <= k < |raw| ==> raw[k] == source[index + k];
      TrimAddsNothing(raw, '\n');
      OccursAtSingle(source, eolIndex, '\n');
      Success((Trim(raw), eolIndex))
  }

  /** Between `index` and the next newline there is no newline. */
  lemma NoNewlineBefore(source: string, index: int, eolIndex: int)
    requires 0 <= index <= eolIndex
    requires eolIndex == IndexOf(source, "\n", index)
    ensures forall k :: index <= k < eolIndex ==> source[k] != '\n'
  {
    IndexOfFindsFirst(source, "\n", index);
    forall k | index <= k < eolIndex
      ensures source[k] != '\n'
    {
      OccursAtSingle(source, k, '\n');
    }
  }

  /** The two stage identifiers the constructor reads with `indexOf` and
      `substring` before its switches, the second searched from the
      end of the first marker line. */
  function StageIdentifiers(source: string): (r: Result<(string, string), ParseFault>)
    ensures r.Failure? ==> r.error == StringIndexOutOfBounds
    ensures r.Success? ==> IsTrimmed(r.value.0) && IsTrimmed(r.value.1)
    ensures r.Success? ==> '\n' !in r.value.0 && '\n' !in r.value.1
  {
    var (first, eol) :- IdentifierAfter(source, 0);
    var (second, _) :- IdentifierAfter(source, eol);
    Success((first, second))
  }

  /** One of the constructor's two `switch` statements: store `segments[k]` in the stage `ident`
      names, overwriting what was there, or fail. */
  function AssignStage(st: Stages, ident: string, segments: seq<string>, k: nat): (r: Result<Stages, ParseFault>)
    ensures !IsStageIdentifier(ident) ==> r == Failure(UnexpectedToken(ident))
    ensures IsStageIdentifier(ident) && k >= |segments| ==> r == Failure(ArrayIndexOutOfBounds)
    ensures IsStageIdentifier(ident) && k < |segments| ==> r.Success?
    ensures r.Success? ==> k < |segments|
    ensures r.Success? && ident == VertexIdentifier ==>
      r.value.vertexSource == Some(segments[k]) && r.value.fragmentSource == st.fragmentSource
    ensures r.Success? && ident == FragmentIdentifier ==>
      r.value.fragmentSource == Some(segments[k]) && r.value.vertexSource == st.vertexSource
  {
    if ident == VertexIdentifier then
      if k < |segments| then Success(st.(vertexSource := Some(segments[k]))) else Failure(ArrayIndexOutOfBounds)
    else if ident == FragmentIdentifier then
      if k < |segments| then Success(st.(fragmentSource := Some(segments[k]))) else Failure(ArrayIndexOutOfBounds)
    else Failure(UnexpectedToken(ident))
  }

  /** Both switches: segment 1 goes to the first identifier's stage, then
      segment 2 to the second's. */
  function Classify(first: string, second: string, segments: seq<string>): (r: Result<Stages, ParseFault>)
    ensures r.Success? ==> IsStageIdentifier(first) && IsStageIdentifier(second) && |segments| >= 3
    ensures r.Success? ==> r.value.vertexSource in {None, Some(segments[1]), Some(segments[2])}
    ensures r.Success? ==> r.value.fragmentSource in {None, Some(segments[1]), Some(segments[2])}
    ensures r.Success? ==> r.value.vertexSource.Some? || r.value.fragmentSource.Some?
    ensures r.Success? <==> IsStageIdentifier(first) && IsStageIdentifier(second) && |segments| >= 3
    // On success the second switch wins a stage both identifiers name.
    ensures r.Success? ==>
              r.value.vertexSource == (if second == VertexIdentifier then Some(segments[2])
                                       else if first == VertexIdentifier then Some(segments[1])
                                       else None)
    ensures r.Success? ==>
              r.value.fragmentSource == (if second == FragmentIdentifier then Some(segments[2])
                                         else if first == FragmentIdentifier then Some(segments[1])
                                         else None)
    // The failures, in the order the two switches meet them.
    ensures !IsStageIdentifier(first) ==> r == Failure(UnexpectedToken(first))
    ensures IsStageIdentifier(first) && |segments| < 2 ==> r == Failure(ArrayIndexOutOfBounds)
    ensures IsStageIdentifier(first) && |segments| >= 2 && !IsStageIdentifier(second) ==>
      r == Failure(UnexpectedToken(second))
    ensures IsStageIdentifier(first) && IsStageIdentifier(second) && |segments| == 2 ==>
      r == Failure(ArrayIndexOutOfBounds)
  {
    var afterFirst :- AssignStage(Stages(None, None), first, segments, 1);
    AssignStage(afterFirst, second, segments, 2)
  }

  /** The constructor's `try` block on the text of the file: split, read
      both identifiers, then the two switches. */
  function ParseStages(source: string): (r: Result<Stages, ParseFault>)
    ensures r.Success? ==> |SplitOnMarkers(source)| >= 3
  {
    var segments := SplitOnMarkers(source);
    var (first, second) :- StageIdentifiers(source);
    Classify(first, second, segments)
  }

  /** The constructor. `contents` is the text `Files.readAllBytes` produced,
      or None when the read threw an IOException; a path `Paths.get` rejects
      is outside the model. Every IOException, the read failure as well
      as an unknown identifier, becomes the same IllegalStateException; the
      runtime exceptions escape unchanged. */
  function LoadShader(filepath: string, contents: Option<string>): (r: Result<Shader, ShaderException>)
    ensures contents.None? ==> r == Failure(IllegalStateException(CouldNotOpenMessage(filepath)))
    ensures r.Failure? && r.error.IllegalStateException? ==> r.error.message == CouldNotOpenMessage(filepath)
    ensures r.Success? ==> contents.Some? && r.value.filepath == filepath
    ensures r.Success? ==> r.value.vertexShaderSource.Some? || r.value.fragmentShaderSource.Some?
  {
    match contents
    case None => Failure(IllegalStateException(CouldNotOpenMessage(filepath)))
    case Some(source) =>
      match ParseStages(source)
      case Success(st) => Success(Shader(filepath, st.vertexSource, st.fragmentSource))
      case Failure(UnexpectedToken(_)) => Failure(IllegalStateException(CouldNotOpenMessage(filepath)))
      case Failure(StringIndexOutOfBounds) => Failure(StringIndexOutOfBoundsException)
      case Failure(ArrayIndexOutOfBounds) => Failure(ArrayIndexOutOfBoundsException)
  }

  /** An unknown first identifier fails exactly like an unreadable file: no
      stage is assigned and the same IllegalStateException naming the path
      escapes. */
  lemma UnknownFirstIdentifierFails(filepath: string, source: string)
    requires StageIdentifiers(source).Success?
    requires !IsStageIdentifier(StageIdentifiers(source).value.0)
    ensures ParseStages(source) == Failure(UnexpectedToken(StageIdentifiers(source).value.0))
    ensures LoadShader(filepath, Some(source)) == LoadShader(filepath, None)
    ensures LoadShader(filepath, Some(source)) == Failure(IllegalStateException(CouldNotOpenMessage(filepath)))
  {
  }

  /** An unknown second identifier fails the construction too, although the
      first switch has already stored segment 1; with fewer than two segments
      that first store is what fails. */
  lemma UnknownSecondIdentifierFails(filepath: string, source: string)
    requires StageIdentifiers(source).Success?
    requires IsStageIdentifier(StageIdentifiers(source).value.0)
    requires !IsStageIdentifier(StageIdentifiers(source).value.1)
    ensures |SplitOnMarkers(source)| >= 2 ==>
      && AssignStage(Stages(None, None), StageIdentifiers(source).value.0, SplitOnMarkers(source), 1).Success?
      && ParseStages(source) == Failure(UnexpectedToken(StageIdentifiers(source).value.1))
      && LoadShader(filepath, Some(source)) == Failure(IllegalStateException(CouldNotOpenMessage(filepath)))
    ensures |SplitOnMarkers(source)| < 2 ==>
      LoadShader(filepath, Some(source)) == Failure(ArrayIndexOutOfBoundsException)
  {
  }

  /** Two `vertex` identifiers: segment 2 overwrites segment 1 in the vertex
      stage and the fragment stage stays null; a split with fewer than three
      segments fails on the array access instead. */
  lemma DuplicateVertexOverwrites(source: string)
    requires StageIdentifiers(source) == Success((VertexIdentifier, VertexIdentifier))
    ensures |SplitOnMarkers(source)| >= 3 ==>
      ParseStages(source) == Success(Stages(Some(SplitOnMarkers(source)[2]), None))
    ensures |SplitOnMarkers(source)| < 3 ==> ParseStages(source) == Failure(ArrayIndexOutOfBounds)
  {
  }

  /** Two `fragment` identifiers: the mirror image. */
  lemma DuplicateFragmentOverwrites(source: string)
    requires StageIdentifiers(source) == Success((FragmentIdentifier, FragmentIdentifier))
    ensures |SplitOnMarkers(source)| >= 3 ==>
      ParseStages(source) == Success(Stages(None, Some(SplitOnMarkers(source)[2])))
    ensures |SplitOnMarkers(source)| < 3 ==> ParseStages(source) == Failure(ArrayIndexOutOfBounds)
  {
  }

  /** Only segments 1 and 2 reach a stage: the text before the first marker
      (segment 0) and everything after a third marker never matter. */
  lemma OnlySegmentsOneAndTwoMatter(first: string, second: string, segments: seq<string>, others: seq<string>)
    requires |segments| >= 3 && |others| >= 3
    requires segments[1] == others[1] && segments[2] == others[2]
    ensures Classify(first, second, segments) == Classify(first, second, others)
  {
  }
}
