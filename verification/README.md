# Shader source splitting and mouse input state, in Dafny

This project models two pieces of a small Java game engine.

- **The parsing half of the `Shader` constructor.** It reads a combined GLSL file and
  splits it on the regular expression `(#type)( )+([a-zA-Z]+)`. It then finds the
  identifier after each of the first two `#type` markers with `indexOf`,
  `substring` and `trim`. It assigns segment 1 or 2 of the split to the vertex or
  the fragment stage according to that identifier. An unknown identifier, or a
  file that cannot be read, ends in an `IllegalStateException` that carries the
  file path.
- **`MouseListener`.** This is the singleton that GLFW callbacks update. It tracks
  the cursor position and the position before the latest cursor callback or
  `endFrame`, whichever came last, the scroll
  offsets, three button flags and a drag flag. The game loop clears the
  per-frame values with `endFrame`.

Modules:

- `Base` (`base.dfy`): the `Option` and `Result` wrappers.
- `JavaText` (`java_text.dfy`): the `java.lang.String` operations the constructor
  uses. These are `indexOf(String, int)`, `substring`, `trim`, and `split` with
  the constructor's own regular expression. `split` follows Java's limit-0 rules:
  leftmost matches, the leading empty piece kept, trailing empty pieces removed,
  and the whole input returned when nothing matches.
- `ShaderSource` (`shader_source.dfy`): the constructor's parse as a total
  function, `LoadShader`. Every way the parse of the read text can end is an
  explicit outcome: the
  `Shader` it builds, the `IllegalStateException` it throws, or one of the
  runtime exceptions it does not catch. These are
  `StringIndexOutOfBoundsException` when `substring` gets bad bounds (no newline
  after the place the identifier is read from), and
  `ArrayIndexOutOfBoundsException` when a known identifier selects a segment the
  split does not have.
- `ShaderFile` (`shader_file.dfy`): an independent description of a well-formed
  combined file. It has a preamble, then two sections
  `#type<spaces><identifier>\n<body>` whose bodies do not contain `#type`. It
  gives a reference reading of such a file, in which the last marker naming a
  stage supplies that stage's text. It proves that the constructor's split,
  identifier scan and stage assignment agree with that reading on every such
  file.
- `ShaderExamples` (`shader_examples.dfy`): the identifier scan outside
  well-formed files, both as general lemmas (a marker found or none left, with or
  without a newline after the read position) and on
  concrete texts showing each way the constructor can end.
- `MouseListener` (`mouse_listener.dfy`): the listener state as an immutable
  record. Each callback is a function from the old state to the new one, and
  every contract is stated through the public getters.
- `MouseProperties` (`mouse_properties.dfy`): properties of sequences of
  callbacks. The main one is that, in every state reachable from the
  constructor, the listener reports dragging only while some button is held.

Some behaviours of the code deserve a note. A missing marker is not detected as
such. When no `#type` is left, `indexOf` returns -1, so the identifier is read
from offset `-1 + 6 = 5` up to the next newline. What happens next depends on
what is found there:

- no newline after the read position: `substring` throws
  `StringIndexOutOfBoundsException`;
- a token that is not `vertex` or `fragment`: the `default` branch throws an
  `IOException`, which becomes the `IllegalStateException`;
- a known token whose segment the split lacks: `ArrayIndexOutOfBoundsException`.

The two runtime exceptions escape the `catch (IOException …)` block, and the model
follows the code in this. The second search starts at the first marker line's
newline, so a second `#type` on that line is part of the first identifier. The
scroll callback overwrites
the offsets rather than adding to them. `getDx`/`getDy` return
`last − current`. Two markers that name the same stage leave the other stage
unset, which is not an error.

## Model

| member | source | states |
|---|---|---|
| JavaText.IndexOf | src/main/java/org/engine/renderer/Shader.java:46-52 | the result is -1 or a position at or after the (clamped) start index where the pattern occurs |
| JavaText.IndexOfFindsFirst | src/main/java/org/engine/renderer/Shader.java:46-52 | -1 exactly when the pattern does not occur from the start index on; otherwise no earlier occurrence lies between the start and the result |
| JavaText.IndexOfIsFirst | src/main/java/org/engine/renderer/Shader.java:46-52 | conversely, the first occurrence from the start index is the result, and -1 is the result when there is none |
| JavaText.Substring | src/main/java/org/engine/renderer/Shader.java:48 | defined exactly when 0 <= begin <= end <= length; then it has length end - begin and holds the characters at begin..end |
| JavaText.Trim | src/main/java/org/engine/renderer/Shader.java:48 | the result has no character <= ' ' at either end, is no longer than the input, and equals the input when the input is already trimmed |
| JavaText.TrimStripsBothEnds | src/main/java/org/engine/renderer/Shader.java:48 | a word whose ends are not <= ' ', padded on both sides with characters <= ' ', trims to exactly the word (an all-blank text trims to empty) |
| JavaText.TrimAddsNothing | src/main/java/org/engine/renderer/Shader.java:48 | trimming introduces no character that was not in the input |
| JavaText.TrimPadded | src/main/java/org/engine/renderer/Shader.java:48 | trimming leading blanks off an already trimmed non-empty word gives back the word |
| JavaText.RunEnd | src/main/java/org/engine/renderer/Shader.java:43 | the greedy `( )+` and `[a-zA-Z]+` runs: every character in the run satisfies the class and the character after it does not |
| JavaText.MarkerEnd | src/main/java/org/engine/renderer/Shader.java:43 | a regex match spans "#type", the longest run of spaces after it and then the longest run of letters, at least one of each: everything from the end of the spaces to the match end is a letter and the next character is not |
| JavaText.Pieces | src/main/java/org/engine/renderer/Shader.java:43 | splitting at the leftmost matches always yields at least one piece |
| JavaText.PiecesWithoutMatch | src/main/java/org/engine/renderer/Shader.java:43 | there is exactly one piece when no match starts at or after the scan position, and that piece is the remaining text |
| JavaText.DropTrailingEmpty | src/main/java/org/engine/renderer/Shader.java:43 | the result is a prefix of the pieces, ends in a non-empty piece or is empty, and only empty pieces were removed |
| JavaText.SplitOnMarkers | src/main/java/org/engine/renderer/Shader.java:43 | unless the input comes back whole, the split result is empty or ends in a non-empty piece |
| JavaText.SplitWithoutMatch | src/main/java/org/engine/renderer/Shader.java:43 | a text without any marker splits into the one-element array holding the text |
| ShaderSource.IdentifierAfter | src/main/java/org/engine/renderer/Shader.java:46-53 | the only failure is StringIndexOutOfBounds; an identifier found is trimmed and holds no newline, and the returned end of line is a newline inside the source |
| ShaderSource.StageIdentifiers | src/main/java/org/engine/renderer/Shader.java:46-53 | the only failure is StringIndexOutOfBounds; both identifiers are trimmed and newline-free |
| ShaderSource.AssignStage | src/main/java/org/engine/renderer/Shader.java:55-75 | an unknown identifier fails with that token; a known identifier succeeds exactly when the segment exists and otherwise fails with ArrayIndexOutOfBounds; "vertex" or "fragment" sets only that stage to the segment |
| ShaderSource.Classify | src/main/java/org/engine/renderer/Shader.java:55-75 | succeeds exactly when both identifiers are known and there are at least three segments; then a stage holds segment 2 if the second identifier names it, else segment 1 if the first does, else nothing; the failures are the first unknown token, then a missing segment 1, then the second unknown token, then a missing segment 2 |
| ShaderSource.ParseStages | src/main/java/org/engine/renderer/Shader.java:43-75 | a successful parse needs a split with at least three pieces |
| ShaderSource.LoadShader | src/main/java/org/engine/renderer/Shader.java:39-79 | an unreadable file gives the IllegalStateException naming the path; every IllegalStateException carries that message; a built shader keeps the path, came from readable contents and has at least one stage |
| ShaderSource.UnknownFirstIdentifierFails | src/main/java/org/engine/renderer/Shader.java:55-78 | an unknown first identifier gives the same exception as an unreadable file |
| ShaderSource.UnknownSecondIdentifierFails | src/main/java/org/engine/renderer/Shader.java:66-78 | an unknown second identifier fails the load with the IllegalStateException even though the first one was assigned; with fewer than two segments the first assignment throws ArrayIndexOutOfBoundsException instead |
| ShaderSource.DuplicateVertexOverwrites | src/main/java/org/engine/renderer/Shader.java:55-75 | two "vertex" identifiers leave the vertex stage as segment 2 and the fragment stage unset, or fail on the array access when the split has fewer than three segments |
| ShaderSource.DuplicateFragmentOverwrites | src/main/java/org/engine/renderer/Shader.java:55-75 | two "fragment" identifiers leave the fragment stage as segment 2 and the vertex stage unset, or fail on the array access when the split has fewer than three segments |
| ShaderSource.OnlySegmentsOneAndTwoMatter | src/main/java/org/engine/renderer/Shader.java:55-75 | the stages depend only on segments 1 and 2; segment 0 and any later segments are ignored |
| ShaderFile.SplitWellFormed | src/main/java/org/engine/renderer/Shader.java:43 | a well-formed file splits into exactly its preamble and its two section bodies, each with its leading newline |
| ShaderFile.IdentifiersWellFormed | src/main/java/org/engine/renderer/Shader.java:46-53 | in a well-formed file the scan finds exactly the two identifiers written after the markers |
| ShaderFile.LoadWellFormed | src/main/java/org/engine/renderer/Shader.java:39-79 | loading a well-formed file gives the reference reading: the shader is built, or the exception names the path when an identifier is unknown |
| ShaderFile.DistinctStagesAssigned | src/main/java/org/engine/renderer/Shader.java:55-75 | a vertex section and a fragment section, in either order, fill both stages with their own bodies |
| ShaderFile.DuplicateStageOverwrites | src/main/java/org/engine/renderer/Shader.java:55-75 | two sections naming the same stage give that stage the second body and leave the other stage unset |
| ShaderFile.UnknownIdentifierRejected | src/main/java/org/engine/renderer/Shader.java:55-78 | a well-formed file with either identifier unknown ends in the IllegalStateException naming the path |
| ShaderExamples.IdentifierAtMarker | src/main/java/org/engine/renderer/Shader.java:46-48 | with the first `#type` from the search start at o, whatever else lies before it, and the next newline after o + 6 at eol, the identifier is the trimmed text between them and the scan stops at eol |
| ShaderExamples.IdentifierWithoutMarker | src/main/java/org/engine/renderer/Shader.java:46-48 | with no `#type` left from the search start, whatever other text is there, the identifier is the trimmed text from offset 5 up to the first newline after it |
| ShaderExamples.NoMarkerIdentifiers | src/main/java/org/engine/renderer/Shader.java:46-53 | in "hello world\n" both searches fall back to offset 5 and read "world" |
| ShaderExamples.NoMarkerIsRejected | src/main/java/org/engine/renderer/Shader.java:46-78 | a file without any marker ends in the IllegalStateException naming the path |
| ShaderExamples.OneUnknownMarkerIdentifiers | src/main/java/org/engine/renderer/Shader.java:46-53 | with one marker the second search falls back to offset 5 and rereads the first marker line |
| ShaderExamples.OneMarkerUnknownToken | src/main/java/org/engine/renderer/Shader.java:46-78 | one marker with an unknown identifier ends in the IllegalStateException |
| ShaderExamples.OneVertexMarkerIdentifiers | src/main/java/org/engine/renderer/Shader.java:46-53 | one `vertex` marker is read twice, as both identifiers |
| ShaderExamples.OneVertexMarkerSplit | src/main/java/org/engine/renderer/Shader.java:43 | the one-marker file splits into the empty preamble and the text after the identifier, with no segment 2 |
| ShaderExamples.OneMarkerKnownToken | src/main/java/org/engine/renderer/Shader.java:43-69 | one marker with a known identifier ends in ArrayIndexOutOfBoundsException at the second switch |
| ShaderExamples.StrayMarkerFirstIdentifier | src/main/java/org/engine/renderer/Shader.java:46-48 | a second `#type` on the first marker line is part of the first identifier |
| ShaderExamples.StrayMarkerSecondIdentifier | src/main/java/org/engine/renderer/Shader.java:51-53 | the second search starts at the first marker line's newline and finds the next line's marker |
| ShaderExamples.SecondSearchSkipsFirstLine | src/main/java/org/engine/renderer/Shader.java:46-53 | the scan yields the whole first line as the first identifier and the next marker's identifier as the second |
| ShaderExamples.SecondMarkerOnFirstLineRejected | src/main/java/org/engine/renderer/Shader.java:46-78 | such a file is rejected with the IllegalStateException, its first identifier being no stage |
| ShaderExamples.IdentifierWithoutNewline | src/main/java/org/engine/renderer/Shader.java:46-48 | with the first `#type` from the search start at o and no newline from o + 6 on, even when o + 6 lies past the end, the scan fails with StringIndexOutOfBounds |
| ShaderExamples.FallbackWithoutNewline | src/main/java/org/engine/renderer/Shader.java:46-48 | with no `#type` left from the search start and no newline from offset 5 on, the scan fails with StringIndexOutOfBounds |
| ShaderExamples.NoMarkerNoNewline | src/main/java/org/engine/renderer/Shader.java:46-48 | the file "hello world", with neither a marker nor a newline, ends in StringIndexOutOfBoundsException |
| ShaderExamples.MarkerWithoutNewline | src/main/java/org/engine/renderer/Shader.java:46-48 | the file "#type vertex", with no newline after the marker, ends in StringIndexOutOfBoundsException |
| MouseListener.Initial | src/main/java/org/engine/jade/MouseListener.java:8-20 | the constructed listener reports zero position, delta and scroll, no button down and no drag |
| MouseListener.MousePos | src/main/java/org/engine/jade/MouseListener.java:29-36 | the position becomes the new one; the delta becomes old minus new; dragging holds exactly when some button is down; buttons and scroll are unchanged |
| MouseListener.MouseButton | src/main/java/org/engine/jade/MouseListener.java:38-47 | a press sets the button and keeps the drag flag; a release clears the button and the drag flag; an index >= 3 or another action changes nothing; other buttons, position and scroll are unchanged |
| MouseListener.MouseScroll | src/main/java/org/engine/jade/MouseListener.java:49-52 | the scroll offsets become the new ones, overwriting, and nothing else changes |
| MouseListener.EndFrame | src/main/java/org/engine/jade/MouseListener.java:54-59 | scroll and both deltas become zero; position, buttons and drag flag are unchanged |
| MouseListener.IsMouseButtonDown | src/main/java/org/engine/jade/MouseListener.java:89-92 | a button reads as down only when its index is below 3 |
| MouseProperties.ButtonDownReadsLastEvent | src/main/java/org/engine/jade/MouseListener.java:89-92 | after a press or release of a button, that button reads as down exactly when the event was a press and the index is below 3 |
| MouseProperties.DeltaIsPreviousMinusCurrent | src/main/java/org/engine/jade/MouseListener.java:61-75 | after two cursor moves the getters report the second position, and the delta as the first position minus the second |
| MouseProperties.ScrollReadUntilFrameEnd | src/main/java/org/engine/jade/MouseListener.java:77-83 | the scroll getters report the last offsets through later cursor and button events, and zero after the frame ends |
| MouseProperties.ScrollOverwrites | src/main/java/org/engine/jade/MouseListener.java:49-52 | two scroll events leave only the second offsets |
| MouseProperties.EndFrameIdempotent | src/main/java/org/engine/jade/MouseListener.java:54-59 | ending a frame twice is the same as ending it once |
| MouseProperties.MoveAfterFrameDelta | src/main/java/org/engine/jade/MouseListener.java:54-75 | after a frame boundary, one cursor move reports the delta as the position at the boundary minus the new position |
| MouseProperties.ScrollClearedAtFrameEnd | src/main/java/org/engine/jade/MouseListener.java:49-59 | a scroll followed by a frame boundary reports zero scroll |
| MouseProperties.OutOfRangeButtonNeverDown | src/main/java/org/engine/jade/MouseListener.java:38-47 | a button index >= 3 never reads as down, even after a press of that index |
| MouseProperties.PressAloneDoesNotDrag | src/main/java/org/engine/jade/MouseListener.java:38-47 | from the initial state a press makes the button down but not dragging |
| MouseProperties.PressMoveRelease | src/main/java/org/engine/jade/MouseListener.java:29-47 | from any state, press then move starts a drag, and releasing that button stops it |
| MouseProperties.ReleaseEndsDragDespiteOtherButton | src/main/java/org/engine/jade/MouseListener.java:29-47 | releasing one button stops the drag even while another button is still held |
| MouseProperties.ApplyKeepsDragNeedsButton | src/main/java/org/engine/jade/MouseListener.java:29-59 | every callback preserves "dragging implies some button is down" |
| MouseProperties.RunKeepsDragNeedsButton | src/main/java/org/engine/jade/MouseListener.java:29-59 | any sequence of callbacks preserves "dragging implies some button is down" |
| MouseProperties.ReachableDragNeedsButton | src/main/java/org/engine/jade/MouseListener.java:13-87 | in every state reachable from the constructor, dragging implies some button is down |

## Left out

- The file read on line 42 (`Files.readAllBytes`, `new String(bytes)` with the platform charset) is not modelled. `LoadShader` receives the decoded contents as `Option<string>`, and `None` stands for the `IOException`.
- ShaderSource.LoadShader: `None` stands only for an `IOException` from the read. `Paths.get(filepath)` on line 42 throws `InvalidPathException` for a path string the platform rejects (a NUL character on Unix; `*`, `?`, `<`, `>` or `|` on Windows). That exception is unchecked, escapes the `catch` as the runtime exceptions do, and is not modelled, because which paths are rejected depends on the file system.
- `e.printStackTrace()` in the catch block is output only and is not modelled.
- Java strings are sequences of UTF-16 code units, while the model uses one Dafny `char` per character. The two differ when the character right after `#type` lies outside the Basic Multilingual Plane. Java's `+ 6` then lands on the second half of a surrogate pair, which becomes part of the identifier. The model's `+ 6` steps over the whole character. For example, on a file whose first marker is `#type` followed directly by an emoji and `vertex`, Java reads an unknown token and throws the IllegalStateException, while the model reads `vertex`. The same counting applies to the fallback read at absolute offset 5 when no `#type` is found: a supplementary character earlier in the file shifts it by one. On a file made of an emoji, `ab vertex` and a newline, Java reads `vertex` and then throws ArrayIndexOutOfBoundsException at the first switch's `splitString[1]` of a one-element split, while the model reads `ertex` and throws the IllegalStateException.
- The rest of `Shader` (`compile`, `use`, `detach`, `uploadMat4f`, the program id) is not modelled. It calls into OpenGL, whose behaviour is outside this model.
- The `MouseListener.get()` singleton is modelled as an explicit state that each callback maps to a new state. The unused `window` and `mods` parameters are dropped.
- The getters' `(float)` casts are not modelled. Positions and offsets are mathematical reals, so double-to-float rounding is not represented.
- JavaText.IndexOf: requires a non-empty pattern. Java's empty-pattern case is not modelled, because the constructor only searches for "#type" and "\n".
- JavaText.SplitOnMarkers: models `split` for this one regular expression only, not general regular expressions.
- MouseListener.IsMouseButtonDown: requires a non-negative index. Java throws ArrayIndexOutOfBoundsException for a negative one, and that exception is not modelled.
- MouseListener.MouseButton: requires a non-negative index for a press or release. Java throws ArrayIndexOutOfBoundsException for a negative one, and that exception is not modelled.
- ShaderFile.LoadWellFormed: the reference reading covers files with exactly two markers. Files with more markers are covered only by ShaderSource.OnlySegmentsOneAndTwoMatter and the general contracts of LoadShader.
