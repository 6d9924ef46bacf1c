# transcribe-app: the transcript formatter and the upload handler, in Dafny

The application posts an audio file to `POST /api/transcribe`, which sends it
to a hosted speech-to-text provider (Whisper on Groq, verbose JSON replies)
and answers with a single timestamped transcript. This project models that
handler:

- **The transcript formatter** (`Transcript`). Each provider segment becomes
  `"(M:SS) text"`. `M:SS` is the segment's start floored to whole seconds,
  split into minutes (div 60, unpadded) and seconds (mod 60, padded to two
  digits). The pieces are joined with single spaces in provider order. A
  missing segment list gives no text; an empty one gives `""`.
- **Decimal rendering** (`Decimal`). JavaScript's `toString()` on a
  non-negative integer and `padStart(2, '0')`, with a digit reader as their
  inverse.
- **The handler's outcome** (`TranscribeRoute`). A missing `file` field,
  or one holding an empty text value, gives 400 `"No file uploaded"`, and
  the provider is not called. An uploaded file always counts as present, even
  an empty one. A failure reading the body or inside the provider gives 500 with the thrown
  message. Otherwise the answer is 200 with the formatted transcript.

The provider and the multipart reader are inputs. `Post` receives the parsed
form (or the message its parser threw) and the provider as a function from
the submitted entry to its reply. The result records the entries that were
handed to the provider.

Every formatting step has a partner. `ParseDigits` reads back `NatToString`.
`ParseLabel` reads back a label. `ParsePiece` reads back a piece. `Offset`
says where each piece lies in the joined text.

## Model

| member | source | states |
|---|---|---|
| `Transcript.Timestamp` | app/api/transcribe/route.ts:27 | the floored start `t` is the whole number with `t <= start < t + 1` |
| `Transcript.ClockOf` | app/api/transcribe/route.ts:28-29 | minutes and seconds recombine to the timestamp (`minutes*60 + seconds == t`) with seconds below 60 |
| `Decimal.NatToString` | app/api/transcribe/route.ts:30 | `toString()` of a whole number is a canonical numeral: only digits, at least one, no leading zero; one digit exactly below 10, at most two below 100 |
| `Decimal.ParseNatToString` | app/api/transcribe/route.ts:30 | reading back a rendered number gives the number |
| `Decimal.NatToStringParse` | app/api/transcribe/route.ts:30 | rendering the value of a canonical numeral gives the numeral back, so rendering is a bijection onto canonical numerals |
| `Decimal.NatToStringInjective` | app/api/transcribe/route.ts:30 | different minute counts render differently |
| `Decimal.PadStart` | app/api/transcribe/route.ts:30 | `padStart(width, fill)` keeps the string as its suffix, fills only the front, and reaches exactly `width` unless the string is already longer |
| `Decimal.TwoDigitField` | app/api/transcribe/route.ts:30 | the seconds field `seconds.toString().padStart(2, '0')` (the function `Transcript.SecondsField`) is, for seconds below 100, exactly two digits and reads back as the seconds |
| `Transcript.RenderFields` | app/api/transcribe/route.ts:30 | the label text `Transcript.Render(c)` is `"(" + minutes + ":" + seconds + ")"`, its minutes field canonical and its seconds field exactly two digits |
| `Transcript.ParseLabel` | app/api/transcribe/route.ts:30 | a label the reader accepts starts with `(`, ends with `)` and has `:` four characters from the end |
| `Transcript.RenderRoundTrip` | app/api/transcribe/route.ts:30 | the label text `Transcript.Render(c)` reads back as the same minutes and seconds |
| `Transcript.RenderCloses` | app/api/transcribe/route.ts:30 | the label text `Transcript.Render(c)` is at least six characters long and its only `)` is its last character |
| `Transcript.LabelFields` | app/api/transcribe/route.ts:28-30 | `Transcript.Label(t)`, the label of `t`, has minutes field `t div 60` unpadded and not range-limited, seconds field two digits denoting `t mod 60` in 00..59, and the fields recombine to `t` |
| `Transcript.LabelRoundTrip` | app/api/transcribe/route.ts:28-30 | reading `Transcript.Label(t)` back gives minutes and seconds with seconds below 60 and `minutes*60 + seconds == t` |
| `Transcript.LabelInjective` | app/api/transcribe/route.ts:27-30 | different whole-second timestamps get different labels |
| `Transcript.ParsePiece` | app/api/transcribe/route.ts:32 | an accepted piece is a label up to its first `)`, one space, then the text |
| `Transcript.PieceRoundTrip` | app/api/transcribe/route.ts:32 | the piece `Transcript.Piece(seg)` is the label of the floored start, one space, and the segment's text unchanged; it reads back as that clock and text whatever the text contains |
| `Transcript.ParseLabelSpaceText` | app/api/transcribe/route.ts:32 | a label, one space and any text read back as the label's clock and the text |
| `Transcript.Pieces` | app/api/transcribe/route.ts:26-32 | `map` gives one piece per segment, in provider order |
| `Transcript.JoinLayout` | app/api/transcribe/route.ts:33 | `Transcript.JoinWithSpaces(ps)`, the `join(" ")` of n >= 1 pieces, has length sum + n - 1; piece i sits unchanged at its offset, and each piece but the last is followed by one space |
| `Transcript.JoinSnoc` | app/api/transcribe/route.ts:33 | joining one more piece appends a space and that piece |
| `Transcript.FormatTranscript` | app/api/transcribe/route.ts:26-33 | a missing segment list (and only that) gives no text; an empty list gives `""` |
| `Transcript.FormatLayout` | app/api/transcribe/route.ts:26-33 | the transcript of n >= 1 segments holds, at piece i's offset, the label of segment i's floored start, one space and segment i's text; a space follows every piece but the last; the length is the pieces plus n - 1 separators |
| `Transcript.JoinPieceAt` | app/api/transcribe/route.ts:32-33 | where piece i of a join is `label + " " + text`, the label, the space and the text sit at its offset |
| `Transcript.FormatAppend` | app/api/transcribe/route.ts:26-33 | formatting one more segment appends a space and that segment's piece, so provider order is kept |
| `Transcript.FormatIgnoresEnd` | app/api/transcribe/route.ts:26-33 | the transcript depends only on each segment's start and text |
| `Transcript.LabelOfFractionalStart` | app/api/transcribe/route.ts:27-30 | a start of 65.9 s is labelled `(1:05)`: fractions are dropped |
| `Transcript.LabelExamples` | app/api/transcribe/route.ts:28-30 | 125 s is labelled `(2:05)` and 3600 s `(60:00)` |
| `Transcript.FormatExample` | app/api/transcribe/route.ts:26-33 | segments at 0 s "hi" and 65 s "there" give `(0:00) hi (1:05) there` |
| `TranscribeRoute.Truthy` | app/api/transcribe/route.ts:14 | a file entry is truthy, even an empty one; a text entry is truthy exactly when it is not the empty string |
| `TranscribeRoute.Submitted` | app/api/transcribe/route.ts:11-14 | nothing is submitted when the body cannot be read, when there is no `file` entry, or when it is the empty string; a non-empty string and every file, an empty one included, are submitted as they are |
| `TranscribeRoute.EmptyUploadSubmitted` | app/api/transcribe/route.ts:14-23 | an empty upload is sent to the provider; an empty text value gets 400 with `"No file uploaded"` and no provider call |
| `TranscribeRoute.Post` | app/api/transcribe/route.ts:9-40 | status is 200, 400 or 500; 400 with `"No file uploaded"` exactly when the body parsed without a truthy file; 500 with the body parser's or the provider's thrown message; 200 exactly when the provider replied, with the formatted transcript; the provider is called once with the submitted entry and otherwise never |
| `TranscribeRoute.NoFileIgnoresProvider` | app/api/transcribe/route.ts:14-16 | without a submitted file the exchange does not depend on the provider and calls it never |
| `TranscribeRoute.ResponseDependsOnlyOnReply` | app/api/transcribe/route.ts:19-35 | two requests whose provider replies agree get the same response: no state is kept between requests |
| `TranscribeRoute.EmptyAndMissingSegments` | app/api/transcribe/route.ts:26-35 | an empty segment list answers 200 with `""`; a missing one answers 200 with no text |

## Left out

- Decimal.NatToString: JavaScript writes integers of 10^21 and above in exponent notation (`"1e+21"`), which a minutes field reaches only from starts of 6·10^22 s; the model writes every number in full digits, so `LabelFields`, `LabelRoundTrip` and `LabelExamples` hold for the source only below that bound.
- Malformed provider replies: `ProviderReply` holds only well-formed segments (a numeric `start`, a string `text`), so formatting cannot fail in the model; in the source a malformed segment (a `null` entry, say) throws inside the `try` and is answered with 500 and the thrown message (lines 26-39).
- The provider client (its construction from an environment key, lines 4-7) and the network call (lines 19-23): the provider is a function parameter of `Post`. Its fixed `model` and `response_format` arguments are not modelled.
- Multipart parsing (`req.formData()`, line 11): modelled only by its outcome, a thrown message or the entry named `file`.
- `console.error` logging (line 38): a side effect with no observable result.
- IEEE floating point in `segment.start`: offsets are exact non-negative reals (`Seconds`). Negative offsets, NaN and infinities are excluded, and so are the odd labels that JavaScript's `%` and `padStart` would give them.
- Thrown values that are not `Error` objects (so `error.message` is undefined): every thrown value is modelled by its message string.
- `JSON` serialisation itself: a body is `{text}` or `{error}`, and an undefined `text` is `TextBody(None)`.
- The upload page (`app/page.tsx`): browser UI state, drag-and-drop, `fetch`, the clipboard and timers are not part of this model.
