# Bulletin board server: the board store and its command interpreter

The server keeps one shared board of 150 x 100 units. Clients post fixed-size
notes (15 x 10) on it, list them with filters, and place pins that protect the
notes around them from SHAKE. The store is two in-place lists:
- `notes`: each note has an origin, a colour and a message.
- `pins`: each pin has a point and the set of note keys (`"x,y"`) it froze when
  it was placed.

Each client line is one command, handled as a single atomic step.

The model is in five modules:

- `JavaText`: the parts of Java's string library that the server relies on.
  This covers ASCII `toLowerCase`/`toUpperCase`/`equalsIgnoreCase`,
  `startsWith`, `contains`, `trim`, `String.join(" ", …)`, `Integer.parseInt`
  (32-bit range, `None` for a `NumberFormatException`), the decimal form of an
  int, and `noteKey`. `noteKey` is proved injective, so a pin's key set is
  modelled as a set of origins.
- `GetFilters`: the GET filter grammar (`color=`, `contains=<x> <y>`,
  `refersTo=<words…>`).
  - `Parse` specifies the grammar as a function.
  - `ParseFilters` is the source's index-advancing loop. `ReadFilter` is one
    turn of it, and `AbsorbWords` is the inner `StringBuilder` loop of
    `refersTo=`. The loop is proved equal to `Parse`.
  - A renderer, `Render`, is proved to round-trip through `Parse`.
- `Store`: the specification on a `Board` value.
  - Geometry, and the store invariant `Valid`: notes lie in the plane, note
    origins are distinct, pin points are distinct, and every pin holds at
    least one origin, each of a current note that strictly contains it.
  - One function per command, giving the reply and the next board.
  - `Process` dispatches one command; `HandleLine` is one turn of the session
    loop.
  - The lemmas about these functions. The functions have no row of their own
    in the table below. Each is stated by the lemmas named here:
    - `Post` and `PostCommand` (Server.java:67-80): `PostOutcome`,
      `PostPreservesValid` and `PostThenGet`.
    - `Get` (Server.java:83-146): `MatchingExact` and `GetLinesExact`, and
      `Server.HandleGet`.
    - `PlacePin` and `PinCommand` (Server.java:149-183): `PlacePinOutcome`,
      `PlacePinPreservesValid` and `PinProtects`.
    - `RemovePin` and `UnpinCommand` (Server.java:186-190): `RemovePinOutcome`
      and `RemovePinPreservesValid`.
    - `Shake` (Server.java:36-38): `ShakeKeepsExactlyPinned`, `ShakeIdempotent`
      and `ShakePreservesValid`.
    - `Process` (Server.java:48-64): `UnknownVerb`, `ProcessPreservesValid` and
      `ProcessChangesOnlyOnSuccess`.
    - `HandleLine` (Server.java:35-43): `HandleLinePreservesValid` and
      `ErrorsChangeNothing`.
    - `GetFilters.ParseFrom` and `GetFilters.Parse` (Server.java:93-131):
      `ParseFilters`, the `Step…` lemmas and `ParseRender`.
- `BoardServer`: `class Server` with the two lists as `seq` fields.
  - One method per handler, running the loops of Server.java.
  - Each method is proved to give the reply and new state of the matching
    `Store` function, and to keep `Valid`.
- `Scenarios`: short sessions on concrete boards.

Replies are modelled as records (`Response`) rather than formatted text. A GET
reply is the sequence of its `NOTE` lines, each a note with its `PINNED` flag.

Behaviour of the code worth knowing:
- POST does not check the colour against the palette. It only lower-cases the
  colour. The palette appears only in the greeting, so `POST 0 0 purple x` is
  accepted (`Scenarios.PurpleIsPosted`).
- The POST message is tokens 4.. joined by single spaces, not the raw remainder
  of the line.
- The colour filter of GET is `equalsIgnoreCase`, not an exact match.
- A pin freezes the set of origins it holds. SHAKE removes only notes that are
  not held, and CLEAR drops pins together with notes. So every origin a pin
  holds is the origin of a current note (`Store.Valid`). A note reposted at the
  origin of a removed, pinned note therefore cannot inherit that pin.

## Model

| member | source | states |
|---|---|---|
| JavaText.ParseDecimal | Server.java:68 | `Integer.parseInt` reads back the decimal form of every 32-bit int |
| JavaText.NoteKeyInjective | Server.java:10 | two origins with the same `noteKey` string are the same origin |
| JavaText.JoinSingleSpaced | Server.java:70 | joining one more word appends a single space and the word |
| GetFilters.AbsorbWords | Server.java:111-122 | the refersTo loop absorbs exactly the run of words before the next filter token or the end, and builds the first value joined by single spaces with every word it absorbed |
| GetFilters.FilterKeysExclusive | Server.java:95-109 | a token starts with at most one filter key, so the order of the key tests does not matter |
| GetFilters.ReadFilter | Server.java:95-130 | one turn of the filter loop: when it succeeds it moves past the tokens it consumed and the rest of the parse from there gives the same filter; when it fails the grammar fails too |
| GetFilters.ReadPoint | Server.java:99-107 | `contains=` fails exactly when the y token is missing or either number is not an int, and the grammar fails with it; otherwise it moves two tokens on and sets the point to the two parsed ints |
| GetFilters.ReadText | Server.java:109-125 | `refersTo=` always succeeds: it moves past its run of words up to the next filter token, sets the text to the trimmed single-space join of the value and those words, and continues exactly where the grammar does |
| GetFilters.ParseFilters | Server.java:93-131 | the filter loop yields exactly what the grammar `Parse` gives for the tokens after the verb, failure included |
| GetFilters.TextRunIs | Server.java:116-122 | the run of words absorbed after `refersTo=` ends exactly at the first filter token |
| GetFilters.StepColor | Server.java:95-97 | a `color=` token sets the colour to the text after `=` and moves to the next token |
| GetFilters.StepPoint | Server.java:99-107 | when `contains=<x>` and the next token both parse as ints, the point becomes (x, y) and parsing resumes two tokens later |
| GetFilters.StepPointBadNumber | Server.java:104-105 | a `contains=` whose x or y is not an int is a failure |
| GetFilters.StepPointMissingY | Server.java:102 | `contains=` as the last token is a failure |
| GetFilters.StepText | Server.java:109-125 | `refersTo=` absorbs the words up to the next filter token, joined with spaces and trimmed |
| GetFilters.StepUnknown | Server.java:127-130 | a token that starts with no filter key is a failure |
| GetFilters.ParseText | Server.java:111-124 | a lone `refersTo=s` gives the trimmed text filter `s` |
| GetFilters.ParsePointPart | Server.java:99-107 | the rendered `contains=` pair parses back to its point |
| GetFilters.ParseColorPart | Server.java:95-97 | the rendered `color=` token parses back to its colour |
| GetFilters.ParseTextPart | Server.java:109-125 | the rendered `refersTo=` token of an already trimmed text parses back to that text |
| GetFilters.ParseRender | Server.java:93-131 | every filter that can be written as tokens parses back to itself |
| GetFilters.ParseColorThen | Server.java:95-97 | a leading `color=c` sets the colour and leaves the rest to parse |
| GetFilters.RefersToAbsorbs | Server.java:109-125 | `refersTo=w` followed by non-filter words sets the text to `w` and the words joined and trimmed, then parsing resumes at the next filter token |
| GetFilters.UnknownTokenFails | Server.java:127-130 | an unknown token makes the whole parse fail |
| GetFilters.MissingYFails | Server.java:102 | `contains=x` with no following token fails |
| GetFilters.RepeatedColorOverwrites | Server.java:95-97 | a second `color=` overwrites the first |
| Store.IsPinned | Server.java:193-199 | a key is pinned exactly when some pin's frozen set holds it |
| Store.PostOutcome | Server.java:67-80 | POST answers OUT_OF_BOUNDS exactly when the footprint leaves the plane, then COMPLETE_OVERLAP exactly when a note has the same origin; otherwise it appends exactly one note at the end with the colour lower-cased; pins never change |
| Store.PostPreservesValid | Server.java:71-78 | POST keeps the store invariant |
| Store.PostedNoteIsUnpinned | Server.java:193-199 | on a valid board, a freshly posted note is not pinned |
| Store.PostThenGet | Server.java:133-145 | after a successful POST, an unfiltered GET lists the new note, unpinned |
| Store.Lines | Server.java:144-145 | one NOTE line per listed note, in order, each with its current pinned flag |
| Store.PinPoints | Server.java:85-86 | GET PINS lists every pin's point, in list order |
| Store.SubsequenceExtend | Server.java:134-141 | appending the same element to both sides keeps the order-preserving selection relation |
| Store.MatchingExact | Server.java:133-142 | the matching notes are exactly the notes passing every present filter, in list order |
| Store.GetLinesExact | Server.java:83-145 | a filtered GET lists exactly the notes passing the filters, each with its pinned flag |
| Store.HeldByStep | Server.java:163-173 | visiting one more note adds its origin to the held set exactly when it strictly contains the pin, and raises the edge flag exactly when the pin is on its edge |
| Store.PlacePinOutcome | Server.java:149-183 | PIN answers COMPLETE_OVERLAP exactly when a pin stands at the point, then PIN_ON_EDGE exactly when some note has the point on its edge, then NO_NOTE_AT_COORDINATE exactly when no note covers it; otherwise it appends one pin at the point holding exactly the origins of the notes strictly around it; notes never change |
| Store.PlacePinPreservesValid | Server.java:153-181 | PIN keeps the store invariant, pin points distinct included |
| Store.PinProtects | Server.java:163-181 | after PIN succeeds, every note strictly around the point is pinned and survives the next SHAKE |
| Store.RemovePinOutcome | Server.java:186-190 | UNPIN answers OK exactly when a pin stood at the point; the other pins keep their order, no pin is left there, and notes never change |
| Store.DropPinsAtSubsequence | Server.java:188 | `removeIf` keeps the other pins in order and drops exactly those at the point |
| Store.DropPinsAtAbsent | Server.java:188-189 | with no pin at the point, `removeIf` changes nothing |
| Store.UnpinRemovesExactlyOne | Server.java:188 | with distinct pin points, `removeIf` removes exactly the one pin at the point |
| Store.RemovePinPreservesValid | Server.java:186-190 | UNPIN keeps the store invariant |
| Store.ShakeKeepsExactlyPinned | Server.java:37 | SHAKE keeps exactly the pinned notes, in their original order |
| Store.ShakeIdempotent | Server.java:36-38 | a second SHAKE changes nothing |
| Store.KeepPinnedKeepsNotesValid | Server.java:37 | removing notes keeps them in the plane and their origins distinct |
| Store.ShakePreservesValid | Server.java:36-38 | SHAKE keeps the store invariant: a pinned note is never removed, so no pin is left holding a missing note |
| Store.PinnedNotesAreOnBoard | Server.java:193-199 | on a valid board, every pinned key is the origin of a current note |
| Store.UnknownVerb | Server.java:51-60 | a verb that upper-cases to none of the five is UNKNOWN_COMMAND and changes nothing |
| Store.ProcessPreservesValid | Server.java:48-64 | every command keeps the store invariant |
| Store.HandleLinePreservesValid | Server.java:35-43 | every session line keeps the store invariant |
| Store.CommandsChangeOnlyOnSuccess | Server.java:67-190 | POST, PIN and UNPIN leave the board unchanged unless they answer with their success reply |
| Store.ProcessChangesOnlyOnSuccess | Server.java:48-64 | a command changes the board only when answered NOTE_POSTED, PIN_ADDED, OK or BOARD_CLEARED |
| Store.ErrorsChangeNothing | Server.java:35-64 | a line answered with an error, or with a listing, leaves the board unchanged |
| Store.Wrap32 | Server.java:71 | Java int addition: the result is a 32-bit int congruent to the sum modulo 2^32 |
| Store.PostAsWrittenLeavesPlane | Server.java:71 | with the bounds test in 32-bit arithmetic, `POST 2147483647 0 red x` is accepted and the board leaves the plane |
| Store.InPlaneAsWrittenAgrees | Server.java:71 | when the sums do not overflow, the 32-bit bounds test agrees with the plane test |
| BoardServer.Server.constructor | Server.java:7-8 | a new server has no notes and no pins |
| BoardServer.Server.HandlePost | Server.java:67-80 | the handler's reply and new lists are those of POST on the old board; the invariant is kept |
| BoardServer.Server.HandleGet | Server.java:83-146 | the handler changes nothing, and its reply is that of GET on the current board |
| BoardServer.Server.HandlePin | Server.java:149-183 | the handler's reply and new lists are those of PIN on the old board; the invariant is kept |
| BoardServer.Server.HandleUnpin | Server.java:186-190 | the handler's reply and new lists are those of UNPIN on the old board; the invariant is kept |
| BoardServer.Server.Shake | Server.java:36-38 | the notes become exactly the pinned ones, in order; pins untouched; the invariant is kept |
| BoardServer.Server.Clear | Server.java:59 | both lists become empty |
| BoardServer.Server.ProcessCommand | Server.java:48-64 | the reply and new lists are those of the dispatch function on the old board |
| BoardServer.Server.HandleLine | Server.java:35-43 | the reply, new lists and end-of-session flag are those of one session turn on the old board |
| Scenarios.SmallNumbers | Server.java:68 | `parseInt` reads the small literals used by the scenarios |
| Scenarios.PostHello | Server.java:48-70 | `POST 0 0 red hello` dispatches to POST at the origin with colour `red` and message `hello` |
| Scenarios.DoublePost | Server.java:71-78 | posting the same origin twice: the second is COMPLETE_OVERLAP and one note remains |
| Scenarios.PostPastTheEdge | Server.java:71 | `POST 140 0 …` is OUT_OF_BOUNDS on any board |
| Scenarios.PurpleIsPosted | Server.java:69-79 | `purple` is not in the palette announced at Server.java:9, and a POST with it is accepted |
| Scenarios.ShakeWithArgumentLine | Server.java:36-42 | `SHAKE x` is not the SHAKE line and goes to command dispatch |
| Scenarios.ShakeIsNoVerb | Server.java:51-60 | SHAKE, in any case, is none of the verbs of processCommand and is answered UNKNOWN_COMMAND |
| Scenarios.ShakeWithArgument | Server.java:36-60 | `SHAKE x` is answered UNKNOWN_COMMAND |
| Scenarios.ShakeWithLeadingSpaceLine | Server.java:36-42 | ` shake` is not the SHAKE line and goes to command dispatch |
| Scenarios.ShakeWithLeadingSpace | Server.java:36-60 | ` shake` is answered UNKNOWN_COMMAND |
| Scenarios.PinInsideOneNote | Server.java:149-183 | `PIN 5 5` on two notes adds one pin holding only the note around the point |
| Scenarios.PlaceInsideOneNote | Server.java:163-181 | the pin at (5, 5) holds exactly the origin of the note strictly around it |
| Scenarios.PinThenShake | Server.java:36-37 | SHAKE then keeps the pinned note and the pin and removes the other note |
| Scenarios.EdgeWinsOverCover | Server.java:163-176 | a point on one note's corner is PIN_ON_EDGE even though another note strictly contains it |
| Scenarios.ClearEmptiesBoth | Server.java:59 | after CLEAR, GET and GET PINS both list nothing |
| Scenarios.ColorAndText | Server.java:93-125 | `color=c refersTo=t` sets both filters, the text trimmed |

## Left out

- The socket accept loop, the thread per connection, stream setup, the greeting
  line and `main`: I/O and process startup. A session is modelled as a sequence
  of `HandleLine` steps on one board.
- `Collections.synchronizedList` and `synchronized(notes)`: threads are not
  modelled, and each line is one atomic step on the shared board. This matches
  the code: every command runs under the monitor of `notes`, and so does the
  SHAKE line, because `removeIf` of a synchronized list (Server.java:37) holds
  that same monitor. `pins` only changes inside that block.
- Tokenising with `trim().split("\\s+")`: the handlers take the line's tokens as
  given. `Store.HandleLine` takes both the raw line (compared with SHAKE and
  DISCONNECT) and its tokens.
- Store.Process: its answer NoReply for an empty token list models the test at
  Server.java:50, which never fires in the code, because Java splits a blank
  line into the single token `""`. With those tokens the model answers
  UNKNOWN_COMMAND, as the code does.
- `String.format` and `println` of the replies: replies are `Response` records,
  and the text of each error message is not modelled.
- Locale-dependent and non-ASCII case folding, and non-ASCII digits in
  `Integer.parseInt`: only ASCII is modelled.
- Exceptions other than a missing token or a bad number: every such path is
  modelled as BAD_SYNTAX. Socket exceptions that end a session are not modelled.
- Client.java (a Swing UI and socket client) and BulletinBoardServer.java (a stub
  that closes each connection) are not part of this model.
- Store.PostOutcome: the corrected model uses mathematical integers for
  `x + nW` and `y + nH`. The 32-bit behaviour is modelled separately in
  `Store.PostAsWritten` (see Findings).

## Findings

| source | as written | input that shows it | evidently intended | confidence | as-written member | corrected member |
|---|---|---|---|---|---|---|
| Server.java:71 | `x + nW > bW` is evaluated in 32-bit int arithmetic; for x ≥ 2^31 − 15 the sum wraps negative and the test passes | `POST 2147483647 0 red x` on an empty board is answered NOTE_POSTED, and the note lies outside the 150 x 100 plane | reject every note whose footprint leaves the plane | not executed | Store.PostAsWrittenLeavesPlane | Store.PostPreservesValid |
