/** The board store of the server as values: notes and pins on the 150 x 100
    plane, the invariant the store keeps, and one function per command giving
    the reply and the next board. The class in BoardServer runs the same
    commands in place on its two lists and is proved to agree with these. */
module Store {
  import opened JavaText
  import opened GetFilters

  const BoardWidth: int := 150
  const BoardHeight: int := 100
  const NoteWidth: int := 15
  const NoteHeight: int := 10
  /** The palette is only announced in the greeting; POST does not check against it. */
  const Palette: seq<string> := ["red", "blue", "green", "yellow", "white"]

  type Point = (int, int)

  /** A note: its origin (top-left corner), its colour and its message. */
  datatype Note = Note(x: int, y: int, color: string, msg: string)
  {
    /** The identity of the note, standing for the key "x,y" that noteKey builds. */
    function Origin(): Point { (x, y) }
  }

  /** A pin: its point and the origins of the notes it held when it was placed. */
  datatype Pin = Pin(x: int, y: int, appliesTo: set<Point>)

  datatype Board = Board(notes: seq<Note>, pins: seq<Pin>)

  const Empty: Board := Board([], [])

  datatype Failure =
    | BadSyntax | UnknownCommand | OutOfBounds | CompleteOverlap
    | PinOnEdge | NoNoteAtCoordinate | PinNotFound

  /** One `NOTE x y color message PINNED=b` line of a GET reply. */
  datatype NoteLine = NoteLine(note: Note, pinned: bool)

  datatype Response =
    | NotePosted                      // OK NOTE_POSTED
    | NoteList(lines: seq<NoteLine>)  // OK <n>, then n NOTE lines
    | PinList(points: seq<Point>)     // OK <n>, then n PIN lines
    | PinAdded                        // OK PIN_ADDED
    | Unpinned                        // OK
    | ShakeComplete                   // OK SHAKE_COMPLETE
    | BoardCleared                    // OK BOARD_CLEARED
    | Disconnecting                   // OK DISCONNECTING
    | Error(failure: Failure)         // ERROR <failure> - ...
    | NoReply                         // an empty token list: nothing is written

  /** The reply to one command and the board after it. */
  datatype Step = Step(response: Response, board: Board)

  // ---------------------------------------------------------------- geometry

  /** The corrected bounds test of POST: the whole footprint lies in the plane. */
  predicate InPlane(x: int, y: int)
  {
    0 <= x && 0 <= y && x + NoteWidth <= BoardWidth && y + NoteHeight <= BoardHeight
  }

  /** The note at origin `o` contains the point, edges included. */
  predicate Covers(o: Point, px: int, py: int)
  {
    o.0 <= px <= o.0 + NoteWidth && o.1 <= py <= o.1 + NoteHeight
  }

  /** The point lies on the boundary of the note at origin `o`. */
  predicate OnEdge(o: Point, px: int, py: int)
  {
    Covers(o, px, py) && (px == o.0 || px == o.0 + NoteWidth || py == o.1 || py == o.1 + NoteHeight)
  }

  /** The point lies strictly inside the note at origin `o`. */
  predicate StrictlyInside(o: Point, px: int, py: int)
  {
    o.0 < px < o.0 + NoteWidth && o.1 < py < o.1 + NoteHeight
  }

  function Origins(notes: seq<Note>): set<Point>
  {
    set n | n in notes :: n.Origin()
  }

  // ---------------------------------------------------------------- the invariant

  predicate NotesInPlane(notes: seq<Note>)
  {
    forall i :: 0 <= i < |notes| ==> InPlane(notes[i].x, notes[i].y)
  }

  predicate DistinctOrigins(notes: seq<Note>)
  {
    forall i, j :: 0 <= i < j < |notes| ==> notes[i].Origin() != notes[j].Origin()
  }

  predicate DistinctPinPoints(pins: seq<Pin>)
  {
    forall i, j :: 0 <= i < j < |pins| ==> (pins[i].x, pins[i].y) != (pins[j].x, pins[j].y)
  }

  /** A pin holds at least one note, and each origin it holds is the origin of a
      current note that strictly contains the pin. */
  predicate PinHolds(p: Pin, notes: seq<Note>)
  {
    p.appliesTo != {}
    && forall k :: k in p.appliesTo ==> k in Origins(notes) && StrictlyInside(k, p.x, p.y)
  }

  predicate PinsHold(b: Board)
  {
    forall i :: 0 <= i < |b.pins| ==> PinHolds(b.pins[i], b.notes)
  }

  predicate Valid(b: Board)
  {
    NotesInPlane(b.notes) && DistinctOrigins(b.notes) && DistinctPinPoints(b.pins) && PinsHold(b)
  }

  // ---------------------------------------------------------------- lookups

  /** isNotePinned: some pin's frozen set holds the key. */
  function IsPinned(pins: seq<Pin>, k: Point): (r: bool)
    ensures r <==> exists i :: 0 <= i < |pins| && k in pins[i].appliesTo
  {
    if pins == [] then false
    else k in pins[|pins| - 1].appliesTo || IsPinned(pins[..|pins| - 1], k)
  }

  /** A pin stands exactly at (px, py). */
  predicate PinAt(pins: seq<Pin>, px: int, py: int)
  {
    exists i :: 0 <= i < |pins| && pins[i].x == px && pins[i].y == py
  }

  // ---------------------------------------------------------------- POST

  /** handlePost after parsing: bounds first, then the origin, then append. */
  function Post(b: Board, x: int, y: int, color: string, msg: string): Step
  {
    if !InPlane(x, y) then Step(Error(OutOfBounds), b)
    else if (x, y) in Origins(b.notes) then Step(Error(CompleteOverlap), b)
    else Step(NotePosted, b.(notes := b.notes + [Note(x, y, Lower(color), msg)]))
  }

  /** POST x y color message...: x and y must parse and a colour token must be present. */
  function PostCommand(b: Board, args: seq<string>): Step
  {
    if |args| < 4 then Step(Error(BadSyntax), b)
    else match (ParseInt(args[1]), ParseInt(args[2]))
      case (Some(x), Some(y)) => Post(b, x, y, args[3], Join(args[4..]))
      case _ => Step(Error(BadSyntax), b)
  }

  lemma PostPreservesValid(b: Board, x: int, y: int, color: string, msg: string)
    requires Valid(b)
    ensures Valid(Post(b, x, y, color, msg).board)
  {
    var s := Post(b, x, y, color, msg);
    if s.response == NotePosted {
      var n := Note(x, y, Lower(color), msg);
      var notes := b.notes + [n];
      assert forall i :: 0 <= i < |b.notes| ==> notes[i] == b.notes[i];
      assert Origins(b.notes) <= Origins(notes);
      forall i | 0 <= i < |b.pins| ensures PinHolds(b.pins[i], notes) {
        assert PinHolds(b.pins[i], b.notes);
      }
    }
  }

  /** What POST promises: the rejections in order, and on success exactly one note
      appended at the end with its colour lower-cased; the pins never change. */
  lemma PostOutcome(b: Board, x: int, y: int, color: string, msg: string)
    ensures var s := Post(b, x, y, color, msg);
      && s.board.pins == b.pins
      && s.response in {Error(OutOfBounds), Error(CompleteOverlap), NotePosted}
      && (s.response == Error(OutOfBounds) <==> !InPlane(x, y))
      && (s.response == Error(CompleteOverlap) <==>
            InPlane(x, y) && exists i :: 0 <= i < |b.notes| && b.notes[i].Origin() == (x, y))
      && (s.response == NotePosted <==> s.board.notes != b.notes)
      && (s.response == NotePosted ==>
            && |s.board.notes| == |b.notes| + 1
            && s.board.notes[..|b.notes|] == b.notes
            && s.board.notes[|b.notes|] == Note(x, y, Lower(color), msg))
  {
    var s := Post(b, x, y, color, msg);
    if InPlane(x, y) && (x, y) in Origins(b.notes) {
      var n :| n in b.notes && n.Origin() == (x, y);
      var i :| 0 <= i < |b.notes| && b.notes[i] == n;
    }
    if s.response == NotePosted {
      assert |s.board.notes| != |b.notes|;
    }
  }

  /** A note that POST has just added is reported with PINNED=false: no pin can
      hold an origin that was not on the board. */
  lemma PostedNoteIsUnpinned(b: Board, x: int, y: int, color: string, msg: string)
    requires Valid(b)
    requires Post(b, x, y, color, msg).response == NotePosted
    ensures !IsPinned(Post(b, x, y, color, msg).board.pins, (x, y))
  {
  }

  /** A plain GET right after a successful POST lists the new note with PINNED=false. */
  lemma PostThenGet(b: Board, x: int, y: int, color: string, msg: string)
    requires Valid(b)
    requires Post(b, x, y, color, msg).response == NotePosted
    ensures NoteLine(Note(x, y, Lower(color), msg), false) in Get(Post(b, x, y, color, msg).board, ["GET"]).lines
  {
    var b' := Post(b, x, y, color, msg).board;
    var n := Note(x, y, Lower(color), msg);
    PostedNoteIsUnpinned(b, x, y, color, msg);
    assert Parse(["GET"][1..]) == Some(NoFilter);
    GetLinesExact(b', ["GET"], NoFilter);
    assert n in b'.notes && Matches(NoFilter, n);
  }

  // ---------------------------------------------------------------- GET

  /** A note passes every filter that is present. */
  predicate Matches(f: Filter, n: Note)
  {
    (f.color.None? || EqualsIgnoreCase(n.color, f.color.value))
    && (f.text.None? || Contains(Lower(n.msg), Lower(f.text.value)))
    && (f.point.None? || Covers(n.Origin(), f.point.value.0, f.point.value.1))
  }

  /** The notes that pass the filters, in list order. */
  function Matching(notes: seq<Note>, f: Filter): seq<Note>
  {
    if notes == [] then []
    else
      var last := notes[|notes| - 1];
      Matching(notes[..|notes| - 1], f) + if Matches(f, last) then [last] else []
  }

  /** The NOTE lines for `notes`, each with its current PINNED flag. */
  function Lines(notes: seq<Note>, pins: seq<Pin>): (r: seq<NoteLine>)
    ensures |r| == |notes|
    ensures forall i :: 0 <= i < |notes| ==> r[i] == NoteLine(notes[i], IsPinned(pins, notes[i].Origin()))
  {
    if notes == [] then []
    else Lines(notes[..|notes| - 1], pins) + [NoteLine(notes[|notes| - 1], IsPinned(pins, notes[|notes| - 1].Origin()))]
  }

  function PinPoints(pins: seq<Pin>): (r: seq<Point>)
    ensures |r| == |pins|
    ensures forall i :: 0 <= i < |pins| ==> r[i] == (pins[i].x, pins[i].y)
  {
    if pins == [] then [] else PinPoints(pins[..|pins| - 1]) + [(pins[|pins| - 1].x, pins[|pins| - 1].y)]
  }

  /** handleGet: `GET PINS` (any case) lists every pin; otherwise the filters are
      parsed, and a parse failure is BAD_SYNTAX before anything is listed. */
  function Get(b: Board, args: seq<string>): Response
    requires |args| >= 1
  {
    if |args| > 1 && EqualsIgnoreCase(args[1], "PINS") then PinList(PinPoints(b.pins))
    else match Parse(args[1..])
      case None => Error(BadSyntax)
      case Some(f) => NoteList(Lines(Matching(b.notes, f), b.pins))
  }

  /** `a` is `b` with some elements left out, the rest in their order. */
  predicate IsSubsequence<T(==)>(a: seq<T>, b: seq<T>)
    decreases |b|
  {
    if b == [] then a == []
    else
      (a != [] && a[|a| - 1] == b[|b| - 1] && IsSubsequence(a[..|a| - 1], b[..|b| - 1]))
      || IsSubsequence(a, b[..|b| - 1])
  }

  lemma SubsequenceExtend<T>(a: seq<T>, b: seq<T>, x: T)
    requires IsSubsequence(a, b)
    ensures IsSubsequence(a, b + [x]) && IsSubsequence(a + [x], b + [x])
  {
    assert (b + [x])[..|b|] == b;
    assert (a + [x])[..|a|] == a;
  }

  /** A filtered GET lists exactly the notes that pass every filter, in list order. */
  lemma {:induction false} MatchingExact(notes: seq<Note>, f: Filter)
    ensures forall n :: n in Matching(notes, f) <==> n in notes && Matches(f, n)
    ensures IsSubsequence(Matching(notes, f), notes)
  {
    if notes != [] {
      var init, last := notes[..|notes| - 1], notes[|notes| - 1];
      assert notes == init + [last];
      MatchingExact(init, f);
      SubsequenceExtend(Matching(init, f), init, last);
      if Matches(f, last) {
        assert Matching(notes, f) == Matching(init, f) + [last];
      } else {
        assert Matching(notes, f) == Matching(init, f);
      }
    }
  }

  /** One more note visited by the matching loop. */
  lemma MatchingStep(notes: seq<Note>, i: nat, f: Filter)
    requires i < |notes|
    ensures Matching(notes[..i + 1], f) == Matching(notes[..i], f) + if Matches(f, notes[i]) then [notes[i]] else []
  {
    assert notes[..i + 1][..i] == notes[..i];
  }

  /** One more line written by the listing loop. */
  lemma LinesStep(notes: seq<Note>, pins: seq<Pin>, j: nat)
    requires j < |notes|
    ensures Lines(notes[..j + 1], pins) == Lines(notes[..j], pins) + [NoteLine(notes[j], IsPinned(pins, notes[j].Origin()))]
  {
    assert notes[..j + 1][..j] == notes[..j];
  }

  /** One more pin written by the GET PINS loop. */
  lemma PinPointsStep(pins: seq<Pin>, i: nat)
    requires i < |pins|
    ensures PinPoints(pins[..i + 1]) == PinPoints(pins[..i]) + [(pins[i].x, pins[i].y)]
  {
    assert pins[..i + 1][..i] == pins[..i];
  }

  lemma GetLinesExact(b: Board, args: seq<string>, f: Filter)
    requires |args| >= 1 && !(|args| > 1 && EqualsIgnoreCase(args[1], "PINS"))
    requires Parse(args[1..]) == Some(f)
    ensures Get(b, args).NoteList?
    ensures forall l :: l in Get(b, args).lines <==>
      l.note in b.notes && Matches(f, l.note) && l.pinned == IsPinned(b.pins, l.note.Origin())
  {
    var ms := Matching(b.notes, f);
    MatchingExact(b.notes, f);
    var ls := Lines(ms, b.pins);
    forall l ensures l in ls <==> l.note in b.notes && Matches(f, l.note) && l.pinned == IsPinned(b.pins, l.note.Origin()) {
      if l.note in b.notes && Matches(f, l.note) && l.pinned == IsPinned(b.pins, l.note.Origin()) {
        var i :| 0 <= i < |ms| && ms[i] == l.note;
        assert ls[i] == l;
      }
    }
  }

  // ---------------------------------------------------------------- PIN

  /** The origins of the notes that strictly contain (px, py). */
  function HeldBy(notes: seq<Note>, px: int, py: int): set<Point>
  {
    set n | n in notes && StrictlyInside(n.Origin(), px, py) :: n.Origin()
  }

  predicate EdgeHit(notes: seq<Note>, px: int, py: int)
  {
    exists n :: n in notes && OnEdge(n.Origin(), px, py)
  }

  /** handlePin after parsing: a pin at the same point, then any edge hit, then no
      covering note reject the pin; otherwise it freezes the notes strictly around it. */
  function PlacePin(b: Board, px: int, py: int): Step
  {
    if PinAt(b.pins, px, py) then Step(Error(CompleteOverlap), b)
    else if EdgeHit(b.notes, px, py) then Step(Error(PinOnEdge), b)
    else if HeldBy(b.notes, px, py) == {} then Step(Error(NoNoteAtCoordinate), b)
    else Step(PinAdded, b.(pins := b.pins + [Pin(px, py, HeldBy(b.notes, px, py))]))
  }

  lemma HeldByStep(notes: seq<Note>, n: Note, px: int, py: int)
    ensures HeldBy(notes + [n], px, py)
         == HeldBy(notes, px, py) + if StrictlyInside(n.Origin(), px, py) then {n.Origin()} else {}
    ensures EdgeHit(notes + [n], px, py) <==> EdgeHit(notes, px, py) || OnEdge(n.Origin(), px, py)
  {
    assert forall m :: m in notes + [n] <==> m in notes || m == n;
  }

  /** Parses the two coordinates of PIN and UNPIN. */
  function Coordinates(args: seq<string>): Option<Point>
  {
    if |args| < 3 then None
    else match (ParseInt(args[1]), ParseInt(args[2]))
      case (Some(x), Some(y)) => Some((x, y))
      case _ => None
  }

  function PinCommand(b: Board, args: seq<string>): Step
  {
    match Coordinates(args)
    case None => Step(Error(BadSyntax), b)
    case Some(p) => PlacePin(b, p.0, p.1)
  }

  lemma PlacePinPreservesValid(b: Board, px: int, py: int)
    requires Valid(b)
    ensures Valid(PlacePin(b, px, py).board)
  {
    var s := PlacePin(b, px, py);
    if s.response == PinAdded {
      var p := Pin(px, py, HeldBy(b.notes, px, py));
      var pins := b.pins + [p];
      forall i, j | 0 <= i < j < |pins| ensures (pins[i].x, pins[i].y) != (pins[j].x, pins[j].y) {
        if j == |b.pins| {
          assert pins[i] == b.pins[i];
        }
      }
      assert PinHolds(p, b.notes);
      forall i | 0 <= i < |pins| ensures PinHolds(pins[i], b.notes) {
        if i < |b.pins| { assert pins[i] == b.pins[i]; }
      }
    }
  }

  /** The decision of PIN, as the source orders it. An edge hit wins over notes that
      strictly contain the point; NO_NOTE_AT_COORDINATE means no note contains the
      point at all, edges included; an added pin holds exactly the origins of the notes
      strictly around it, and the notes never change. */
  lemma PlacePinOutcome(b: Board, px: int, py: int)
    ensures var s := PlacePin(b, px, py);
      && s.board.notes == b.notes
      && s.response in {Error(CompleteOverlap), Error(PinOnEdge), Error(NoNoteAtCoordinate), PinAdded}
      && (s.response == Error(CompleteOverlap) <==> PinAt(b.pins, px, py))
      && (s.response == Error(PinOnEdge) <==>
            !PinAt(b.pins, px, py) && exists i :: 0 <= i < |b.notes| && OnEdge(b.notes[i].Origin(), px, py))
      && (s.response == Error(NoNoteAtCoordinate) <==>
            !PinAt(b.pins, px, py) && forall i :: 0 <= i < |b.notes| ==> !Covers(b.notes[i].Origin(), px, py))
      && (s.response == PinAdded ==>
            && s.board.pins[..|b.pins|] == b.pins
            && |s.board.pins| == |b.pins| + 1
            && s.board.pins[|b.pins|].x == px && s.board.pins[|b.pins|].y == py
            && forall k :: k in s.board.pins[|b.pins|].appliesTo <==>
                 exists i :: 0 <= i < |b.notes| && b.notes[i].Origin() == k && StrictlyInside(k, px, py))
  {
    var held := HeldBy(b.notes, px, py);
    if EdgeHit(b.notes, px, py) {
      var n :| n in b.notes && OnEdge(n.Origin(), px, py);
      var i :| 0 <= i < |b.notes| && b.notes[i] == n;
    }
    if held != {} {
      var k :| k in held;
      var n :| n in b.notes && StrictlyInside(n.Origin(), px, py) && n.Origin() == k;
      var i :| 0 <= i < |b.notes| && b.notes[i] == n;
    }
    if !EdgeHit(b.notes, px, py) && held == {} {
      forall i | 0 <= i < |b.notes| ensures !Covers(b.notes[i].Origin(), px, py) {
        var n := b.notes[i];
        assert n in b.notes && !OnEdge(n.Origin(), px, py);
        assert n.Origin() !in held;
      }
    }
    forall k ensures k in held <==> exists i :: 0 <= i < |b.notes| && b.notes[i].Origin() == k && StrictlyInside(k, px, py) {
      if k in held {
        var n :| n in b.notes && StrictlyInside(n.Origin(), px, py) && n.Origin() == k;
        var i :| 0 <= i < |b.notes| && b.notes[i] == n;
      }
    }
  }

  /** A pin placed strictly inside a note protects it: the note reads as pinned
      and survives the next SHAKE. */
  lemma PinProtects(b: Board, px: int, py: int, n: Note)
    requires PlacePin(b, px, py).response == PinAdded
    requires n in b.notes && StrictlyInside(n.Origin(), px, py)
    ensures IsPinned(PlacePin(b, px, py).board.pins, n.Origin())
    ensures n in Shake(PlacePin(b, px, py).board).notes
  {
    var b' := PlacePin(b, px, py).board;
    assert n.Origin() in b'.pins[|b'.pins| - 1].appliesTo;
    ShakeKeepsExactlyPinned(b'.notes, b'.pins);
  }

  // ---------------------------------------------------------------- UNPIN

  /** removeIf over the pins: drops every pin standing at (px, py). */
  function DropPinsAt(pins: seq<Pin>, px: int, py: int): seq<Pin>
  {
    if pins == [] then []
    else
      var last := pins[|pins| - 1];
      DropPinsAt(pins[..|pins| - 1], px, py) + if last.x == px && last.y == py then [] else [last]
  }

  /** handleUnpin after parsing: `OK` exactly when a pin stood at the point. */
  function RemovePin(b: Board, px: int, py: int): Step
  {
    if PinAt(b.pins, px, py) then Step(Unpinned, b.(pins := DropPinsAt(b.pins, px, py)))
    else Step(Error(PinNotFound), b)
  }

  function UnpinCommand(b: Board, args: seq<string>): Step
  {
    match Coordinates(args)
    case None => Step(Error(BadSyntax), b)
    case Some(p) => RemovePin(b, p.0, p.1)
  }

  /** One more pin visited by the `removeIf` loop of UNPIN. */
  lemma DropPinsAtStep(pins: seq<Pin>, i: nat, px: int, py: int)
    requires i < |pins|
    ensures DropPinsAt(pins[..i + 1], px, py)
         == DropPinsAt(pins[..i], px, py) + if pins[i].x == px && pins[i].y == py then [] else [pins[i]]
    ensures PinAt(pins[..i + 1], px, py) <==> PinAt(pins[..i], px, py) || (pins[i].x == px && pins[i].y == py)
  {
    assert pins[..i + 1][..i] == pins[..i];
    assert forall j :: 0 <= j < i + 1 ==> pins[..i + 1][j] == pins[j];
  }

  lemma {:induction false} DropPinsAtSubsequence(pins: seq<Pin>, px: int, py: int)
    ensures IsSubsequence(DropPinsAt(pins, px, py), pins)
    ensures forall p :: p in DropPinsAt(pins, px, py) <==> p in pins && !(p.x == px && p.y == py)
  {
    if pins != [] {
      var init, last := pins[..|pins| - 1], pins[|pins| - 1];
      assert pins == init + [last];
      DropPinsAtSubsequence(init, px, py);
      SubsequenceExtend(DropPinsAt(init, px, py), init, last);
      if last.x == px && last.y == py {
        assert DropPinsAt(pins, px, py) == DropPinsAt(init, px, py);
      } else {
        assert DropPinsAt(pins, px, py) == DropPinsAt(init, px, py) + [last];
      }
    }
  }

  lemma {:induction false} DropPinsAtAbsent(pins: seq<Pin>, px: int, py: int)
    requires !PinAt(pins, px, py)
    ensures DropPinsAt(pins, px, py) == pins
  {
    if pins != [] {
      var init := pins[..|pins| - 1];
      assert forall i :: 0 <= i < |init| ==> init[i] == pins[i];
      DropPinsAtAbsent(init, px, py);
      assert pins[|pins| - 1].x != px || pins[|pins| - 1].y != py;
      assert init + [pins[|pins| - 1]] == pins;
    }
  }

  /** Because pin points are distinct, UNPIN removes exactly the one pin at the point
      and keeps the others in their order. */
  lemma {:induction false} UnpinRemovesExactlyOne(pins: seq<Pin>, i: nat)
    requires DistinctPinPoints(pins)
    requires i < |pins|
    ensures DropPinsAt(pins, pins[i].x, pins[i].y) == pins[..i] + pins[i + 1..]
  {
    var px, py := pins[i].x, pins[i].y;
    var init, last := pins[..|pins| - 1], pins[|pins| - 1];
    if i == |pins| - 1 {
      assert forall j :: 0 <= j < |init| ==> init[j] == pins[j];
      DropPinsAtAbsent(init, px, py);
    } else {
      assert DistinctPinPoints(init) by {
        forall a, c | 0 <= a < c < |init| ensures (init[a].x, init[a].y) != (init[c].x, init[c].y) {
          assert init[a] == pins[a] && init[c] == pins[c];
        }
      }
      assert init[i] == pins[i];
      UnpinRemovesExactlyOne(init, i);
      assert (last.x, last.y) != (px, py);
      assert init[..i] == pins[..i];
      assert init[i + 1..] + [last] == pins[i + 1..];
    }
  }

  /** What UNPIN promises: `OK` exactly when a pin stood at the point; afterwards no
      pin stands there, the other pins keep their order, and the notes never change. */
  lemma RemovePinOutcome(b: Board, px: int, py: int)
    ensures var s := RemovePin(b, px, py);
      && s.board.notes == b.notes
      && (s.response == Unpinned <==> exists i :: 0 <= i < |b.pins| && b.pins[i].x == px && b.pins[i].y == py)
      && (s.response == Error(PinNotFound) <==> s.board.pins == b.pins)
      && IsSubsequence(s.board.pins, b.pins)
      && forall p :: p in s.board.pins <==> p in b.pins && !(p.x == px && p.y == py)
  {
    DropPinsAtSubsequence(b.pins, px, py);
    if PinAt(b.pins, px, py) {
      var i :| 0 <= i < |b.pins| && b.pins[i].x == px && b.pins[i].y == py;
      assert b.pins[i] !in DropPinsAt(b.pins, px, py);
    } else {
      DropPinsAtAbsent(b.pins, px, py);
    }
  }

  /** Removing the pin at index `i` shifts the later pins down by one. */
  lemma RemoveAtShifts(pins: seq<Pin>, i: nat)
    requires i < |pins|
    ensures |pins[..i] + pins[i + 1..]| == |pins| - 1
    ensures forall a :: 0 <= a < i ==> (pins[..i] + pins[i + 1..])[a] == pins[a]
    ensures forall a :: i < a < |pins| ==> (pins[..i] + pins[i + 1..])[a - 1] == pins[a]
  {
    var rest := pins[..i] + pins[i + 1..];
    forall a | i < a < |pins| ensures rest[a - 1] == pins[a] {
      assert rest[a - 1] == pins[i + 1..][a - 1 - i];
    }
  }

  lemma DistinctAfterRemoveAt(pins: seq<Pin>, i: nat)
    requires i < |pins| && DistinctPinPoints(pins)
    ensures DistinctPinPoints(pins[..i] + pins[i + 1..])
  {
    var rest := pins[..i] + pins[i + 1..];
    RemoveAtShifts(pins, i);
    forall a, c | 0 <= a < c < |rest| ensures (rest[a].x, rest[a].y) != (rest[c].x, rest[c].y) {
      var a', c' := if a < i then a else a + 1, if c < i then c else c + 1;
      assert rest[a] == pins[a'] && rest[c] == pins[c'];
    }
  }

  lemma HoldAfterRemoveAt(b: Board, i: nat)
    requires i < |b.pins| && PinsHold(b)
    ensures PinsHold(b.(pins := b.pins[..i] + b.pins[i + 1..]))
  {
    var rest := b.pins[..i] + b.pins[i + 1..];
    RemoveAtShifts(b.pins, i);
    forall a | 0 <= a < |rest| ensures PinHolds(rest[a], b.notes) {
      var a' := if a < i then a else a + 1;
      assert rest[a] == b.pins[a'];
    }
  }

  lemma RemovePinPreservesValid(b: Board, px: int, py: int)
    requires Valid(b)
    ensures Valid(RemovePin(b, px, py).board)
  {
    if PinAt(b.pins, px, py) {
      var i :| 0 <= i < |b.pins| && b.pins[i].x == px && b.pins[i].y == py;
      UnpinRemovesExactlyOne(b.pins, i);
      DistinctAfterRemoveAt(b.pins, i);
      HoldAfterRemoveAt(b, i);
      assert RemovePin(b, px, py).board == b.(pins := b.pins[..i] + b.pins[i + 1..]);
    }
  }

  // ---------------------------------------------------------------- SHAKE and CLEAR

  /** `notes.removeIf(n -> !isNotePinned(n))`: the pinned notes, in their order. */
  function KeepPinned(notes: seq<Note>, pins: seq<Pin>): seq<Note>
  {
    if notes == [] then []
    else
      var last := notes[|notes| - 1];
      KeepPinned(notes[..|notes| - 1], pins) + if IsPinned(pins, last.Origin()) then [last] else []
  }

  function Shake(b: Board): Board
  {
    b.(notes := KeepPinned(b.notes, b.pins))
  }

  /** SHAKE keeps exactly the pinned notes, in their original order. */
  lemma {:induction false} ShakeKeepsExactlyPinned(notes: seq<Note>, pins: seq<Pin>)
    ensures forall n :: n in KeepPinned(notes, pins) <==> n in notes && IsPinned(pins, n.Origin())
    ensures IsSubsequence(KeepPinned(notes, pins), notes)
  {
    if notes != [] {
      var init, last := notes[..|notes| - 1], notes[|notes| - 1];
      assert notes == init + [last];
      ShakeKeepsExactlyPinned(init, pins);
      SubsequenceExtend(KeepPinned(init, pins), init, last);
      if IsPinned(pins, last.Origin()) {
        assert KeepPinned(notes, pins) == KeepPinned(init, pins) + [last];
      } else {
        assert KeepPinned(notes, pins) == KeepPinned(init, pins);
      }
    }
  }

  /** A second SHAKE changes nothing. */
  lemma {:induction false} ShakeIdempotent(notes: seq<Note>, pins: seq<Pin>)
    ensures KeepPinned(KeepPinned(notes, pins), pins) == KeepPinned(notes, pins)
  {
    if notes != [] {
      var init, last := notes[..|notes| - 1], notes[|notes| - 1];
      ShakeIdempotent(init, pins);
      var k := KeepPinned(init, pins);
      assert KeepPinned(k, pins) == k;
      if IsPinned(pins, last.Origin()) {
        assert KeepPinned(notes, pins) == k + [last];
        assert (k + [last])[..|k|] == k;
        assert (k + [last])[|k|] == last;
        assert KeepPinned(k + [last], pins) == KeepPinned(k, pins) + [last];
      } else {
        assert KeepPinned(notes, pins) == k;
      }
    }
  }

  lemma {:induction false} KeepPinnedKeepsNotesValid(notes: seq<Note>, pins: seq<Pin>)
    requires NotesInPlane(notes) && DistinctOrigins(notes)
    ensures NotesInPlane(KeepPinned(notes, pins)) && DistinctOrigins(KeepPinned(notes, pins))
  {
    if notes != [] {
      var init, last := notes[..|notes| - 1], notes[|notes| - 1];
      assert NotesInPlane(init) && DistinctOrigins(init) by {
        forall i | 0 <= i < |init| ensures init[i] == notes[i] { }
      }
      KeepPinnedKeepsNotesValid(init, pins);
      var k := KeepPinned(init, pins);
      ShakeKeepsExactlyPinned(init, pins);
      if IsPinned(pins, last.Origin()) {
        var r := k + [last];
        forall i, j | 0 <= i < j < |r| ensures r[i].Origin() != r[j].Origin() {
          if j == |k| {
            assert r[i] in init;
            var m :| 0 <= m < |init| && init[m] == r[i];
            assert notes[m] == r[i];
          }
        }
      }
    }
  }

  lemma ShakePreservesValid(b: Board)
    requires Valid(b)
    ensures Valid(Shake(b))
  {
    KeepPinnedKeepsNotesValid(b.notes, b.pins);
    var kept := KeepPinned(b.notes, b.pins);
    ShakeKeepsExactlyPinned(b.notes, b.pins);
    forall i | 0 <= i < |b.pins| ensures PinHolds(b.pins[i], kept) {
      var p := b.pins[i];
      assert PinHolds(p, b.notes);
      forall k | k in p.appliesTo ensures k in Origins(kept) {
        var n :| n in b.notes && n.Origin() == k;
        assert IsPinned(b.pins, n.Origin());
        assert n in kept;
      }
    }
  }

  /** A note is pinned only while it is on the board: a pin never holds the origin
      of a note that is gone, so a note posted later at a freed origin is unpinned. */
  lemma PinnedNotesAreOnBoard(b: Board, k: Point)
    requires Valid(b) && IsPinned(b.pins, k)
    ensures k in Origins(b.notes)
  {
    var i :| 0 <= i < |b.pins| && k in b.pins[i].appliesTo;
    assert PinHolds(b.pins[i], b.notes);
  }

  // ---------------------------------------------------------------- dispatch

  /** processCommand: the verb is upper-cased; any exception is BAD_SYNTAX. */
  function Process(b: Board, args: seq<string>): Step
  {
    if args == [] then Step(NoReply, b)
    else
      var verb := Upper(args[0]);
      if verb == "POST" then PostCommand(b, args)
      else if verb == "GET" then Step(Get(b, args), b)
      else if verb == "PIN" then PinCommand(b, args)
      else if verb == "UNPIN" then UnpinCommand(b, args)
      else if verb == "CLEAR" then Step(BoardCleared, Empty)
      else Step(Error(UnknownCommand), b)
  }

  /** A verb that is none of the five, in any case, is UNKNOWN_COMMAND. */
  lemma UnknownVerb(b: Board, args: seq<string>)
    requires args != []
    requires Upper(args[0]) !in {"POST", "GET", "PIN", "UNPIN", "CLEAR"}
    ensures Process(b, args) == Step(Error(UnknownCommand), b)
  {
  }

  /** The reply to one line, the board after it, and whether the session ends. */
  datatype LineStep = LineStep(step: Step, closed: bool)

  /** One turn of the session loop: SHAKE and DISCONNECT are matched against the
      whole raw line, anything else goes to processCommand with the line's tokens. */
  function HandleLine(b: Board, line: string, args: seq<string>): LineStep
  {
    if EqualsIgnoreCase(line, "SHAKE") then LineStep(Step(ShakeComplete, Shake(b)), false)
    else if EqualsIgnoreCase(line, "DISCONNECT") then LineStep(Step(Disconnecting, b), true)
    else LineStep(Process(b, args), false)
  }

  lemma ProcessPreservesValid(b: Board, args: seq<string>)
    requires Valid(b)
    ensures Valid(Process(b, args).board)
  {
    if args != [] {
      var verb := Upper(args[0]);
      if verb == "POST" && |args| >= 4 && ParseInt(args[1]).Some? && ParseInt(args[2]).Some? {
        PostPreservesValid(b, ParseInt(args[1]).value, ParseInt(args[2]).value, args[3], Join(args[4..]));
      } else if verb == "PIN" && Coordinates(args).Some? {
        PlacePinPreservesValid(b, Coordinates(args).value.0, Coordinates(args).value.1);
      } else if verb == "UNPIN" && Coordinates(args).Some? {
        RemovePinPreservesValid(b, Coordinates(args).value.0, Coordinates(args).value.1);
      }
    }
  }

  /** Every line the session accepts keeps the store invariant. */
  lemma HandleLinePreservesValid(b: Board, line: string, args: seq<string>)
    requires Valid(b)
    ensures Valid(HandleLine(b, line, args).step.board)
  {
    if EqualsIgnoreCase(line, "SHAKE") {
      ShakePreservesValid(b);
    } else if !EqualsIgnoreCase(line, "DISCONNECT") {
      ProcessPreservesValid(b, args);
    }
  }

  /** POST, PIN and UNPIN change the board only when they succeed. */
  lemma CommandsChangeOnlyOnSuccess(b: Board, args: seq<string>)
    ensures PostCommand(b, args).response == NotePosted || PostCommand(b, args).board == b
    ensures PinCommand(b, args).response == PinAdded || PinCommand(b, args).board == b
    ensures UnpinCommand(b, args).response == Unpinned || UnpinCommand(b, args).board == b
  {
  }

  /** A command changes the board only when it is answered with a success. */
  lemma ProcessChangesOnlyOnSuccess(b: Board, args: seq<string>)
    ensures var s := Process(b, args);
      || s.board == b
      || s.response == NotePosted || s.response == PinAdded
      || s.response == Unpinned || s.response == BoardCleared
  {
    CommandsChangeOnlyOnSuccess(b, args);
    if args != [] {
      var verb := Upper(args[0]);
      if verb == "POST" {
        assert Process(b, args) == PostCommand(b, args);
      } else if verb == "GET" {
        assert Process(b, args).board == b;
      } else if verb == "PIN" {
        assert Process(b, args) == PinCommand(b, args);
      } else if verb == "UNPIN" {
        assert Process(b, args) == UnpinCommand(b, args);
      }
    }
  }

  /** All or nothing: a line answered with an error leaves the board as it was,
      and so does every GET. */
  lemma ErrorsChangeNothing(b: Board, line: string, args: seq<string>)
    ensures var s := HandleLine(b, line, args).step;
      (s.response.Error? || s.response.NoteList? || s.response.PinList?) ==> s.board == b
  {
    if !EqualsIgnoreCase(line, "SHAKE") && !EqualsIgnoreCase(line, "DISCONNECT") {
      ProcessChangesOnlyOnSuccess(b, args);
    }
  }

  // ---------------------------------------------------------------- the bounds test as written

  /** Java int addition: the sum wrapped into the 32-bit range. */
  function Wrap32(v: int): (r: int)
    ensures IsInt32(r)
    ensures (r - v) % 0x1_0000_0000 == 0
  {
    (v - MinInt) % 0x1_0000_0000 + MinInt
  }

  /** `!(x < 0 || y < 0 || x + nW > bW || y + nH > bH)` evaluated in Java int. */
  predicate InPlaneAsWritten(x: int, y: int)
  {
    !(x < 0 || y < 0 || Wrap32(x + NoteWidth) > BoardWidth || Wrap32(y + NoteHeight) > BoardHeight)
  }

  /** handlePost with the bounds test as written. */
  function PostAsWritten(b: Board, x: int, y: int, color: string, msg: string): Step
  {
    if !InPlaneAsWritten(x, y) then Step(Error(OutOfBounds), b)
    else if (x, y) in Origins(b.notes) then Step(Error(CompleteOverlap), b)
    else Step(NotePosted, b.(notes := b.notes + [Note(x, y, Lower(color), msg)]))
  }

  /** `POST 2147483647 0 red x` on an empty board: the sum x + 15 wraps to a negative
      int, the note is accepted, and the board leaves the plane. */
  lemma PostAsWrittenLeavesPlane()
    ensures PostAsWritten(Empty, MaxInt, 0, "red", "x").response == NotePosted
    ensures !Valid(PostAsWritten(Empty, MaxInt, 0, "red", "x").board)
  {
    assert Wrap32(MaxInt + NoteWidth) == MinInt + NoteWidth - 1;
    var b := PostAsWritten(Empty, MaxInt, 0, "red", "x").board;
    assert !InPlane(b.notes[0].x, b.notes[0].y);
  }

  /** The two bounds tests differ only where x + 15 or y + 10 leaves the int range. */
  lemma InPlaneAsWrittenAgrees(x: int, y: int)
    requires IsInt32(x) && IsInt32(y)
    requires x + NoteWidth <= MaxInt && y + NoteHeight <= MaxInt
    ensures InPlaneAsWritten(x, y) <==> InPlane(x, y)
  {
    if 0 <= x && 0 <= y {
      assert Wrap32(x + NoteWidth) == x + NoteWidth;
      assert Wrap32(y + NoteHeight) == y + NoteHeight;
    }
  }
}
