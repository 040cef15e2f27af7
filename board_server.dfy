/** The server's shared store and the command handlers of its client sessions,
    run in place: `notes` and `pins` are the two lists, and each handler reads or
    changes them with the loops of Server.java. Every handler is proved
    to give the reply and the new lists that the Store functions describe, and to
    keep the store invariant. */
module BoardServer {
  import opened JavaText
  import opened GetFilters
  import opened Store

  class Server {
    var notes: seq<Note>
    var pins: seq<Pin>

    /** The board the two lists hold. */
    function Value(): Board
      reads this
    {
      Board(notes, pins)
    }

    ghost predicate Valid()
      reads this
    {
      Store.Valid(Value())
    }

    constructor ()
      ensures Value() == Empty && Valid()
    {
      notes := [];
      pins := [];
    }

    /** handlePost, with processCommand's BAD_SYNTAX for a missing token or a bad int. */
    method HandlePost(args: seq<string>) returns (r: Response)
      requires Valid()
      modifies this
      ensures Valid()
      ensures Step(r, Value()) == PostCommand(old(Value()), args)
    {
      if |args| < 4 {
        return Error(BadSyntax);
      }
      var px, py := ParseInt(args[1]), ParseInt(args[2]);
      if px.None? || py.None? {
        return Error(BadSyntax);
      }
      var x, y := px.value, py.value;
      var color := Lower(args[3]);
      var msg := Join(args[4..]);
      if x < 0 || y < 0 || x + NoteWidth > BoardWidth || y + NoteHeight > BoardHeight {
        return Error(OutOfBounds);
      }
      for i := 0 to |notes|
        invariant forall j :: 0 <= j < i ==> notes[j].Origin() != (x, y)
      {
        if notes[i].x == x && notes[i].y == y {
          assert notes[i] in notes;
          return Error(CompleteOverlap);
        }
      }
      PostPreservesValid(Value(), x, y, args[3], msg);
      notes := notes + [Note(x, y, color, msg)];
      r := NotePosted;
    }

    /** handleGet: `GET PINS`, or the filter loop, the matching loop and the
        loop that writes one NOTE line per match with its PINNED flag. */
    method HandleGet(args: seq<string>) returns (r: Response)
      requires |args| >= 1
      ensures r == Get(Value(), args)
    {
      if |args| > 1 && EqualsIgnoreCase(args[1], "PINS") {
        var points: seq<Point> := [];
        for i := 0 to |pins|
          invariant points == PinPoints(pins[..i])
        {
          PinPointsStep(pins, i);
          points := points + [(pins[i].x, pins[i].y)];
        }
        assert pins[..|pins|] == pins;
        return PinList(points);
      }
      var filters := ParseFilters(args);
      if filters.None? {
        return Error(BadSyntax);
      }
      var f := filters.value;
      var res: seq<Note> := [];
      for i := 0 to |notes|
        invariant res == Matching(notes[..i], f)
      {
        var n := notes[i];
        var matches := true;
        if f.color.Some? && !EqualsIgnoreCase(n.color, f.color.value) {
          matches := false;
        }
        if f.text.Some? && !Contains(Lower(n.msg), Lower(f.text.value)) {
          matches := false;
        }
        if f.point.Some? {
          var (cx, cy) := f.point.value;
          if !(cx >= n.x && cx <= n.x + NoteWidth && cy >= n.y && cy <= n.y + NoteHeight) {
            matches := false;
          }
        }
        assert matches == Matches(f, n);
        MatchingStep(notes, i, f);
        if matches {
          res := res + [n];
        }
      }
      assert notes[..|notes|] == notes;
      var lines: seq<NoteLine> := [];
      for j := 0 to |res|
        invariant lines == Lines(res[..j], pins)
      {
        LinesStep(res, pins, j);
        lines := lines + [NoteLine(res[j], IsPinned(pins, res[j].Origin()))];
      }
      assert res[..|res|] == res;
      r := NoteList(lines);
    }

    /** handlePin: the duplicate check over the pins, then one pass over the notes
        that sets `onEdge`, sets `hit` and collects the origins strictly around the point. */
    method HandlePin(args: seq<string>) returns (r: Response)
      requires Valid()
      modifies this
      ensures Valid()
      ensures Step(r, Value()) == PinCommand(old(Value()), args)
    {
      if |args| < 3 || ParseInt(args[1]).None? || ParseInt(args[2]).None? {
        return Error(BadSyntax);
      }
      var px, py := ParseInt(args[1]).value, ParseInt(args[2]).value;
      for i := 0 to |pins|
        invariant !PinAt(pins[..i], px, py)
      {
        if pins[i].x == px && pins[i].y == py {
          return Error(CompleteOverlap);
        }
        assert forall j :: 0 <= j < i + 1 ==> pins[..i + 1][j] == pins[j];
      }
      assert pins[..|pins|] == pins;
      var appliesTo: set<Point> := {};
      var hit, onEdge := false, false;
      for i := 0 to |notes|
        invariant unchanged(this)
        invariant appliesTo == HeldBy(notes[..i], px, py)
        invariant hit <==> appliesTo != {}
        invariant onEdge <==> EdgeHit(notes[..i], px, py)
      {
        var n := notes[i];
        assert notes[..i + 1] == notes[..i] + [n];
        HeldByStep(notes[..i], n, px, py);
        assert notes[..i + 1] == notes[..i] + [n];
        if px >= n.x && px <= n.x + NoteWidth && py >= n.y && py <= n.y + NoteHeight {
          if px == n.x || px == n.x + NoteWidth || py == n.y || py == n.y + NoteHeight {
            onEdge := true;
          } else {
            appliesTo := appliesTo + {n.Origin()};
            hit := true;
          }
        }
      }
      assert notes[..|notes|] == notes;
      assert Coordinates(args) == Some((px, py));
      if onEdge {
        r := Error(PinOnEdge);
      } else if !hit {
        r := Error(NoNoteAtCoordinate);
      } else {
        PlacePinPreservesValid(Value(), px, py);
        pins := pins + [Pin(px, py, appliesTo)];
        r := PinAdded;
      }
    }

    /** handleUnpin: `removeIf` over the pins, answered by whether it removed any. */
    method HandleUnpin(args: seq<string>) returns (r: Response)
      requires Valid()
      modifies this
      ensures Valid()
      ensures Step(r, Value()) == UnpinCommand(old(Value()), args)
    {
      if |args| < 3 || ParseInt(args[1]).None? || ParseInt(args[2]).None? {
        return Error(BadSyntax);
      }
      var px, py := ParseInt(args[1]).value, ParseInt(args[2]).value;
      var kept: seq<Pin> := [];
      var removed := false;
      for i := 0 to |pins|
        invariant unchanged(this)
        invariant kept == DropPinsAt(pins[..i], px, py)
        invariant removed <==> PinAt(pins[..i], px, py)
      {
        DropPinsAtStep(pins, i, px, py);
        if pins[i].x == px && pins[i].y == py {
          removed := true;
        } else {
          kept := kept + [pins[i]];
        }
      }
      assert pins[..|pins|] == pins;
      if !removed {
        DropPinsAtAbsent(pins, px, py);
      }
      RemovePinPreservesValid(Value(), px, py);
      pins := kept;
      r := if removed then Unpinned else Error(PinNotFound);
    }

    /** The inline SHAKE: `notes.removeIf(n -> !isNotePinned(n))`; pins stay. */
    method Shake()
      requires Valid()
      modifies this
      ensures Valid()
      ensures Value() == Store.Shake(old(Value()))
    {
      var kept: seq<Note> := [];
      for i := 0 to |notes|
        invariant kept == KeepPinned(notes[..i], pins)
      {
        assert notes[..i + 1][..i] == notes[..i];
        if IsPinned(pins, notes[i].Origin()) {
          kept := kept + [notes[i]];
        }
      }
      assert notes[..|notes|] == notes;
      ShakePreservesValid(Value());
      notes := kept;
    }

    /** The inline CLEAR: both lists emptied. */
    method Clear()
      modifies this
      ensures Valid()
      ensures Value() == Empty
    {
      notes := [];
      pins := [];
    }

    /** processCommand: dispatch on the upper-cased verb. */
    method ProcessCommand(args: seq<string>) returns (r: Response)
      requires Valid()
      modifies this
      ensures Valid()
      ensures Step(r, Value()) == Process(old(Value()), args)
    {
      if args == [] {
        return NoReply;
      }
      var verb := Upper(args[0]);
      if verb == "POST" {
        r := HandlePost(args);
      } else if verb == "GET" {
        r := HandleGet(args);
      } else if verb == "PIN" {
        r := HandlePin(args);
      } else if verb == "UNPIN" {
        r := HandleUnpin(args);
      } else if verb == "CLEAR" {
        Clear();
        r := BoardCleared;
      } else {
        r := Error(UnknownCommand);
      }
    }

    /** One turn of the session loop of `run`: SHAKE and DISCONNECT on the raw
        line, everything else through processCommand; `closed` ends the session. */
    method HandleLine(line: string, args: seq<string>) returns (r: Response, closed: bool)
      requires Valid()
      modifies this
      ensures Valid()
      ensures LineStep(Step(r, Value()), closed) == Store.HandleLine(old(Value()), line, args)
    {
      closed := false;
      if EqualsIgnoreCase(line, "SHAKE") {
        Shake();
        r := ShakeComplete;
      } else if EqualsIgnoreCase(line, "DISCONNECT") {
        r := Disconnecting;
        closed := true;
      } else {
        r := ProcessCommand(args);
      }
    }
  }
}
