/** Sessions on a concrete board, each a sequence of lines with their tokens,
    and what the server answers. */
module Scenarios {
  import opened JavaText
  import opened GetFilters
  import opened Store

  lemma SmallNumbers()
    ensures ParseInt("0") == Some(0) && ParseInt("5") == Some(5)
    ensures ParseInt("50") == Some(50) && ParseInt("140") == Some(140)
    ensures ParseInt("10") == Some(10) && ParseInt("15") == Some(15)
  {
    assert DigitsValue("10") == 10 by { assert "10"[..1] == "1"; }
    assert DigitsValue("15") == 15 by { assert "15"[..1] == "1"; }
    assert DigitsValue("50") == 50 by { assert "50"[..1] == "5"; }
    assert DigitsValue("140") == 140 by {
      assert "140"[..2] == "14" && "14"[..1] == "1";
    }
  }

  lemma DispatchPost(b: Board, args: seq<string>)
    requires args != [] && args[0] == "POST"
    ensures Process(b, args) == PostCommand(b, args)
  {
    assert Upper("POST") == "POST";
  }

  lemma DispatchPin(b: Board, args: seq<string>)
    requires args != [] && args[0] == "PIN"
    ensures Process(b, args) == PinCommand(b, args)
  {
    assert Upper("PIN") == "PIN";
  }

  lemma ShakeUpperCased()
    ensures Upper("shake") == "SHAKE" && Upper("SHAKE") == "SHAKE"
  {
    assert Upper("shake")[4] == 'E';
  }

  /** SHAKE, in any case, is not one of the verbs processCommand knows. */
  lemma ShakeIsNoVerb(b: Board, args: seq<string>)
    requires args != [] && Upper(args[0]) == "SHAKE"
    ensures Process(b, args) == Step(Error(UnknownCommand), b)
  {
    assert "SHAKE"[0] != "UNPIN"[0] && "SHAKE"[0] != "CLEAR"[0];
    UnknownVerb(b, args);
  }

  lemma PostWords(b: Board, args: seq<string>, x: int, y: int)
    requires |args| >= 4 && ParseInt(args[1]) == Some(x) && ParseInt(args[2]) == Some(y)
    ensures PostCommand(b, args) == Post(b, x, y, args[3], Join(args[4..]))
  {
  }

  /** POST 0 0 red hello twice: the second is COMPLETE_OVERLAP and one note remains. */
  lemma DoublePost()
    ensures var s1 := Process(Empty, ["POST", "0", "0", "red", "hello"]);
      && s1.response == NotePosted
      && s1.board.notes == [Note(0, 0, "red", "hello")]
      && var s2 := Process(s1.board, ["POST", "0", "0", "red", "hello"]);
      && s2.response == Error(CompleteOverlap)
      && s2.board == s1.board
  {
    var args := ["POST", "0", "0", "red", "hello"];
    var b1 := Board([Note(0, 0, "red", "hello")], []);
    PostHello(Empty);
    PostHello(b1);
    assert Post(Empty, 0, 0, "red", "hello") == Step(NotePosted, b1) by {
      assert Lower("red") == "red";
    }
    assert Post(b1, 0, 0, "red", "hello") == Step(Error(CompleteOverlap), b1) by {
      assert b1.notes[0] in b1.notes;
    }
  }

  lemma PostHello(b: Board)
    ensures Process(b, ["POST", "0", "0", "red", "hello"]) == Post(b, 0, 0, "red", "hello")
  {
    var args := ["POST", "0", "0", "red", "hello"];
    SmallNumbers();
    assert Join(args[4..]) == "hello" by { assert args[4..] == ["hello"]; }
    DispatchPost(b, args);
    PostWords(b, args, 0, 0);
  }

  /** POST 140 0 red x: 140 + 15 = 155 exceeds the width, so OUT_OF_BOUNDS. */
  lemma PostPastTheEdge(b: Board)
    ensures Process(b, ["POST", "140", "0", "red", "x"]) == Step(Error(OutOfBounds), b)
  {
    var args := ["POST", "140", "0", "red", "x"];
    SmallNumbers();
    DispatchPost(b, args);
    PostWords(b, args, 140, 0);
  }

  lemma PurpleIsNoPaletteColour()
    ensures "purple" !in Palette
  {
    assert "purple"[0] != "yellow"[0];
  }

  /** POST 0 0 purple x is accepted: the colour is only lower-cased, never checked. */
  lemma PurpleIsPosted()
    ensures "purple" !in Palette
    ensures Process(Empty, ["POST", "0", "0", "purple", "x"]).response == NotePosted
  {
    PurpleIsNoPaletteColour();
    var args := ["POST", "0", "0", "purple", "x"];
    SmallNumbers();
    DispatchPost(Empty, args);
    PostWords(Empty, args, 0, 0);
  }

  lemma ShakeWithArgumentLine(b: Board)
    ensures HandleLine(b, "SHAKE x", ["SHAKE", "x"]) == LineStep(Process(b, ["SHAKE", "x"]), false)
  {
    assert !EqualsIgnoreCase("SHAKE x", "SHAKE") by { assert |Lower("SHAKE x")| == 7; }
    assert !EqualsIgnoreCase("SHAKE x", "DISCONNECT") by { assert |Lower("DISCONNECT")| == 10; }
  }

  /** SHAKE with an argument is not the SHAKE line: it reaches processCommand,
      where SHAKE is no verb. */
  lemma ShakeWithArgument(b: Board)
    ensures HandleLine(b, "SHAKE x", ["SHAKE", "x"]) == LineStep(Step(Error(UnknownCommand), b), false)
  {
    ShakeWithArgumentLine(b);
    ShakeUpperCased();
    ShakeIsNoVerb(b, ["SHAKE", "x"]);
  }

  lemma ShakeWithLeadingSpaceLine(b: Board)
    ensures HandleLine(b, " shake", ["shake"]) == LineStep(Process(b, ["shake"]), false)
  {
    assert !EqualsIgnoreCase(" shake", "SHAKE") by { assert |Lower(" shake")| == 6; }
    assert !EqualsIgnoreCase(" shake", "DISCONNECT") by { assert |Lower("DISCONNECT")| == 10; }
  }

  /** Nor is a SHAKE line with a leading space, although its only token is "shake". */
  lemma ShakeWithLeadingSpace(b: Board)
    ensures HandleLine(b, " shake", ["shake"]) == LineStep(Step(Error(UnknownCommand), b), false)
  {
    ShakeWithLeadingSpaceLine(b);
    ShakeUpperCased();
    ShakeIsNoVerb(b, ["shake"]);
  }

  const TwoNotes: Board := Board([Note(0, 0, "red", "a"), Note(50, 50, "blue", "b")], [])

  /** PIN 5 5 on two notes: the point is strictly inside the first note only. */
  lemma PinInsideOneNote()
    ensures Process(TwoNotes, ["PIN", "5", "5"]) == Step(PinAdded, TwoNotes.(pins := [Pin(5, 5, {(0, 0)})]))
  {
    SmallNumbers();
    DispatchPin(TwoNotes, ["PIN", "5", "5"]);
    assert Coordinates(["PIN", "5", "5"]) == Some((5, 5));
    PlaceInsideOneNote();
  }

  lemma PlaceInsideOneNote()
    ensures PlacePin(TwoNotes, 5, 5) == Step(PinAdded, TwoNotes.(pins := [Pin(5, 5, {(0, 0)})]))
  {
    var notes := TwoNotes.notes;
    assert !EdgeHit(notes, 5, 5);
    assert HeldBy(notes, 5, 5) == {(0, 0)} by {
      assert notes[0] in notes;
    }
  }

  /** Then SHAKE: the pinned note and the pin survive, the other note goes. */
  lemma PinThenShake()
    ensures Shake(TwoNotes.(pins := [Pin(5, 5, {(0, 0)})]))
         == Board([Note(0, 0, "red", "a")], [Pin(5, 5, {(0, 0)})])
  {
    var notes := TwoNotes.notes;
    var pins := [Pin(5, 5, {(0, 0)})];
    assert IsPinned(pins, (0, 0));
    assert !IsPinned(pins, (50, 50));
    assert notes[..1] == [Note(0, 0, "red", "a")];
    assert notes[..1][..0] == [];
  }

  /** A pin on the corner of a note is PIN_ON_EDGE, even though a second note
      strictly contains the same point; nothing is added. */
  lemma EdgeWinsOverCover()
    ensures var b0 := Board([Note(0, 0, "red", "a"), Note(10, 5, "blue", "b")], []);
      && Process(b0, ["PIN", "15", "10"]) == Step(Error(PinOnEdge), b0)
  {
    var b0 := Board([Note(0, 0, "red", "a"), Note(10, 5, "blue", "b")], []);
    SmallNumbers();
    DispatchPin(b0, ["PIN", "15", "10"]);
    assert Coordinates(["PIN", "15", "10"]) == Some((15, 10));
    assert b0.notes[0] in b0.notes && OnEdge(b0.notes[0].Origin(), 15, 10);
    assert StrictlyInside(b0.notes[1].Origin(), 15, 10);
  }

  /** After CLEAR, GET and GET PINS both report zero. */
  lemma ClearEmptiesBoth(b: Board)
    ensures var c := Process(b, ["CLEAR"]);
      && c.response == BoardCleared
      && Get(c.board, ["GET"]) == NoteList([])
      && Get(c.board, ["GET", "PINS"]) == PinList([])
  {
    ClearDispatch(b);
    EmptyLists();
  }

  lemma ClearDispatch(b: Board)
    ensures Process(b, ["CLEAR"]) == Step(BoardCleared, Empty)
  {
    assert Upper("CLEAR") == "CLEAR";
  }

  lemma EmptyLists()
    ensures Get(Empty, ["GET"]) == NoteList([])
    ensures Get(Empty, ["GET", "PINS"]) == PinList([])
  {
  }

  /** GET color=<c> refersTo=<t>: both filters are read, to be applied together. */
  lemma ColorAndText(c: string, t: string)
    ensures Parse([ColorKey + c, RefersToKey + t]) == Some(Filter(Some(c), None, Some(Trim(t))))
  {
    ParseColorThen(NoFilter, c, [RefersToKey + t]);
    assert [ColorKey + c, RefersToKey + t] == [ColorKey + c] + [RefersToKey + t];
    ParseText(t, NoFilter.(color := Some(c)));
  }
}
