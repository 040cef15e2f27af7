/** The filter grammar of a GET command: `color=<c>`, `contains=<x> <y>` and
    `refersTo=<text...>`, read left to right over the tokens that follow the verb.
    `Parse` is the grammar as a function, `ParseFilters` the parsing loop of the
    server, and `Render` the tokens a client writes for a filter. */
module GetFilters {
  import opened JavaText

  const ColorKey: string := "color="
  const ContainsKey: string := "contains="
  const RefersToKey: string := "refersTo="

  /** The filters of one GET; a filter that is absent is None. The two coordinates
      of `contains=` are always set together. */
  datatype Filter = Filter(color: Option<string>, point: Option<(int, int)>, text: Option<string>)

  const NoFilter: Filter := Filter(None, None, None)

  /** A token that opens a filter (the test is case-sensitive). */
  predicate IsFilterToken(t: string)
  {
    StartsWith(t, ColorKey) || StartsWith(t, ContainsKey) || StartsWith(t, RefersToKey)
  }

  /** A token opens at most one kind of filter. */
  lemma FilterKeysExclusive(t: string)
    ensures StartsWith(t, ColorKey) ==> !StartsWith(t, ContainsKey) && !StartsWith(t, RefersToKey)
    ensures StartsWith(t, ContainsKey) ==> !StartsWith(t, RefersToKey)
  {
    if StartsWith(t, ColorKey) {
      assert t[2] == ColorKey[2] && t[0] == ColorKey[0];
    }
    if StartsWith(t, ContainsKey) {
      assert t[0] == ContainsKey[0];
    }
  }

  /** How many leading tokens a `refersTo=` absorbs: all up to the next filter token. */
  function TextRun(ts: seq<string>): (k: nat)
    ensures k <= |ts|
  {
    if ts == [] || IsFilterToken(ts[0]) then 0 else 1 + TextRun(ts[1..])
  }

  /** The grammar: `acc` holds the filters read so far; a later filter of a kind
      replaces an earlier one; None is a parse failure (BAD_SYNTAX). */
  function ParseFrom(ts: seq<string>, acc: Filter): Option<Filter>
    decreases |ts|
  {
    if ts == [] then Some(acc)
    else
      var t := ts[0];
      if StartsWith(t, ColorKey) then
        ParseFrom(ts[1..], acc.(color := Some(t[|ColorKey|..])))
      else if StartsWith(t, ContainsKey) then
        if |ts| < 2 then None
        else match (ParseInt(t[|ContainsKey|..]), ParseInt(ts[1]))
          case (Some(x), Some(y)) => ParseFrom(ts[2..], acc.(point := Some((x, y))))
          case _ => None
      else if StartsWith(t, RefersToKey) then
        var k := TextRun(ts[1..]);
        ParseFrom(ts[1 + k..], acc.(text := Some(Trim(Join([t[|RefersToKey|..]] + ts[1..1 + k])))))
      else None
  }

  /** The filters of the tokens that follow `GET`. */
  function Parse(ts: seq<string>): Option<Filter>
  {
    ParseFrom(ts, NoFilter)
  }

  lemma {:induction false} TextRunIs(ts: seq<string>, k: nat)
    requires k <= |ts|
    requires forall m :: 0 <= m < k ==> !IsFilterToken(ts[m])
    requires k == |ts| || IsFilterToken(ts[k])
    ensures TextRun(ts) == k
  {
    if k > 0 {
      TextRunIs(ts[1..], k - 1);
    }
  }

  lemma StepColor(args: seq<string>, i: nat, acc: Filter)
    requires i < |args| && StartsWith(args[i], ColorKey)
    ensures ParseFrom(args[i..], acc) == ParseFrom(args[i + 1..], acc.(color := Some(args[i][|ColorKey|..])))
  {
    assert args[i..][0] == args[i];
    assert args[i..][1..] == args[i + 1..];
  }

  lemma StepPoint(args: seq<string>, i: nat, acc: Filter, x: int, y: int)
    requires i + 1 < |args| && StartsWith(args[i], ContainsKey) && !StartsWith(args[i], ColorKey)
    requires ParseInt(args[i][|ContainsKey|..]) == Some(x) && ParseInt(args[i + 1]) == Some(y)
    ensures ParseFrom(args[i..], acc) == ParseFrom(args[i + 2..], acc.(point := Some((x, y))))
  {
    assert args[i..][0] == args[i] && args[i..][1] == args[i + 1];
    assert args[i..][2..] == args[i + 2..];
  }

  lemma StepPointBadNumber(args: seq<string>, i: nat, acc: Filter)
    requires i + 1 < |args| && StartsWith(args[i], ContainsKey) && !StartsWith(args[i], ColorKey)
    requires ParseInt(args[i][|ContainsKey|..]).None? || ParseInt(args[i + 1]).None?
    ensures ParseFrom(args[i..], acc) == None
  {
    assert args[i..][0] == args[i] && args[i..][1] == args[i + 1];
  }

  lemma StepPointMissingY(args: seq<string>, acc: Filter)
    requires |args| > 0 && StartsWith(args[|args| - 1], ContainsKey) && !StartsWith(args[|args| - 1], ColorKey)
    ensures ParseFrom(args[|args| - 1..], acc) == None
  {
    assert args[|args| - 1..] == [args[|args| - 1]];
  }

  lemma StepText(args: seq<string>, i: nat, j: nat, acc: Filter)
    requires i <= j < |args|
    requires StartsWith(args[i], RefersToKey)
    requires !StartsWith(args[i], ColorKey) && !StartsWith(args[i], ContainsKey)
    requires j - i == TextRun(args[i + 1..])
    ensures ParseFrom(args[i..], acc)
         == ParseFrom(args[j + 1..], acc.(text := Some(Trim(Join([args[i][|RefersToKey|..]] + args[i + 1..j + 1])))))
  {
    var ts := args[i..];
    assert ts[0] == args[i];
    assert ts[1..] == args[i + 1..];
    assert ts[1..1 + (j - i)] == args[i + 1..j + 1];
    assert ts[1 + (j - i)..] == args[j + 1..];
  }

  lemma StepUnknown(args: seq<string>, i: nat, acc: Filter)
    requires i < |args| && !IsFilterToken(args[i])
    ensures ParseFrom(args[i..], acc) == None
  {
    assert args[i..][0] == args[i];
  }

  /** The inner loop of a `refersTo=` filter: appends each following token that opens
      no filter, after a single space, to the text after `refersTo=`. */
  method AbsorbWords(args: seq<string>, start: nat) returns (j: nat, sb: string)
    requires start < |args| && StartsWith(args[start], RefersToKey)
    ensures start <= j < |args|
    ensures j - start == TextRun(args[start + 1..])
    ensures sb == Join([args[start][|RefersToKey|..]] + args[start + 1..j + 1])
  {
    var first := args[start][|RefersToKey|..];
    j, sb := start, first;
    while j + 1 < |args| && !IsFilterToken(args[j + 1])
      invariant start <= j < |args|
      invariant TextRun(args[start + 1..]) == j - start + TextRun(args[j + 1..])
      invariant sb == Join([first] + args[start + 1..j + 1])
    {
      assert args[j + 1..][1..] == args[j + 2..];
      JoinSingleSpaced([first] + args[start + 1..j + 1], args[j + 1]);
      assert [first] + args[start + 1..j + 2] == [first] + args[start + 1..j + 1] + [args[j + 1]];
      sb := sb + " " + args[j + 1];
      j := j + 1;
    }
  }

  /** One pass of the filter loop of handleGet at token `i`: the filter the token
      opens, read into `acc`, and the index of the next token to read. `contains=`
      consumes its y token and `refersTo=` its words before the index moves on;
      None is the exception that becomes BAD_SYNTAX. */
  method ReadFilter(args: seq<string>, i: nat, acc: Filter) returns (next: nat, r: Option<Filter>)
    requires i < |args|
    ensures r.Some? ==> i < next <= |args| && ParseFrom(args[i..], acc) == ParseFrom(args[next..], r.value)
    ensures r.None? ==> ParseFrom(args[i..], acc) == None
  {
    var t := args[i];
    FilterKeysExclusive(t);
    if StartsWith(t, ColorKey) {
      StepColor(args, i, acc);
      return i + 1, Some(acc.(color := Some(t[|ColorKey|..])));
    } else if StartsWith(t, ContainsKey) {
      next, r := ReadPoint(args, i, acc);
    } else if StartsWith(t, RefersToKey) {
      next, r := ReadText(args, i, acc);
    } else {
      StepUnknown(args, i, acc);
      return i, None;
    }
  }

  /** `contains=<x> <y>`: both numbers must parse, and the y token is consumed. */
  method ReadPoint(args: seq<string>, i: nat, acc: Filter) returns (next: nat, r: Option<Filter>)
    requires i < |args| && StartsWith(args[i], ContainsKey) && !StartsWith(args[i], ColorKey)
    ensures r.Some? ==> i < next <= |args| && ParseFrom(args[i..], acc) == ParseFrom(args[next..], r.value)
    ensures r.None? ==> ParseFrom(args[i..], acc) == None
    ensures r.None? <==>
      i + 1 >= |args| || ParseInt(args[i][|ContainsKey|..]).None? || ParseInt(args[i + 1]).None?
    ensures r.Some? ==>
      && next == i + 2 <= |args|
      && ParseInt(args[i][|ContainsKey|..]).Some? && ParseInt(args[i + 1]).Some?
      && r.value == acc.(point := Some((ParseInt(args[i][|ContainsKey|..]).value, ParseInt(args[i + 1]).value)))
  {
    if i + 1 >= |args| {
      StepPointMissingY(args, acc);
      return i, None;
    }
    var cx := ParseInt(args[i][|ContainsKey|..]);
    var cy := ParseInt(args[i + 1]);
    if cx.None? || cy.None? {
      StepPointBadNumber(args, i, acc);
      return i, None;
    }
    StepPoint(args, i, acc, cx.value, cy.value);
    return i + 2, Some(acc.(point := Some((cx.value, cy.value))));
  }

  /** `refersTo=<words...>`: the words up to the next filter token, joined and trimmed. */
  method ReadText(args: seq<string>, i: nat, acc: Filter) returns (next: nat, r: Option<Filter>)
    requires i < |args| && StartsWith(args[i], RefersToKey)
    requires !StartsWith(args[i], ColorKey) && !StartsWith(args[i], ContainsKey)
    ensures r.Some? && i < next <= |args| && ParseFrom(args[i..], acc) == ParseFrom(args[next..], r.value)
    ensures next == i + 1 + TextRun(args[i + 1..])
    ensures r.value == acc.(text := Some(Trim(Join([args[i][|RefersToKey|..]] + args[i + 1..next]))))
  {
    var j, sb := AbsorbWords(args, i);
    StepText(args, i, j, acc);
    return j + 1, Some(acc.(text := Some(Trim(sb))));
  }

  /** The filter loop of handleGet over the tokens after the verb. */
  method ParseFilters(args: seq<string>) returns (r: Option<Filter>)
    requires |args| >= 1
    ensures r == Parse(args[1..])
  {
    var filters := NoFilter;
    var i := 1;
    while i < |args|
      invariant 1 <= i <= |args|
      invariant ParseFrom(args[i..], filters) == Parse(args[1..])
      decreases |args| - i
    {
      var next, read := ReadFilter(args, i, filters);
      if read.None? {
        return None;
      }
      i, filters := next, read.value;
    }
    assert args[i..] == [];
    r := Some(filters);
  }

  // ---------------------------------------------------------------- rendering

  /** The tokens a client sends after `GET` for a filter: colour, then point, then text. */
  function Render(f: Filter): seq<string>
  {
    ColorTokens(f) + PointTokens(f) + TextTokens(f)
  }

  function ColorTokens(f: Filter): seq<string>
  {
    if f.color.Some? then [ColorKey + f.color.value] else []
  }

  function PointTokens(f: Filter): seq<string>
  {
    if f.point.Some? then [ContainsKey + Decimal(f.point.value.0), Decimal(f.point.value.1)] else []
  }

  function TextTokens(f: Filter): seq<string>
  {
    if f.text.Some? then [RefersToKey + f.text.value] else []
  }

  /** A filter that survives the wire: int coordinates, and a text with nothing to trim. */
  predicate Renderable(f: Filter)
  {
    (f.point.Some? ==> IsInt32(f.point.value.0) && IsInt32(f.point.value.1))
    && (f.text.Some? ==> Trim(f.text.value) == f.text.value)
  }

  lemma ParseText(s: string, acc: Filter)
    ensures ParseFrom([RefersToKey + s], acc) == Some(acc.(text := Some(Trim(s))))
  {
    var ts := [RefersToKey + s];
    assert ts[0][..|RefersToKey|] == RefersToKey;
    assert !StartsWith(ts[0], ColorKey) by { assert ts[0][0] != ColorKey[0]; }
    assert !StartsWith(ts[0], ContainsKey) by { assert ts[0][0] != ContainsKey[0]; }
    assert TextRun(ts[1..]) == 0;
    assert ts[0][|RefersToKey|..] == s;
    assert [s] + ts[1..1] == [s];
  }

  lemma ParsePointPart(f: Filter, rest: seq<string>, acc: Filter)
    requires f.point.Some? ==> IsInt32(f.point.value.0) && IsInt32(f.point.value.1)
    ensures ParseFrom(PointTokens(f) + rest, acc)
         == ParseFrom(rest, if f.point.Some? then acc.(point := f.point) else acc)
  {
    if f.point.Some? {
      var (x, y) := f.point.value;
      var ts := PointTokens(f) + rest;
      assert ts[0][..|ContainsKey|] == ContainsKey;
      assert !StartsWith(ts[0], ColorKey) by { assert ts[0][2] != ColorKey[2]; }
      assert ts[0][|ContainsKey|..] == Decimal(x);
      assert ts[1] == Decimal(y);
      ParseDecimal(x);
      ParseDecimal(y);
      assert ts[2..] == rest;
    } else {
      assert PointTokens(f) + rest == rest;
    }
  }

  lemma ParseColorPart(f: Filter, rest: seq<string>, acc: Filter)
    ensures ParseFrom(ColorTokens(f) + rest, acc)
         == ParseFrom(rest, if f.color.Some? then acc.(color := f.color) else acc)
  {
    if f.color.Some? {
      var ts := ColorTokens(f) + rest;
      assert ts[0][..|ColorKey|] == ColorKey;
      assert ts[0][|ColorKey|..] == f.color.value;
      assert ts[1..] == rest;
    } else {
      assert ColorTokens(f) + rest == rest;
    }
  }

  /** The rendered `refersTo=` token parses back to its text. */
  lemma ParseTextPart(f: Filter, acc: Filter)
    requires f.text.Some? ==> Trim(f.text.value) == f.text.value
    ensures ParseFrom(TextTokens(f), acc) == Some(if f.text.Some? then acc.(text := f.text) else acc)
  {
    if f.text.Some? {
      ParseText(f.text.value, acc);
    }
  }

  /** Round trip: the server reads back every filter a client renders. */
  lemma ParseRender(f: Filter)
    requires Renderable(f)
    ensures Parse(Render(f)) == Some(f)
  {
    var afterColor := if f.color.Some? then NoFilter.(color := f.color) else NoFilter;
    var afterPoint := if f.point.Some? then afterColor.(point := f.point) else afterColor;
    var afterText := if f.text.Some? then afterPoint.(text := f.text) else afterPoint;
    calc {
      Parse(Render(f));
      { assert Render(f) == ColorTokens(f) + (PointTokens(f) + TextTokens(f)); }
      ParseFrom(ColorTokens(f) + (PointTokens(f) + TextTokens(f)), NoFilter);
      { ParseColorPart(f, PointTokens(f) + TextTokens(f), NoFilter); }
      ParseFrom(PointTokens(f) + TextTokens(f), afterColor);
      { ParsePointPart(f, TextTokens(f), afterColor); }
      ParseFrom(TextTokens(f), afterPoint);
      { ParseTextPart(f, afterPoint); }
      Some(afterText);
    }
    assert afterText == f;
  }

  lemma ParseColorThen(acc: Filter, c: string, rest: seq<string>)
    ensures ParseFrom([ColorKey + c] + rest, acc) == ParseFrom(rest, acc.(color := Some(c)))
  {
    var ts := [ColorKey + c] + rest;
    assert ts[0][..|ColorKey|] == ColorKey;
    assert ts[0][|ColorKey|..] == c;
    assert ts[1..] == rest;
  }

  /** `refersTo=` takes every following word up to the next filter token or the end,
      joined by single spaces and trimmed. */
  lemma {:induction false} RefersToAbsorbs(w: string, words: seq<string>, rest: seq<string>, acc: Filter)
    requires forall m :: 0 <= m < |words| ==> !IsFilterToken(words[m])
    requires rest == [] || IsFilterToken(rest[0])
    ensures ParseFrom([RefersToKey + w] + words + rest, acc)
         == ParseFrom(rest, acc.(text := Some(Trim(Join([w] + words)))))
  {
    var ts := [RefersToKey + w] + words + rest;
    assert ts[0][..|RefersToKey|] == RefersToKey;
    assert !StartsWith(ts[0], ColorKey) by { assert ts[0][0] != ColorKey[0]; }
    assert !StartsWith(ts[0], ContainsKey) by { assert ts[0][0] != ContainsKey[0]; }
    assert ts[1..] == words + rest;
    TextRunIs(words + rest, |words|);
    assert ts[1..1 + |words|] == words;
    assert ts[1 + |words|..] == rest;
    assert ts[0][|RefersToKey|..] == w;
  }

  /** A token that opens no filter is a parse failure, wherever it stands unabsorbed. */
  lemma UnknownTokenFails(t: string, rest: seq<string>, acc: Filter)
    requires !IsFilterToken(t)
    ensures ParseFrom([t] + rest, acc) == None
  {
    assert ([t] + rest)[0] == t;
  }

  /** `contains=<x>` with no token after it is a parse failure. */
  lemma MissingYFails(x: string, acc: Filter)
    ensures ParseFrom([ContainsKey + x], acc) == None
  {
    var ts := [ContainsKey + x];
    assert ts[0][..|ContainsKey|] == ContainsKey;
    assert !StartsWith(ts[0], ColorKey) by { assert ts[0][2] != ColorKey[2]; }
  }

  /** A repeated filter replaces the earlier value. */
  lemma RepeatedColorOverwrites(a: string, b: string, rest: seq<string>, acc: Filter)
    ensures ParseFrom([ColorKey + a, ColorKey + b] + rest, acc)
         == ParseFrom(rest, acc.(color := Some(b)))
  {
    ParseColorThen(acc, a, [ColorKey + b] + rest);
    assert [ColorKey + a, ColorKey + b] + rest == [ColorKey + a] + ([ColorKey + b] + rest);
    ParseColorThen(acc.(color := Some(a)), b, rest);
  }
}
