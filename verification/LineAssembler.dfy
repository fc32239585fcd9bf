/**
Raw output to display lines: newlines finish a line, carriage returns redraw it, and a run of carriage returns before a
newline is part of the newline.
*/
module LineAssembler {
  datatype Kind = Line | Partial

  datatype Event = Event(kind: Kind, text: string)

  datatype State = State(cur: string, cr: bool)

  /** One character. */
  function Step(s: State, ch: char): (State, seq<Event>) {
    if ch == '\r' then (State(s.cur, true), [])
    else if s.cr then
      if ch == '\n' then (State("", false), [Event(Line, s.cur)]) else (State([ch], false), [Event(Partial, s.cur)])
    else if ch == '\n' then (State("", false), [Event(Line, s.cur)])
    else (State(s.cur + [ch], false), [])
  }

  /** The state after a text. */
  function After(s: State, text: string): State {
    if text == "" then s else Step(After(s, text[..|text| - 1]), text[|text| - 1]).0
  }

  /** The events of a text. */
  function Events(s: State, text: string): seq<Event> {
    if text == "" then []
    else Events(s, text[..|text| - 1]) + Step(After(s, text[..|text| - 1]), text[|text| - 1]).1
  }

  /** What trails after the end. */
  function FlushEvents(s: State): seq<Event> {
    if s.cr then [Event(Partial, s.cur)] else if s.cur != "" then [Event(Line, s.cur)] else []
  }

  const START := State("", false)

  /** All events of a whole text. */
  function Whole(text: string): seq<Event> {
    Events(START, text) + FlushEvents(After(START, text))
  }

  class LineAssembler {
    var cur: string
    var cr: bool

    function Now(): State
      reads this
    {
      State(cur, cr)
    }

    constructor ()
      ensures Now() == START
    {
      cur, cr := "", false;
    }

    method Feed(text: string) returns (out: seq<Event>)
      modifies this
      ensures out == Events(old(Now()), text) && Now() == After(old(Now()), text)
    {
      out := [];
      for i := 0 to |text|
        invariant out == Events(old(Now()), text[..i]) && Now() == After(old(Now()), text[..i])
      {
        var ch := text[i];
        assert text[..i + 1][..i] == text[..i];
        if ch == '\r' {
          cr := true;
          continue;
        }
        if cr {
          cr := false;
          if ch == '\n' {
            out := out + [Event(Line, cur)];
            cur := "";
            continue;
          }
          out := out + [Event(Partial, cur)];
          cur := [ch];
          continue;
        }
        if ch == '\n' {
          out := out + [Event(Line, cur)];
          cur := "";
        } else {
          cur := cur + [ch];
        }
      }
      assert text[..|text|] == text;
    }

    method Flush() returns (out: seq<Event>)
      modifies this
      ensures out == FlushEvents(old(Now())) && Now() == START
    {
      out := [];
      if cr {
        cr := false;
        out := [Event(Partial, cur)];
        cur := "";
      } else if cur != "" {
        out := [Event(Line, cur)];
        cur := "";
      }
    }
  }

  // ---------------------------------------------------------------- chunking

  function Join(chunks: seq<string>): string {
    if chunks == [] then "" else Join(chunks[..|chunks| - 1]) + chunks[|chunks| - 1]
  }

  lemma {:induction false} FeedTwice(s: State, a: string, b: string)
    ensures After(s, a + b) == After(After(s, a), b)
    ensures Events(s, a + b) == Events(s, a) + Events(After(s, a), b)
    decreases |b|
  {
    if b == "" {
      assert a + b == a;
    } else {
      var init := b[..|b| - 1];
      FeedTwice(s, a, init);
      assert (a + b)[..|a + b| - 1] == a + init;
      assert (a + b)[|a + b| - 1] == b[|b| - 1];
    }
  }

  /** Any split of a text into chunks, fed and flushed, gives the events of the whole text. */
  method FeedChunks(chunks: seq<string>) returns (events: seq<Event>)
    ensures events == Whole(Join(chunks))
  {
    var assembler := new LineAssembler();
    events := [];
    for i := 0 to |chunks|
      invariant fresh(assembler)
      invariant events == Events(START, Join(chunks[..i])) && assembler.Now() == After(START, Join(chunks[..i]))
    {
      assert chunks[..i + 1][..i] == chunks[..i];
      FeedTwice(START, Join(chunks[..i]), chunks[i]);
      var more := assembler.Feed(chunks[i]);
      events := events + more;
    }
    assert chunks[..|chunks|] == chunks;
    var rest := assembler.Flush();
    events := events + rest;
  }

  // ---------------------------------------------------------------- what the events contain

  function Texts(events: seq<Event>): string {
    if events == [] then "" else Texts(events[..|events| - 1]) + events[|events| - 1].text
  }

  function Lines(events: seq<Event>): nat {
    if events == [] then 0 else Lines(events[..|events| - 1]) + if events[|events| - 1].kind == Line then 1 else 0
  }

  /** The text without carriage returns and newlines. */
  function Plain(text: string): string {
    if text == "" then ""
    else
      Plain(text[..|text| - 1]) + PlainOf(text[|text| - 1])
  }

  function Newlines(text: string): nat {
    if text == "" then 0 else Newlines(text[..|text| - 1]) + if text[|text| - 1] == '\n' then 1 else 0
  }

  lemma OneMore(events: seq<Event>, e: Event)
    ensures Texts(events + [e]) == Texts(events) + e.text
    ensures Lines(events + [e]) == Lines(events) + if e.kind == Line then 1 else 0
  {
    assert (events + [e])[..|events|] == events;
  }

  /** What a character adds to the plain text, and to the count of newlines. */
  function PlainOf(ch: char): string { if ch == '\r' || ch == '\n' then "" else [ch] }

  lemma StepLosesNothing(s: State, before: seq<Event>, ch: char)
    ensures Texts(before + Step(s, ch).1) + Step(s, ch).0.cur == Texts(before) + s.cur + PlainOf(ch)
    ensures Lines(before + Step(s, ch).1) == Lines(before) + if ch == '\n' then 1 else 0
  {
    if Step(s, ch).1 == [] {
      assert before + [] == before;
    } else {
      OneMore(before, Step(s, ch).1[0]);
      assert Step(s, ch).1 == [Step(s, ch).1[0]];
    }
  }

  /** No character is lost, added or reordered; each newline finishes exactly one line. */
  lemma {:induction false} NothingLost(s: State, text: string)
    ensures Texts(Events(s, text)) + After(s, text).cur == s.cur + Plain(text)
    ensures Lines(Events(s, text)) == Newlines(text)
    decreases |text|
  {
    if text == "" {
      assert Texts([]) + s.cur == s.cur + "";
    } else {
      var init, ch := text[..|text| - 1], text[|text| - 1];
      NothingLost(s, init);
      StepLosesNothing(After(s, init), Events(s, init), ch);
      assert s.cur + Plain(init) + PlainOf(ch) == s.cur + Plain(text);
    }
  }

  /** The emitted texts are the whole input without carriage returns and newlines. */
  lemma WholeTexts(text: string)
    ensures Texts(Whole(text)) == Plain(text)
  {
    NothingLost(START, text);
    var s, before := After(START, text), Events(START, text);
    if FlushEvents(s) == [] {
      assert before + [] == before;
      assert Texts(before) + "" == Texts(before) && "" + Plain(text) == Plain(text);
    } else {
      OneMore(before, FlushEvents(s)[0]);
      assert "" + Plain(text) == Plain(text);
      assert FlushEvents(s) == [FlushEvents(s)[0]];
    }
  }

  function Returns(k: nat): string {
    if k == 0 then "" else Returns(k - 1) + ['\r']
  }

  lemma {:induction false} ReturnsOnlyMark(s: State, k: nat)
    ensures After(s, Returns(k)) == State(s.cur, s.cr || k > 0) && Events(s, Returns(k)) == []
  {
    if k > 0 {
      ReturnsOnlyMark(s, k - 1);
      assert Returns(k)[..|Returns(k)| - 1] == Returns(k - 1);
    }
  }

  /** Carriage returns before a newline change nothing, wherever in the text and whatever came before. */
  lemma ReturnsBeforeNewline(s: State, a: string, k: nat, b: string)
    ensures Events(s, a + Returns(k) + "\n" + b) == Events(s, a + "\n" + b)
    ensures After(s, a + Returns(k) + "\n" + b) == After(s, a + "\n" + b)
  {
    var mid := After(s, a);
    ReturnsOnlyMark(mid, k);
    FeedTwice(mid, Returns(k), "\n");
    NewlineAnyway(mid);
    NewlineAnyway(After(mid, Returns(k)));
    FeedTwice(s, a, Returns(k) + "\n");
    FeedTwice(s, a, "\n");
    assert a + (Returns(k) + "\n") == a + Returns(k) + "\n";
    FeedTwice(s, a + Returns(k) + "\n", b);
    FeedTwice(s, a + "\n", b);
  }

  lemma NewlineAnyway(s: State)
    ensures After(s, "\n") == State("", false) && Events(s, "\n") == [Event(Line, s.cur)]
  {
    assert "\n"[..0] == "";
  }

  // ---------------------------------------------------------------- which events a text gives

  /** A stretch of a line that is drawn, and how many carriage returns follow it. */
  datatype Draw = Draw(text: string, crs: nat)

  predicate IsPlain(text: string) {
    forall i :: 0 <= i < |text| ==> text[i] != '\r' && text[i] != '\n'
  }

  /**
  A line, drawn in stretches of plain text; each but the last is followed by carriage returns and overwritten by the
  next.
  */
  datatype Drawing = Drawing(over: seq<Draw>, last: Draw)

  predicate Valid(d: Drawing)
    decreases |d.over|
  {
    && IsPlain(d.last.text)
    && (d.over != [] ==> d.last.text != "" && Before(d).last.crs > 0 && Valid(Before(d)))
  }

  /** The line as it was before the last stretch. */
  function Before(d: Drawing): Drawing
    requires d.over != []
  {
    Drawing(d.over[..|d.over| - 1], d.over[|d.over| - 1])
  }

  function DrawnText(d: Drawing): string
    decreases |d.over|
  {
    (if d.over == [] then "" else DrawnText(Before(d))) + d.last.text + Returns(d.last.crs)
  }

  /** One redraw event for each stretch that was overwritten. */
  function Redraws(over: seq<Draw>): seq<Event> {
    seq(|over|, i requires 0 <= i < |over| => Event(Partial, over[i].text))
  }

  /** A finished line: the last stretch is the line. */
  function LineEvents(d: Drawing): seq<Event> {
    Redraws(d.over) + [Event(Line, d.last.text)]
  }

  /** A line the input ends in: the last stretch is a redraw if carriage returns follow it, else a line, if any. */
  function TrailEvents(d: Drawing): seq<Event> {
    Redraws(d.over)
    + if d.last.crs > 0 then [Event(Partial, d.last.text)]
      else if d.last.text != "" then [Event(Line, d.last.text)] else []
  }

  lemma OneCharMore(s: State, text: string, ch: char)
    ensures After(s, text + [ch]) == Step(After(s, text), ch).0
    ensures Events(s, text + [ch]) == Events(s, text) + Step(After(s, text), ch).1
  {
    assert (text + [ch])[..|text|] == text;
  }

  /** Plain text continues a line, or overwrites it after a carriage return. */
  lemma {:induction false} PlainDrawn(s: State, text: string)
    requires IsPlain(text) && (s.cr ==> text != "")
    ensures After(s, text) == State(if s.cr then text else s.cur + text, false)
    ensures Events(s, text) == if s.cr then [Event(Partial, s.cur)] else []
    decreases |text|
  {
    hide After, Events;
    if text == "" {
      NoText(s);
      assert s.cur + "" == s.cur;
    } else {
      var front, ch := text[..|text| - 1], text[|text| - 1];
      assert text == front + [ch];
      OneCharMore(s, front, ch);
      if front == "" { NoText(s); } else { PlainDrawn(s, front); }
      assert s.cur + front + [ch] == s.cur + text;
    }
  }

  lemma NoText(s: State)
    ensures After(s, "") == s && Events(s, "") == []
  {
  }

  lemma {:induction false} DrawingAfter(d: Drawing)
    requires Valid(d)
    ensures After(START, DrawnText(d)) == State(d.last.text, d.last.crs > 0)
    ensures Events(START, DrawnText(d)) == Redraws(d.over)
    decreases |d.over|
  {
    hide After, Events, Returns, IsPlain;
    var before := if d.over == [] then "" else DrawnText(Before(d));
    if d.over == [] { NoText(START); } else { DrawingAfter(Before(d)); }
    var mid := After(START, before);
    PlainDrawn(mid, d.last.text);
    ReturnsOnlyMark(After(mid, d.last.text), d.last.crs);
    FeedTwice(START, before, d.last.text);
    FeedTwice(START, before + d.last.text, Returns(d.last.crs));
    assert "" + d.last.text == d.last.text;
  }

  function LinesText(lines: seq<Drawing>): string {
    if lines == [] then "" else LinesText(lines[..|lines| - 1]) + DrawnText(lines[|lines| - 1]) + "\n"
  }

  function LinesEvents(lines: seq<Drawing>): seq<Event> {
    if lines == [] then [] else LinesEvents(lines[..|lines| - 1]) + LineEvents(lines[|lines| - 1])
  }

  lemma {:induction false} LinesAfter(lines: seq<Drawing>)
    requires forall l <- lines :: Valid(l)
    ensures After(START, LinesText(lines)) == START && Events(START, LinesText(lines)) == LinesEvents(lines)
  {
    hide After, Events, Valid, DrawnText;
    if lines == [] {
      NoText(START);
    } else {
      var front, last := lines[..|lines| - 1], lines[|lines| - 1];
      LinesAfter(front);
      DrawingAfter(last);
      NewlineAnyway(After(START, DrawnText(last)));
      FeedTwice(START, LinesText(front), DrawnText(last));
      FeedTwice(START, LinesText(front) + DrawnText(last), "\n");
    }
  }

  /** The events of a text are those of its lines, and of what trails. */
  lemma LinesGiveEvents(lines: seq<Drawing>, rest: Drawing)
    requires (forall l <- lines :: Valid(l)) && Valid(rest)
    ensures Whole(LinesText(lines) + DrawnText(rest)) == LinesEvents(lines) + TrailEvents(rest)
  {
    hide After, Events, LinesText, LinesEvents, DrawnText, Valid;
    LinesAfter(lines);
    DrawingAfter(rest);
    FeedTwice(START, LinesText(lines), DrawnText(rest));
  }

  /** Every text is finished lines and a last one, each drawn in stretches. */
  lemma {:induction false} Lined(text: string) returns (lines: seq<Drawing>, rest: Drawing)
    ensures (forall l <- lines :: Valid(l)) && Valid(rest) && text == LinesText(lines) + DrawnText(rest)
    decreases |text|
  {
    hide DrawnText, Valid;
    if text == "" {
      lines, rest := [], Drawing([], Draw("", 0));
      NothingDrawn();
    } else {
      var front, ch := text[..|text| - 1], text[|text| - 1];
      var ls, r := Lined(front);
      assert text == front + [ch];
      if ch == '\n' {
        lines, rest := ls + [r], Drawing([], Draw("", 0));
        assert lines[..|ls|] == ls;
        NothingDrawn();
        assert LinesText(lines) == front + "\n";
      } else {
        lines := ls;
        rest := Drawn(r, ch);
        assert LinesText(ls) + (DrawnText(r) + [ch]) == text;
      }
    }
  }

  lemma NothingDrawn()
    ensures Valid(Drawing([], Draw("", 0))) && DrawnText(Drawing([], Draw("", 0))) == ""
  {
  }

  /** One more character of a line that is not finished. */
  lemma Drawn(d: Drawing, ch: char) returns (r: Drawing)
    requires Valid(d) && ch != '\n'
    ensures Valid(r) && DrawnText(r) == DrawnText(d) + [ch]
  {
    if ch == '\r' {
      r := Drawing(d.over, Draw(d.last.text, d.last.crs + 1));
    } else if d.last.crs == 0 {
      r := Drawing(d.over, Draw(d.last.text + [ch], 0));
    } else {
      r := Drawing(d.over + [d.last], Draw([ch], 0));
      assert r.over[..|d.over|] == d.over;
      assert Before(r) == d;
    }
  }
}
