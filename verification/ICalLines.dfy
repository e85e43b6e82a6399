/**
  The document's physical lines, as RFC 5545 section 3.1 counts them before any unfolding:
  when they all stay within 75 octets, and how the last one ends.
 */
module ICalLines {
  import opened Wrappers
  import opened Octets
  import opened ICalText
  import opened ICalNames
  import opened ICalRender
  import opened ICalReader

  /** The longest line RFC 5545 section 3.1 recommends, without its line break. */
  const LINE_LIMIT := 75

  function PhysicalLines(doc: Text): seq<Text> {
    Split([], doc)
  }

  predicate Short(lines: seq<Text>) {
    forall l <- lines :: |l| <= LINE_LIMIT
  }

  // ----- The physical lines of one content line -----

  /** What follows a line's text: the end of the document, or a line break and more lines. */
  predicate Ending(tail: Text) {
    tail == [] || (|tail| >= 2 && tail[..2] == CRLF)
  }

  function After(tail: Text): seq<Text>
    requires Ending(tail)
  {
    if tail == [] then [] else Split([], tail[2..])
  }

  lemma SplitEnding(line: Text, tail: Text)
    requires Clean(line) && Ending(tail)
    ensures Split([], line + tail) == [line] + After(tail)
  {
    SplitClean([], line, tail);
    assert [] + line == line;
  }

  /** The pieces of a folded line, each continuation with its leading space. */
  function Physical(lead: Text, line: Text): seq<Text>
    requires !LongRun(line)
    decreases |line|
  {
    if |line| <= FOLD_WIDTH then [lead + line]
    else
      CutMakesProgress(line);
      [lead + line[..CutAt(line)]] + Physical([SPACE], line[CutAt(line)..])
  }

  lemma {:induction false} PhysicalIsShort(lead: Text, line: Text)
    requires !LongRun(line) && |lead| <= 1
    ensures Short(Physical(lead, line))
    decreases |line|
  {
    if |line| > FOLD_WIDTH {
      CutMakesProgress(line);
      PhysicalIsShort([SPACE], line[CutAt(line)..]);
    }
  }

  lemma SplitAtBreak(lead: Text, piece: Text, rest: Text)
    requires Clean(piece) && Clean(lead)
    ensures Split([], lead + (piece + BREAK + rest)) == [lead + piece] + Split([], [SPACE] + rest)
  {
    assert lead + (piece + BREAK + rest) == (lead + piece) + (CRLF + ([SPACE] + rest));
    assert Clean(lead + piece);
    SplitEnding(lead + piece, CRLF + ([SPACE] + rest));
    assert (CRLF + ([SPACE] + rest))[2..] == [SPACE] + rest;
  }

  lemma PrependPiece(piece: Text, more: seq<Text>, rest: seq<Text>)
    ensures [piece] + (more + rest) == [piece] + more + rest
  {
  }

  lemma {:induction false} SplitFolded(lead: Text, line: Text, tail: Text)
    requires Clean(lead) && Clean(line) && !LongRun(line) && Ending(tail)
    ensures Split([], lead + (Folded(line) + tail)) == Physical(lead, line) + After(tail)
    decreases |line|
  {
    if |line| <= FOLD_WIDTH {
      Associate(lead, line, tail);
      SplitEnding(lead + line, tail);
    } else {
      CutMakesProgress(line);
      FoldedStep(line);
      var head, more := line[..CutAt(line)], line[CutAt(line)..];
      SplitFolded([SPACE], more, tail);
      Regroup(head, BREAK, Folded(more), tail);
      SplitAtBreak(lead, head, Folded(more) + tail);
      PrependPiece(lead + head, Physical([SPACE], more), After(tail));
    }
  }

  lemma ShortParts(a: seq<Text>, b: seq<Text>)
    ensures Short(a + b) <==> Short(a) && Short(b)
  {
    assert forall l :: l in a + b <==> l in a || l in b;
  }

  /** One content line: folded, it never has a long physical line; unfolded, it is one itself. */
  lemma EncodedIsShort(l: Line, tail: Text)
    requires Printable(l) && Ending(tail)
    ensures Short(PhysicalLines(Encoded(l) + tail)) <==>
      (l.foldable || |Content(l)| <= LINE_LIMIT) && Short(After(tail))
  {
    if l.foldable {
      assert [] + (Encoded(l) + tail) == Encoded(l) + tail;
      SplitFolded([], Content(l), tail);
      PhysicalIsShort([], Content(l));
      ShortParts(Physical([], Content(l)), After(tail));
    } else {
      SplitEnding(Content(l), tail);
      ShortParts([Content(l)], After(tail));
    }
  }

  // ----- The whole document -----

  /** The lines that never go through the folder are within the limit as they are. */
  predicate PlainAreShort(lines: seq<Line>) {
    forall l <- lines :: l.foldable || |Content(l)| <= LINE_LIMIT
  }

  /** A document's physical lines are all within the limit exactly when its unfolded lines are. */
  lemma {:induction false} DocumentIsShortExactly(lines: seq<Line>)
    requires lines != [] && AllPrintable(lines)
    ensures Short(PhysicalLines(JoinLines(EncodedAll(lines)))) <==> PlainAreShort(lines)
    decreases |lines|
  {
    var l, more := lines[0], lines[1..];
    assert lines == [l] + more;
    if more == [] {
      EncodedIsShort(l, []);
      assert Encoded(l) + [] == Encoded(l);
    } else {
      DocumentIsShortExactly(more);
      var rest := JoinLines(EncodedAll(more));
      assert EncodedAll(lines)[1..] == EncodedAll(more);
      EncodedIsShort(l, CRLF + rest);
      assert (CRLF + rest)[2..] == rest;
      Associate(Encoded(l), CRLF, rest);
    }
  }

  /** UUIDs and the two date formats have fixed widths. */
  ghost predicate FixedWidths(evts: seq<Event>, births: seq<Birthday>, clock: Clock) {
    && (forall i :: |clock.stamp(i)| == 16 && |clock.day(i)| == 8)
    && (forall e <- evts :: |e.id| == 36)
    && (forall b <- births :: |b.memberId| == 36)
  }

  lemma BracketedIsShort(body: seq<Line>)
    ensures PlainAreShort(Bracketed(body)) <==> PlainAreShort(body)
  {
    assert forall l :: l in Bracketed(body) <==> l == VEVENT_BEGIN || l in body || l == VEVENT_END;
  }

  lemma EventIsShort(e: Event, clock: Clock)
    requires |e.id| == 36 && forall i :: |clock.stamp(i)| == 16
    ensures PlainAreShort(EventBody(e, clock))
  {
  }

  lemma BirthdayIsShort(b: Birthday, clock: Clock)
    requires |b.memberId| == 36 && forall i :: |clock.stamp(i)| == 16 && |clock.day(i)| == 8
    ensures PlainAreShort(BirthdayBody(b, clock))
  {
  }

  lemma {:induction false} FlattenIsShort(bodies: seq<seq<Line>>)
    requires forall b <- bodies :: PlainAreShort(b)
    ensures PlainAreShort(Flatten(bodies))
  {
    if bodies != [] {
      BracketedIsShort(bodies[0]);
      FlattenIsShort(bodies[1..]);
    }
  }

  lemma EventBodiesAreShort(evts: seq<Event>, clock: Clock)
    requires forall e <- evts :: |e.id| == 36
    requires forall i :: |clock.stamp(i)| == 16
    ensures forall b <- EventBodies(evts, clock) :: PlainAreShort(b)
  {
    forall i | 0 <= i < |evts| ensures PlainAreShort(EventBodies(evts, clock)[i]) {
      EventIsShort(evts[i], clock);
    }
  }

  lemma BirthdayBodiesAreShort(births: seq<Birthday>, clock: Clock)
    requires forall b <- births :: |b.memberId| == 36
    requires forall i :: |clock.stamp(i)| == 16 && |clock.day(i)| == 8
    ensures forall b <- BirthdayBodies(births, clock) :: PlainAreShort(b)
  {
    forall i | 0 <= i < |births| ensures PlainAreShort(BirthdayBodies(births, clock)[i]) {
      BirthdayIsShort(births[i], clock);
    }
  }

  lemma BodiesAreShort(evts: seq<Event>, births: seq<Birthday>, clock: Clock)
    requires FixedWidths(evts, births, clock)
    ensures PlainAreShort(Flatten(Bodies(evts, births, clock)))
  {
    LiveAreGiven(evts);
    EventBodiesAreShort(Live(evts), clock);
    BirthdayBodiesAreShort(births, clock);
    FlattenIsShort(Bodies(evts, births, clock));
  }

  lemma HeaderIsShortExactly(team: Text)
    ensures PlainAreShort(HeaderLines(team)) <==> |Escape(team)| <= 62
  {
    var name := Plain(CALENDAR_NAME, Escape(team));
    assert HeaderLines(team)[5] == name && |Content(name)| == 13 + |Escape(team)|;
  }

  /**
    The feed keeps every physical line within 75 octets exactly when the escaped calendar name,
    which is never folded, has at most 62.
   */
  lemma FeedIsShortExactly(team: Text, evts: seq<Event>, births: seq<Birthday>, clock: Clock)
    requires Renderable(evts, births, clock) && FixedWidths(evts, births, clock)
    ensures Short(PhysicalLines(Document(team, evts, births, clock))) <==> |Escape(team)| <= 62
  {
    DocumentIsPrintable(team, evts, births, clock);
    DocumentIsShortExactly(DocumentLines(team, evts, births, clock));
    HeaderIsShortExactly(team);
    BodiesAreShort(evts, births, clock);
    var header, bodies := HeaderLines(team), Flatten(Bodies(evts, births, clock));
    var footer := Plain(END, VCALENDAR);
    assert forall l :: l in DocumentLines(team, evts, births, clock) <==> l in header || l in bodies || l == footer;
    assert |Content(footer)| == 13;
  }

  lemma {:induction false} EscapeLetters(n: nat)
    ensures Escape(seq(n, _ => 120)) == seq(n, _ => 120)
  {
    if n > 0 {
      EscapeLetters(n - 1);
      var t: Text := seq(n, _ => 120);
      assert t[1..] == seq(n - 1, _ => 120);
    }
  }

  /** A team whose name is 63 letters gets a feed with a line of 76 octets, whatever the feed holds. */
  lemma LongTeamNameOverflows(evts: seq<Event>, births: seq<Birthday>, clock: Clock)
    requires Renderable(evts, births, clock) && FixedWidths(evts, births, clock)
    ensures !Short(PhysicalLines(Document(seq(63, _ => 120), evts, births, clock)))
  {
    EscapeLetters(63);
    FeedIsShortExactly(seq(63, _ => 120), evts, births, clock);
  }

  lemma {:induction false} JoinedEndsWithLast(parts: seq<Text>)
    requires |parts| >= 2
    ensures exists front :: JoinLines(parts) == front + CRLF + parts[|parts| - 1]
    decreases |parts|
  {
    if |parts| == 2 {
      assert JoinLines(parts) == parts[0] + CRLF + parts[1];
    } else {
      JoinedEndsWithLast(parts[1..]);
      var front :| JoinLines(parts[1..]) == front + CRLF + parts[|parts| - 1];
      var longer := parts[0] + CRLF + front;
      assert JoinLines(parts) == longer + CRLF + parts[|parts| - 1];
    }
  }

  lemma EndsAs(front: Text, last: Text)
    requires |last| >= 2 && Clean(last)
    ensures (front + last)[|front + last| - 2..] != CRLF
  {
    assert (front + last)[|front + last| - 2..][1] == last[|last| - 1];
  }

  /** The document ends in END:VCALENDAR and not, as every content line should, in a line break. */
  lemma LastLineHasNoBreak(team: Text, evts: seq<Event>, births: seq<Birthday>, clock: Clock)
    requires Renderable(evts, births, clock)
    ensures var doc := Document(team, evts, births, clock);
      && (exists front :: doc == front + CRLF + Content(Plain(END, VCALENDAR)))
      && |doc| >= 2 && doc[|doc| - 2..] != CRLF
  {
    DocumentIsPrintable(team, evts, births, clock);
    var lines := DocumentLines(team, evts, births, clock);
    var footer := Plain(END, VCALENDAR);
    assert lines[|lines| - 1] == footer && |lines| >= 2;
    JoinedEndsWithLast(EncodedAll(lines));
    var front :| Document(team, evts, births, clock) == front + CRLF + Content(footer);
    assert Clean(Content(footer)) && |Content(footer)| == 13;
    EndsAs(front + CRLF, Content(footer));
  }
}
