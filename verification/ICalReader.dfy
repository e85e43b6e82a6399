/**
  Reading the feed back: unfold and split into content lines (RFC 5545 section 3.1),
  collect the VEVENT bodies, look a property up by name and unescape it (section
  3.3.11). Everything the printer was given comes back.
 */
module ICalReader {
  import opened Wrappers
  import opened Octets
  import opened ICalText
  import opened ICalNames
  import opened ICalRender
  import opened ICalEvents

  // ----- Content lines -----

  function Split(current: Text, t: Text): seq<Text>
    decreases |t|
  {
    if t == [] then [current]
    else if |t| >= 2 && t[0] == CR && t[1] == LF then [current] + Split([], t[2..])
    else Split(current + [t[0]], t[1..])
  }

  function ContentLines(doc: Text): seq<Text> {
    Split([], Unfold(doc))
  }

  function Contents(lines: seq<Line>): (out: seq<Text>)
    ensures |out| == |lines|
  {
    seq(|lines|, i requires 0 <= i < |lines| => Content(lines[i]))
  }

  lemma {:induction false} SplitClean(current: Text, a: Text, rest: Text)
    requires Clean(a)
    ensures Split(current, a + rest) == Split(current + a, rest)
    decreases |a|
  {
    if a == [] {
      assert a + rest == rest && current + a == current;
    } else {
      SplitClean(current + [a[0]], a[1..], rest);
      assert (a + rest)[1..] == a[1..] + rest;
      assert current + [a[0]] + a[1..] == current + a;
    }
  }

  lemma SplitLine(line: Text, rest: Text)
    requires Clean(line)
    ensures Split([], line + CRLF + rest) == [line] + Split([], rest)
  {
    Associate(line, CRLF, rest);
    SplitClean([], line, CRLF + rest);
    assert [] + line == line;
    assert (CRLF + rest)[2..] == rest;
  }

  lemma {:induction false} SplitJoined(lines: seq<Text>)
    requires lines != [] && forall l <- lines :: Clean(l)
    ensures Split([], JoinLines(lines)) == lines
    decreases |lines|
  {
    if |lines| == 1 {
      SplitClean([], lines[0], []);
      assert lines[0] + [] == lines[0] && [] + lines[0] == lines[0];
    } else {
      SplitJoined(lines[1..]);
      SplitLine(lines[0], JoinLines(lines[1..]));
    }
  }

  lemma UnfoldEncoded(l: Line, rest: Text)
    requires Printable(l)
    ensures Unfold(Encoded(l) + rest) == Content(l) + Unfold(rest)
  {
    if l.foldable {
      UnfoldFolded(Content(l), rest);
    } else {
      UnfoldClean(Content(l), rest);
    }
  }

  lemma EncodedStartsPlain(l: Line)
    requires Printable(l)
    ensures Encoded(l) != [] && !Blank(Encoded(l)[0])
  {
  }

  lemma {:induction false} UnfoldDocument(lines: seq<Line>)
    requires lines != [] && AllPrintable(lines)
    ensures Unfold(JoinLines(EncodedAll(lines))) == JoinLines(Contents(lines))
    decreases |lines|
  {
    var l, rest := lines[0], lines[1..];
    if rest == [] {
      UnfoldEncoded(l, []);
      assert Encoded(l) + [] == Encoded(l) && Content(l) + Unfold([]) == Content(l);
    } else {
      UnfoldDocument(rest);
      assert EncodedAll(lines)[1..] == EncodedAll(rest) && Contents(lines)[1..] == Contents(rest);
      var more := JoinLines(EncodedAll(rest));
      EncodedStartsPlain(rest[0]);
      Associate(Encoded(l), CRLF, more);
      UnfoldEncoded(l, CRLF + more);
      UnfoldLineEnd(more);
      Associate(Content(l), CRLF, JoinLines(Contents(rest)));
    }
  }

  /** Unfolding and splitting a document gives back exactly its lines, whatever their text. */
  lemma ReadLines(lines: seq<Line>)
    requires lines != [] && AllPrintable(lines)
    ensures ContentLines(JoinLines(EncodedAll(lines))) == Contents(lines)
  {
    UnfoldDocument(lines);
    forall l <- Contents(lines) ensures Clean(l) {
      var i :| 0 <= i < |lines| && Contents(lines)[i] == l;
      assert Printable(lines[i]);
    }
    SplitJoined(Contents(lines));
  }

  // ----- Properties -----

  /** The part of a content line before its first colon. */
  function PropertyName(line: Text): Text {
    if line == [] || line[0] == COLON then [] else [line[0]] + PropertyName(line[1..])
  }

  function PropertyValue(line: Text): Text {
    if |PropertyName(line)| < |line| then line[|PropertyName(line)| + 1..] else []
  }

  lemma {:induction false} NameBeforeColon(name: Text, rest: Text)
    requires COLON !in name
    ensures PropertyName(name + [COLON] + rest) == name
  {
    if name == [] {
    } else {
      NameBeforeColon(name[1..], rest);
      assert (name + [COLON] + rest)[1..] == name[1..] + [COLON] + rest;
    }
  }

  lemma ReadLine(l: Line)
    ensures PropertyName(Content(l)) == l.name && PropertyValue(Content(l)) == l.value
  {
    NameBeforeColon(l.name, l.value);
    assert Content(l)[|l.name| + 1..] == l.value;
  }

  /** The value of the first line with the given name. */
  function Lookup(lines: seq<Text>, name: Text): Option<Text> {
    if lines == [] then None
    else if PropertyName(lines[0]) == name then Some(PropertyValue(lines[0]))
    else Lookup(lines[1..], name)
  }

  function LookupLine(lines: seq<Line>, name: Text): Option<Text> {
    if lines == [] then None
    else if lines[0].name == name then Some(lines[0].value)
    else LookupLine(lines[1..], name)
  }

  lemma {:induction false} LookupReads(lines: seq<Line>, name: Text)
    ensures Lookup(Contents(lines), name) == LookupLine(lines, name)
  {
    if lines != [] {
      ReadLine(lines[0]);
      LookupReads(lines[1..], name);
      assert Contents(lines)[1..] == Contents(lines[1..]);
    }
  }

  /** A text property as a calendar client sees it. */
  function ReadText(lines: seq<Text>, name: Text): Option<Text> {
    match Lookup(lines, name)
    case None => None
    case Some(v) => Some(Unescape(v))
  }

  // ----- VEVENT bodies -----

  const BEGIN_LINE: Text := BEGIN + [COLON] + VEVENT
  const END_LINE: Text := END + [COLON] + VEVENT

  function UpToEnd(lines: seq<Text>): (n: nat)
    ensures n <= |lines|
  {
    if lines == [] || lines[0] == END_LINE then 0 else 1 + UpToEnd(lines[1..])
  }

  function VeventBodies(lines: seq<Text>): seq<seq<Text>>
    decreases |lines|
  {
    if lines == [] then []
    else if lines[0] == BEGIN_LINE then
      var n := UpToEnd(lines[1..]);
      [lines[1..][..n]] + VeventBodies(lines[1..][n..])
    else VeventBodies(lines[1..])
  }

  /** No line of the body reads as a component boundary. */
  ghost predicate Inner(body: seq<Line>) {
    forall l <- body :: l.name != BEGIN && l.name != END
  }

  lemma InnerLine(l: Line)
    requires l.name != BEGIN && l.name != END
    ensures Content(l) != BEGIN_LINE && Content(l) != END_LINE
  {
    ReadLine(l);
    NameBeforeColon(BEGIN, VEVENT);
    NameBeforeColon(END, VEVENT);
  }

  lemma {:induction false} EndOfBody(body: seq<Line>, rest: seq<Text>)
    requires Inner(body)
    ensures UpToEnd(Contents(body) + [END_LINE] + rest) == |body|
  {
    var t := Contents(body) + [END_LINE] + rest;
    if body != [] {
      InnerLine(body[0]);
      EndOfBody(body[1..], rest);
      assert t[1..] == Contents(body[1..]) + [END_LINE] + rest;
    }
  }

  lemma BeginDiffersFromEnd()
    ensures BEGIN != END && BEGIN_LINE != END_LINE
  {
  }

  lemma ReadBracketed(body: seq<Line>, rest: seq<Text>)
    requires Inner(body)
    ensures VeventBodies(Contents(Bracketed(body)) + rest) == [Contents(body)] + VeventBodies(rest)
  {
    var t := [BEGIN_LINE] + (Contents(body) + [END_LINE] + rest);
    assert Contents(Bracketed(body)) + rest == t;
    EndOfBody(body, rest);
    var inside := Contents(body) + [END_LINE] + rest;
    assert t[1..] == inside;
    assert inside[..|body|] == Contents(body);
    assert inside[|body|..] == [END_LINE] + rest;
    BeginDiffersFromEnd();
    assert ([END_LINE] + rest)[1..] == rest;
  }

  lemma ContentsConcat(a: seq<Line>, b: seq<Line>)
    ensures Contents(a + b) == Contents(a) + Contents(b)
  {
  }

  function AllContents(bodies: seq<seq<Line>>): (out: seq<seq<Text>>)
    ensures |out| == |bodies|
  {
    seq(|bodies|, i requires 0 <= i < |bodies| => Contents(bodies[i]))
  }

  lemma AssociateLines(a: seq<Text>, b: seq<Text>, c: seq<Text>)
    ensures a + b + c == a + (b + c)
  {
  }

  lemma FirstBodyApart(b: seq<Line>, more: seq<seq<Line>>, rest: seq<Text>)
    ensures Contents(Bracketed(b) + Flatten(more)) + rest == Contents(Bracketed(b)) + (Contents(Flatten(more)) + rest)
  {
    ContentsConcat(Bracketed(b), Flatten(more));
    AssociateLines(Contents(Bracketed(b)), Contents(Flatten(more)), rest);
  }

  lemma AllContentsStep(bodies: seq<seq<Line>>, rest: seq<seq<Text>>)
    requires bodies != []
    ensures AllContents(bodies) + rest == [Contents(bodies[0])] + (AllContents(bodies[1..]) + rest)
  {
  }

  lemma {:induction false} ReadFlattened(bodies: seq<seq<Line>>, rest: seq<Text>)
    requires forall b <- bodies :: Inner(b)
    ensures VeventBodies(Contents(Flatten(bodies)) + rest) == AllContents(bodies) + VeventBodies(rest)
  {
    if bodies == [] {
      assert Contents(Flatten(bodies)) + rest == rest;
    } else {
      var b, more := bodies[0], bodies[1..];
      ReadFlattened(more, rest);
      FirstBodyApart(b, more, rest);
      ReadBracketed(b, Contents(Flatten(more)) + rest);
      AllContentsStep(bodies, VeventBodies(rest));
    }
  }

  lemma {:induction false} SkipLines(lines: seq<Line>, rest: seq<Text>)
    requires forall l <- lines :: Content(l) != BEGIN_LINE
    ensures VeventBodies(Contents(lines) + rest) == VeventBodies(rest)
  {
    if lines == [] {
      assert Contents(lines) + rest == rest;
    } else {
      SkipLines(lines[1..], rest);
      assert (Contents(lines) + rest)[1..] == Contents(lines[1..]) + rest;
    }
  }

  // ----- The names are told apart -----

  lemma EventNames()
    ensures UID != DTSTAMP && UID != DTSTART && DTSTAMP != DTSTART
    ensures UID != DTEND && DTSTAMP != DTEND && DTSTART != DTEND
    ensures SUMMARY !in {UID, DTSTAMP, DTSTART, DTSTART_DATE, DTEND, RRULE}
    ensures LOCATION !in {UID, DTSTAMP, DTSTART, DTEND, SUMMARY, DESCRIPTION}
    ensures DESCRIPTION !in {UID, DTSTAMP, DTSTART, DTEND, SUMMARY, LOCATION}
  {
    assert UID[0] == 85 && SUMMARY[0] == 83 && LOCATION[0] == 76 && RRULE[0] == 82;
    assert DTSTAMP[4] == 65 && DTSTART[4] == 65 && DTSTAMP[5] == 77 && DTSTART[5] == 82;
    assert DTSTAMP[0] == 68 && DTSTART[0] == 68 && DTEND[0] == 68 && DTSTART_DATE[0] == 68 && DESCRIPTION[0] == 68;
  }

  lemma HeaderNames()
    ensures CALENDAR_NAME !in {BEGIN, VERSION, PRODID, CALSCALE, METHOD}
    ensures VCALENDAR != VEVENT
  {
  }

  // ----- What a client reads from one VEVENT -----

  lemma ReadWrapped(lines: seq<Line>, name: Text, text: Text)
    requires LookupLine(lines, name) == Some(Escape(text))
    ensures ReadText(Contents(lines), name) == Some(Normalize(text))
  {
    LookupReads(lines, name);
    UnescapeEscape(text);
  }

  lemma LookupStep(l: Line, lines: seq<Line>, name: Text)
    ensures LookupLine([l] + lines, name) == if l.name == name then Some(l.value) else LookupLine(lines, name)
  {
  }

  lemma {:induction false} LookupConcat(a: seq<Line>, b: seq<Line>, name: Text)
    ensures LookupLine(a + b, name) == if LookupLine(a, name).Some? then LookupLine(a, name) else LookupLine(b, name)
  {
    if a == [] {
      assert a + b == b;
    } else {
      LookupConcat(a[1..], b, name);
      assert (a + b)[1..] == a[1..] + b;
    }
  }

  lemma LookupFive(l1: Line, l2: Line, l3: Line, l4: Line, l5: Line, name: Text)
    ensures LookupLine([l1, l2, l3, l4, l5], name)
         == if l1.name == name then Some(l1.value) else if l2.name == name then Some(l2.value)
            else if l3.name == name then Some(l3.value) else if l4.name == name then Some(l4.value)
            else if l5.name == name then Some(l5.value) else None
  {
    LookupStep(l5, [], name);
    assert [l5] + [] == [l5];
    LookupStep(l4, [l5], name);
    assert [l4] + [l5] == [l4, l5];
    LookupStep(l3, [l4, l5], name);
    assert [l3] + [l4, l5] == [l3, l4, l5];
    LookupStep(l2, [l3, l4, l5], name);
    assert [l2] + [l3, l4, l5] == [l2, l3, l4, l5];
    LookupStep(l1, [l2, l3, l4, l5], name);
    assert [l1] + [l2, l3, l4, l5] == [l1, l2, l3, l4, l5];
  }

  lemma LookupEvent(e: Event, clock: Clock, name: Text)
    ensures LookupLine(EventBody(e, clock), name)
         == if name == UID then Some(e.id + DOMAIN)
            else if name == DTSTAMP then Some(clock.stamp(clock.now))
            else if name == DTSTART then Some(clock.stamp(StartInstant(e, clock)))
            else if name == DTEND then Some(clock.stamp(EndInstant(e, clock)))
            else if name == SUMMARY then Some(Escape(e.title))
            else if name == LOCATION && Given(e.location) then Some(Escape(e.location.value))
            else if name == DESCRIPTION then Some(Escape(Description(e)))
            else None
  {
    EventNames();
    var first := [Plain(UID, e.id + DOMAIN), Plain(DTSTAMP, clock.stamp(clock.now)),
                  Plain(DTSTART, clock.stamp(StartInstant(e, clock))), Plain(DTEND, clock.stamp(EndInstant(e, clock))),
                  Wrapped(SUMMARY, e.title)];
    var place := if Given(e.location) then [Wrapped(LOCATION, e.location.value)] else [];
    var last := [Wrapped(DESCRIPTION, Description(e))];
    LookupFive(first[0], first[1], first[2], first[3], first[4], name);
    LookupConcat(first + place, last, name);
    LookupConcat(first, place, name);
  }

  /** The VEVENT carries this event, described in its own fields. */
  ghost predicate CarriesEvent(vevent: seq<Text>, e: Event, clock: Clock) {
    && ReadText(vevent, SUMMARY) == Some(Normalize(e.title))
    && ReadText(vevent, LOCATION)
       == (if e.location.Some? && e.location.value != [] then Some(Normalize(e.location.value)) else None)
    && (exists text :: DescribedAs(e, text) && ReadText(vevent, DESCRIPTION) == Some(Normalize(text)))
    && Lookup(vevent, UID) == Some(e.id + Ascii("@teamverwaltung.app"))
    && Lookup(vevent, DTSTAMP) == Some(clock.stamp(clock.now))
    && (exists start, end :: StartsAt(e, clock, start) && EndsAt(e, clock, start, end)
                             && Lookup(vevent, DTSTART) == Some(clock.stamp(start))
                             && Lookup(vevent, DTEND) == Some(clock.stamp(end)))
  }

  lemma ReadEventTexts(e: Event, clock: Clock)
    ensures var vevent := Contents(EventBody(e, clock));
      && ReadText(vevent, SUMMARY) == Some(Normalize(e.title))
      && ReadText(vevent, LOCATION) == (if Given(e.location) then Some(Normalize(e.location.value)) else None)
      && ReadText(vevent, DESCRIPTION) == Some(Normalize(Description(e)))
  {
    EventNames();
    var body := EventBody(e, clock);
    LookupEvent(e, clock, SUMMARY);
    LookupEvent(e, clock, LOCATION);
    LookupEvent(e, clock, DESCRIPTION);
    ReadWrapped(body, SUMMARY, e.title);
    ReadWrapped(body, DESCRIPTION, Description(e));
    if Given(e.location) {
      ReadWrapped(body, LOCATION, e.location.value);
    }
    LookupReads(body, LOCATION);
  }

  lemma ReadEventStamps(e: Event, clock: Clock)
    ensures var vevent := Contents(EventBody(e, clock));
      && Lookup(vevent, UID) == Some(e.id + DOMAIN)
      && Lookup(vevent, DTSTAMP) == Some(clock.stamp(clock.now))
      && Lookup(vevent, DTSTART) == Some(clock.stamp(StartInstant(e, clock)))
      && Lookup(vevent, DTEND) == Some(clock.stamp(EndInstant(e, clock)))
  {
    EventNames();
    var body := EventBody(e, clock);
    LookupEvent(e, clock, UID);
    LookupEvent(e, clock, DTSTAMP);
    LookupEvent(e, clock, DTSTART);
    LookupEvent(e, clock, DTEND);
    LookupReads(body, UID);
    LookupReads(body, DTSTAMP);
    LookupReads(body, DTSTART);
    LookupReads(body, DTEND);
  }

  lemma ReadEvent(e: Event, clock: Clock)
    ensures CarriesEvent(Contents(EventBody(e, clock)), e, clock)
  {
    ReadEventTexts(e, clock);
    ReadEventStamps(e, clock);
    InstantsFit(e, clock);
    DescriptionFits(e);
  }

  /** The VEVENT is a whole day recurring every year, with no end of its own. */
  ghost predicate CarriesBirthday(vevent: seq<Text>, b: Birthday, clock: Clock) {
    && ReadText(vevent, SUMMARY) == Some(Normalize(Ascii("Geburtstag: ") + b.name))
    && Lookup(vevent, UID) == Some(Ascii("birthday-") + b.memberId + Ascii("@teamverwaltung.app"))
    && Lookup(vevent, DTSTAMP) == Some(clock.stamp(clock.now))
    && Lookup(vevent, Ascii("DTSTART;VALUE=DATE")) == Some(clock.day(b.date))
    && Lookup(vevent, RRULE) == Some(Ascii("FREQ=YEARLY"))
    && Lookup(vevent, DTSTART).None? && Lookup(vevent, DTEND).None?
  }

  lemma BirthdayNames()
    ensures DTSTART_DATE !in {UID, DTSTAMP, DTSTART, DTEND} && RRULE !in {UID, DTSTAMP, DTSTART, DTSTART_DATE, DTEND}
    ensures DTSTART !in {UID, DTSTAMP, RRULE, SUMMARY} && DTEND !in {UID, DTSTAMP, RRULE, SUMMARY}
  {
    EventNames();
    assert |DTSTART_DATE| == 18 && |DTSTART| == 7 && |DTSTAMP| == 7 && |DTEND| == 5 && |UID| == 3 && |RRULE| == 5;
    assert RRULE[0] == 82 && DTEND[0] == 68;
  }

  lemma LookupBirthday(b: Birthday, clock: Clock, name: Text)
    ensures Lookup(Contents(BirthdayBody(b, clock)), name)
         == if name == UID then Some(BIRTHDAY_ID + b.memberId + DOMAIN)
            else if name == DTSTAMP then Some(clock.stamp(clock.now))
            else if name == DTSTART_DATE then Some(clock.day(b.date))
            else if name == RRULE then Some(YEARLY)
            else if name == SUMMARY then Some(Escape(BIRTHDAY_OF + b.name))
            else None
  {
    var body := BirthdayBody(b, clock);
    LookupReads(body, name);
    LookupFive(body[0], body[1], body[2], body[3], body[4], name);
    assert body == [body[0], body[1], body[2], body[3], body[4]];
  }

  lemma ReadBirthday(b: Birthday, clock: Clock)
    ensures CarriesBirthday(Contents(BirthdayBody(b, clock)), b, clock)
  {
    EventNames();
    BirthdayNames();
    LookupBirthday(b, clock, SUMMARY);
    UnescapeEscape(BIRTHDAY_OF + b.name);
    LookupBirthday(b, clock, UID);
    LookupBirthday(b, clock, DTSTAMP);
    LookupBirthday(b, clock, DTSTART_DATE);
    LookupBirthday(b, clock, RRULE);
    LookupBirthday(b, clock, DTSTART);
    LookupBirthday(b, clock, DTEND);
  }

  // ----- The whole document -----

  lemma EventBodyIsInner(e: Event, clock: Clock)
    ensures Inner(EventBody(e, clock))
  {
  }

  lemma BirthdayBodyIsInner(b: Birthday, clock: Clock)
    ensures Inner(BirthdayBody(b, clock))
  {
  }

  lemma HeaderIsNoVevent(team: Text)
    ensures forall l <- HeaderLines(team) :: Content(l) != BEGIN_LINE
    ensures VeventBodies([Content(Plain(END, VCALENDAR))]) == []
  {
  }

  lemma ReadAround(header: seq<Line>, bodies: seq<seq<Line>>, footer: seq<Line>)
    requires (forall l <- header :: Content(l) != BEGIN_LINE) && (forall b <- bodies :: Inner(b))
    requires VeventBodies(Contents(footer)) == []
    ensures VeventBodies(Contents(header) + Contents(Flatten(bodies)) + Contents(footer)) == AllContents(bodies)
  {
    AssociateLines(Contents(header), Contents(Flatten(bodies)), Contents(footer));
    SkipLines(header, Contents(Flatten(bodies)) + Contents(footer));
    ReadFlattened(bodies, Contents(footer));
    assert AllContents(bodies) + [] == AllContents(bodies);
  }

  lemma BodiesAreInner(evts: seq<Event>, births: seq<Birthday>, clock: Clock)
    ensures forall b <- EventBodies(evts, clock) + BirthdayBodies(births, clock) :: Inner(b)
  {
    forall i | 0 <= i < |evts| ensures Inner(EventBodies(evts, clock)[i]) {
      EventBodyIsInner(evts[i], clock);
    }
    forall i | 0 <= i < |births| ensures Inner(BirthdayBodies(births, clock)[i]) {
      BirthdayBodyIsInner(births[i], clock);
    }
  }

  /** The VEVENTs of the document are one per live event in order, then one per birthday, each with its own lines. */
  lemma ReadVevents(team: Text, evts: seq<Event>, births: seq<Birthday>, clock: Clock)
    ensures VeventBodies(Contents(DocumentLines(team, evts, births, clock))) == AllContents(Bodies(evts, births, clock))
  {
    var bodies, footer := Bodies(evts, births, clock), [Plain(END, VCALENDAR)];
    BodiesAreInner(Live(evts), births, clock);
    HeaderIsNoVevent(team);
    ContentsConcat(HeaderLines(team) + Flatten(bodies), footer);
    ContentsConcat(HeaderLines(team), Flatten(bodies));
    assert Contents(footer) == [Content(footer[0])];
    ReadAround(HeaderLines(team), bodies, footer);
  }

  lemma ReadCalendarName(team: Text, evts: seq<Event>, births: seq<Birthday>, clock: Clock)
    ensures ReadText(Contents(DocumentLines(team, evts, births, clock)), CALENDAR_NAME) == Some(Normalize(team))
  {
    var lines, header := DocumentLines(team, evts, births, clock), HeaderLines(team);
    HeaderNames();
    LookupFive(header[0], header[1], header[2], header[3], header[4], CALENDAR_NAME);
    LookupStep(header[5], header[6..], CALENDAR_NAME);
    assert header == [header[0], header[1], header[2], header[3], header[4]] + ([header[5]] + header[6..]);
    LookupConcat([header[0], header[1], header[2], header[3], header[4]], [header[5]] + header[6..], CALENDAR_NAME);
    var rest := Flatten(Bodies(evts, births, clock)) + [Plain(END, VCALENDAR)];
    assert lines == header + rest;
    LookupConcat(header, rest, CALENDAR_NAME);
    ReadWrapped(lines, CALENDAR_NAME, team);
  }

  lemma BodyAt(evts: seq<Event>, births: seq<Birthday>, clock: Clock)
    ensures var all := AllContents(Bodies(evts, births, clock));
      && |all| == |Live(evts)| + |births|
      && (forall i :: 0 <= i < |Live(evts)| ==> all[i] == Contents(EventBody(Live(evts)[i], clock)))
      && (forall i :: 0 <= i < |births| ==> all[|Live(evts)| + i] == Contents(BirthdayBody(births[i], clock)))
  {
  }

  /**
    The feed is faithful: a client that unfolds and splits the document reads exactly the
    printed lines; its VEVENTs are one per live event in order and then one per birthday;
    and the calendar carries the team's name, its line breaks normalised.
   */
  lemma FeedIsFaithful(team: Text, evts: seq<Event>, births: seq<Birthday>, clock: Clock)
    requires Renderable(evts, births, clock)
    ensures ContentLines(Document(team, evts, births, clock)) == Contents(DocumentLines(team, evts, births, clock))
    ensures VeventBodies(ContentLines(Document(team, evts, births, clock))) == AllContents(Bodies(evts, births, clock))
    ensures ReadText(ContentLines(Document(team, evts, births, clock)), CALENDAR_NAME) == Some(Normalize(team))
  {
    DocumentIsPrintable(team, evts, births, clock);
    ReadLines(DocumentLines(team, evts, births, clock));
    ReadVevents(team, evts, births, clock);
    ReadCalendarName(team, evts, births, clock);
  }

  /** The i-th VEVENT carries the i-th live event, whatever its texts contain. */
  lemma EventTextsSurvive(team: Text, evts: seq<Event>, births: seq<Birthday>, clock: Clock, i: nat)
    requires Renderable(evts, births, clock) && i < |Live(evts)|
    ensures var vevents := VeventBodies(ContentLines(Document(team, evts, births, clock)));
      i < |vevents| && CarriesEvent(vevents[i], Live(evts)[i], clock)
  {
    FeedIsFaithful(team, evts, births, clock);
    BodyAt(evts, births, clock);
    ReadEvent(Live(evts)[i], clock);
  }

  /** dayOf tells the day of an instant: a time of day given for a day lies on that day. */
  ghost predicate TellsDays(dayOf: int -> int, clock: Clock) {
    forall day, time :: dayOf(clock.zoned(day, time)) == day
  }

  /** From the first day to the last. */
  ghost predicate Spans(vevent: seq<Text>, clock: Clock, dayOf: int -> int, first: int, last: int) {
    exists start, end :: dayOf(start) == first && dayOf(end) == last
                         && Lookup(vevent, DTSTART) == Some(clock.stamp(start))
                         && Lookup(vevent, DTEND) == Some(clock.stamp(end))
  }

  lemma CarriedSpan(vevent: seq<Text>, e: Event, clock: Clock, dayOf: int -> int)
    requires CarriesEvent(vevent, e, clock) && e.endDate.Some? && TellsDays(dayOf, clock)
    ensures Spans(vevent, clock, dayOf, e.date, e.endDate.value)
  {
    var start, end :| StartsAt(e, clock, start) && EndsAt(e, clock, start, end)
                      && Lookup(vevent, DTSTART) == Some(clock.stamp(start))
                      && Lookup(vevent, DTEND) == Some(clock.stamp(end));
    assert dayOf(start) == e.date && dayOf(end) == e.endDate.value;
  }

  /** A span of days begins on its first day and reaches its last one, whether or not it has an end time. */
  lemma SpanReachesItsLastDay(team: Text, evts: seq<Event>, births: seq<Birthday>, clock: Clock, i: nat,
                              dayOf: int -> int)
    requires Renderable(evts, births, clock) && i < |Live(evts)|
    requires Live(evts)[i].endDate.Some? && TellsDays(dayOf, clock)
    ensures var vevents := VeventBodies(ContentLines(Document(team, evts, births, clock)));
      i < |vevents| && Spans(vevents[i], clock, dayOf, Live(evts)[i].date, Live(evts)[i].endDate.value)
  {
    EventTextsSurvive(team, evts, births, clock, i);
    CarriedSpan(VeventBodies(ContentLines(Document(team, evts, births, clock)))[i], Live(evts)[i], clock, dayOf);
  }

  /** After the events, the i-th remaining VEVENT carries the i-th birthday. */
  lemma BirthdayTextsSurvive(team: Text, evts: seq<Event>, births: seq<Birthday>, clock: Clock, i: nat)
    requires Renderable(evts, births, clock) && i < |births|
    ensures var vevents := VeventBodies(ContentLines(Document(team, evts, births, clock)));
      && |vevents| == |Live(evts)| + |births|
      && CarriesBirthday(vevents[|Live(evts)| + i], births[i], clock)
  {
    FeedIsFaithful(team, evts, births, clock);
    BodyAt(evts, births, clock);
    ReadBirthday(births[i], clock);
  }

  lemma FixedLine(l: Line, name: string, value: string)
    requires l.name == Ascii(name) && l.value == Ascii(value)
    ensures Content(l) == Ascii(name + ":" + value)
  {
  }

  /** The calendar's own lines, before the first VEVENT. */
  function HeaderTexts(team: Text): seq<Text> {
    [Ascii("BEGIN" + ":" + "VCALENDAR"), Ascii("VERSION" + ":" + "2.0"),
     Ascii("PRODID" + ":" + "-//Teamverwaltung//Termine//DE"), Ascii("CALSCALE" + ":" + "GREGORIAN"),
     Ascii("METHOD" + ":" + "PUBLISH"), Ascii("X-WR-CALNAME") + [COLON] + Escape(team),
     Ascii("X-WR-TIMEZONE" + ":" + "Europe/Berlin")]
  }

  lemma HeaderContents(team: Text)
    ensures Contents(HeaderLines(team)) == HeaderTexts(team)
  {
    var header := HeaderLines(team);
    FixedLine(header[0], "BEGIN", "VCALENDAR");
    FixedLine(header[1], "VERSION", "2.0");
    FixedLine(header[2], "PRODID", "-//Teamverwaltung//Termine//DE");
    FixedLine(header[3], "CALSCALE", "GREGORIAN");
    FixedLine(header[4], "METHOD", "PUBLISH");
    FixedLine(header[6], "X-WR-TIMEZONE", "Europe/Berlin");
  }

  lemma AroundContents(header: seq<Line>, inside: seq<Line>, footer: Line)
    ensures var all := Contents(header + inside + [footer]);
      && |all| == |header| + |inside| + 1
      && all[..|header|] == Contents(header) && all[|all| - 1] == Content(footer)
  {
    var all := Contents(header + inside + [footer]);
    forall i | 0 <= i < |header| ensures all[i] == Content(header[i]) {
    }
  }

  lemma HeaderSurvives(team: Text, evts: seq<Event>, births: seq<Birthday>, clock: Clock)
    requires Renderable(evts, births, clock)
    ensures var lines := ContentLines(Document(team, evts, births, clock));
      |lines| >= 8 && lines[..7] == HeaderTexts(team) && lines[|lines| - 1] == Ascii("END" + ":" + "VCALENDAR")
  {
    FeedIsFaithful(team, evts, births, clock);
    HeaderContents(team);
    AroundContents(HeaderLines(team), Flatten(Bodies(evts, births, clock)), Plain(END, VCALENDAR));
    FixedLine(Plain(END, VCALENDAR), "END", "VCALENDAR");
    assert |HeaderLines(team)| == 7;
  }

  /** Live keeps exactly the events that are not cancelled, without reordering: it is a filter. */
  lemma {:induction false} LiveIsAFilter(a: seq<Event>, b: seq<Event>)
    ensures Live(a + b) == Live(a) + Live(b)
    decreases |b|
  {
    if b == [] {
      assert a + b == a;
    } else {
      LiveIsAFilter(a, b[..|b| - 1]);
      assert (a + b)[..|a + b| - 1] == a + b[..|b| - 1];
    }
  }

  lemma LiveDropsCancelled(e: Event)
    ensures Live([e]) == if e.status.Cancelled? then [] else [e]
  {
    assert [e][..0] == [];
    assert Live([]) == [];
  }
}
