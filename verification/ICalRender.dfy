/**
  The calendar document: calendarfeed.Render as a printer, and an RFC 5545 reader
  (unfold, split at CRLF, collect VEVENT bodies, look a property up, unescape) that
  recovers what was printed.
 */
module ICalRender {
  import opened Wrappers
  import opened Octets
  import opened ICalText
  import opened ICalNames

  datatype Status = Active | Cancelled
  datatype Kind = Training | Auftritt | TeamEvent

  datatype Event = Event(id: Text, status: Status, kind: Kind, title: Text, location: Option<Text>, note: Option<Text>,
                         meetTime: Option<Text>, startTime: Option<Text>, endTime: Option<Text>,
                         date: int, endDate: Option<int>)

  datatype Birthday = Birthday(memberId: Text, name: Text, date: int)

  /** The time library: render time, wall clock to instant, and the two output formats. */
  datatype Clock = Clock(now: int, zoned: (int, Text) -> int, stamp: int -> Text, day: int -> Text)

  const TWO_HOURS := 120

  function EventTypeLabel(kind: Kind): Label {
    match kind
    case Training => TRAINING
    case Auftritt => AUFTRITT
    case TeamEvent => TEAM_EVENT
  }

  function StartInstant(e: Event, clock: Clock): int {
    clock.zoned(e.date, e.startTime.GetOr(e.meetTime.GetOr([])))
  }

  /** DTEND: the given end time on the last day, else the end of a multi-day span, else two hours. */
  function EndInstant(e: Event, clock: Clock): int {
    var last := e.endDate.GetOr(e.date);
    if e.endTime.Some? then clock.zoned(last, e.endTime.value)
    else if e.endDate.Some? then clock.zoned(last, END_OF_DAY)
    else StartInstant(e, clock) + TWO_HOURS
  }

  function Given(t: Option<Text>): bool {
    t.Some? && t.value != []
  }

  function MeetingPart(e: Event): Text {
    if Given(e.meetTime) then MEETING_POINT + e.meetTime.value + [LF] else []
  }

  function NotePart(e: Event): Text {
    if Given(e.note) then e.note.value + [LF] else []
  }

  /** The parts that are present, joined by line breaks; the event type always comes last. */
  function Description(e: Event): Text {
    MeetingPart(e) + NotePart(e) + (EVENT_TYPE + EventTypeLabel(e.kind))
  }

  // ----- Content lines -----

  /** A property with its encoded value; only some lines go through the folder. */
  datatype Line = Line(name: Name, value: Text, foldable: bool)

  function Content(l: Line): Text {
    l.name + [COLON] + l.value
  }

  ghost predicate Printable(l: Line) {
    Clean(Content(l)) && (l.foldable ==> !LongRun(Content(l)))
  }

  ghost function Encoded(l: Line): Text
    requires Printable(l)
  {
    if l.foldable then Folded(Content(l)) else Content(l)
  }

  function Plain(n: Name, value: Text): Line {
    Line(n, value, false)
  }

  function Wrapped(n: Name, text: Text): Line {
    Line(n, Escape(text), true)
  }

  const VEVENT_BEGIN := Plain(BEGIN, VEVENT)
  const VEVENT_END := Plain(END, VEVENT)

  function HeaderLines(team: Text): seq<Line> {
    [Plain(BEGIN, VCALENDAR), Plain(VERSION, VERSION_2), Plain(PRODID, PRODUCT),
     Plain(CALSCALE, GREGORIAN), Plain(METHOD, PUBLISH), Plain(CALENDAR_NAME, Escape(team)),
     Plain(CALENDAR_TIMEZONE, BERLIN)]
  }

  /** The lines of one event between BEGIN:VEVENT and END:VEVENT. */
  function EventBody(e: Event, clock: Clock): seq<Line> {
    [Plain(UID, e.id + DOMAIN), Plain(DTSTAMP, clock.stamp(clock.now)),
     Plain(DTSTART, clock.stamp(StartInstant(e, clock))), Plain(DTEND, clock.stamp(EndInstant(e, clock))),
     Wrapped(SUMMARY, e.title)]
    + (if Given(e.location) then [Wrapped(LOCATION, e.location.value)] else [])
    + [Wrapped(DESCRIPTION, Description(e))]
  }

  function BirthdayBody(b: Birthday, clock: Clock): seq<Line> {
    [Plain(UID, BIRTHDAY_ID + b.memberId + DOMAIN), Plain(DTSTAMP, clock.stamp(clock.now)),
     Plain(DTSTART_DATE, clock.day(b.date)), Plain(RRULE, YEARLY),
     Wrapped(SUMMARY, BIRTHDAY_OF + b.name)]
  }

  function Bracketed(body: seq<Line>): seq<Line> {
    [VEVENT_BEGIN] + body + [VEVENT_END]
  }

  /** The events that make it into the feed, in order. */
  function Live(evts: seq<Event>): seq<Event> {
    if evts == [] then []
    else
      var last := evts[|evts| - 1];
      Live(evts[..|evts| - 1]) + (if last.status == Cancelled then [] else [last])
  }

  function EventBodies(evts: seq<Event>, clock: Clock): (bodies: seq<seq<Line>>)
    ensures |bodies| == |evts|
  {
    seq(|evts|, i requires 0 <= i < |evts| => EventBody(evts[i], clock))
  }

  function BirthdayBodies(births: seq<Birthday>, clock: Clock): (bodies: seq<seq<Line>>)
    ensures |bodies| == |births|
  {
    seq(|births|, i requires 0 <= i < |births| => BirthdayBody(births[i], clock))
  }

  /** The VEVENT bodies a feed must contain: one per live event in order, then one per birthday. */
  function Bodies(evts: seq<Event>, births: seq<Birthday>, clock: Clock): seq<seq<Line>> {
    EventBodies(Live(evts), clock) + BirthdayBodies(births, clock)
  }

  function Flatten(bodies: seq<seq<Line>>): seq<Line> {
    if bodies == [] then [] else Bracketed(bodies[0]) + Flatten(bodies[1..])
  }

  function DocumentLines(team: Text, evts: seq<Event>, births: seq<Birthday>, clock: Clock): seq<Line> {
    HeaderLines(team) + Flatten(Bodies(evts, births, clock)) + [Plain(END, VCALENDAR)]
  }

  ghost predicate ValidOption(t: Option<Text>) {
    t.Some? ==> ValidUtf8(t.value)
  }

  /** What the database (valid UTF-8 text, UUID ids) and the time library guarantee about the inputs. */
  ghost predicate Renderable(evts: seq<Event>, births: seq<Birthday>, clock: Clock) {
    && (forall i :: Clean(clock.stamp(i)) && Clean(clock.day(i)))
    && (forall e <- evts :: && Clean(e.id) && ValidUtf8(e.title)
                            && ValidOption(e.location) && ValidOption(e.note) && ValidOption(e.meetTime))
    && (forall b <- births :: Clean(b.memberId) && ValidUtf8(b.name))
  }

  // ----- The printer -----

  ghost predicate AllPrintable(lines: seq<Line>) {
    forall l <- lines :: Printable(l)
  }

  ghost function EncodedAll(lines: seq<Line>): (out: seq<Text>)
    requires AllPrintable(lines)
    ensures |out| == |lines|
  {
    seq(|lines|, i requires 0 <= i < |lines| => Encoded(lines[i]))
  }

  function JoinLines(parts: seq<Text>): Text
    requires parts != []
  {
    if |parts| == 1 then parts[0] else parts[0] + CRLF + JoinLines(parts[1..])
  }

  lemma LabelIsValid(t: Label)
    ensures ValidUtf8(t)
  {
  }

  lemma WrappedIsPrintable(n: Name, text: Text)
    requires ValidUtf8(text)
    ensures Printable(Wrapped(n, text))
  {
    EscapeIsClean(text);
    EscapeKeepsUtf8(text);
    AsciiIsValid(n + [COLON]);
    ValidConcat(n + [COLON], Escape(text));
    ValidHasNoLongRun(Content(Wrapped(n, text)));
  }

  lemma PlainIsPrintable(n: Name, value: Text)
    requires Clean(value)
    ensures Printable(Plain(n, value))
  {
  }

  /** A description part and the line break after it. */
  lemma PartIsValid(lead: Label, t: Text)
    requires ValidUtf8(t)
    ensures ValidUtf8(lead + t + [LF])
  {
    LabelIsValid(lead);
    ValidConcat(lead, t);
    AsciiIsValid([LF]);
    ValidConcat(lead + t, [LF]);
  }

  lemma DescriptionIsValid(e: Event)
    requires ValidOption(e.note) && ValidOption(e.meetTime)
    ensures ValidUtf8(Description(e))
  {
    if Given(e.meetTime) {
      PartIsValid(MEETING_POINT, e.meetTime.value);
    }
    if Given(e.note) {
      PartIsValid([], e.note.value);
      assert [] + e.note.value + [LF] == e.note.value + [LF];
    }
    ValidConcat(MeetingPart(e), NotePart(e));
    LabelIsValid(EVENT_TYPE);
    LabelIsValid(EventTypeLabel(e.kind));
    ValidConcat(EVENT_TYPE, EventTypeLabel(e.kind));
    ValidConcat(MeetingPart(e) + NotePart(e), EVENT_TYPE + EventTypeLabel(e.kind));
  }

  lemma EventIsPrintable(e: Event, clock: Clock)
    requires Renderable([e], [], clock)
    ensures AllPrintable(Bracketed(EventBody(e, clock)))
  {
    assert e in [e];
    PlainIsPrintable(BEGIN, VEVENT);
    PlainIsPrintable(END, VEVENT);
    PlainIsPrintable(UID, e.id + DOMAIN);
    PlainIsPrintable(DTSTAMP, clock.stamp(clock.now));
    PlainIsPrintable(DTSTART, clock.stamp(StartInstant(e, clock)));
    PlainIsPrintable(DTEND, clock.stamp(EndInstant(e, clock)));
    WrappedIsPrintable(SUMMARY, e.title);
    if Given(e.location) {
      WrappedIsPrintable(LOCATION, e.location.value);
    }
    DescriptionIsValid(e);
    WrappedIsPrintable(DESCRIPTION, Description(e));
  }

  lemma BirthdayIsPrintable(b: Birthday, clock: Clock)
    requires Renderable([], [b], clock)
    ensures AllPrintable(Bracketed(BirthdayBody(b, clock)))
  {
    assert b in [b];
    PlainIsPrintable(BEGIN, VEVENT);
    PlainIsPrintable(END, VEVENT);
    PlainIsPrintable(UID, BIRTHDAY_ID + b.memberId + DOMAIN);
    PlainIsPrintable(DTSTAMP, clock.stamp(clock.now));
    PlainIsPrintable(DTSTART_DATE, clock.day(b.date));
    PlainIsPrintable(RRULE, YEARLY);
    LabelIsValid(BIRTHDAY_OF);
    ValidConcat(BIRTHDAY_OF, b.name);
    WrappedIsPrintable(SUMMARY, BIRTHDAY_OF + b.name);
  }

  lemma HeaderIsPrintable(team: Text)
    ensures AllPrintable(HeaderLines(team)) && Printable(Plain(END, VCALENDAR))
  {
    EscapeIsClean(team);
    PlainIsPrintable(BEGIN, VCALENDAR);
    PlainIsPrintable(VERSION, VERSION_2);
    PlainIsPrintable(PRODID, PRODUCT);
    PlainIsPrintable(CALSCALE, GREGORIAN);
    PlainIsPrintable(METHOD, PUBLISH);
    PlainIsPrintable(CALENDAR_NAME, Escape(team));
    PlainIsPrintable(CALENDAR_TIMEZONE, BERLIN);
    PlainIsPrintable(END, VCALENDAR);
  }

  lemma {:induction false} LiveAreGiven(evts: seq<Event>)
    ensures forall e <- Live(evts) :: e in evts && e.status != Cancelled
  {
    if evts != [] {
      LiveAreGiven(evts[..|evts| - 1]);
    }
  }

  lemma {:induction false} FlattenIsPrintable(bodies: seq<seq<Line>>)
    requires forall b <- bodies :: AllPrintable(Bracketed(b))
    ensures AllPrintable(Flatten(bodies))
  {
    if bodies != [] {
      FlattenIsPrintable(bodies[1..]);
    }
  }

  lemma EventBodiesArePrintable(evts: seq<Event>, clock: Clock)
    requires Renderable(evts, [], clock)
    ensures AllPrintable(Flatten(EventBodies(evts, clock)))
  {
    forall i | 0 <= i < |evts| ensures AllPrintable(Bracketed(EventBodies(evts, clock)[i])) {
      EventIsPrintable(evts[i], clock);
    }
    FlattenIsPrintable(EventBodies(evts, clock));
  }

  lemma BirthdayBodiesArePrintable(births: seq<Birthday>, clock: Clock)
    requires Renderable([], births, clock)
    ensures AllPrintable(Flatten(BirthdayBodies(births, clock)))
  {
    forall i | 0 <= i < |births| ensures AllPrintable(Bracketed(BirthdayBodies(births, clock)[i])) {
      BirthdayIsPrintable(births[i], clock);
    }
    FlattenIsPrintable(BirthdayBodies(births, clock));
  }

  lemma {:induction false} FlattenConcat(a: seq<seq<Line>>, b: seq<seq<Line>>)
    ensures Flatten(a + b) == Flatten(a) + Flatten(b)
  {
    if a == [] {
      assert a + b == b;
    } else {
      FlattenConcat(a[1..], b);
      assert (a + b)[1..] == a[1..] + b;
    }
  }

  lemma DocumentIsPrintable(team: Text, evts: seq<Event>, births: seq<Birthday>, clock: Clock)
    requires Renderable(evts, births, clock)
    ensures AllPrintable(DocumentLines(team, evts, births, clock))
  {
    HeaderIsPrintable(team);
    LiveAreGiven(evts);
    EventBodiesArePrintable(Live(evts), clock);
    BirthdayBodiesArePrintable(births, clock);
    FlattenConcat(EventBodies(Live(evts), clock), BirthdayBodies(births, clock));
  }

  ghost function Document(team: Text, evts: seq<Event>, births: seq<Birthday>, clock: Clock): Text
    requires Renderable(evts, births, clock)
  {
    DocumentIsPrintable(team, evts, births, clock);
    JoinLines(EncodedAll(DocumentLines(team, evts, births, clock)))
  }

  lemma FlattenAppend(bodies: seq<seq<Line>>, body: seq<Line>)
    ensures Flatten(bodies + [body]) == Flatten(bodies) + Bracketed(body)
  {
    FlattenConcat(bodies, [body]);
    assert Flatten([body]) == Bracketed(body) + Flatten([]);
  }

  lemma OneMoreBody(done: seq<Line>, bodies: seq<seq<Line>>, body: seq<Line>)
    ensures done + Flatten(bodies) + Bracketed(body) == done + Flatten(bodies + [body])
  {
    FlattenAppend(bodies, body);
  }

  method EncodeLine(l: Line) returns (out: Text)
    requires Printable(l)
    ensures out == Encoded(l)
  {
    out := Content(l);
    if l.foldable {
      out := IcsFold(out);
    }
  }

  lemma EncodedAppend(lines: seq<Line>, l: Line)
    requires AllPrintable(lines) && Printable(l)
    ensures AllPrintable(lines + [l]) && EncodedAll(lines + [l]) == EncodedAll(lines) + [Encoded(l)]
  {
  }

  /** Appends lines to the document under construction, folding those that are folded. */
  method AppendLines(lines: seq<Text>, ghost done: seq<Line>, more: seq<Line>) returns (out: seq<Text>)
    requires AllPrintable(done) && AllPrintable(more) && lines == EncodedAll(done)
    ensures AllPrintable(done + more) && out == EncodedAll(done + more)
  {
    out := lines;
    assert done + more[..0] == done;
    for i := 0 to |more|
      invariant AllPrintable(done + more[..i]) && out == EncodedAll(done + more[..i])
    {
      var line := EncodeLine(more[i]);
      EncodedAppend(done + more[..i], more[i]);
      assert done + more[..i + 1] == done + more[..i] + [more[i]];
      out := out + [line];
    }
    assert more[..|more|] == more;
  }

  lemma EventBodiesStep(evts: seq<Event>, e: Event, clock: Clock)
    ensures EventBodies(Live(evts + [e]), clock)
         == EventBodies(Live(evts), clock) + (if e.status == Cancelled then [] else [EventBody(e, clock)])
  {
  }

  method AppendEvent(lines: seq<Text>, ghost done: seq<Line>, ghost bodies: seq<seq<Line>>, e: Event, clock: Clock)
    returns (out: seq<Text>)
    requires Renderable([e], [], clock)
    requires AllPrintable(done + Flatten(bodies)) && lines == EncodedAll(done + Flatten(bodies))
    ensures AllPrintable(done + Flatten(bodies + [EventBody(e, clock)]))
    ensures out == EncodedAll(done + Flatten(bodies + [EventBody(e, clock)]))
  {
    var body := EventBody(e, clock);
    EventIsPrintable(e, clock);
    out := AppendLines(lines, done + Flatten(bodies), Bracketed(body));
    OneMoreBody(done, bodies, body);
  }

  method AppendEvents(lines: seq<Text>, ghost done: seq<Line>, evts: seq<Event>, clock: Clock) returns (out: seq<Text>)
    requires Renderable(evts, [], clock) && AllPrintable(done) && lines == EncodedAll(done)
    ensures AllPrintable(done + Flatten(EventBodies(Live(evts), clock)))
    ensures out == EncodedAll(done + Flatten(EventBodies(Live(evts), clock)))
  {
    out := lines;
    ghost var bodies: seq<seq<Line>> := [];
    assert done + Flatten(bodies) == done;
    for i := 0 to |evts|
      invariant bodies == EventBodies(Live(evts[..i]), clock)
      invariant AllPrintable(done + Flatten(bodies)) && out == EncodedAll(done + Flatten(bodies))
    {
      EventBodiesStep(evts[..i], evts[i], clock);
      assert evts[..i + 1] == evts[..i] + [evts[i]];
      if evts[i].status != Cancelled {
        out := AppendEvent(out, done, bodies, evts[i], clock);
        bodies := bodies + [EventBody(evts[i], clock)];
      }
    }
    assert evts[..|evts|] == evts;
  }

  method AppendBirthdays(lines: seq<Text>, ghost done: seq<Line>, births: seq<Birthday>, clock: Clock)
    returns (out: seq<Text>)
    requires Renderable([], births, clock) && AllPrintable(done) && lines == EncodedAll(done)
    ensures AllPrintable(done + Flatten(BirthdayBodies(births, clock)))
    ensures out == EncodedAll(done + Flatten(BirthdayBodies(births, clock)))
  {
    out := lines;
    ghost var bodies: seq<seq<Line>> := [];
    assert done + Flatten(bodies) == done;
    for i := 0 to |births|
      invariant bodies == BirthdayBodies(births[..i], clock)
      invariant AllPrintable(done + Flatten(bodies)) && out == EncodedAll(done + Flatten(bodies))
    {
      var body := BirthdayBody(births[i], clock);
      BirthdayIsPrintable(births[i], clock);
      out := AppendLines(out, done + Flatten(bodies), Bracketed(body));
      OneMoreBody(done, bodies, body);
      bodies := bodies + [body];
    }
    assert births[..|births|] == births;
  }

  lemma JoinParts(a: seq<Line>, b: seq<Line>, c: seq<Line>, both: seq<Line>)
    requires both == b + c
    ensures [] + a + b + c == a + both
  {
  }

  lemma PartsOfDocument(header: seq<Line>, evts: seq<Event>, births: seq<Birthday>, clock: Clock)
    ensures [] + header + Flatten(EventBodies(Live(evts), clock)) + Flatten(BirthdayBodies(births, clock))
         == header + Flatten(Bodies(evts, births, clock))
  {
    FlattenConcat(EventBodies(Live(evts), clock), BirthdayBodies(births, clock));
    JoinParts(header, Flatten(EventBodies(Live(evts), clock)), Flatten(BirthdayBodies(births, clock)),
              Flatten(Bodies(evts, births, clock)));
  }

  /** The document's lines from any header and footer. */
  method RenderLines(header: seq<Line>, evts: seq<Event>, births: seq<Birthday>, clock: Clock, footer: Line)
    returns (lines: seq<Text>)
    requires Renderable(evts, births, clock) && AllPrintable(header) && Printable(footer)
    ensures AllPrintable(header + Flatten(Bodies(evts, births, clock)) + [footer])
    ensures lines == EncodedAll(header + Flatten(Bodies(evts, births, clock)) + [footer])
  {
    ghost var done := [] + header;
    lines := AppendLines([], [], header);
    lines := AppendEvents(lines, done, evts, clock);
    done := done + Flatten(EventBodies(Live(evts), clock));
    lines := AppendBirthdays(lines, done, births, clock);
    done := done + Flatten(BirthdayBodies(births, clock));
    lines := AppendLines(lines, done, [footer]);
    PartsOfDocument(header, evts, births, clock);
  }

  method Render(team: Text, evts: seq<Event>, births: seq<Birthday>, clock: Clock) returns (doc: Text)
    requires Renderable(evts, births, clock)
    ensures doc == Document(team, evts, births, clock)
  {
    HeaderIsPrintable(team);
    var lines := RenderLines(HeaderLines(team), evts, births, clock, Plain(END, VCALENDAR));
    doc := JoinLines(lines);
  }
}
