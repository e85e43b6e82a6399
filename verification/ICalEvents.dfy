/**
  What a VEVENT says about its event, in the event's own fields: when it starts and ends
  and how it is described.
 */
module ICalEvents {
  import opened Wrappers
  import opened Octets
  import opened ICalText
  import opened ICalNames
  import opened ICalRender

  /** The start time on the first day; without one the meeting time; without either no time of day. */
  ghost predicate StartsAt(e: Event, clock: Clock, t: int) {
    match (e.startTime, e.meetTime)
    case (Some(start), _) => t == clock.zoned(e.date, start)
    case (None, Some(meet)) => t == clock.zoned(e.date, meet)
    case (None, None) => t == clock.zoned(e.date, [])
  }

  /** The end time on the last day; without one 23:59 on the last day of a span, or two hours after the start. */
  ghost predicate EndsAt(e: Event, clock: Clock, start: int, t: int) {
    match (e.endDate, e.endTime)
    case (Some(last), Some(end)) => t == clock.zoned(last, end)
    case (Some(last), None) => t == clock.zoned(last, Ascii("23:59"))
    case (None, Some(end)) => t == clock.zoned(e.date, end)
    case (None, None) => t == start + 2 * 60
  }

  /** The line naming the event type. */
  function TypeLine(kind: Kind): Text {
    Ascii("Termintyp: ") + match kind
                           case Training => Ascii("Training")
                           case Auftritt => Ascii("Auftritt / Turnier")
                           case TeamEvent => Ascii("Team-Event")
  }

  /** Meeting point and note, each on a line of its own if not empty, and the event type on the last line. */
  ghost predicate DescribedAs(e: Event, text: Text) {
    var meets := e.meetTime.Some? && e.meetTime.value != [];
    var noted := e.note.Some? && e.note.value != [];
    && (meets && noted ==> text == Ascii("Treffpunkt: ") + e.meetTime.value + Ascii("\n") + e.note.value + Ascii("\n")
                                   + TypeLine(e.kind))
    && (meets && !noted ==> text == Ascii("Treffpunkt: ") + e.meetTime.value + Ascii("\n") + TypeLine(e.kind))
    && (!meets && noted ==> text == e.note.value + Ascii("\n") + TypeLine(e.kind))
    && (!meets && !noted ==> text == TypeLine(e.kind))
  }

  lemma InstantsFit(e: Event, clock: Clock)
    ensures StartsAt(e, clock, StartInstant(e, clock))
    ensures EndsAt(e, clock, StartInstant(e, clock), EndInstant(e, clock))
  {
  }

  lemma DescriptionFits(e: Event)
    ensures DescribedAs(e, Description(e))
  {
    assert EVENT_TYPE + EventTypeLabel(e.kind) == TypeLine(e.kind);
    assert Ascii("\n") == [LF];
    assert MeetingPart(e) == [] ==> MeetingPart(e) + NotePart(e) == NotePart(e);
    assert NotePart(e) == [] ==> MeetingPart(e) + NotePart(e) == MeetingPart(e);
    assert [] + TypeLine(e.kind) == TypeLine(e.kind);
    if Given(e.meetTime) && Given(e.note) {
      assert MeetingPart(e) + NotePart(e) == MEETING_POINT + e.meetTime.value + [LF] + e.note.value + [LF];
    }
  }
}
