/** The property names and fixed values that the calendar feed writes. */
module ICalNames {
  import opened Octets

  /** Fixed ASCII text without line breaks. */
  type Label = t: Text | Clean(t) && forall i :: 0 <= i < |t| ==> t[i] < 0x80

  /** A property name: a label that is not empty, does not start blank and holds no colon. */
  type Name = t: Label | t != [] && t[0] != SPACE && t[0] != TAB && COLON !in t witness [65]

  const BEGIN: Name := Ascii("BEGIN")
  const END: Name := Ascii("END")
  const VERSION: Name := Ascii("VERSION")
  const PRODID: Name := Ascii("PRODID")
  const CALSCALE: Name := Ascii("CALSCALE")
  const METHOD: Name := Ascii("METHOD")
  const CALENDAR_NAME: Name := Ascii("X-WR-CALNAME")
  const CALENDAR_TIMEZONE: Name := Ascii("X-WR-TIMEZONE")
  const UID: Name := Ascii("UID")
  const DTSTAMP: Name := Ascii("DTSTAMP")
  const DTSTART: Name := Ascii("DTSTART")
  const DTSTART_DATE: Name := Ascii("DTSTART;VALUE=DATE")
  const DTEND: Name := Ascii("DTEND")
  const RRULE: Name := Ascii("RRULE")
  const SUMMARY: Name := Ascii("SUMMARY")
  const LOCATION: Name := Ascii("LOCATION")
  const DESCRIPTION: Name := Ascii("DESCRIPTION")

  const VCALENDAR: Label := Ascii("VCALENDAR")
  const VEVENT: Label := Ascii("VEVENT")
  const VERSION_2: Label := Ascii("2.0")
  const PRODUCT: Label := Ascii("-//Teamverwaltung//Termine//DE")
  const GREGORIAN: Label := Ascii("GREGORIAN")
  const PUBLISH: Label := Ascii("PUBLISH")
  const BERLIN: Label := Ascii("Europe/Berlin")
  const DOMAIN: Label := Ascii("@teamverwaltung.app")
  const BIRTHDAY_ID: Label := Ascii("birthday-")
  const YEARLY: Label := Ascii("FREQ=YEARLY")

  const TRAINING: Label := Ascii("Training")
  const AUFTRITT: Label := Ascii("Auftritt / Turnier")
  const TEAM_EVENT: Label := Ascii("Team-Event")
  const MEETING_POINT: Label := Ascii("Treffpunkt: ")
  const EVENT_TYPE: Label := Ascii("Termintyp: ")
  const BIRTHDAY_OF: Label := Ascii("Geburtstag: ")
  const END_OF_DAY: Label := Ascii("23:59")
}
