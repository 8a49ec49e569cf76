/** The events the scrapers hand to their `send` callback, and the callback
    itself as an append-only outbox. */
module Events {
  import opened Wrappers

  /** The three event objects built by the scrapers. Field values are copied
      verbatim from the scraped record. On an appeal `time` is `None` when
      the record had no time: either the row had no `<time>` element (the
      value is `undefined`) or the element had no `datetime` attribute (the
      value is `null`). On a closed appeal the `appealer` value, which is
      the `appellant` field here, is `None` when the row had no appealer
      element. A report's `time` key holds its `pubDate`. */
  datatype Event =
    | AppealOpened(appealer: string, time: Option<string>)
    | AppealClosed(staff: string, status: string, appellant: Option<string>, time: Option<string>)
    | ReportOpened(title: string, link: string, pubDate: string)

  /** The `send` callback: every event it was given, in call order. */
  class Outbox {
    var sent: seq<Event>

    constructor ()
      ensures sent == []
    {
      sent := [];
    }

    method Send(e: Event)
      modifies this
      ensures sent == old(sent) + [e]
    {
      sent := sent + [e];
    }
  }
}
