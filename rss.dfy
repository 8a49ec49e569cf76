/** The player-report feed reader: the feed text is cut into `<item>` blocks,
    each block gives a record through `extract`, and every record with a link
    is sent as a `report_opened` event, on every tick, without deduplication. */
module Rss {
  import opened Wrappers
  import opened Text
  import opened Events

  // ---------------------------------------------------------------------------
  // The lazy tag regex `<tag>([\s\S]*?)</tag>`
  // ---------------------------------------------------------------------------

  /** The captured group of one match: the text `s[lo..hi]` between the end of
      the opening tag and the start of the closing tag. */
  datatype Span = Span(lo: nat, hi: nat)

  function OpenTag(tag: string): string {
    "<" + tag + ">"
  }

  function CloseTag(tag: string): string {
    "</" + tag + ">"
  }

  /** No opening tag at or after `from` is followed by a closing tag: the
      regex matches nowhere in `s[from..]`. */
  ghost predicate NoMatch(open: string, close: string, s: string, from: int) {
    forall p, q :: from <= p && p + |open| <= q && Occurs(open, s, p) ==> !Occurs(close, s, q)
  }

  /** `sp` is delimited by an opening tag just before it and a closing tag just
      after it, with no closing tag starting inside it (the lazy body). */
  predicate Delimited(open: string, close: string, s: string, sp: Span) {
    && |open| <= sp.lo <= sp.hi
    && Occurs(open, s, sp.lo - |open|)
    && Occurs(close, s, sp.hi)
    && forall k :: sp.lo <= k < sp.hi ==> !Occurs(close, s, k)
  }

  /** The leftmost match of `open([\s\S]*?)close` starting at or after `from`:
      the regex engine tries start positions in order, and a start matches
      when an opening tag there is followed by some closing tag, so the match
      starts at the first opening tag and ends at the first closing tag after
      it. */
  function LazyMatch(open: string, close: string, s: string, from: nat): (r: Option<Span>)
    ensures r.None? <==> NoMatch(open, close, s, from)
    ensures r.Some? ==> Delimited(open, close, s, r.value) && from + |open| <= r.value.lo
    ensures r.Some? ==> forall k :: from <= k < r.value.lo - |open| ==> !Occurs(open, s, k)
  {
    match IndexOf(open, s, from)
    case None => None
    case Some(p) =>
      match IndexOf(close, s, p + |open|)
      case None => None
      case Some(q) => Some(Span(p + |open|, q))
  }

  /** `extract(tag, block)`: the trimmed body of the first `<tag>...</tag>`,
      or the empty string when there is none. */
  function Extract(tag: string, block: string): (r: string)
    ensures Trimmed(r) && |r| <= |block|
  {
    match LazyMatch(OpenTag(tag), CloseTag(tag), block, 0)
    case None => ""
    case Some(sp) => Trim(block[sp.lo..sp.hi])
  }

  /** Without a `<tag>` followed by a `</tag>`, `extract` returns "". */
  lemma ExtractNoMatch(tag: string, block: string)
    requires NoMatch(OpenTag(tag), CloseTag(tag), block, 0)
    ensures Extract(tag, block) == ""
  {
    assert LazyMatch(OpenTag(tag), CloseTag(tag), block, 0).None?;
  }

  /** Stated by positions: when `p` is the first opening tag in `s` and `q`
      the first closing tag after it, the match is the text between them. */
  lemma LazyMatchAt(open: string, close: string, s: string, p: nat, q: nat)
    requires Occurs(open, s, p) && forall k :: 0 <= k < p ==> !Occurs(open, s, k)
    requires p + |open| <= q && Occurs(close, s, q)
    requires forall k :: p + |open| <= k < q ==> !Occurs(close, s, k)
    ensures LazyMatch(open, close, s, 0) == Some(Span(p + |open|, q))
  {
    assert IndexOf(open, s, 0) == Some(p);
    assert IndexOf(close, s, p + |open|) == Some(q);
  }

  /** When `p` is the first `<tag>` of the block and `q` the first `</tag>`
      after it, `extract` returns the text between them, trimmed. */
  lemma ExtractFirstMatch(tag: string, block: string, p: nat, q: nat)
    requires Occurs(OpenTag(tag), block, p)
    requires forall k :: 0 <= k < p ==> !Occurs(OpenTag(tag), block, k)
    requires p + |OpenTag(tag)| <= q && Occurs(CloseTag(tag), block, q)
    requires forall k :: p + |OpenTag(tag)| <= k < q ==> !Occurs(CloseTag(tag), block, k)
    ensures Extract(tag, block) == Trim(block[p + |OpenTag(tag)|..q])
  {
    var open, close := OpenTag(tag), CloseTag(tag);
    LazyMatchAt(open, close, block, p, q);
    var m := LazyMatch(open, close, block, 0);
    assert m == Some(Span(p + |open|, q));
    assert Extract(tag, block) == Trim(block[m.value.lo..m.value.hi]);
  }

  // ---------------------------------------------------------------------------
  // `xml.matchAll(/<item>([\s\S]*?)<\/item>/g)`
  // ---------------------------------------------------------------------------

  const ITEM_OPEN := "<item>"
  const ITEM_CLOSE := "</item>"

  /** All matches of `open([\s\S]*?)close` from `from` on, as a global regex
      finds them: each search resumes just after the previous match. The
      matches are delimited, in document order and do not overlap. */
  function MatchAll(open: string, close: string, s: string, from: nat): (r: seq<Span>)
    requires open != []
    ensures forall i :: 0 <= i < |r| ==> Delimited(open, close, s, r[i]) && from + |open| <= r[i].lo
    ensures forall i, j :: 0 <= i < j < |r| ==> r[i].hi + |close| + |open| <= r[j].lo
    decreases |s| - from
  {
    match LazyMatch(open, close, s, from)
    case None => []
    case Some(sp) =>
      var rest := MatchAll(open, close, s, sp.hi + |close|);
      [sp] + rest
  }

  /** The scan finds no match exactly when the regex matches nowhere. */
  lemma MatchAllEmpty(open: string, close: string, s: string, from: nat)
    requires open != []
    ensures MatchAll(open, close, s, from) == [] <==> NoMatch(open, close, s, from)
  {
  }

  /** The global scan skips no opening tag: none lies before the first match
      or between two consecutive matches. */
  lemma {:induction false} MatchAllGaps(open: string, close: string, s: string, from: nat)
    requires open != []
    ensures var r := MatchAll(open, close, s, from);
      && (r != [] ==> forall k :: from <= k < r[0].lo - |open| ==> !Occurs(open, s, k))
      && (forall i, k :: 0 <= i < |r| - 1 && r[i].hi + |close| <= k < r[i + 1].lo - |open|
                         ==> !Occurs(open, s, k))
    decreases |s| - from
  {
    var r := MatchAll(open, close, s, from);
    var m := LazyMatch(open, close, s, from);
    if m.Some? {
      var sp := m.value;
      var next := sp.hi + |close|;
      var rest := MatchAll(open, close, s, next);
      assert r == [sp] + rest;
      MatchAllGaps(open, close, s, next);
      forall i, k | 0 <= i < |r| - 1 && r[i].hi + |close| <= k < r[i + 1].lo - |open|
        ensures !Occurs(open, s, k)
      {
        if i > 0 {
          assert r[i] == rest[i - 1] && r[i + 1] == rest[i];
        } else {
          assert r[i + 1] == rest[0];
        }
      }
    }
  }

  /** Nothing is left after the last match: from the end of its closing tag
      on, the regex matches nowhere. */
  lemma {:induction false} MatchAllAfterLast(open: string, close: string, s: string, from: nat)
    requires open != []
    ensures var r := MatchAll(open, close, s, from);
      r != [] ==> NoMatch(open, close, s, r[|r| - 1].hi + |close|)
    decreases |s| - from
  {
    var r := MatchAll(open, close, s, from);
    var m := LazyMatch(open, close, s, from);
    if m.Some? {
      var sp := m.value;
      var next := sp.hi + |close|;
      var rest := MatchAll(open, close, s, next);
      assert r == [sp] + rest;
      if rest == [] {
        MatchAllEmpty(open, close, s, next);
      } else {
        MatchAllAfterLast(open, close, s, next);
        assert r[|r| - 1] == rest[|rest| - 1];
      }
    }
  }

  /** The captured bodies of the `<item>` blocks, in document order. */
  function ItemBlocks(xml: string): (r: seq<string>)
    ensures |r| == |MatchAll(ITEM_OPEN, ITEM_CLOSE, xml, 0)|
    ensures r == [] <==> NoMatch(ITEM_OPEN, ITEM_CLOSE, xml, 0)
  {
    MatchAllEmpty(ITEM_OPEN, ITEM_CLOSE, xml, 0);
    var spans := MatchAll(ITEM_OPEN, ITEM_CLOSE, xml, 0);
    seq(|spans|, i requires 0 <= i < |spans| => xml[spans[i].lo..spans[i].hi])
  }

  /** An occurrence inside a slice is an occurrence in the whole string. */
  lemma OccursInSlice(pat: string, s: string, lo: nat, hi: nat, k: int)
    requires lo <= hi <= |s| && Occurs(pat, s[lo..hi], k)
    ensures Occurs(pat, s, lo + k)
  {
    forall t | 0 <= t < |pat| ensures s[lo + k + t] == pat[t] {
      assert s[lo..hi][k..k + |pat|][t] == pat[t];
    }
    assert s[lo + k..lo + k + |pat|] == pat;
  }

  /** A block never contains `</item>`: each block ends at the first closing
      tag after its opening tag. */
  lemma ItemBlockUnclosed(xml: string, i: nat, k: int)
    requires i < |ItemBlocks(xml)|
    ensures !Occurs(ITEM_CLOSE, ItemBlocks(xml)[i], k)
  {
    var spans := MatchAll(ITEM_OPEN, ITEM_CLOSE, xml, 0);
    var sp := spans[i];
    assert Delimited(ITEM_OPEN, ITEM_CLOSE, xml, sp);
    if Occurs(ITEM_CLOSE, ItemBlocks(xml)[i], k) {
      OccursInSlice(ITEM_CLOSE, xml, sp.lo, sp.hi, k);
    }
  }

  // ---------------------------------------------------------------------------
  // Records and the send loop
  // ---------------------------------------------------------------------------

  /** One record of `fetchReports`. */
  datatype Report = Report(title: string, link: string, time: string)

  function ReportOf(block: string): Report {
    Report(Extract("title", block), Extract("link", block), Extract("pubDate", block))
  }

  /** `fetchReports` once the feed text is in hand: one record per `<item>`
      block, in document order, each field extracted from its own block. */
  function ParseReports(xml: string): (r: seq<Report>)
    ensures |r| == |ItemBlocks(xml)|
    ensures r == [] <==> NoMatch(ITEM_OPEN, ITEM_CLOSE, xml, 0)
    ensures forall i :: 0 <= i < |r| ==> r[i] == ReportOf(ItemBlocks(xml)[i])
    ensures forall i :: 0 <= i < |r| ==> Trimmed(r[i].title) && Trimmed(r[i].link) && Trimmed(r[i].time)
  {
    var blocks := ItemBlocks(xml);
    seq(|blocks|, i requires 0 <= i < |blocks| => ReportOf(blocks[i]))
  }

  /** The events the send loop emits for a list of records: one
      `report_opened` per record with a non-empty link, in record order. */
  function ReportEvents(reports: seq<Report>): (r: seq<Event>)
    ensures |r| <= |reports|
    ensures forall e :: e in r ==> e.ReportOpened? && e.link != ""
  {
    if reports == [] then []
    else
      var prev := ReportEvents(reports[..|reports| - 1]);
      var x := reports[|reports| - 1];
      if x.link == "" then prev else prev + [ReportOpened(x.title, x.link, x.time)]
  }

  /** Records are handled independently and in record order. */
  lemma {:induction false} ReportEventsConcat(a: seq<Report>, b: seq<Report>)
    ensures ReportEvents(a + b) == ReportEvents(a) + ReportEvents(b)
    decreases |b|
  {
    if b == [] {
      assert a + b == a;
    } else {
      assert (a + b)[..|a + b| - 1] == a + b[..|b| - 1];
      ReportEventsConcat(a, b[..|b| - 1]);
    }
  }

  /** A record with an empty link sends nothing; any other sends exactly one
      `report_opened` with its title, link and time unchanged. */
  lemma ReportEventsOne(x: Report)
    ensures ReportEvents([x]) == if x.link == "" then [] else [ReportOpened(x.title, x.link, x.time)]
  {
    assert [x][..0] == [];
  }

  /** The `for` loop of one tick: records without a link are skipped, every
      other record is sent. */
  method SendReports(out: Outbox, reports: seq<Report>)
    modifies out
    ensures out.sent == old(out.sent) + ReportEvents(reports)
  {
    for i := 0 to |reports|
      invariant out.sent == old(out.sent) + ReportEvents(reports[..i])
    {
      assert reports[..i + 1] == reports[..i] + [reports[i]];
      var r := reports[i];
      if r.link != "" {
        out.Send(ReportOpened(r.title, r.link, r.time));
      }
    }
    assert reports[..|reports|] == reports;
  }

  /** One tick of the feed loop. `feed` is the downloaded feed text, or `None`
      when the download failed (the error is logged and nothing is sent).
      Nothing is remembered between ticks: what a tick sends depends on the
      feed text alone, so the same feed sends the same events every time. */
  method RssTick(out: Outbox, feed: Option<string>)
    modifies out
    ensures feed.None? ==> out.sent == old(out.sent)
    ensures feed.Some? ==> out.sent == old(out.sent) + ReportEvents(ParseReports(feed.value))
  {
    if feed.Some? {
      var reports := ParseReports(feed.value);
      SendReports(out, reports);
    }
  }
}
