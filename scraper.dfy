/** One pass of the ban-appeal scraper: the rows scraped from the open and the
    closed appeals pages are filtered, checked against the per-category
    seen-sets, turned into events, and the seen-sets are written back. */
module Scraper {
  import opened Wrappers
  import opened Events

  /** Where the two seen-sets are stored (`path.join("./data", ...)`). */
  const OPEN_DATA := "data/open.json"
  const CLOSED_DATA := "data/closed.json"

  // ---------------------------------------------------------------------------
  // Seen-sets and their persistence
  // ---------------------------------------------------------------------------

  /** A JavaScript `Set` of links is kept as the sequence of its elements in
      insertion order, which is the order `[...set]` writes them out. */
  predicate NoDup(s: seq<string>) {
    forall i, j :: 0 <= i < j < |s| ==> s[i] != s[j]
  }

  function Elems(s: seq<string>): set<string> {
    set x | x in s
  }

  lemma ElemsSnoc(s: seq<string>, x: string)
    ensures Elems(s + [x]) == Elems(s) + {x}
  {
  }

  /** `new Set(array)`: the first occurrence of each element, in order. */
  function Dedup(s: seq<string>): (r: seq<string>)
    ensures NoDup(r) && Elems(r) == Elems(s)
  {
    if s == [] then []
    else
      var d := Dedup(s[..|s| - 1]);
      assert s == s[..|s| - 1] + [s[|s| - 1]];
      ElemsSnoc(s[..|s| - 1], s[|s| - 1]);
      ElemsSnoc(d, s[|s| - 1]);
      if s[|s| - 1] in d then d else d + [s[|s| - 1]]
  }

  /** A set that already has no duplicates is read back as it was written. */
  lemma {:induction false} DedupNoDup(s: seq<string>)
    requires NoDup(s)
    ensures Dedup(s) == s
  {
    if s != [] {
      var init := s[..|s| - 1];
      DedupNoDup(init);
      assert s[|s| - 1] !in init;
      assert s == init + [s[|s| - 1]];
    }
  }

  /** `load(file)`: an absent file is the empty set, otherwise the stored
      array read as a `Set`. */
  function Load(files: map<string, seq<string>>, path: string): (r: seq<string>)
    ensures NoDup(r)
    ensures path !in files ==> r == []
    ensures path in files ==> Elems(r) == Elems(files[path])
  {
    if path in files then Dedup(files[path]) else []
  }

  /** What `save` writes is what the next `load` returns. */
  lemma LoadAfterSave(files: map<string, seq<string>>, path: string, s: seq<string>)
    requires NoDup(s)
    ensures Load(files[path := s], path) == s
  {
    DedupNoDup(s);
  }

  /** The data directory: JSON arrays of links, by file path. */
  class FileStore {
    var files: map<string, seq<string>>

    constructor (files: map<string, seq<string>>)
      ensures this.files == files
    {
      this.files := files;
    }

    /** `save(file, set)`: the file is rewritten in full with the set's
        elements; no other file changes. */
    method Save(path: string, s: seq<string>)
      modifies this
      ensures files == old(files)[path := s]
    {
      files := files[path := s];
    }
  }

  // ---------------------------------------------------------------------------
  // Scraped rows and the record filters
  // ---------------------------------------------------------------------------

  /** One `.structItem` of the open-appeals page as the page script reads it:
      a field is `None` when its element is absent, and `time` is also `None`
      when the `<time>` element has no `datetime` attribute. */
  datatype OpenRow = OpenRow(link: Option<string>, appealer: Option<string>, time: Option<string>)

  /** One `.structItem` of the closed-appeals page. `status` is the label text,
      already upper-cased by the page script. */
  datatype ClosedRow = ClosedRow(
    link: Option<string>, status: Option<string>, appealer: Option<string>,
    staff: Option<string>, time: Option<string>)

  /** A row that passed the open-appeals filter. */
  datatype OpenAppeal = OpenAppeal(link: string, appealer: string, time: Option<string>)

  /** A row that passed the closed-appeals filter; the appealer may be missing. */
  datatype ClosedAppeal = ClosedAppeal(
    link: string, status: string, appealer: Option<string>, staff: string, time: Option<string>)

  /** JavaScript truthiness of a scraped string: present and not empty. */
  predicate Truthy(v: Option<string>) {
    v.Some? && v.value != ""
  }

  predicate KeepOpen(row: OpenRow) {
    Truthy(row.link) && Truthy(row.appealer)
  }

  predicate KeepClosed(row: ClosedRow) {
    Truthy(row.link) && Truthy(row.status) && Truthy(row.staff)
  }

  function AsOpen(row: OpenRow): OpenAppeal
    requires KeepOpen(row)
  {
    OpenAppeal(row.link.value, row.appealer.value, row.time)
  }

  function AsClosed(row: ClosedRow): ClosedAppeal
    requires KeepClosed(row)
  {
    ClosedAppeal(row.link.value, row.status.value, row.appealer, row.staff.value, row.time)
  }

  /** `.filter(a => a.link && a.appealer)` on the open-appeals rows. */
  function FilterOpen(rows: seq<OpenRow>): (r: seq<OpenAppeal>)
    ensures |r| <= |rows|
    ensures forall a :: a in r ==> a.link != "" && a.appealer != ""
  {
    if rows == [] then []
    else
      var prev := FilterOpen(rows[..|rows| - 1]);
      var row := rows[|rows| - 1];
      if KeepOpen(row) then prev + [AsOpen(row)] else prev
  }

  /** `.filter(a => a.link && a.status && a.staff)` on the closed-appeals rows. */
  function FilterClosed(rows: seq<ClosedRow>): (r: seq<ClosedAppeal>)
    ensures |r| <= |rows|
    ensures forall a :: a in r ==> a.link != "" && a.status != "" && a.staff != ""
  {
    if rows == [] then []
    else
      var prev := FilterClosed(rows[..|rows| - 1]);
      var row := rows[|rows| - 1];
      if KeepClosed(row) then prev + [AsClosed(row)] else prev
  }

  /** The open filter keeps exactly the rows with a link and an appealer, in
      their original order. */
  lemma {:induction false} FilterOpenConcat(a: seq<OpenRow>, b: seq<OpenRow>)
    ensures FilterOpen(a + b) == FilterOpen(a) + FilterOpen(b)
    ensures FilterOpen([]) == []
    ensures forall row :: FilterOpen([row]) == if KeepOpen(row) then [AsOpen(row)] else []
    decreases |b|
  {
    if b != [] {
      assert (a + b)[..|a + b| - 1] == a + b[..|b| - 1];
      FilterOpenConcat(a, b[..|b| - 1]);
    } else {
      assert a + b == a;
    }
    forall row ensures FilterOpen([row]) == if KeepOpen(row) then [AsOpen(row)] else [] {
      assert [row][..0] == [];
    }
  }

  /** The closed filter keeps exactly the rows with a link, a status and a
      staff member, in their original order. */
  lemma {:induction false} FilterClosedConcat(a: seq<ClosedRow>, b: seq<ClosedRow>)
    ensures FilterClosed(a + b) == FilterClosed(a) + FilterClosed(b)
    ensures FilterClosed([]) == []
    ensures forall row :: FilterClosed([row]) == if KeepClosed(row) then [AsClosed(row)] else []
    decreases |b|
  {
    if b != [] {
      assert (a + b)[..|a + b| - 1] == a + b[..|b| - 1];
      FilterClosedConcat(a, b[..|b| - 1]);
    } else {
      assert a + b == a;
    }
    forall row ensures FilterClosed([row]) == if KeepClosed(row) then [AsClosed(row)] else [] {
      assert [row][..0] == [];
    }
  }

  // ---------------------------------------------------------------------------
  // The two dedup-and-emit loops, as functions of the seen-set and the batch
  // ---------------------------------------------------------------------------

  /** The seen-set after a batch and the events sent for it, in order. */
  datatype Pass = Pass(seen: seq<string>, events: seq<Event>)

  function OpenLinks(appeals: seq<OpenAppeal>): set<string> {
    set a | a in appeals :: a.link
  }

  /** The open-appeals loop: a row whose link is already seen is skipped;
      any other row marks its link seen and sends `appeal_opened`. */
  function OpenPass(seen: seq<string>, appeals: seq<OpenAppeal>): (r: Pass)
    ensures seen <= r.seen
    ensures |r.events| == |r.seen| - |seen|
    ensures NoDup(seen) ==> NoDup(r.seen)
    ensures forall e :: e in r.events ==> e.AppealOpened?
  {
    if appeals == [] then Pass(seen, [])
    else
      var prev := OpenPass(seen, appeals[..|appeals| - 1]);
      var a := appeals[|appeals| - 1];
      if a.link in prev.seen then prev
      else Pass(prev.seen + [a.link], prev.events + [AppealOpened(a.appealer, a.time)])
  }

  /** `["DENIED", "ACCEPTED"].includes(status)` */
  predicate Decisive(status: string) {
    status == "DENIED" || status == "ACCEPTED"
  }

  function DecisiveLinks(appeals: seq<ClosedAppeal>): set<string> {
    set a | a in appeals && Decisive(a.status) :: a.link
  }

  /** The closed-appeals loop: a row whose link is already seen is skipped; a
      row with any status but DENIED or ACCEPTED is skipped without being
      marked seen; any other row marks its link seen and sends `appeal_closed`. */
  function ClosedPass(seen: seq<string>, appeals: seq<ClosedAppeal>): (r: Pass)
    ensures seen <= r.seen
    ensures |r.events| == |r.seen| - |seen|
    ensures NoDup(seen) ==> NoDup(r.seen)
    ensures forall e :: e in r.events ==> e.AppealClosed? && Decisive(e.status)
  {
    if appeals == [] then Pass(seen, [])
    else
      var prev := ClosedPass(seen, appeals[..|appeals| - 1]);
      var a := appeals[|appeals| - 1];
      if a.link in prev.seen then prev
      else if !Decisive(a.status) then prev
      else Pass(prev.seen + [a.link], prev.events + [AppealClosed(a.staff, a.status, a.appealer, a.time)])
  }

  // ---------------------------------------------------------------------------
  // Properties of the open-appeals loop
  // ---------------------------------------------------------------------------

  /** Processing a batch in two pieces is processing it whole: rows are
      handled one after another, and events come out in row order. */
  lemma {:induction false} OpenPassConcat(seen: seq<string>, a: seq<OpenAppeal>, b: seq<OpenAppeal>)
    ensures OpenPass(seen, a + b).seen == OpenPass(OpenPass(seen, a).seen, b).seen
    ensures OpenPass(seen, a + b).events == OpenPass(seen, a).events + OpenPass(OpenPass(seen, a).seen, b).events
    decreases |b|
  {
    if b == [] {
      assert a + b == a;
    } else {
      assert (a + b)[..|a + b| - 1] == a + b[..|b| - 1];
      OpenPassConcat(seen, a, b[..|b| - 1]);
    }
  }

  /** After a pass the seen-set holds the old links and the link of every
      row in the batch, and nothing else. */
  lemma {:induction false} OpenPassCovers(seen: seq<string>, appeals: seq<OpenAppeal>)
    ensures Elems(OpenPass(seen, appeals).seen) == Elems(seen) + OpenLinks(appeals)
  {
    if appeals != [] {
      var init := appeals[..|appeals| - 1];
      var x := appeals[|appeals| - 1];
      OpenPassCovers(seen, init);
      assert appeals == init + [x];
      assert OpenLinks(appeals) == OpenLinks(init) + {x.link};
      ElemsSnoc(OpenPass(seen, init).seen, x.link);
    }
  }

  /** A row whose link was seen before or earlier in the batch sends nothing
      and changes nothing: only the first occurrence of a link fires. */
  lemma OpenPassRepeat(seen: seq<string>, a: seq<OpenAppeal>, x: OpenAppeal)
    requires x.link in seen || x.link in OpenLinks(a)
    ensures OpenPass(seen, a + [x]) == OpenPass(seen, a)
  {
    OpenPassCovers(seen, a);
    assert (a + [x])[..|a|] == a;
  }

  /** A row whose link is new sends exactly one `appeal_opened` carrying its
      appealer and time verbatim, and adds exactly its link. */
  lemma OpenPassFresh(seen: seq<string>, a: seq<OpenAppeal>, x: OpenAppeal)
    requires x.link !in seen && x.link !in OpenLinks(a)
    ensures OpenPass(seen, a + [x]).seen == OpenPass(seen, a).seen + [x.link]
    ensures OpenPass(seen, a + [x]).events == OpenPass(seen, a).events + [AppealOpened(x.appealer, x.time)]
  {
    OpenPassCovers(seen, a);
    assert x.link !in Elems(OpenPass(seen, a).seen);
    assert (a + [x])[..|a|] == a;
  }

  /** A batch whose links are all seen sends nothing. */
  lemma {:induction false} OpenPassAllSeen(seen: seq<string>, appeals: seq<OpenAppeal>)
    requires OpenLinks(appeals) <= Elems(seen)
    ensures OpenPass(seen, appeals) == Pass(seen, [])
  {
    if appeals != [] {
      var init := appeals[..|appeals| - 1];
      var x := appeals[|appeals| - 1];
      assert appeals == init + [x];
      assert OpenLinks(init) <= OpenLinks(appeals);
      assert x.link in OpenLinks(appeals);
      OpenPassAllSeen(seen, init);
    }
  }

  /** Running the same batch again on the seen-set it produced sends nothing. */
  lemma OpenPassIdempotent(seen: seq<string>, appeals: seq<OpenAppeal>)
    ensures var p := OpenPass(seen, appeals); OpenPass(p.seen, appeals) == Pass(p.seen, [])
  {
    OpenPassCovers(seen, appeals);
    OpenPassAllSeen(OpenPass(seen, appeals).seen, appeals);
  }

  // ---------------------------------------------------------------------------
  // Properties of the closed-appeals loop
  // ---------------------------------------------------------------------------

  lemma {:induction false} ClosedPassConcat(seen: seq<string>, a: seq<ClosedAppeal>, b: seq<ClosedAppeal>)
    ensures ClosedPass(seen, a + b).seen == ClosedPass(ClosedPass(seen, a).seen, b).seen
    ensures ClosedPass(seen, a + b).events == ClosedPass(seen, a).events + ClosedPass(ClosedPass(seen, a).seen, b).events
    decreases |b|
  {
    if b == [] {
      assert a + b == a;
    } else {
      assert (a + b)[..|a + b| - 1] == a + b[..|b| - 1];
      ClosedPassConcat(seen, a, b[..|b| - 1]);
    }
  }

  /** After a pass the seen-set holds the old links and the links of the rows
      with a decisive status, and nothing else. */
  lemma {:induction false} ClosedPassCovers(seen: seq<string>, appeals: seq<ClosedAppeal>)
    ensures Elems(ClosedPass(seen, appeals).seen) == Elems(seen) + DecisiveLinks(appeals)
  {
    if appeals != [] {
      var init := appeals[..|appeals| - 1];
      var x := appeals[|appeals| - 1];
      ClosedPassCovers(seen, init);
      assert appeals == init + [x];
      assert DecisiveLinks(appeals) == DecisiveLinks(init) + (if Decisive(x.status) then {x.link} else {});
      ElemsSnoc(ClosedPass(seen, init).seen, x.link);
    }
  }

  /** A row whose link was seen before, or fired earlier in the batch, sends
      nothing and changes nothing. */
  lemma ClosedPassRepeat(seen: seq<string>, a: seq<ClosedAppeal>, x: ClosedAppeal)
    requires x.link in seen || x.link in DecisiveLinks(a)
    ensures ClosedPass(seen, a + [x]) == ClosedPass(seen, a)
  {
    ClosedPassCovers(seen, a);
    assert (a + [x])[..|a|] == a;
  }

  /** A row with a status other than DENIED or ACCEPTED sends nothing and is
      not marked seen: the seen-set is unchanged by it. */
  lemma ClosedPassUndecided(seen: seq<string>, a: seq<ClosedAppeal>, x: ClosedAppeal)
    requires !Decisive(x.status)
    ensures ClosedPass(seen, a + [x]) == ClosedPass(seen, a)
  {
    assert (a + [x])[..|a|] == a;
  }

  /** A new link with a decisive status sends exactly one `appeal_closed`
      whose staff, status, appealer and time are copied from the row. */
  lemma ClosedPassFresh(seen: seq<string>, a: seq<ClosedAppeal>, x: ClosedAppeal)
    requires Decisive(x.status) && x.link !in seen && x.link !in DecisiveLinks(a)
    ensures ClosedPass(seen, a + [x]).seen == ClosedPass(seen, a).seen + [x.link]
    ensures ClosedPass(seen, a + [x]).events
         == ClosedPass(seen, a).events + [AppealClosed(x.staff, x.status, x.appealer, x.time)]
  {
    ClosedPassCovers(seen, a);
    assert x.link !in Elems(ClosedPass(seen, a).seen);
    assert (a + [x])[..|a|] == a;
  }

  /** Because an undecided row is not burned, the same link fires on a later
      pass once its status has become decisive. */
  lemma ClosedPendingFiresLater(seen: seq<string>, pending: ClosedAppeal, decided: ClosedAppeal)
    requires pending.link == decided.link && pending.link !in seen
    requires !Decisive(pending.status) && Decisive(decided.status)
    ensures ClosedPass(seen, [pending]) == Pass(seen, [])
    ensures ClosedPass(ClosedPass(seen, [pending]).seen, [decided]).events
         == [AppealClosed(decided.staff, decided.status, decided.appealer, decided.time)]
  {
    ClosedPassUndecided(seen, [], pending);
    ClosedPassFresh(seen, [], decided);
    assert [] + [pending] == [pending] && [] + [decided] == [decided];
  }

  lemma {:induction false} ClosedPassAllSeen(seen: seq<string>, appeals: seq<ClosedAppeal>)
    requires DecisiveLinks(appeals) <= Elems(seen)
    ensures ClosedPass(seen, appeals) == Pass(seen, [])
  {
    if appeals != [] {
      var init := appeals[..|appeals| - 1];
      var x := appeals[|appeals| - 1];
      assert appeals == init + [x];
      assert DecisiveLinks(init) <= DecisiveLinks(appeals);
      assert Decisive(x.status) ==> x.link in DecisiveLinks(appeals);
      ClosedPassAllSeen(seen, init);
    }
  }

  /** Running the same batch again on the seen-set it produced sends nothing. */
  lemma ClosedPassIdempotent(seen: seq<string>, appeals: seq<ClosedAppeal>)
    ensures var p := ClosedPass(seen, appeals); ClosedPass(p.seen, appeals) == Pass(p.seen, [])
  {
    ClosedPassCovers(seen, appeals);
    ClosedPassAllSeen(ClosedPass(seen, appeals).seen, appeals);
  }

  // ---------------------------------------------------------------------------
  // scrapeOnce
  // ---------------------------------------------------------------------------

  /** The open-appeals loop: each unseen link is marked as seen and sent as
      an `appeal_opened` event. */
  method SendOpened(out: Outbox, seen: seq<string>, appeals: seq<OpenAppeal>) returns (seen': seq<string>)
    modifies out
    ensures seen' == OpenPass(seen, appeals).seen
    ensures out.sent == old(out.sent) + OpenPass(seen, appeals).events
  {
    seen' := seen;
    for i := 0 to |appeals|
      invariant seen' == OpenPass(seen, appeals[..i]).seen
      invariant out.sent == old(out.sent) + OpenPass(seen, appeals[..i]).events
    {
      assert appeals[..i + 1] == appeals[..i] + [appeals[i]];
      var a := appeals[i];
      if a.link !in seen' {
        seen' := seen' + [a.link];
        out.Send(AppealOpened(a.appealer, a.time));
      }
    }
    assert appeals[..|appeals|] == appeals;
  }

  /** The closed-appeals loop: each unseen link whose status is `DENIED` or
      `ACCEPTED` is marked as seen and sent as an `appeal_closed` event; any
      other row is skipped without being marked. */
  method SendClosed(out: Outbox, seen: seq<string>, appeals: seq<ClosedAppeal>) returns (seen': seq<string>)
    modifies out
    ensures seen' == ClosedPass(seen, appeals).seen
    ensures out.sent == old(out.sent) + ClosedPass(seen, appeals).events
  {
    seen' := seen;
    for i := 0 to |appeals|
      invariant seen' == ClosedPass(seen, appeals[..i]).seen
      invariant out.sent == old(out.sent) + ClosedPass(seen, appeals[..i]).events
    {
      assert appeals[..i + 1] == appeals[..i] + [appeals[i]];
      var a := appeals[i];
      if a.link !in seen' && Decisive(a.status) {
        seen' := seen' + [a.link];
        out.Send(AppealClosed(a.staff, a.status, a.appealer, a.time));
      }
    }
    assert appeals[..|appeals|] == appeals;
  }

  /** One scraper tick. `openPage` and `closedPage` are what the page script
      returned for each page, or `None` when loading that page failed (the
      exception ends the tick). Both seen-sets are loaded first; they are saved
      only after both loops have run, so a failure on the closed page leaves
      the stored sets as they were although the open-appeal events are sent. */
  method ScrapeOnce(disk: FileStore, out: Outbox, openPage: Option<seq<OpenRow>>, closedPage: Option<seq<ClosedRow>>)
    returns (ok: bool)
    modifies disk, out
    ensures ok <==> openPage.Some? && closedPage.Some?
    ensures openPage.None? ==> disk.files == old(disk.files) && out.sent == old(out.sent)
    ensures openPage.Some? ==>
      var o := OpenPass(Load(old(disk.files), OPEN_DATA), FilterOpen(openPage.value));
      if closedPage.None? then
        disk.files == old(disk.files) && out.sent == old(out.sent) + o.events
      else
        var c := ClosedPass(Load(old(disk.files), CLOSED_DATA), FilterClosed(closedPage.value));
        && disk.files == old(disk.files)[OPEN_DATA := o.seen][CLOSED_DATA := c.seen]
        && out.sent == old(out.sent) + o.events + c.events
  {
    var openSeen := Load(disk.files, OPEN_DATA);
    var closedSeen := Load(disk.files, CLOSED_DATA);

    if openPage.None? {
      return false;
    }
    var openAppeals := FilterOpen(openPage.value);
    openSeen := SendOpened(out, openSeen, openAppeals);

    if closedPage.None? {
      return false;
    }
    var closedAppeals := FilterClosed(closedPage.value);
    closedSeen := SendClosed(out, closedSeen, closedAppeals);

    disk.Save(OPEN_DATA, openSeen);
    disk.Save(CLOSED_DATA, closedSeen);
    ok := true;
  }
}
