# PunishCounter — a Dafny model of its change detection, feed parsing and leaderboard

PunishCounter is a Discord-connected Node.js service for a Minecraft server's
staff. This project models the three pieces of its logic that sit between
the browser, network and Discord calls:

- **Appeal change detection** (`scraper.js`). One scraper tick reads the
  open and closed ban-appeal listings, drops rows without their required
  fields and checks every row against a per-category set of links already
  seen. It sends an `appeal_opened` or `appeal_closed` event for each new
  link, then stores both sets as JSON arrays. A closed appeal whose status
  is neither `DENIED` nor `ACCEPTED` is skipped before it is marked as seen,
  so it can still fire on a later tick.
- **Player-report feed** (`rssScraper.js`). The feed is cut into
  `<item>…</item>` blocks. `extract` takes the trimmed text of the first
  `<title>`, `<link>` and `<pubDate>` element of each block. Every record
  with a non-empty link is sent as a `report_opened` event. Nothing is
  deduplicated: a tick sends every report of the feed.
- **Server state** (`index.js`). The list of open `/appeals/stream`
  responses grows on connect and is filtered on close. The `/leaderboard`
  handler keeps the messages that start with `PUNISH|` and reads their
  `staff=` field. It counts messages per staff member and returns the ten
  largest counts, largest first.

Modules:

- `Wrappers`: `Option`.
- `Text`: the JavaScript string operations used: `trim` (with the full
  ECMAScript white-space and line-terminator set), `split`, `startsWith`,
  `replace` of the first occurrence, and `Array.find` over fields. It also
  holds `IndexOf`, a first-occurrence search. The source never calls
  `indexOf`; the model uses this search as the step of the two regular
  expressions in `rssScraper.js`.
- `Events`: the event objects and the `send` callback. The callback is an
  `Outbox` whose `sent` sequence records every event handed to it.
- `Scraper`: `scraper.js`.
- `Rss`: `rssScraper.js`.
- `Server`: `index.js`.

Modelling choices:

- A JavaScript `Set` of links is an insertion-ordered sequence without
  duplicates. `save` writes `[...set]` in that order, and `load` builds
  `new Set(array)`, which keeps the first occurrence of each element.
- The data directory is a map from path to stored array.
- A page that fails to load is `None`. The exception ends the tick at that
  point.
- The regular expressions are explicit searches: the lazy
  `<tag>([\s\S]*?)</tag>` is the first opening tag followed by the first
  closing tag after it. `matchAll` with the `g` flag resumes after the end
  of each match.

## Model

| member | source | states |
|---|---|---|
| Text.Trim | rssScraper.js:15 | the result has no leading or trailing JavaScript white space and is no longer than the input |
| Text.TrimStart | rssScraper.js:15 | removes exactly a prefix made only of white space, and the rest does not start with white space |
| Text.TrimEnd | rssScraper.js:15 | removes exactly a suffix made only of white space, and the rest does not end with white space |
| Text.TrimCharacterised | rssScraper.js:15 | padding a trimmed string with white space on both sides and trimming gives back that string |
| Text.TrimIdempotent | rssScraper.js:15 | trimming twice is trimming once |
| Text.IndexOf | rssScraper.js:14 | the search step of the regex model: `Some(k)` is the first occurrence at or after `from`; `None` means no occurrence from `from` on |
| Text.Split | index.js:91 | `split('|')` gives at least one field and no field contains the separator |
| Text.JoinSplit | index.js:91 | joining the fields of a split with the separator gives back the string |
| Text.SplitJoin | index.js:91 | splitting a join of separator-free fields gives back those fields |
| Text.FindWithPrefix | index.js:92 | `find(p => p.startsWith(prefix))`: the value found is the first field with the prefix; `None` means no field has it |
| Text.ReplacePrefix | index.js:93 | replacing a leading prefix with nothing leaves the rest of the string |
| Text.ReplaceFirst | index.js:93 | the first occurrence of the pattern, and no later one, is replaced; without an occurrence the string is unchanged |
| Events.Outbox.constructor | scraper.js:38 | no event has been sent yet |
| Events.Outbox.Send | scraper.js:89-93 | `send` appends the event to what was sent and changes nothing else |
| Scraper.Dedup | scraper.js:22 | `new Set(array)`: no duplicates and the same elements as the array |
| Scraper.DedupNoDup | scraper.js:22 | an array without duplicates becomes a set in the same order |
| Scraper.Load | scraper.js:20-23 | a missing file gives the empty set; otherwise the stored elements without duplicates |
| Scraper.LoadAfterSave | scraper.js:20-28 | loading a path after saving a set there gives back that set |
| Scraper.FileStore.constructor | scraper.js:13-15 | the store holds the given files |
| Scraper.FileStore.Save | scraper.js:25-28 | the path now holds the set's elements in order; no other file changes |
| Scraper.FilterOpen | scraper.js:75-81 | every kept open appeal has a non-empty link and appealer; never more rows than scraped |
| Scraper.FilterOpenConcat | scraper.js:80 | the filter works row by row and keeps order: a row is kept exactly when link and appealer are present and non-empty |
| Scraper.FilterClosed | scraper.js:104-112 | every kept closed appeal has a non-empty link, status and staff; never more rows than scraped |
| Scraper.FilterClosedConcat | scraper.js:111 | the filter works row by row and keeps order: a row is kept exactly when link, status and staff are present and non-empty |
| Scraper.OpenPass | scraper.js:83-94 | the seen-set only grows, stays duplicate-free, gains one link per event sent, and only `appeal_opened` events are sent |
| Scraper.OpenPassConcat | scraper.js:83 | rows are handled in order: a pass over `a + b` is the pass over `a` followed by the pass over `b` from the resulting set |
| Scraper.OpenPassFresh | scraper.js:84-93 | an unseen link is added and sends exactly one `appeal_opened` with the row's appealer and time unchanged |
| Scraper.OpenPassRepeat | scraper.js:84 | a link already seen, or met earlier in the same batch, sends nothing and leaves the set unchanged |
| Scraper.OpenPassCovers | scraper.js:85 | afterwards the set is the old set plus the links of the rows |
| Scraper.OpenPassAllSeen | scraper.js:84 | when every link was seen, the pass sends nothing and changes nothing |
| Scraper.OpenPassIdempotent | scraper.js:83-94 | repeating a pass over the same rows sends nothing more |
| Scraper.ClosedPass | scraper.js:114-129 | the seen-set only grows, stays duplicate-free, gains one link per event sent, and every event is an `appeal_closed` with status `DENIED` or `ACCEPTED` |
| Scraper.ClosedPassConcat | scraper.js:114 | rows are handled in order: a pass over `a + b` is the pass over `a` followed by the pass over `b` from the resulting set |
| Scraper.ClosedPassFresh | scraper.js:115-128 | an unseen decided link is added and sends one `appeal_closed` with staff, status, appealer and time unchanged |
| Scraper.ClosedPassRepeat | scraper.js:115 | a link already seen, or decided earlier in the batch, sends nothing and leaves the set unchanged |
| Scraper.ClosedPassUndecided | scraper.js:116 | a status other than `DENIED`/`ACCEPTED` sends nothing and does not mark the link as seen |
| Scraper.ClosedPendingFiresLater | scraper.js:116-118 | an undecided appeal skipped on one pass still fires once it is decided on a later pass |
| Scraper.ClosedPassCovers | scraper.js:118 | afterwards the set is the old set plus the links of the decided rows |
| Scraper.ClosedPassAllSeen | scraper.js:115 | when every decided link was seen, the pass sends nothing and changes nothing |
| Scraper.ClosedPassIdempotent | scraper.js:114-129 | repeating a pass over the same rows sends nothing more |
| Scraper.SendOpened | scraper.js:83-94 | the loop leaves the seen-set at `OpenPass(...).seen` and appends exactly `OpenPass(...).events`, in row order |
| Scraper.SendClosed | scraper.js:114-129 | the loop leaves the seen-set at `ClosedPass(...).seen` and appends exactly `ClosedPass(...).events`, in row order |
| Scraper.ScrapeOnce | scraper.js:38-135 | one tick: open events are sent first, then closed events; both sets are saved only after both loops; a failed open page changes nothing; a failed closed page sends the open events but saves nothing |
| Rss.LazyMatch | rssScraper.js:14 | `None` exactly when no opening tag is followed later by a closing tag; otherwise the body runs from the first opening tag to the first closing tag after it |
| Rss.LazyMatchAt | rssScraper.js:14 | given the first opening tag and the first closing tag after it, the match is exactly the text between them |
| Rss.Extract | rssScraper.js:13-16 | the result is trimmed and no longer than the block |
| Rss.ExtractNoMatch | rssScraper.js:15 | with no `<tag>` followed by `</tag>` the result is `""` |
| Rss.ExtractFirstMatch | rssScraper.js:14-15 | otherwise the result is the trimmed text between the first `<tag>` and the first `</tag>` after it |
| Rss.MatchAll | rssScraper.js:26 | every match is a delimited body at or after the start, and the matches do not overlap and are in document order |
| Rss.MatchAllAfterLast | rssScraper.js:26 | nothing is skipped after the last match: from the end of its closing tag on, the regex matches nowhere |
| Rss.MatchAllEmpty | rssScraper.js:26 | no match exactly when there is no opening tag followed by a closing tag |
| Rss.MatchAllGaps | rssScraper.js:26 | no opening tag is skipped: none lies before the first match or between two matches |
| Rss.ItemBlocks | rssScraper.js:26-27 | one block per `<item>` match; none exactly when the feed has no item |
| Rss.ItemBlockUnclosed | rssScraper.js:26 | a block ends at the first `</item>`: it contains no `</item>` |
| Rss.ParseReports | rssScraper.js:26-33 | one record per item, in order; each record's title, link and time are `extract` of `title`, `link` and `pubDate` on its own block, and all three are trimmed |
| Rss.ReportEvents | rssScraper.js:49-60 | only `report_opened` events with a non-empty link, at most one per record |
| Rss.ReportEventsConcat | rssScraper.js:49 | records are handled in order, each on its own |
| Rss.ReportEventsOne | rssScraper.js:50-59 | a record with an empty link sends nothing; any other sends one event with its title, link and time unchanged |
| Rss.SendReports | rssScraper.js:49-60 | the loop appends exactly the events of the records, in record order |
| Rss.RssTick | rssScraper.js:40-60 | a tick whose fetch fails sends nothing; otherwise it sends the events of every parsed record, with no record of earlier ticks, so the same feed sends the same events again |
| Server.Without | index.js:60 | the closed response is no longer listed, and every other listener keeps its number of occurrences |
| Server.WithoutConcat | index.js:60 | filtering keeps the relative order of the other listeners |
| Server.WithoutAbsent | index.js:60 | closing a response that is not listed leaves the list unchanged |
| Server.CloseUndoesConnect | index.js:56-60 | connecting a new response and then closing it restores the list |
| Server.ListenerHub.constructor | index.js:48 | the list starts empty |
| Server.ListenerHub.Connect | index.js:56 | the response is appended; earlier entries and their order are unchanged |
| Server.ListenerHub.Close | index.js:59-61 | the list becomes the filtered list without that response |
| Server.StaffOf | index.js:90-93 | the value of the first `staff=` field with its prefix removed; `None` exactly when no field starts with `staff=` |
| Server.Contribution | index.js:88-95 | a message counts exactly when it starts with `PUNISH|` and its staff value is non-empty; the name counted is that staff value, and it has no `|` in it |
| Server.Contributors | index.js:87-95 | only non-empty names, at most one per message |
| Server.ContributorsConcat | index.js:87 | messages are read in order, each on its own |
| Server.ContributorsOne | index.js:88-96 | a single message adds exactly its staff name when it counts, and nothing otherwise |
| Server.Occurrences | index.js:86-96 | the tally has a key exactly for each name that occurs |
| Server.TotalOccurrences | index.js:96 | the counts sum to the number of counting messages |
| Server.Tally | index.js:86-97 | the loop builds exactly the per-name occurrence counts of the counting messages |
| Server.Entries | index.js:100-101 | one entry per counted staff member, with that member's count, no member twice |
| Server.Insert | index.js:102 | inserting keeps every entry and adds the new one |
| Server.InsertSorted | index.js:102 | inserting into a ranking keeps it ordered by total, largest first |
| Server.SortByTotal | index.js:102 | the result is ordered by total, largest first, and is a permutation of the entries |
| Server.PermutationDistinct | index.js:100-102 | reordering the entries keeps the staff members distinct |
| Server.TopEntries | index.js:103 | anyone cut from the top of a ranking has a total no larger than anyone kept |
| Server.BoardFacts | index.js:99-103 | the kept entries have distinct staff members with their full counts, and outrank everyone left out |
| Server.Leaderboard | index.js:86-104 | `min(10, number of counted members)` entries, ordered by total, largest first; distinct members, each with their full count; no member left out has a larger count than a member kept |

## Left out

- The Playwright browser, its cookies, navigation, the Cloudflare wait and the DOM selectors are not modelled. `scraper/login.js` and `generate-cookies.js` are not part of this model either. The page script's result is an input sequence of rows with optional fields.
- The `fetch` of the RSS feed is not modelled: the feed text is an input, and `None` means the fetch failed.
- The Discord client and the paginated fetch of up to 1000 messages are not modelled: the message contents are an input sequence.
- The Express and server-sent-events plumbing (headers, `res.write`, JSON responses, error responses) is not modelled. No shown code writes events to the listeners.
- The endless `while (true)` loops, their 60-second sleeps and their console logging are not modelled. One tick is one method call.
- File-system failures and malformed JSON in `load` are not modelled, and neither is the `mkdirSync` before each write. A `send` that throws is not modelled either.
- `toUpperCase` on the closed status: the status is taken as already upper-cased.
- An appeal's `time` is `None` both when the row has no `<time>` element and when that element has no `datetime` attribute. The source sends `undefined` in the first case and `null` in the second; the model does not tell them apart.
- Rss.Extract: the tag name is matched literally. A name with regular-expression metacharacters would behave differently in the source; the source only uses `title`, `link` and `pubDate`.
- Server.Leaderboard: the order of `Object.entries` is an arbitrary choice, so the order among equal totals, and who is cut at tenth place among equal totals, is not specified. Keys that a JavaScript object treats specially are not modelled. Integer-like names are listed first by `Object.entries`. `__proto__` does not become an own key. A name inherited from `Object.prototype` (`constructor`, `toString`, `valueOf`, `hasOwnProperty` and the like) makes `counts[staff] || 0` read the inherited function, so that member's total becomes a string such as `"function Object() { [native code] }1"`. The comparator `b.total - a.total` then gives `NaN`, so the response need not be sorted by total. The model counts such a name like any other and proves the board sorted.
- Server.ListenerHub: the listener handles are opaque objects. A response's own state is not modelled.
