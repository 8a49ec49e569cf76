/** The HTTP side of the bot: the list of live appeal-stream listeners, and
    the leaderboard built from the punishment log messages. */
module Server {
  import opened Wrappers
  import opened Text

  // ---------------------------------------------------------------------------
  // Appeal stream listeners
  // ---------------------------------------------------------------------------

  /** `listeners.filter(r => r !== res)`: every other listener, in order. */
  function Without(listeners: seq<object>, res: object): (r: seq<object>)
    ensures res !in r
    ensures multiset(r) == multiset(listeners)[res := 0]
  {
    if listeners == [] then []
    else
      var init := listeners[..|listeners| - 1];
      var last := listeners[|listeners| - 1];
      assert listeners == init + [last];
      var prev := Without(init, res);
      if last == res then prev else prev + [last]
  }

  /** Removing one listener keeps the others in their relative order. */
  lemma {:induction false} WithoutConcat(a: seq<object>, b: seq<object>, res: object)
    ensures Without(a + b, res) == Without(a, res) + Without(b, res)
    decreases |b|
  {
    if b == [] {
      assert a + b == a;
    } else {
      assert (a + b)[..|a + b| - 1] == a + b[..|b| - 1];
      WithoutConcat(a, b[..|b| - 1], res);
    }
  }

  /** Closing a connection that is not listed changes nothing. */
  lemma {:induction false} WithoutAbsent(listeners: seq<object>, res: object)
    requires res !in listeners
    ensures Without(listeners, res) == listeners
  {
    if listeners != [] {
      var init := listeners[..|listeners| - 1];
      WithoutAbsent(init, res);
      assert listeners == init + [listeners[|listeners| - 1]];
    }
  }

  /** Closing a connection undoes its connect. */
  lemma CloseUndoesConnect(listeners: seq<object>, res: object)
    requires res !in listeners
    ensures Without(listeners + [res], res) == listeners
  {
    assert (listeners + [res])[..|listeners|] == listeners;
    WithoutAbsent(listeners, res);
  }

  /** `appealListeners`, the responses of the open `/appeals/stream` requests. */
  class ListenerHub {
    var listeners: seq<object>

    constructor ()
      ensures listeners == []
    {
      listeners := [];
    }

    /** A client connects: its response goes at the end of the list. */
    method Connect(res: object)
      modifies this
      ensures listeners == old(listeners) + [res]
    {
      listeners := listeners + [res];
    }

    /** A client's request closes: the list is replaced by the listeners
        other than its response. */
    method Close(res: object)
      modifies this
      ensures listeners == Without(old(listeners), res)
    {
      listeners := Without(listeners, res);
    }
  }

  // ---------------------------------------------------------------------------
  // Leaderboard: parsing the log messages
  // ---------------------------------------------------------------------------

  const PUNISH_PREFIX := "PUNISH|"
  const STAFF_PREFIX := "staff="
  const BOARD_SIZE := 10

  /** The staff name of a log message: the first `|`-separated field that
      starts with `staff=`, with that prefix replaced by nothing. */
  function StaffOf(content: string): (r: Option<string>)
    ensures r.None? <==> NoneBefore(Split(content, '|'), STAFF_PREFIX, |Split(content, '|')|)
    ensures r.Some? ==> exists i :: 0 <= i < |Split(content, '|')|
                          && Split(content, '|')[i] == STAFF_PREFIX + r.value
                          && NoneBefore(Split(content, '|'), STAFF_PREFIX, i)
  {
    var fields := Split(content, '|');
    match FindWithPrefix(fields, STAFF_PREFIX)
    case None => None
    case Some(f) =>
      ReplacePrefix(f, STAFF_PREFIX);
      assert f == STAFF_PREFIX + f[|STAFF_PREFIX|..];
      Some(ReplaceFirst(f, STAFF_PREFIX, ""))
  }

  /** The staff member a message counts for, if it counts: it must start with
      `PUNISH|` and name a non-empty staff member. */
  function Contribution(content: string): (r: Option<string>)
    ensures r.Some? ==> StartsWith(content, PUNISH_PREFIX) && r.value != "" && '|' !in r.value
    ensures r.Some? <==> StartsWith(content, PUNISH_PREFIX) && StaffOf(content).Some? && StaffOf(content).value != ""
    ensures r.Some? ==> r.value == StaffOf(content).value
  {
    if !StartsWith(content, PUNISH_PREFIX) then None
    else match StaffOf(content)
      case None => None
      case Some(staff) =>
        if staff == "" then None
        else
          var fields := Split(content, '|');
          var i :| 0 <= i < |fields| && fields[i] == STAFF_PREFIX + staff;
          assert forall c :: c in staff ==> c in fields[i];
          Some(staff)
  }

  /** The staff names of the counting messages, one per message, in order. */
  function Contributors(messages: seq<string>): (r: seq<string>)
    ensures |r| <= |messages|
    ensures forall n :: n in r ==> n != ""
  {
    if messages == [] then []
    else
      var prev := Contributors(messages[..|messages| - 1]);
      match Contribution(messages[|messages| - 1])
      case None => prev
      case Some(staff) => prev + [staff]
  }

  /** Messages are read in order, each on its own. */
  lemma {:induction false} ContributorsConcat(a: seq<string>, b: seq<string>)
    ensures Contributors(a + b) == Contributors(a) + Contributors(b)
    decreases |b|
  {
    if b == [] {
      assert a + b == a;
    } else {
      var init := b[..|b| - 1];
      assert (a + b)[..|a + b| - 1] == a + init;
      assert (a + b)[|a + b| - 1] == b[|b| - 1];
      ContributorsConcat(a, init);
    }
  }

  /** A single message adds its staff member's name when it counts, and
      nothing otherwise. */
  lemma ContributorsOne(m: string)
    ensures Contributors([m]) == match Contribution(m) case None => [] case Some(n) => [n]
  {
    assert [m][..0] == [];
  }

  // ---------------------------------------------------------------------------
  // Leaderboard: counting
  // ---------------------------------------------------------------------------

  /** How many times each name occurs: the tally the handler should build. */
  function Occurrences(names: seq<string>): (m: map<string, nat>)
    ensures forall n :: n in m <==> n in names
  {
    map n | n in names :: multiset(names)[n]
  }

  /** One more name adds one to its count and changes no other. */
  lemma OccurrencesSnoc(names: seq<string>, n: string)
    ensures Occurrences(names + [n])
         == Occurrences(names)[n := (if n in names then Occurrences(names)[n] else 0) + 1]
  {
    var m, m' := Occurrences(names), Occurrences(names + [n]);
    assert multiset(names + [n]) == multiset(names) + multiset{n};
    assert m'.Keys == m.Keys + {n};
    forall k | k in m' ensures m'[k] == m[n := (if n in names then m[n] else 0) + 1][k] {
      if k != n {
        assert k in names;
      }
    }
  }

  /** The sum of all counts. */
  ghost function Total(m: map<string, nat>): nat
    decreases |m|
  {
    if m == map[] then 0
    else
      var k :| k in m;
      assert |m - {k}| < |m| by {
        assert (m - {k}).Keys == m.Keys - {k};
        assert |m.Keys - {k}| == |m.Keys| - 1;
      }
      m[k] + Total(m - {k})
  }

  /** The sum does not depend on which key is taken first. */
  lemma {:induction false} TotalRemove(m: map<string, nat>, k: string)
    requires k in m
    ensures Total(m) == m[k] + Total(m - {k})
    decreases |m|
  {
    var j :| j in m && Total(m) == m[j] + Total(m - {j});
    if j != k {
      assert |m - {j}| < |m| by {
        assert (m - {j}).Keys == m.Keys - {j};
        assert |m.Keys - {j}| == |m.Keys| - 1;
      }
      assert |m - {k}| < |m| by {
        assert (m - {k}).Keys == m.Keys - {k};
        assert |m.Keys - {k}| == |m.Keys| - 1;
      }
      TotalRemove(m - {j}, k);
      TotalRemove(m - {k}, j);
      assert m - {j} - {k} == m - {k} - {j};
    }
  }

  /** Every counted name adds exactly one, so the counts sum to the number of
      counted messages. */
  lemma {:induction false} TotalOccurrences(names: seq<string>)
    ensures Total(Occurrences(names)) == |names|
  {
    if names != [] {
      var init, n := names[..|names| - 1], names[|names| - 1];
      assert names == init + [n];
      TotalOccurrences(init);
      OccurrencesSnoc(init, n);
      var m := Occurrences(init);
      var m' := Occurrences(names);
      TotalRemove(m', n);
      if n in init {
        TotalRemove(m, n);
        assert m' - {n} == m - {n};
      } else {
        assert m' - {n} == m;
      }
    }
  }

  /** The `for` loop over the fetched messages, building `counts`. */
  method Tally(messages: seq<string>) returns (counts: map<string, nat>)
    ensures counts == Occurrences(Contributors(messages))
  {
    counts := map[];
    for i := 0 to |messages|
      invariant counts == Occurrences(Contributors(messages[..i]))
    {
      assert messages[..i + 1][..i] == messages[..i];
      var content := messages[i];
      if !StartsWith(content, PUNISH_PREFIX) {
        continue;
      }
      var staff := StaffOf(content);
      if staff.None? || staff.value == "" {
        continue;
      }
      OccurrencesSnoc(Contributors(messages[..i]), staff.value);
      counts := counts[staff.value := (if staff.value in counts then counts[staff.value] else 0) + 1];
    }
    assert messages[..|messages|] == messages;
  }

  // ---------------------------------------------------------------------------
  // Leaderboard: ranking
  // ---------------------------------------------------------------------------

  /** One `{ staff, total }` object of the response. */
  datatype Entry = Entry(staff: string, total: nat)

  predicate DistinctStaff(es: seq<Entry>) {
    forall i, j :: 0 <= i < j < |es| ==> es[i].staff != es[j].staff
  }

  /** Ordered by `total`, largest first. */
  predicate SortedByTotal(es: seq<Entry>) {
    forall i, j :: 0 <= i < j < |es| ==> es[i].total >= es[j].total
  }

  function StaffNames(es: seq<Entry>): set<string> {
    set e | e in es :: e.staff
  }

  function Min(a: int, b: int): int {
    if a < b then a else b
  }

  /** `Object.entries(counts).map(([staff, total]) => ({ staff, total }))`:
      one entry per staff member with that member's count. The order in
      which JavaScript lists the keys is not modelled: any order may be taken. */
  method Entries(counts: map<string, nat>) returns (es: seq<Entry>)
    ensures |es| == |counts|
    ensures DistinctStaff(es)
    ensures forall e :: e in es ==> e.staff in counts && e.total == counts[e.staff]
    ensures forall n :: n in counts ==> Entry(n, counts[n]) in es
  {
    es := [];
    var rest := counts.Keys;
    while rest != {}
      invariant rest <= counts.Keys
      invariant |es| + |rest| == |counts|
      invariant DistinctStaff(es)
      invariant forall e :: e in es ==> e.staff in counts && e.staff !in rest && e.total == counts[e.staff]
      invariant forall n :: n in counts ==> n in rest || Entry(n, counts[n]) in es
      decreases |rest|
    {
      var k :| k in rest;
      es := es + [Entry(k, counts[k])];
      rest := rest - {k};
    }
  }

  /** One step of a stable insertion sort by `total`, largest first: the new
      entry goes before the first entry whose total is not larger than its own. */
  function Insert(e: Entry, es: seq<Entry>): (r: seq<Entry>)
    ensures multiset(r) == multiset(es) + multiset{e}
  {
    if es == [] || e.total >= es[0].total then [e] + es
    else
      assert es == [es[0]] + es[1..];
      [es[0]] + Insert(e, es[1..])
  }

  /** Inserting into an ordered ranking keeps it ordered. */
  lemma {:induction false} InsertSorted(e: Entry, es: seq<Entry>)
    requires SortedByTotal(es)
    ensures SortedByTotal(Insert(e, es))
  {
    if es != [] && e.total < es[0].total {
      InsertSorted(e, es[1..]);
      var rest := Insert(e, es[1..]);
      forall x | x in rest ensures x.total <= es[0].total {
        assert x in multiset(es[1..]) + multiset{e};
      }
    }
  }

  /** `.sort((a, b) => b.total - a.total)`: a stable sort, largest total first.
      The result is ordered and is a permutation of the input. */
  function SortByTotal(es: seq<Entry>): (r: seq<Entry>)
    ensures SortedByTotal(r)
    ensures multiset(r) == multiset(es)
  {
    if es == [] then []
    else
      assert es == [es[0]] + es[1..];
      InsertSorted(es[0], SortByTotal(es[1..]));
      Insert(es[0], SortByTotal(es[1..]))
  }

  /** An element listed twice is counted twice. */
  lemma Twice(s: seq<Entry>, i: nat, j: nat)
    requires i < j < |s| && s[i] == s[j]
    ensures multiset(s)[s[i]] >= 2
  {
    assert s == s[..j] + [s[j]] + s[j + 1..];
    assert s[i] in s[..j];
  }

  /** In a list of distinct staff members each entry is listed once. */
  lemma Once(es: seq<Entry>, x: Entry)
    requires DistinctStaff(es) && x in es
    ensures multiset(es)[x] == 1
  {
    var k :| 0 <= k < |es| && es[k] == x;
    assert es == es[..k] + [es[k]] + es[k + 1..];
    assert x !in es[..k] && x !in es[k + 1..];
  }

  /** Reordering entries that each carry their staff member's count keeps
      the staff members distinct. */
  lemma PermutationDistinct(es: seq<Entry>, ranked: seq<Entry>, counts: map<string, nat>)
    requires DistinctStaff(es) && multiset(ranked) == multiset(es)
    requires forall e :: e in es ==> e.staff in counts && e.total == counts[e.staff]
    ensures DistinctStaff(ranked)
  {
    forall i, j | 0 <= i < j < |ranked| ensures ranked[i].staff != ranked[j].staff {
      assert ranked[i] in multiset(es) && ranked[j] in multiset(es);
      Once(es, ranked[i]);
      if ranked[i] == ranked[j] {
        Twice(ranked, i, j);
      }
    }
  }

  /** Only the first entries of a ranking are kept: whoever is left out has a
      total no larger than anyone kept. */
  lemma TopEntries(ranked: seq<Entry>, k: nat, x: Entry)
    requires SortedByTotal(ranked) && k <= |ranked| && x in ranked
    requires x.staff !in StaffNames(ranked[..k])
    ensures forall e :: e in ranked[..k] ==> x.total <= e.total
  {
    var j :| 0 <= j < |ranked| && ranked[j] == x;
    forall e | e in ranked[..k] ensures x.total <= e.total {
      var i :| 0 <= i < k && ranked[..k][i] == e;
    }
  }

  /** The first `k` entries of a ranking of `counts` carry distinct staff
      members with their counts, and outrank everyone left out. */
  lemma BoardFacts(counts: map<string, nat>, entries: seq<Entry>, ranked: seq<Entry>, k: nat)
    requires DistinctStaff(entries)
    requires forall e :: e in entries ==> e.staff in counts && e.total == counts[e.staff]
    requires forall n :: n in counts ==> Entry(n, counts[n]) in entries
    requires SortedByTotal(ranked) && multiset(ranked) == multiset(entries) && k <= |ranked|
    ensures DistinctStaff(ranked[..k])
    ensures forall e :: e in ranked[..k] ==> e.staff in counts && e.total == counts[e.staff]
    ensures forall n :: n in counts && n !in StaffNames(ranked[..k]) ==>
              forall e :: e in ranked[..k] ==> counts[n] <= e.total
  {
    PermutationDistinct(entries, ranked, counts);
    forall e | e in ranked[..k] ensures e.staff in counts && e.total == counts[e.staff] {
      assert e in multiset(entries);
    }
    forall n | n in counts && n !in StaffNames(ranked[..k])
      ensures forall e :: e in ranked[..k] ==> counts[n] <= e.total
    {
      assert Entry(n, counts[n]) in multiset(ranked);
      TopEntries(ranked, k, Entry(n, counts[n]));
    }
  }

  /** The `/leaderboard` response for the fetched message contents: the ten
      staff members with the most counted messages (fewer if fewer are
      counted), each with their full count, largest first. Among equal
      totals the order, and who is cut at the tenth place, is not specified. */
  method Leaderboard(messages: seq<string>) returns (board: seq<Entry>)
    ensures var counts := Occurrences(Contributors(messages));
      && |board| == Min(BOARD_SIZE, |counts|)
      && SortedByTotal(board)
      && DistinctStaff(board)
      && (forall e :: e in board ==> e.staff in counts && e.total == counts[e.staff])
      && (forall n :: n in counts && n !in StaffNames(board) ==>
            forall e :: e in board ==> counts[n] <= e.total)
  {
    var counts := Tally(messages);
    var entries := Entries(counts);
    var ranked := SortByTotal(entries);
    assert |ranked| == |multiset(ranked)| == |multiset(entries)| == |entries|;
    board := ranked[..Min(BOARD_SIZE, |ranked|)];
    BoardFacts(counts, entries, ranked, |board|);
  }
}
