/** `EmailTools.search` and `EmailTools.list_messages` of
    Workflow/scripts/email-tools.py over an abstract mail store: one scan
    over the keys, every filter that is given applied to each record,
    messages that raise skipped, an early stop at `limit`, and a final
    newest-first sort. */
module EmailSearch {
  import opened Wrappers
  import opened EmailMetadata
  import opened EmailFilters
  import opened TimeOrder

  /** What one visit of the scan yields: the record of a message that can
      be read, nothing for one that raises. */
  function Visit(msg: StoredMessage, parseDate: string -> Option<int>): Option<Metadata>
  {
    match msg
    case Readable(key, h) => Some(Extract(key, h, parseDate))
    case Unreadable(_) => None
  }

  /** What the scan sees, message by message. */
  function Scanned(store: seq<StoredMessage>, parseDate: string -> Option<int>): (r: seq<Option<Metadata>>)
    ensures |r| == |store|
  {
    if store == [] then [] else Scanned(store[..|store| - 1], parseDate) + [Visit(store[|store| - 1], parseDate)]
  }

  lemma {:induction false} ScannedAt(store: seq<StoredMessage>, k: int, parseDate: string -> Option<int>)
    requires 0 <= k < |store|
    ensures Scanned(store, parseDate)[k] == Visit(store[k], parseDate)
    decreases |store|
  {
    var front := store[..|store| - 1];
    if k < |front| {
      ScannedAt(front, k, parseDate);
      assert front[k] == store[k];
    }
  }

  lemma {:induction false} ScannedAppend(a: seq<StoredMessage>, b: seq<StoredMessage>, parseDate: string -> Option<int>)
    ensures Scanned(a + b, parseDate) == Scanned(a, parseDate) + Scanned(b, parseDate)
    decreases |b|
  {
    if b == [] {
      assert a + b == a;
    } else {
      var front := b[..|b| - 1];
      ScannedAppend(a, front, parseDate);
      assert (a + b)[..|a + b| - 1] == a + front;
      assert (a + b)[|a + b| - 1] == b[|b| - 1];
    }
  }

  /** The records among `records` that pass the filters, in scan order. */
  function Matching(records: seq<Option<Metadata>>, c: Criteria, cutoff: int): seq<Metadata>
  {
    if records == [] then []
    else
      var prior := Matching(records[..|records| - 1], c, cutoff);
      match records[|records| - 1]
      case Some(m) => if Matches(m, c, cutoff) then prior + [m] else prior
      case None => prior
  }

  /** Scanning two stretches one after the other finds the matches of the
      first, then those of the second. */
  lemma {:induction false} MatchingAppend(a: seq<Option<Metadata>>, b: seq<Option<Metadata>>, c: Criteria, cutoff: int)
    ensures Matching(a + b, c, cutoff) == Matching(a, c, cutoff) + Matching(b, c, cutoff)
    decreases |b|
  {
    if b == [] {
      assert a + b == a;
    } else {
      var front := b[..|b| - 1];
      MatchingAppend(a, front, c, cutoff);
      assert (a + b)[..|a + b| - 1] == a + front;
      assert (a + b)[|a + b| - 1] == b[|b| - 1];
    }
  }

  /** A record is among the matches exactly when it was seen and passes
      the filters. */
  lemma {:induction false} MatchingIff(records: seq<Option<Metadata>>, c: Criteria, cutoff: int, m: Metadata)
    ensures m in Matching(records, c, cutoff) <==> Matches(m, c, cutoff) && Some(m) in records
  {
    if records != [] {
      var front := records[..|records| - 1];
      MatchingIff(front, c, cutoff, m);
      assert records == front + [records[|records| - 1]];
    }
  }

  /** The matches of the whole store. */
  function StoreMatches(store: seq<StoredMessage>, c: Criteria, cutoff: int, parseDate: string -> Option<int>): seq<Metadata>
  {
    Matching(Scanned(store, parseDate), c, cutoff)
  }

  /** A record is a match of the store exactly when some message yields it
      and it passes every filter that is given. */
  lemma {:induction false} StoreMatchesIff(store: seq<StoredMessage>, c: Criteria, cutoff: int, parseDate: string -> Option<int>, m: Metadata)
    ensures m in StoreMatches(store, c, cutoff, parseDate) <==>
      Matches(m, c, cutoff) && exists k :: 0 <= k < |store| && Visit(store[k], parseDate) == Some(m)
  {
    var records := Scanned(store, parseDate);
    MatchingIff(records, c, cutoff, m);
    if Some(m) in records {
      var k :| 0 <= k < |records| && records[k] == Some(m);
      ScannedAt(store, k, parseDate);
    }
    if exists k :: 0 <= k < |store| && Visit(store[k], parseDate) == Some(m) {
      var k :| 0 <= k < |store| && Visit(store[k], parseDate) == Some(m);
      ScannedAt(store, k, parseDate);
    }
  }

  /** How many records the loop holds when it breaks: `limit` for a
      positive limit, and one for a negative limit, since any length is at
      least a negative number. */
  function Cap(limit: int): nat
  {
    if limit > 0 then limit else 1
  }

  /** What the loop collects from all the matches before it stops: all of
      them without a limit, else the first `Cap(limit)`. */
  function Collected(all: seq<Metadata>, limit: int): (r: seq<Metadata>)
    ensures limit != 0 ==> |r| <= Cap(limit)
    ensures r <= all
  {
    if limit == 0 || |all| <= Cap(limit) then all else all[..Cap(limit)]
  }

  /** The cutoff the `since` window gives: none (0) when it is not given. */
  function Cutoff(c: Criteria, clock: Clock, parseIso: string -> Option<int>): Result<int, SinceError>
  {
    if c.since == "" then Success(0) else ParseSince(c.since, clock, parseIso)
  }

  /** What `search` returns, or the error it raises for a bad window. */
  function SearchResult(store: seq<StoredMessage>, c: Criteria, clock: Clock, dates: DateParsers): Result<seq<Metadata>, SinceError>
  {
    match Cutoff(c, clock, dates.iso)
    case Failure(e) => Failure(e)
    case Success(cutoff) => Success(NewestFirst(Collected(StoreMatches(store, c, cutoff, dates.rfc5322), c.limit)))
  }

  /** Once the loop holds `Cap(limit)` records after visiting the first `j`
      messages, those records are what it collects from the whole store. */
  lemma {:induction false} CollectedAtBreak(records: seq<Option<Metadata>>, j: int, c: Criteria, cutoff: int)
    requires 0 <= j <= |records| && c.limit != 0
    requires |Matching(records[..j], c, cutoff)| == Cap(c.limit)
    ensures Collected(Matching(records, c, cutoff), c.limit) == Matching(records[..j], c, cutoff)
  {
    assert records == records[..j] + records[j..];
    MatchingAppend(records[..j], records[j..], c, cutoff);
  }

  lemma {:induction false} MatchingStep(records: seq<Option<Metadata>>, i: int, c: Criteria, cutoff: int)
    requires 0 <= i < |records|
    ensures Matching(records[..i + 1], c, cutoff) ==
      Matching(records[..i], c, cutoff) +
      (if records[i].Some? && Matches(records[i].value, c, cutoff) then [records[i].value] else [])
  {
    assert records[..i + 1][..i] == records[..i];
  }

  /** The loop of `search`: visit the messages in key order, keep the
      records that pass the filters, and stop once `limit` is reached. */
  method CollectMatches(store: seq<StoredMessage>, c: Criteria, cutoff: int, parseDate: string -> Option<int>)
    returns (results: seq<Metadata>)
    ensures results == Collected(StoreMatches(store, c, cutoff, parseDate), c.limit)
  {
    results := [];
    ghost var records := Scanned(store, parseDate);
    var i := 0;
    while i < |store|
      invariant 0 <= i <= |store|
      invariant results == Matching(records[..i], c, cutoff)
      invariant c.limit != 0 ==> |results| < Cap(c.limit)
    {
      MatchingStep(records, i, c, cutoff);
      ScannedAt(store, i, parseDate);
      var visited := Visit(store[i], parseDate);
      if visited.Some? && Matches(visited.value, c, cutoff) {
        results := results + [visited.value];
        if c.limit != 0 && |results| >= c.limit {
          CollectedAtBreak(records, i + 1, c, cutoff);
          break;
        }
      }
      i := i + 1;
    }
    assert records[..|store|] == records;
  }

  /** `EmailTools.search(...)`: the window is read first (a bad one raises
      before any message is visited), then the matches are collected and
      sorted newest first. */
  method Search(store: seq<StoredMessage>, c: Criteria, clock: Clock, dates: DateParsers)
    returns (r: Result<seq<Metadata>, SinceError>)
    ensures r == SearchResult(store, c, clock, dates)
  {
    var window := Cutoff(c, clock, dates.iso);
    if window.Failure? {
      return Failure(window.error);
    }
    var results := CollectMatches(store, c, window.value, dates.rfc5322);
    r := Success(NewestFirst(results));
  }

  /** `EmailTools.list_messages(event_type, limit)`: a search with only
      those two filters, which cannot raise. */
  method ListMessages(store: seq<StoredMessage>, eventType: string, limit: int, dates: DateParsers)
    returns (r: seq<Metadata>)
    ensures forall clock :: SearchResult(store, ListCriteria(eventType, limit), clock, dates) == Success(r)
  {
    var found := Search(store, ListCriteria(eventType, limit), Clock(0, s => s), dates);
    r := found.value;
  }

  function ListCriteria(eventType: string, limit: int): Criteria
  {
    Criteria(eventType, "", "", "", "", "", limit)
  }

  // ---------------------------------------------------------- properties

  /** Every record `search` returns passes each filter that is given, and
      comes from a message of the store. */
  lemma {:induction false} SearchResultsMatch(store: seq<StoredMessage>, c: Criteria, clock: Clock, dates: DateParsers, m: Metadata)
    requires SearchResult(store, c, clock, dates).Success?
    requires m in SearchResult(store, c, clock, dates).value
    ensures Matches(m, c, Cutoff(c, clock, dates.iso).value)
    ensures exists k :: 0 <= k < |store| && Visit(store[k], dates.rfc5322) == Some(m)
  {
    var cutoff := Cutoff(c, clock, dates.iso).value;
    var all := StoreMatches(store, c, cutoff, dates.rfc5322);
    var kept := Collected(all, c.limit);
    assert m in multiset(NewestFirst(kept));
    assert m in kept;
    var j :| 0 <= j < |kept| && kept[j] == m;
    assert all[j] == m;
    StoreMatchesIff(store, c, cutoff, dates.rfc5322, m);
  }

  /** The results come out newest first, and records with equal
      timestamps keep the order in which the scan found them. */
  lemma {:induction false} SearchNewestFirst(store: seq<StoredMessage>, c: Criteria, clock: Clock, dates: DateParsers, t: int)
    requires SearchResult(store, c, clock, dates).Success?
    ensures Ordered(SearchResult(store, c, clock, dates).value, true)
    ensures var cutoff := Cutoff(c, clock, dates.iso).value;
      WithTimestamp(SearchResult(store, c, clock, dates).value, t)
        == WithTimestamp(Collected(StoreMatches(store, c, cutoff, dates.rfc5322), c.limit), t)
  {
    var cutoff := Cutoff(c, clock, dates.iso).value;
    SortStable(Collected(StoreMatches(store, c, cutoff, dates.rfc5322), c.limit), true, t);
  }

  /** A positive limit bounds the number of results; a negative one lets
      only the first match through. */
  lemma {:induction false} SearchLimit(store: seq<StoredMessage>, c: Criteria, clock: Clock, dates: DateParsers)
    requires SearchResult(store, c, clock, dates).Success?
    ensures c.limit > 0 ==> |SearchResult(store, c, clock, dates).value| <= c.limit
    ensures c.limit < 0 ==> |SearchResult(store, c, clock, dates).value| <= 1
  {
  }

  /** Without a limit `search` returns exactly the matching messages. */
  lemma {:induction false} SearchWithoutLimit(store: seq<StoredMessage>, c: Criteria, clock: Clock, dates: DateParsers)
    requires SearchResult(store, c, clock, dates).Success? && c.limit == 0
    ensures var cutoff := Cutoff(c, clock, dates.iso).value;
      multiset(SearchResult(store, c, clock, dates).value) == multiset(StoreMatches(store, c, cutoff, dates.rfc5322))
  {
  }

  /** With a limit, the results are the first matches in key order (the
      loop stops before the sort), not the most recent ones. */
  lemma {:induction false} SearchFirstMatches(store: seq<StoredMessage>, c: Criteria, clock: Clock, dates: DateParsers)
    requires SearchResult(store, c, clock, dates).Success? && c.limit != 0
    ensures var all := StoreMatches(store, c, Cutoff(c, clock, dates.iso).value, dates.rfc5322);
      var n := if |all| <= Cap(c.limit) then |all| else Cap(c.limit);
      multiset(SearchResult(store, c, clock, dates).value) == multiset(all[..n])
  {
    var all := StoreMatches(store, c, Cutoff(c, clock, dates.iso).value, dates.rfc5322);
    assert all[..|all|] == all;
  }

  /** A message whose reading raises is skipped, and nothing else about
      the results changes. */
  lemma {:induction false} SearchSkipsUnreadable(a: seq<StoredMessage>, b: seq<StoredMessage>, key: string, c: Criteria, clock: Clock, dates: DateParsers)
    ensures SearchResult(a + [Unreadable(key)] + b, c, clock, dates) == SearchResult(a + b, c, clock, dates)
  {
    forall cutoff: int
      ensures StoreMatches(a + [Unreadable(key)] + b, c, cutoff, dates.rfc5322) == StoreMatches(a + b, c, cutoff, dates.rfc5322)
    {
      StoreMatchesSkip(a, b, key, c, cutoff, dates.rfc5322);
    }
  }

  lemma {:induction false} StoreMatchesSkip(a: seq<StoredMessage>, b: seq<StoredMessage>, key: string, c: Criteria, cutoff: int, pd: string -> Option<int>)
    ensures StoreMatches(a + [Unreadable(key)] + b, c, cutoff, pd) == StoreMatches(a + b, c, cutoff, pd)
  {
    var skipped := [Unreadable(key)];
    assert Scanned(skipped, pd) == [None] by {
      assert skipped[..0] == [];
    }
    ScannedAppend(a, skipped, pd);
    ScannedAppend(a + skipped, b, pd);
    ScannedAppend(a, b, pd);
    MatchingSkipsGap(Scanned(a, pd), Scanned(b, pd), c, cutoff);
  }

  lemma {:induction false} MatchingSkipsGap(ra: seq<Option<Metadata>>, rb: seq<Option<Metadata>>, c: Criteria, cutoff: int)
    ensures Matching(ra + [None] + rb, c, cutoff) == Matching(ra + rb, c, cutoff)
  {
    var gap: seq<Option<Metadata>> := [None];
    MatchingAppend(ra + gap, rb, c, cutoff);
    MatchingAppend(ra, gap, c, cutoff);
    MatchingAppend(ra, rb, c, cutoff);
    assert gap[..0] == [];
  }

  lemma {:induction false} FirstOfTwo(x: Metadata, y: Metadata, c: Criteria, cutoff: int)
    requires Matches(x, c, cutoff) && Matches(y, c, cutoff)
    ensures Collected(Matching([Some(x), Some(y)], c, cutoff), 1) == [x]
  {
    var records := [Some(x), Some(y)];
    assert records[..1] == [Some(x)];
    assert records[..1][..0] == [];
    assert Matching(records[..1], c, cutoff) == [x];
  }

  lemma {:induction false} ScannedTwo(first: StoredMessage, second: StoredMessage, pd: string -> Option<int>)
    ensures Scanned([first, second], pd) == [Visit(first, pd), Visit(second, pd)]
  {
    ScannedAt([first, second], 0, pd);
    ScannedAt([first, second], 1, pd);
  }

  /** With a limit of one, the first match in key order is returned even
      when a later message is more recent. */
  lemma {:induction false} LimitKeepsFirstNotNewest(older: StoredMessage, newer: StoredMessage, c: Criteria, clock: Clock, dates: DateParsers)
    requires c.limit == 1 && c.since == ""
    requires Visit(older, dates.rfc5322).Some? && Matches(Visit(older, dates.rfc5322).value, c, 0)
    requires Visit(newer, dates.rfc5322).Some? && Matches(Visit(newer, dates.rfc5322).value, c, 0)
    requires Visit(older, dates.rfc5322).value.timestamp < Visit(newer, dates.rfc5322).value.timestamp
    ensures SearchResult([older, newer], c, clock, dates) == Success([Visit(older, dates.rfc5322).value])
  {
    var pd := dates.rfc5322;
    var x := Visit(older, pd).value;
    var y := Visit(newer, pd).value;
    ScannedTwo(older, newer, pd);
    assert Scanned([older, newer], pd) == [Some(x), Some(y)];
    FirstOfTwo(x, y, c, 0);
    assert NewestFirst([x]) == [x];
  }
}
