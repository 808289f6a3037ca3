/** `EmailTools.get_thread` of Workflow/scripts/email-tools.py over an
    abstract mail store: one pass over the keys that grows a set of known
    message identifiers, collects every message whose own identifier,
    `In-Reply-To:` or `References:` meets that set, and finally sorts the
    collected records oldest first. */
module EmailThread {
  import opened Wrappers
  import opened Text
  import opened EmailMetadata
  import opened TimeOrder

  /** The three linking headers of one message, each read as `get_thread`
      reads it: stripped, and `References:` split on whitespace. */
  datatype Links = Links(messageId: string, inReplyTo: string, references: seq<string>)

  function LinksOf(h: Headers): (l: Links)
    ensures forall i :: 0 <= i < |l.references| ==> IsWord(l.references[i])
  {
    Links(Field(h, "Message-ID"), Field(h, "In-Reply-To"), References(h))
  }

  /** No reference is the empty string, as `split()` never yields one. */
  ghost predicate NoEmptyReference(l: Links)
  {
    forall i :: 0 <= i < |l.references| ==> l.references[i] != ""
  }

  /** What the pass learns from one message: its links, and the metadata
      record it would collect; nothing when the message raises. */
  datatype Entry = Entry(links: Links, record: Metadata)

  function EntryOf(msg: StoredMessage, parseDate: string -> Option<int>): (e: Option<Entry>)
    ensures e.Some? ==> NoEmptyReference(e.value.links)
  {
    match msg
    case Readable(key, h) => Some(Entry(LinksOf(h), Extract(key, h, parseDate)))
    case Unreadable(_) => None
  }

  /** The pass's view of the store, key by key. */
  function Entries(store: seq<StoredMessage>, parseDate: string -> Option<int>): (r: seq<Option<Entry>>)
  {
    seq(|store|, k requires 0 <= k < |store| => EntryOf(store[k], parseDate))
  }

  /** The membership test of the pass: the message's identifier, its
      `In-Reply-To:` or one of its references is already known. An empty
      identifier is tested like any other. */
  predicate Linked(l: Links, known: set<string>)
  {
    l.messageId in known || l.inReplyTo in known ||
    exists i :: 0 <= i < |l.references| && l.references[i] in known
  }

  /** The known set after a message joins: its non-empty identifier, its
      non-empty `In-Reply-To:` and all its references are added. */
  function Absorb(l: Links, known: set<string>): (r: set<string>)
    ensures forall x :: x in r <==>
      x in known || (x != "" && (x == l.messageId || x == l.inReplyTo)) || x in l.references
  {
    var withId := if l.messageId != "" then known + {l.messageId} else known;
    var withParent := if l.inReplyTo != "" then withId + {l.inReplyTo} else withId;
    withParent + set i | 0 <= i < |l.references| :: l.references[i]
  }

  /** The collected records and the known identifiers, part way through. */
  datatype ThreadState = ThreadState(thread: seq<Metadata>, known: set<string>)

  /** One visit of the pass. */
  function Step(st: ThreadState, e: Option<Entry>): ThreadState
  {
    match e
    case None => st
    case Some(x) =>
      if Linked(x.links, st.known) then ThreadState(st.thread + [x.record], Absorb(x.links, st.known))
      else st
  }

  /** The pass over `entries`, starting from the seed identifier alone. */
  function Walk(entries: seq<Option<Entry>>, seed: string): ThreadState
  {
    if entries == [] then ThreadState([], {seed})
    else Step(Walk(entries[..|entries| - 1], seed), entries[|entries| - 1])
  }

  /** The whole of `get_thread`: the pass, then a stable sort oldest first. */
  function ThreadResult(store: seq<StoredMessage>, seed: string, parseDate: string -> Option<int>): seq<Metadata>
  {
    OldestFirst(Walk(Entries(store, parseDate), seed).thread)
  }

  /** `EmailTools.get_thread(message_id)`. */
  method GetThread(store: seq<StoredMessage>, messageId: string, parseDate: string -> Option<int>)
    returns (r: seq<Metadata>)
    ensures r == ThreadResult(store, messageId, parseDate)
    ensures Ordered(r, false)
    ensures multiset(r) == multiset(Walk(Entries(store, parseDate), messageId).thread)
  {
    ghost var entries := Entries(store, parseDate);
    var thread: seq<Metadata> := [];
    var known := {messageId};
    for i := 0 to |store|
      invariant ThreadState(thread, known) == Walk(entries[..i], messageId)
    {
      assert entries[..i + 1][..i] == entries[..i];
      match store[i]
      case Readable(key, h) =>
        var links := LinksOf(h);
        if Linked(links, known) {
          thread := thread + [Extract(key, h, parseDate)];
          known := Absorb(links, known);
        }
      case Unreadable(_) =>
    }
    assert entries[..|store|] == entries;
    r := SortBy(thread, false);
  }

  // ---------------------------------------------------------- properties

  /** The entry at `k` joined: it could be read and was linked to the
      identifiers known when the pass reached it. */
  ghost predicate Joins(entries: seq<Option<Entry>>, k: int, seed: string)
  {
    0 <= k < |entries| && entries[k].Some? && Linked(entries[k].value.links, Walk(entries[..k], seed).known)
  }

  /** The known set only grows along the pass. */
  lemma {:induction false} KnownGrows(entries: seq<Option<Entry>>, k: nat, seed: string)
    requires k <= |entries|
    ensures Walk(entries[..k], seed).known <= Walk(entries, seed).known
    decreases |entries|
  {
    if k == |entries| {
      assert entries[..k] == entries;
    } else {
      var front := entries[..|entries| - 1];
      KnownGrows(front, k, seed);
      assert front[..k] == entries[..k];
    }
  }

  /** The seed identifier stays known throughout. */
  lemma {:induction false} SeedStaysKnown(entries: seq<Option<Entry>>, seed: string)
    ensures seed in Walk(entries, seed).known
  {
    KnownGrows(entries, 0, seed);
    assert entries[..0] == [];
  }

  lemma {:induction false} JoinsOfFront(entries: seq<Option<Entry>>, k: int, seed: string)
    requires 0 <= k < |entries| - 1
    ensures Joins(entries[..|entries| - 1], k, seed) == Joins(entries, k, seed)
  {
    var front := entries[..|entries| - 1];
    assert front[..k] == entries[..k];
    assert front[k] == entries[k];
  }

  /** A record is collected exactly when its message joined the thread at
      the moment the pass visited it. */
  lemma {:induction false} WalkMembers(entries: seq<Option<Entry>>, seed: string, m: Metadata)
    ensures m in Walk(entries, seed).thread <==>
      exists k :: Joins(entries, k, seed) && entries[k].value.record == m
    decreases |entries|
  {
    if entries != [] {
      var n := |entries| - 1;
      var front := entries[..n];
      WalkMembers(front, seed, m);
      forall k | 0 <= k < n
        ensures Joins(front, k, seed) == Joins(entries, k, seed)
      {
        JoinsOfFront(entries, k, seed);
      }
      assert entries[..n] == front;
    }
  }

  /** The records `get_thread` returns are exactly those of the messages
      that joined when visited. */
  lemma {:induction false} ThreadMembers(store: seq<StoredMessage>, seed: string, parseDate: string -> Option<int>, m: Metadata)
    ensures m in ThreadResult(store, seed, parseDate) <==>
      exists k :: Joins(Entries(store, parseDate), k, seed) && Entries(store, parseDate)[k].value.record == m
  {
    var entries := Entries(store, parseDate);
    WalkMembers(entries, seed, m);
    assert m in ThreadResult(store, seed, parseDate) <==> m in multiset(Walk(entries, seed).thread);
  }

  /** A readable message whose own identifier is the seed always joins. */
  lemma {:induction false} SeedMessageJoins(entries: seq<Option<Entry>>, seed: string, k: int)
    requires 0 <= k < |entries| && entries[k].Some? && entries[k].value.links.messageId == seed
    ensures entries[k].value.record in Walk(entries, seed).thread
  {
    SeedStaysKnown(entries[..k], seed);
    assert Joins(entries, k, seed);
    WalkMembers(entries, seed, entries[k].value.record);
  }

  /** The empty identifier becomes known only when it is the seed: the
      pass adds only non-empty identifiers. (With an empty seed, every
      message without a `Message-ID:` joins, and so does every message
      without an `In-Reply-To:`.) */
  lemma {:induction false} EmptyIdOnlyFromSeed(entries: seq<Option<Entry>>, seed: string)
    requires forall k :: 0 <= k < |entries| && entries[k].Some? ==> NoEmptyReference(entries[k].value.links)
    ensures "" in Walk(entries, seed).known <==> seed == ""
    decreases |entries|
  {
    if entries == [] {
    } else {
      var front := entries[..|entries| - 1];
      EmptyIdOnlyFromSeed(front, seed);
      SeedStaysKnown(entries, seed);
    }
  }

  /** The pass is not a fixpoint: with the seed "a", a message "c" that
      replies to "b", visited before "b" (which replies to "a"), is missed,
      although "b" joins afterwards and would link it. */
  lemma {:induction false} SinglePassMisses(a: Metadata, b: Metadata, c: Metadata)
    ensures var entries := [Some(Entry(Links("c", "b", []), c)),
                            Some(Entry(Links("b", "a", []), b)),
                            Some(Entry(Links("a", "", []), a))];
      var done := Walk(entries, "a");
      done.thread == [b, a] && Linked(entries[0].value.links, done.known)
  {
    var entries := [Some(Entry(Links("c", "b", []), c)),
                    Some(Entry(Links("b", "a", []), b)),
                    Some(Entry(Links("a", "", []), a))];
    assert entries[..2][..1] == entries[..1];
    assert entries[..1][..0] == [];
    assert Walk(entries[..0], "a") == ThreadState([], {"a"});
    assert !Linked(Links("c", "b", []), {"a"}) by {
      assert "c" != "a" && "b" != "a";
    }
    var first := Walk(entries[..1], "a");
    assert first == ThreadState([], {"a"});
    assert Absorb(Links("b", "a", []), {"a"}) == {"a", "b"};
    var second := Walk(entries[..2], "a");
    assert second == ThreadState([b], {"a", "b"});
    assert Linked(Links("a", "", []), {"a", "b"});
    assert Walk(entries, "a").known == {"a", "b"};
  }
}
