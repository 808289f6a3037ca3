/** Python's `list.sort(key=lambda x: x['timestamp'])`, with and without
    `reverse=True`, as used by `search` (newest first) and `get_thread`
    (oldest first) in Workflow/scripts/email-tools.py. The sort is stable
    in both directions: records with equal timestamps keep their order. */
module TimeOrder {
  import opened EmailMetadata

  /** The sort key: the timestamp, negated when the newest come first. */
  function Key(m: Metadata, newestFirst: bool): int
  {
    if newestFirst then -m.timestamp else m.timestamp
  }

  /** Each record's key is at most the next one's. */
  ghost predicate Ordered(s: seq<Metadata>, newestFirst: bool)
  {
    forall i :: 0 < i < |s| ==> Key(s[i - 1], newestFirst) <= Key(s[i], newestFirst)
  }

  /** In an ordered sequence every earlier key is at most every later one. */
  lemma {:induction false} OrderedPairwise(s: seq<Metadata>, newestFirst: bool, i: int, j: int)
    requires Ordered(s, newestFirst) && 0 <= i <= j < |s|
    ensures Key(s[i], newestFirst) <= Key(s[j], newestFirst)
    decreases j - i
  {
    if i < j {
      OrderedPairwise(s, newestFirst, i, j - 1);
    }
  }

  /** Puts `x` in front of the first record whose key is not smaller. */
  function Insert(x: Metadata, s: seq<Metadata>, newestFirst: bool): seq<Metadata>
  {
    if s == [] || Key(x, newestFirst) <= Key(s[0], newestFirst) then [x] + s
    else [s[0]] + Insert(x, s[1..], newestFirst)
  }

  lemma {:induction false} InsertPermutes(x: Metadata, s: seq<Metadata>, newestFirst: bool)
    ensures multiset(Insert(x, s, newestFirst)) == multiset{x} + multiset(s)
    ensures |Insert(x, s, newestFirst)| == |s| + 1
  {
    if !(s == [] || Key(x, newestFirst) <= Key(s[0], newestFirst)) {
      InsertPermutes(x, s[1..], newestFirst);
      assert s == [s[0]] + s[1..];
    }
  }

  lemma {:induction false} InsertOrdered(x: Metadata, s: seq<Metadata>, newestFirst: bool)
    requires Ordered(s, newestFirst)
    ensures Ordered(Insert(x, s, newestFirst), newestFirst)
    ensures Insert(x, s, newestFirst)[0] == x || (s != [] && Insert(x, s, newestFirst)[0] == s[0])
  {
    if !(s == [] || Key(x, newestFirst) <= Key(s[0], newestFirst)) {
      var tail := s[1..];
      assert Ordered(tail, newestFirst) by {
        forall i | 0 < i < |tail|
          ensures Key(tail[i - 1], newestFirst) <= Key(tail[i], newestFirst)
        {
          assert tail[i - 1] == s[i] && tail[i] == s[i + 1];
        }
      }
      InsertOrdered(x, tail, newestFirst);
      assert tail != [] ==> tail[0] == s[1];
    }
  }

  /** The sorted sequence: ordered by key and a permutation of the input. */
  function SortBy(s: seq<Metadata>, newestFirst: bool): (r: seq<Metadata>)
    ensures Ordered(r, newestFirst)
    ensures multiset(r) == multiset(s)
    ensures |r| == |s|
  {
    if s == [] then []
    else
      var sorted := SortBy(s[1..], newestFirst);
      InsertOrdered(s[0], sorted, newestFirst);
      InsertPermutes(s[0], sorted, newestFirst);
      assert s == [s[0]] + s[1..];
      Insert(s[0], sorted, newestFirst)
  }

  /** `results.sort(key=..., reverse=True)`. */
  function NewestFirst(s: seq<Metadata>): seq<Metadata>
  {
    SortBy(s, true)
  }

  /** `thread_messages.sort(key=...)`. */
  function OldestFirst(s: seq<Metadata>): seq<Metadata>
  {
    SortBy(s, false)
  }

  /** The records of `s` with timestamp `t`, in order. */
  function WithTimestamp(s: seq<Metadata>, t: int): seq<Metadata>
  {
    if s == [] then []
    else (if s[0].timestamp == t then [s[0]] else []) + WithTimestamp(s[1..], t)
  }

  lemma {:induction false} InsertStable(x: Metadata, s: seq<Metadata>, newestFirst: bool, t: int)
    ensures WithTimestamp(Insert(x, s, newestFirst), t)
      == (if x.timestamp == t then [x] else []) + WithTimestamp(s, t)
  {
    if s == [] || Key(x, newestFirst) <= Key(s[0], newestFirst) {
      assert ([x] + s)[1..] == s;
    } else {
      var rest := Insert(x, s[1..], newestFirst);
      InsertStable(x, s[1..], newestFirst, t);
      assert ([s[0]] + rest)[1..] == rest;
      assert s[0].timestamp != x.timestamp;
    }
  }

  /** Stability: for every timestamp, the records carrying it come out of
      the sort in the order they went in. */
  lemma {:induction false} SortStable(s: seq<Metadata>, newestFirst: bool, t: int)
    ensures WithTimestamp(SortBy(s, newestFirst), t) == WithTimestamp(s, t)
  {
    if s != [] {
      SortStable(s[1..], newestFirst, t);
      InsertStable(s[0], SortBy(s[1..], newestFirst), newestFirst, t);
    }
  }
}
