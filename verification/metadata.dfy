/** One stored message's headers turned into the metadata record that the
    search and thread operations work on (`EmailTools._extract_metadata`,
    Workflow/scripts/email-tools.py). */
module EmailMetadata {
  import opened Wrappers
  import opened Text

  /** A message's header values, keyed by the header names as the tools
      spell them: `h[name]` stands for `msg.get(name)`, which finds a header
      whatever its letter case (a `Message-Id:` header answers for
      `Message-ID`) and gives the first of several headers of that name. A
      name absent from the map is a header the message lacks. */
  type Headers = map<string, string>

  /** A message as one scan of the mail store sees it: either its headers
      can be read, or reading it or extracting its metadata raises. */
  datatype StoredMessage = Readable(key: string, headers: Headers) | Unreadable(key: string)

  /** The two date readers the tools borrow from Python's libraries: the
      mail-header date (`parsedate_tz` then `mktime_tz`), in whole epoch
      seconds, and the ISO date (`datetime.fromisoformat(...).timestamp()`),
      in epoch microseconds. Each yields nothing when the text does not
      parse. */
  datatype DateParsers = DateParsers(rfc5322: string -> Option<int>, iso: string -> Option<int>)

  /** The metadata record of one message. */
  datatype Metadata = Metadata(
    key: string,
    messageId: string,
    sender: string,
    recipient: string,
    subject: string,
    date: string,
    timestamp: int,
    eventType: string,
    artifacts: seq<string>,
    workflowState: string,
    sessionId: string,
    inReplyTo: string,
    references: seq<string>)

  /** `msg.get(name, '')`. */
  function Header(h: Headers, name: string): string
  {
    if name in h then h[name] else ""
  }

  /** `msg.get(name, '').strip()`; an absent header reads as "". */
  function Field(h: Headers, name: string): (r: string)
    ensures IsTrimmed(r)
  {
    if name in h then Strip(h[name]) else ""
  }

  /** The epoch seconds of the `Date:` header, or 0 when it does not parse. */
  function Timestamp(h: Headers, parseDate: string -> Option<int>): int
  {
    match parseDate(Header(h, "Date"))
    case Some(t) => t
    case None => 0
  }

  lemma {:induction false} TrimmedCons(a: string, rest: seq<string>)
    requires a != "" && IsTrimmed(a)
    requires forall i :: 0 <= i < |rest| ==> rest[i] != "" && IsTrimmed(rest[i])
    ensures forall i :: 0 <= i < |[a] + rest| ==> ([a] + rest)[i] != "" && IsTrimmed(([a] + rest)[i])
  {
    assert forall i :: 1 <= i <= |rest| ==> ([a] + rest)[i] == rest[i - 1];
  }

  /** `[a.strip() for a in pieces if a.strip()]`. */
  function CleanArtifacts(pieces: seq<string>): (r: seq<string>)
    ensures |r| <= |pieces|
    ensures forall i :: 0 <= i < |r| ==> r[i] != "" && IsTrimmed(r[i])
  {
    if pieces == [] then []
    else
      var a := Strip(pieces[0]);
      var rest := CleanArtifacts(pieces[1..]);
      if a != "" then
        TrimmedCons(a, rest);
        [a] + rest
      else rest
  }

  /** The `X-Artifacts:` header split on commas, trimmed, blanks dropped. */
  function Artifacts(h: Headers): seq<string>
  {
    if "X-Artifacts" in h then CleanArtifacts(SplitOn(h["X-Artifacts"], ',')) else []
  }

  /** The `References:` header split on whitespace. */
  function References(h: Headers): seq<string>
  {
    if "References" in h then SplitWhitespace(Strip(h["References"])) else []
  }

  /** What every extracted record looks like: single fields carry no
      surrounding whitespace, artifacts are non-blank trimmed names, and
      references are whitespace-free identifiers. */
  ghost predicate Tidy(m: Metadata)
  {
    IsTrimmed(m.messageId) && IsTrimmed(m.sender) && IsTrimmed(m.recipient) &&
    IsTrimmed(m.subject) && IsTrimmed(m.date) && IsTrimmed(m.eventType) &&
    IsTrimmed(m.workflowState) && IsTrimmed(m.sessionId) && IsTrimmed(m.inReplyTo) &&
    (forall i :: 0 <= i < |m.artifacts| ==> m.artifacts[i] != "" && IsTrimmed(m.artifacts[i])) &&
    (forall i :: 0 <= i < |m.references| ==> IsWord(m.references[i]))
  }

  /** `EmailTools._extract_metadata(msg, key)`: the record is tidy, keeps
      the store key, and takes its timestamp from the `Date:` header, 0
      when that does not parse. */
  function Extract(key: string, h: Headers, parseDate: string -> Option<int>): (m: Metadata)
    ensures Tidy(m) && m.key == key
    ensures parseDate(Header(h, "Date")).None? ==> m.timestamp == 0
    ensures parseDate(Header(h, "Date")).Some? ==> m.timestamp == parseDate(Header(h, "Date")).value
  {
    Metadata(key, Field(h, "Message-ID"), Field(h, "From"), Field(h, "To"), Field(h, "Subject"),
      Field(h, "Date"), Timestamp(h, parseDate), Field(h, "X-Event-Type"), Artifacts(h),
      Field(h, "X-Workflow-State"), Field(h, "X-Session-Id"), Field(h, "In-Reply-To"), References(h))
  }

  /** A message with no headers at all degrades to empty fields. */
  lemma {:induction false} MissingHeadersAreEmpty(key: string, parseDate: string -> Option<int>)
    requires parseDate("").None?
    ensures var m := Extract(key, map[], parseDate);
      m.messageId == m.sender == m.recipient == m.subject == m.date == "" &&
      m.eventType == m.workflowState == m.sessionId == m.inReplyTo == "" &&
      m.artifacts == [] && m.references == [] && m.timestamp == 0
  {
    assert SplitOn("", ',') == [""];
    assert Strip("") == "";
    assert SplitWhitespace("") == [];
  }

  /** A header value padded by whitespace on either side reads back as the value. */
  lemma {:induction false} FieldIgnoresPadding(h: Headers, name: string, before: string, value: string, after: string)
    requires AllSpace(before) && AllSpace(after) && IsTrimmed(value)
    requires Header(h, name) == before + value + after
    ensures Field(h, name) == value
  {
    StripPadded(before, value, after);
  }

  /** An artifact name as a writer may put it in `X-Artifacts:`. */
  ghost predicate ArtifactName(a: string)
  {
    a != "" && IsTrimmed(a) && ',' !in a
  }

  /** The `X-Artifacts:` header a writer produces for a list of names. */
  function ArtifactList(names: seq<string>): string
  {
    if names == [] then "" else Join(names, ", ")
  }

  lemma {:induction false} CleanCons(piece: string, pieces: seq<string>)
    requires Strip(piece) != ""
    ensures CleanArtifacts([piece] + pieces) == [Strip(piece)] + CleanArtifacts(pieces)
  {
    assert ([piece] + pieces)[1..] == pieces;
  }

  lemma {:induction false} CleanSplitOne(name: string, pad: string)
    requires ArtifactName(name) && AllSpace(pad) && ',' !in pad
    ensures CleanArtifacts(SplitOn(pad + name, ',')) == [name]
  {
    assert ',' !in pad + name;
    SplitOnWithout(pad + name, ',');
    StripLeading(pad, name);
    CleanCons(pad + name, []);
  }

  lemma {:induction false} CleanSplitStep(names: seq<string>, pad: string)
    requires |names| > 1 && ArtifactName(names[0]) && AllSpace(pad) && ',' !in pad
    ensures CleanArtifacts(SplitOn(pad + Join(names, ", "), ','))
      == [names[0]] + CleanArtifacts(SplitOn(" " + Join(names[1..], ", "), ','))
  {
    var first := pad + names[0];
    var spaced := " " + Join(names[1..], ", ");
    assert pad + Join(names, ", ") == first + [','] + spaced;
    assert ',' !in first;
    SplitOnLeading(first, ',', spaced);
    StripLeading(pad, names[0]);
    CleanCons(first, SplitOn(spaced, ','));
  }

  lemma {:induction false} CleanSplitPadded(names: seq<string>, pad: string)
    requires |names| >= 1 && forall i :: 0 <= i < |names| ==> ArtifactName(names[i])
    requires AllSpace(pad) && ',' !in pad
    ensures CleanArtifacts(SplitOn(pad + Join(names, ", "), ',')) == names
  {
    if |names| == 1 {
      CleanSplitOne(names[0], pad);
    } else {
      var rest := names[1..];
      assert forall i | 0 <= i < |rest| :: rest[i] == names[i + 1];
      assert AllSpace(" ");
      CleanSplitPadded(rest, " ");
      CleanSplitStep(names, pad);
      ConsBack(CleanArtifacts(SplitOn(pad + Join(names, ", "), ',')),
               CleanArtifacts(SplitOn(" " + Join(rest, ", "), ',')), names);
    }
  }

  /** Reading `X-Artifacts:` recovers exactly the names, in order, that a
      writer listed there separated by ", ". */
  lemma {:induction false} ArtifactsRoundTrip(h: Headers, names: seq<string>)
    requires forall i :: 0 <= i < |names| ==> ArtifactName(names[i])
    requires Header(h, "X-Artifacts") == ArtifactList(names)
    ensures Artifacts(h) == names
  {
    if names == [] {
      assert SplitOn("", ',') == [""];
      assert Strip("") == "";
    } else {
      assert "" + Join(names, ", ") == Join(names, ", ");
      CleanSplitPadded(names, "");
    }
  }

  /** Reading `References:` recovers exactly the identifiers, in order, that a
      writer listed there separated by spaces. */
  lemma {:induction false} ReferencesRoundTrip(h: Headers, ids: seq<string>)
    requires forall i :: 0 <= i < |ids| ==> IsWord(ids[i])
    requires Header(h, "References") == JoinWords(ids)
    ensures References(h) == ids
  {
    JoinWordsTrimmed(ids);
    StripTrimmed(JoinWords(ids));
    SplitJoinWords(ids);
  }

  /** Reading the references loses nothing but whitespace: put back
      together, they are the non-whitespace characters of the header. */
  lemma {:induction false} ReferencesKeepText(h: Headers)
    ensures Concat(References(h)) == NonSpace(Header(h, "References"))
  {
    if "References" in h {
      var raw := h["References"];
      SplitWhitespaceKeepsText(Strip(raw));
      StripKeepsText(raw);
    }
  }
}
