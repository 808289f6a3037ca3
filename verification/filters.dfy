/** The search filters of Workflow/scripts/email-tools.py: the `since`
    window (`EmailTools._parse_since`), the artifact test
    (`EmailTools._artifact_matches`) and the per-message filter chain of
    `EmailTools.search`. */
module EmailFilters {
  import opened Wrappers
  import opened Text
  import opened EmailMetadata

  // -------------------------------------------------------------- since

  /** The errors `_parse_since` raises: the `ValueError` for a window it
      cannot read, the `ValueError` of `int()` for a count of more than
      4300 digits, the `OverflowError` of `timedelta` for a relative window
      longer than it can hold, and the `OverflowError` of the subtraction
      when the window reaches back before `datetime.min`. */
  datatype SinceError =
    | InvalidSince(since: string)
    | TooManyDigits(since: string)
    | WindowTooLong(since: string)
    | BeforeEarliestDate(since: string)

  predicate IsDigit(c: char)
  {
    '0' <= c <= '9'
  }

  predicate AllDigits(s: string)
  {
    forall i :: 0 <= i < |s| ==> IsDigit(s[i])
  }

  function DigitValue(c: char): nat
    requires IsDigit(c)
  {
    c as int - '0' as int
  }

  /** `int(s)` for a string of decimal digits. */
  function DecimalValue(s: string): nat
    requires AllDigits(s)
  {
    if s == [] then 0 else 10 * DecimalValue(s[..|s| - 1]) + DigitValue(s[|s| - 1])
  }

  function Digit(d: nat): (c: char)
    requires d < 10
    ensures IsDigit(c) && DigitValue(c) == d
  {
    ('0' as int + d) as char
  }

  /** `str(n)`: the decimal numeral of `n`. */
  function Decimal(n: nat): (s: string)
    ensures s != [] && AllDigits(s)
  {
    if n < 10 then [Digit(n)] else Decimal(n / 10) + [Digit(n % 10)]
  }

  /** Reading back a numeral gives the number it was written from. */
  lemma {:induction false} DecimalRoundTrip(n: nat)
    ensures DecimalValue(Decimal(n)) == n
  {
    if n >= 10 {
      var s := Decimal(n);
      assert s[..|s| - 1] == Decimal(n / 10);
      DecimalRoundTrip(n / 10);
    }
  }

  /** The three units `_parse_since` accepts. */
  predicate IsUnit(u: char)
  {
    u == 'd' || u == 'h' || u == 'm'
  }

  const MicrosPerSecond := 1000000

  /** Microseconds per unit: `timedelta(days=1)`, `(hours=1)`, `(minutes=1)`. */
  function UnitMicros(u: char): nat
    requires IsUnit(u)
  {
    match u
    case 'd' => 86400000000
    case 'h' => 3600000000
    case _ => 60000000
  }

  /** The first window `timedelta` cannot hold: one billion days, as its
      day count may be at most 999999999. */
  const MaxWindow := 1000000000 * 86400000000

  /** The local clock. `wall` is what `datetime.now()` reads, a naive local
      date and time, in microseconds since `datetime.min` (0001-01-01
      00:00). `localSeconds` is the conversion `.timestamp()` applies to the
      whole seconds of a naive local time (counted from `datetime.min`),
      giving epoch seconds; it follows the zone's offset, which changes
      with daylight saving. */
  datatype Clock = Clock(wall: nat, localSeconds: int -> int)

  /** `.timestamp()` of the naive local time `w`, in epoch microseconds. */
  function LocalTimestamp(clock: Clock, w: nat): int
  {
    clock.localSeconds(w / MicrosPerSecond) * MicrosPerSecond + w % MicrosPerSecond
  }

  /** The most digits `int()` converts from a string; leading zeros count
      (`sys.int_info.default_max_str_digits`, the default from CPython 3.11
      on; `PYTHONINTMAXSTRDIGITS` or `sys.set_int_max_str_digits` can change
      it, and the model takes the default as fixed). */
  const MaxStrDigits := 4300

  /** The text the pattern is matched against: `$` also matches in front
      of one final line break. */
  function RelativeBody(since: string): string
  {
    if since != [] && since[|since| - 1] == '\n' then since[..|since| - 1] else since
  }

  /** The pattern `^(\d+)([dhm])$`: digits then one unit letter, where `$`
      also matches in front of one final line break. The result is the
      window length in microseconds. */
  function RelativeWindow(since: string): Option<nat>
  {
    var body := RelativeBody(since);
    if |body| >= 2 && AllDigits(body[..|body| - 1]) && IsUnit(body[|body| - 1]) then
      Some(DecimalValue(body[..|body| - 1]) * UnitMicros(body[|body| - 1]))
    else
      None
  }

  /** The relative branch of `_parse_since`: `timedelta` of `window`
      microseconds, subtracted from the clock's reading, converted by
      `.timestamp()`; either step may overflow. */
  function CountBack(since: string, window: nat, clock: Clock): (r: Result<int, SinceError>)
    ensures r.Success? <==> window < MaxWindow && window <= clock.wall
  {
    if window >= MaxWindow then Failure(WindowTooLong(since))
    else if window > clock.wall then Failure(BeforeEarliestDate(since))
    else Success(LocalTimestamp(clock, clock.wall - window))
  }

  /** `_parse_since(since)`, in epoch microseconds: a relative window
      counts back from the clock; anything else must be an ISO date, which
      `parseIso` reads (`datetime.fromisoformat(...).timestamp()`). */
  function ParseSince(since: string, clock: Clock, parseIso: string -> Option<int>): (r: Result<int, SinceError>)
    ensures r.Failure? ==> r.error.since == since
    ensures r.Failure? && !r.error.InvalidSince? ==> RelativeWindow(since).Some?
    ensures r.Failure? && r.error.TooManyDigits? ==> |since| > MaxStrDigits + 1
  {
    match RelativeWindow(since)
    case Some(window) =>
      if |RelativeBody(since)| - 1 > MaxStrDigits then Failure(TooManyDigits(since))
      else CountBack(since, window, clock)
    case None =>
      match parseIso(since)
      case Some(t) => Success(t)
      case None => Failure(InvalidSince(since))
  }

  /** `"<N>d"`, `"<N>h"` and `"<N>m"` (leading zeros allowed, optionally
      followed by one line break) count N days, hours or minutes back from
      the clock, whatever an ISO reader would make of the same text, unless
      N is written with more digits than `int()` accepts. */
  lemma {:induction false} ParseSinceRelative(digits: string, unit: char, clock: Clock, parseIso: string -> Option<int>)
    requires digits != [] && AllDigits(digits) && IsUnit(unit)
    ensures var window := DecimalValue(digits) * UnitMicros(unit);
      |digits| <= MaxStrDigits ==>
        ParseSince(digits + [unit], clock, parseIso) == CountBack(digits + [unit], window, clock) &&
        ParseSince(digits + [unit, '\n'], clock, parseIso) == CountBack(digits + [unit, '\n'], window, clock)
    ensures |digits| > MaxStrDigits ==>
      ParseSince(digits + [unit], clock, parseIso) == Failure(TooManyDigits(digits + [unit])) &&
      ParseSince(digits + [unit, '\n'], clock, parseIso) == Failure(TooManyDigits(digits + [unit, '\n']))
  {
    var s := digits + [unit];
    assert s[..|s| - 1] == digits;
    var t := digits + [unit, '\n'];
    assert t[..|t| - 1] == s;
  }

  /** The same for a window written as `str(n)` followed by a unit: too
      many digits for `int()`, too long for `timedelta`, reaching back
      before `datetime.min`, or else the timestamp of the local time n
      units before now. */
  lemma {:induction false} ParseSinceCount(n: nat, unit: char, clock: Clock, parseIso: string -> Option<int>)
    requires IsUnit(unit)
    ensures var s := Decimal(n) + [unit];
      var window := n * UnitMicros(unit);
      (|Decimal(n)| > MaxStrDigits ==> ParseSince(s, clock, parseIso) == Failure(TooManyDigits(s))) &&
      (|Decimal(n)| <= MaxStrDigits && window >= MaxWindow ==> ParseSince(s, clock, parseIso) == Failure(WindowTooLong(s))) &&
      (|Decimal(n)| <= MaxStrDigits && window < MaxWindow && window > clock.wall ==>
        ParseSince(s, clock, parseIso) == Failure(BeforeEarliestDate(s))) &&
      (|Decimal(n)| <= MaxStrDigits && window < MaxWindow && window <= clock.wall ==>
        ParseSince(s, clock, parseIso) == Success(LocalTimestamp(clock, clock.wall - window)))
  {
    DecimalRoundTrip(n);
    ParseSinceRelative(Decimal(n), unit, clock, parseIso);
  }

  /** `timedelta` holds at most 999999999 days: a window of more days fails
      whatever the clock reads, unless `int()` already refused its digits. */
  lemma {:induction false} DayLimit(n: nat, clock: Clock, parseIso: string -> Option<int>)
    ensures var s := Decimal(n) + ['d'];
      ParseSince(s, clock, parseIso) == Failure(WindowTooLong(s)) <==> n > 999999999 && |Decimal(n)| <= MaxStrDigits
  {
    assert n * UnitMicros('d') >= MaxWindow <==> n > 999999999;
    ParseSinceCount(n, 'd', clock, parseIso);
  }

  /** Where the zone's offset is `offset` seconds, the local time `w` has
      the timestamp `w` less that offset. */
  lemma {:induction false} OffsetTimestamp(clock: Clock, w: nat, offset: int)
    requires clock.localSeconds(w / MicrosPerSecond) == w / MicrosPerSecond - offset
    ensures LocalTimestamp(clock, w) == w - offset * MicrosPerSecond
  {
  }

  /** The cutoff is the timestamp of now less the window, shifted by the
      change of the zone's offset between the two local times (3600 s
      across a daylight-saving change, none without one). */
  lemma {:induction false} CutoffAcrossOffsets(clock: Clock, window: nat, offsetNow: int, offsetThen: int)
    requires window <= clock.wall
    requires clock.localSeconds(clock.wall / MicrosPerSecond) == clock.wall / MicrosPerSecond - offsetNow
    requires clock.localSeconds((clock.wall - window) / MicrosPerSecond) == (clock.wall - window) / MicrosPerSecond - offsetThen
    ensures LocalTimestamp(clock, clock.wall - window) ==
      LocalTimestamp(clock, clock.wall) - window + (offsetNow - offsetThen) * MicrosPerSecond
  {
    OffsetTimestamp(clock, clock.wall, offsetNow);
    OffsetTimestamp(clock, clock.wall - window, offsetThen);
  }

  /** Seven days in microseconds. */
  const Week := 7 * 86400000000

  /** The default window of the panel decisions, seven days. */
  lemma {:induction false} SevenDays(clock: Clock, parseIso: string -> Option<int>)
    ensures clock.wall >= Week ==> ParseSince("7d", clock, parseIso) == Success(LocalTimestamp(clock, clock.wall - Week))
    ensures clock.wall < Week ==> ParseSince("7d", clock, parseIso) == Failure(BeforeEarliestDate("7d"))
  {
    assert "7d" == Decimal(7) + ['d'];
    ParseSinceCount(7, 'd', clock, parseIso);
  }

  /** Every window the relative branch accepts has the `"<N><unit>"` shape
      and its length is N units. */
  lemma {:induction false} RelativeWindowShape(since: string)
    requires RelativeWindow(since).Some?
    ensures exists digits: string, unit: char ::
      digits != [] && AllDigits(digits) && IsUnit(unit) &&
      (since == digits + [unit] || since == digits + [unit, '\n']) &&
      RelativeWindow(since).value == DecimalValue(digits) * UnitMicros(unit)
  {
    var body := RelativeBody(since);
    var digits := body[..|body| - 1];
    var unit := body[|body| - 1];
    assert body == digits + [unit];
    if since != [] && since[|since| - 1] == '\n' {
      assert since == digits + [unit, '\n'];
    }
  }

  /** Text outside the relative shape is read as an ISO date, and raises
      the error exactly when that reading fails. */
  lemma {:induction false} ParseSinceIso(since: string, clock: Clock, parseIso: string -> Option<int>)
    requires RelativeWindow(since).None?
    ensures parseIso(since).Some? ==> ParseSince(since, clock, parseIso) == Success(parseIso(since).value)
    ensures parseIso(since).None? <==> ParseSince(since, clock, parseIso) == Failure(InvalidSince(since))
  {
  }

  // ----------------------------------------------------------- artifacts

  /** One artifact and the pattern match when either is a substring of the other. */
  ghost predicate Related(artifact: string, pattern: string)
  {
    Occurs(pattern, artifact) || Occurs(artifact, pattern)
  }

  /** `_artifact_matches(artifacts, pattern)`: some artifact contains the
      pattern or is contained in it. */
  function ArtifactMatches(artifacts: seq<string>, pattern: string): (r: bool)
    ensures r <==> exists i :: 0 <= i < |artifacts| && Related(artifacts[i], pattern)
  {
    if artifacts == [] then false
    else
      var rest := artifacts[1..];
      assert forall i :: 0 <= i < |rest| ==> rest[i] == artifacts[i + 1];
      Contains(artifacts[0], pattern) || Contains(pattern, artifacts[0]) || ArtifactMatches(rest, pattern)
  }

  /** A file name matches the full path of the same file, and not the path
      of another file. */
  lemma {:induction false} ArtifactMatchesExample()
    ensures ArtifactMatches(["project-meta/specs/auth.md"], "auth.md")
    ensures !ArtifactMatches(["project-meta/specs/auth.md"], "login.md")
  {
    var path := "project-meta/specs/auth.md";
    assert StartsWith(path[19..], "auth.md");
    assert Occurs("auth.md", path);
    var other := "login.md";
    assert other[0] == 'l' && 'l' !in path;
    MissingCharNotOccurs(other, path, 0);
    assert path[0] == 'p' && 'p' !in other;
    MissingCharNotOccurs(path, other, 0);
  }

  // ------------------------------------------------------------ filters

  /** The filters of one `search` call. An empty string stands for a filter
      that is not given (Python treats `None` and `""` alike here), and a
      `limit` of 0 for no limit. */
  datatype Criteria = Criteria(
    eventType: string,
    artifact: string,
    since: string,
    state: string,
    fromPrefix: string,
    toPrefix: string,
    limit: int)

  /** The filter chain of `search` for one record, given the cutoff in
      epoch microseconds that the `since` window produced (0 for none, as 0
      is falsy in Python); the record's timestamp is in whole seconds. */
  predicate Matches(m: Metadata, c: Criteria, cutoff: int)
  {
    (cutoff == 0 || m.timestamp * MicrosPerSecond >= cutoff) &&
    (c.eventType == "" || m.eventType == c.eventType) &&
    (c.artifact == "" || ArtifactMatches(m.artifacts, c.artifact)) &&
    (c.state == "" || m.workflowState == c.state) &&
    (c.fromPrefix == "" || StartsWith(m.sender, c.fromPrefix)) &&
    (c.toPrefix == "" || StartsWith(m.recipient, c.toPrefix))
  }
}
