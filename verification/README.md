# Mail query engine and panel consensus, in Dafny

This project models two pieces of the workflow scripts and proves properties about them.

**`EmailTools`** (Workflow/scripts/email-tools.py) is a query engine over a Maildir message store:
- `_extract_metadata` turns one message's headers into a metadata record.
- `_parse_since` reads a time window such as `7d`, or an ISO date.
- `_artifact_matches` is a two-way substring test on artifact paths.
- `search` and `list_messages` make one scan with filters, an early stop at `limit`, and a newest-first sort.
- `get_thread` makes one pass that grows a set of known message identifiers, then sorts oldest first.

**`PanelCoordinator`** (Workflow/scripts/panel-coordinator.py) reads panel votes from decision messages:
- `check_consensus` reduces the votes to a verdict under the `consensus` (unanimous), `majority` or `primary-decides` model.
- `get_panel_config` looks a panel up in the configuration.
- `_get_member_cli_command` picks the command line for one panel member.

The store is a sequence of messages in the order the store lists its keys (for a Maildir, `mbox.keys()` gives the messages of `cur/` and then those of `new/`, each in directory-listing order). Each message is either `Readable(key, headers)` or `Unreadable(key)`. `Unreadable` stands for any message whose reading or metadata extraction raises; both scans skip such a message. The clock, the RFC 5322 date reader (`parsedate_tz` with `mktime_tz`) and `datetime.fromisoformat` are parameters, and each reader is a function to `Option<int>`. The clock is a `Clock`. Its `wall` field is the naive local time `datetime.now()` reads, in microseconds since `datetime.min`. Its `localSeconds` field is the conversion `.timestamp()` applies to a naive local time; it follows the zone's offset, including daylight-saving changes. Cutoffs are in epoch microseconds; message timestamps are in whole epoch seconds.

Modules, one per file: `Wrappers`, `Text` (Python's `strip`, `split`, `split(sep)`, `in`, `startswith`, `lower`, `replace`), `EmailMetadata`, `EmailFilters`, `TimeOrder` (Python's stable `list.sort` in both directions), `EmailSearch`, `EmailThread`, `PanelConfiguration` and `PanelConsensus`. The loops of `search`, `get_thread` and the vote extraction are methods (`CollectMatches`, `GetThread`, `CollectVotes`). Each is proved equal to a recursive specification function, and the properties are lemmas about those functions.

In these places the model follows the code where a reader might expect otherwise:
- `search` stops at `limit` before it sorts, so a limit keeps the first matches in the order the store lists them, not the most recent ones (`EmailSearch.LimitKeepsFirstNotNewest`). Equal timestamps keep scan order; they are not broken by key.
- `get_thread` makes a single pass, not a fixpoint (`EmailThread.SinglePassMisses`).
- Votes are stored by overwriting a dictionary while walking the newest-first search results, so a member's oldest vote counts (`PanelConsensus.OldestVoteCounts`).
- The unanimous model's tag is `consensus`, and it is the default when a panel names no model (`PanelConsensus.DefaultIsUnanimous`).
- An unknown model tag raises only when at least one vote was read (`PanelConsensus.UnknownTagNeedsVotes`).
- A relative count written with more than 4300 digits (leading zeros included) raises the `ValueError` of `int()`, not the invalid-since one (`EmailFilters.ParseSinceRelative`). The limit of 4300 is the default of CPython 3.11 and later (and of the 2022 security releases of 3.7 to 3.10); the model takes that default as fixed, although `PYTHONINTMAXSTRDIGITS` or `sys.set_int_max_str_digits` can change it and older interpreters have no limit.
- A relative window of one billion days or more, beyond the range of `timedelta`, or one reaching back before `datetime.min` raises `OverflowError`, not the invalid-since `ValueError` (`EmailFilters.ParseSinceCount`, `EmailFilters.DayLimit`).
- A relative window is counted back on the naive local clock, so across a daylight-saving change the cutoff moves by the change of offset (`EmailFilters.CutoffAcrossOffsets`).
- A cutoff that comes out as 0 disables the time filter, because 0 is falsy in Python.
- A negative `limit` is truthy, so the scan stops after the first match.

## Model

| member | source | states |
|---|---|---|
| EmailMetadata.Field | Workflow/scripts/email-tools.py:266-276 | a single-valued field is the header's value with no surrounding whitespace, "" when the header is absent |
| EmailMetadata.FieldIgnoresPadding | Workflow/scripts/email-tools.py:266-276 | a header holding a value padded by whitespace on both sides reads back as exactly that value |
| EmailMetadata.CleanArtifacts | Workflow/scripts/email-tools.py:273 | the cleaned list is no longer than the comma-split pieces and holds no empty and no untrimmed entry |
| EmailMetadata.Extract | Workflow/scripts/email-tools.py:255-278 | the record keeps the store key; its fields are trimmed, its artifacts non-blank and trimmed, its references whitespace-free words; the timestamp is 0 when the Date header does not parse, and otherwise the parsed value |
| EmailMetadata.MissingHeadersAreEmpty | Workflow/scripts/email-tools.py:258-278 | a message with no headers gives empty fields, no artifacts, no references and timestamp 0 |
| EmailMetadata.ArtifactsRoundTrip | Workflow/scripts/email-tools.py:273 | an X-Artifacts header written as names joined by ", " reads back as exactly those names, in header order |
| EmailMetadata.ReferencesRoundTrip | Workflow/scripts/email-tools.py:277 | a References header written as words joined by spaces reads back as exactly those words, in order |
| EmailMetadata.ReferencesKeepText | Workflow/scripts/email-tools.py:277 | reading the references loses only whitespace: concatenated, they are the header's non-whitespace characters in order |
| EmailFilters.ParseSince | Workflow/scripts/email-tools.py:290-314 | every failure names the rejected text; a failure other than the invalid-since error (the `int()` digit limit, a `timedelta` or a `datetime.min` overflow) arises only from a relative window, and the digit-limit error only from a text longer than 4301 characters |
| EmailFilters.ParseSinceRelative | Workflow/scripts/email-tools.py:293-307 | digits followed by d, h or m (with or without one final line break) count that many days, hours or minutes back from the clock, whatever the ISO reader says, when there are at most 4300 digits; more digits give the `int()` digit-limit error |
| EmailFilters.ParseSinceCount | Workflow/scripts/email-tools.py:293-307 | the decimal text of n followed by a unit fails with the `int()` digit-limit error when n has more than 4300 digits; otherwise it fails with the `timedelta` overflow when n units reach one billion days, fails with the `datetime.min` overflow when they reach back before it, and otherwise gives the timestamp of the local time n units before now |
| EmailFilters.SevenDays | Workflow/scripts/email-tools.py:293-307 | "7d" gives the timestamp of the local time 604800 seconds before now, and overflows only when the clock reads less than seven days after `datetime.min` |
| EmailFilters.DayLimit | Workflow/scripts/email-tools.py:299-300 | a window of n days raises the `timedelta` overflow, whatever the clock reads, iff n exceeds 999999999 and has at most 4300 digits |
| EmailFilters.CutoffAcrossOffsets | Workflow/scripts/email-tools.py:307 | the cutoff is the timestamp of now less the window, shifted by the change in the zone's offset between the two local times |
| EmailFilters.RelativeWindowShape | Workflow/scripts/email-tools.py:293 | every text the relative branch accepts is digits plus one unit letter, optionally plus one line break, and its window is that many units |
| EmailFilters.RelativeWindow | Workflow/scripts/email-tools.py:293-305 | the relative pattern `^(\d+)([dhm])$`: the window is the number times the unit's length in microseconds; `RelativeWindowShape` characterises the accepted texts, and `ParseSince` applies the digit limit of `int()` before using the window |
| EmailFilters.ParseSinceIso | Workflow/scripts/email-tools.py:309-314 | text outside the relative shape gives the ISO reading, and fails exactly when that reading fails |
| EmailFilters.ArtifactMatches | Workflow/scripts/email-tools.py:316-321 | true iff some artifact contains the pattern or is contained in it; false for an empty list |
| EmailFilters.ArtifactMatchesExample | Workflow/scripts/email-tools.py:316-321 | a file name matches the full path of that file and does not match another file's path |
| EmailFilters.Matches | Workflow/scripts/email-tools.py:132-148 | a record passes iff it is no older than a non-zero cutoff and every given filter accepts it: equal event type, a related artifact, equal state, sender prefix, recipient prefix; `SearchResultsMatch` and `StoreMatchesIff` state it of the results |
| TimeOrder.SortBy | Workflow/scripts/email-tools.py:162 | the sorted list is ordered by timestamp in the chosen direction and is a permutation of the input |
| TimeOrder.SortStable | Workflow/scripts/email-tools.py:162 | records with equal timestamps keep their input order, even newest first (Python's reverse sort is stable) |
| EmailSearch.StoreMatchesIff | Workflow/scripts/email-tools.py:124-150 | a record is among the matches iff it passes every filter and is the record of some readable message of the store |
| EmailSearch.Collected | Workflow/scripts/email-tools.py:150-153 | with a limit, at most that many records are kept (one for a negative limit), and they are a prefix of the matches |
| EmailSearch.CollectMatches | Workflow/scripts/email-tools.py:124-157 | the scan loop returns the first matches in the order the store lists them, stopping once the limit is reached |
| EmailSearch.Search | Workflow/scripts/email-tools.py:90-164 | search fails with the error of the since window when a given window cannot be read or overflows, before any message is visited; otherwise it returns the collected matches sorted newest first |
| EmailSearch.SearchResult | Workflow/scripts/email-tools.py:121-164 | the specification `Search` is proved equal to: the error of the since window, or the collected matches sorted newest first; the lemmas below are about it |
| EmailSearch.ListMessages | Workflow/scripts/email-tools.py:166-181 | list_messages is a search with only the event type and limit given, and it never fails |
| EmailSearch.SearchResultsMatch | Workflow/scripts/email-tools.py:132-150 | every result passes each filter that is given and is the record of some message of the store |
| EmailSearch.SearchNewestFirst | Workflow/scripts/email-tools.py:161-162 | results are ordered newest first, and results with equal timestamps keep scan order |
| EmailSearch.SearchLimit | Workflow/scripts/email-tools.py:152-153 | a positive limit bounds the result count; a negative limit lets at most one result through |
| EmailSearch.SearchWithoutLimit | Workflow/scripts/email-tools.py:124-164 | with no limit the results are a permutation of all matching readable messages |
| EmailSearch.SearchFirstMatches | Workflow/scripts/email-tools.py:150-162 | with a limit the results are a permutation of the first min(limit, matches) matches in the order the store lists them |
| EmailSearch.SearchSkipsUnreadable | Workflow/scripts/email-tools.py:155-157 | inserting a message that raises anywhere in the store leaves the search result unchanged |
| EmailSearch.LimitKeepsFirstNotNewest | Workflow/scripts/email-tools.py:150-162 | with limit 1 and two matching messages, the first listed is returned even when the second is more recent |
| EmailThread.LinksOf | Workflow/scripts/email-tools.py:226-228 | the references a message links by are whitespace-free non-empty words |
| EmailThread.Absorb | Workflow/scripts/email-tools.py:237-242 | after a message joins, the known set holds exactly the old identifiers, its non-empty Message-ID and In-Reply-To, and all its references |
| EmailThread.Linked | Workflow/scripts/email-tools.py:230-232 | a message is linked iff its Message-ID, its In-Reply-To or one of its references is known, the empty string included |
| EmailThread.Step | Workflow/scripts/email-tools.py:223-242 | one visit: an unreadable message changes nothing; a linked one is appended and absorbed; any other changes nothing |
| EmailThread.Walk | Workflow/scripts/email-tools.py:219-242 | the single pass from the seed alone, visit by visit; `WalkMembers` and `KnownGrows` characterise it |
| EmailThread.ThreadResult | Workflow/scripts/email-tools.py:219-253 | the pass sorted oldest first; `ThreadMembers` gives its members |
| EmailThread.GetThread | Workflow/scripts/email-tools.py:205-253 | the pass returns the records collected by the single-pass specification, sorted oldest first, as a permutation |
| EmailThread.KnownGrows | Workflow/scripts/email-tools.py:220-242 | the known set at any point of the pass is contained in the known set at every later point |
| EmailThread.SeedStaysKnown | Workflow/scripts/email-tools.py:220 | the seed identifier is known throughout the pass |
| EmailThread.WalkMembers | Workflow/scripts/email-tools.py:223-235 | a record is collected iff its message was readable and linked to the identifiers known when the pass reached it |
| EmailThread.ThreadMembers | Workflow/scripts/email-tools.py:223-253 | get_thread returns exactly the records of the messages that were linked when visited |
| EmailThread.SeedMessageJoins | Workflow/scripts/email-tools.py:230 | a readable message whose Message-ID is the seed is always in the thread |
| EmailThread.EmptyIdOnlyFromSeed | Workflow/scripts/email-tools.py:230-242 | the empty identifier is known iff the seed is empty, so a missing Message-ID or In-Reply-To is a link only when the seed is empty |
| EmailThread.SinglePassMisses | Workflow/scripts/email-tools.py:223-245 | with seed a and scan order c, b, a, the reply c to b is missed although b joins later and would link it |
| PanelConfiguration.GetPanelConfig | Workflow/scripts/panel-coordinator.py:79-84 | succeeds iff the panel is configured, with its entry; otherwise the error names the panel |
| PanelConfiguration.DecisionModelOf | Workflow/scripts/panel-coordinator.py:279 | the model tag is the panel's own, or "consensus" when it names none |
| PanelConfiguration.MemberCliCommand | Workflow/scripts/panel-coordinator.py:86-133 | a member_cli override wins, with {role} replaced; otherwise the role's cli is used when it starts with the member name and a space (the built-in table and the fallback are stated by `CommandPassesRole`, `DefaultCommands` and `FallbackCommand`) |
| PanelConfiguration.OverrideFillsRole | Workflow/scripts/panel-coordinator.py:106-108 | an override made of brace-free pieces around {role} gets the role in every placeholder and keeps everything else |
| PanelConfiguration.CommandNamesMember | Workflow/scripts/panel-coordinator.py:112-133 | without an override the command starts with the member's name and a space, for every member except gpt-5 |
| PanelConfiguration.CommandPassesRole | Workflow/scripts/panel-coordinator.py:120-133 | when no override or matching role cli applies, the command is the member's built-in program, or the member's name when it has none, then " --role " and the role |
| PanelConfiguration.DefaultCommands | Workflow/scripts/panel-coordinator.py:119-128 | with no override and no matching role cli: claude, gemini, codex and opencode give "<name> --role <role>", and gpt-5 gives "gpt --model gpt-5 --role <role>" |
| PanelConfiguration.FallbackCommand | Workflow/scripts/panel-coordinator.py:130-133 | with no override and no matching role cli, a member outside the built-in table gives exactly "<member> --role <role>" |
| PanelConsensus.MemberName | Workflow/scripts/panel-coordinator.py:457 | the member is the sender's text before the first @, or the whole sender when it has no @ |
| PanelConsensus.VoteOf | Workflow/scripts/panel-coordinator.py:461-467 | on the lowercased subject, approve wins when "approve" occurs; otherwise reject when "reject" occurs; otherwise request-revision when "revision" or "clarification" occurs; otherwise no vote |
| PanelConsensus.VoteIgnoresCase | Workflow/scripts/panel-coordinator.py:461 | the vote does not depend on the letter case of the subject |
| PanelConsensus.ApproveAnywhere | Workflow/scripts/panel-coordinator.py:462-463 | any subject containing "approve", such as "Not approved", is a vote to approve |
| PanelConsensus.CollectVotes | Workflow/scripts/panel-coordinator.py:453-467 | the extraction loop builds the member-to-vote map of the specification |
| PanelConsensus.Tally | Workflow/scripts/panel-coordinator.py:453-467 | the member-to-vote map after the ballots in order, a later ballot overwriting; `BallotGivesVote` and `LastBallotCounts` characterise it |
| PanelConsensus.BallotGivesVote | Workflow/scripts/panel-coordinator.py:453-467 | a member has a vote iff one of their messages carries a vote |
| PanelConsensus.LastBallotCounts | Workflow/scripts/panel-coordinator.py:453-467 | the vote recorded for a member is that of their last vote-carrying message in input order |
| PanelConsensus.OldestVoteCounts | Workflow/scripts/panel-coordinator.py:443-467 | on newest-first input, a member's recorded vote comes from a message no newer than any of their other voting messages |
| PanelConsensus.Only | Workflow/scripts/panel-coordinator.py:478-480 | the value taken from a one-element set of votes is its element |
| PanelConsensus.AllAgree | Workflow/scripts/panel-coordinator.py:476-485 | the consensus model; `AllAgreeIff` characterises it |
| PanelConsensus.AllAgreeIff | Workflow/scripts/panel-coordinator.py:476-485 | the consensus model gives v iff there are votes and every vote is v |
| PanelConsensus.MostCommon | Workflow/scripts/panel-coordinator.py:489-492 | the value picked has the highest count |
| PanelConsensus.Majority | Workflow/scripts/panel-coordinator.py:487-500 | the majority model; `MajorityIff` characterises it |
| PanelConsensus.MajorityIff | Workflow/scripts/panel-coordinator.py:487-500 | the majority model gives v iff twice v's count exceeds the number of voting members, so the tie-break never matters |
| PanelConsensus.MajorityTieIsNone | Workflow/scripts/panel-coordinator.py:487-500 | a tie for the highest count gives no verdict |
| PanelConsensus.PrimaryDecides | Workflow/scripts/panel-coordinator.py:502-513 | there is a verdict iff the member list is non-empty and its first member voted |
| PanelConsensus.PrimaryIgnoresOthers | Workflow/scripts/panel-coordinator.py:502-513 | changing any other member's vote does not change the primary-decides verdict |
| PanelConsensus.SingleVoterDecides | Workflow/scripts/panel-coordinator.py:476-513 | a single voter's vote is the verdict under each of the three models |
| PanelConsensus.Decide | Workflow/scripts/panel-coordinator.py:473-516 | the model named by the tag decides; primary-decides may fail on the panel look-up; any other tag is the unknown-model error |
| PanelConsensus.ConsensusOf | Workflow/scripts/panel-coordinator.py:448-516 | no messages or no votes give no verdict, otherwise the tagged model decides; `VerdictIff` characterises its verdicts and `ConsensusFailureIff` its errors |
| PanelConsensus.CheckConsensus | Workflow/scripts/panel-coordinator.py:416-516 | check_consensus computes the verdict of the specification from the decision messages |
| PanelConsensus.NoVotesNoVerdict | Workflow/scripts/panel-coordinator.py:448-471 | no message, or no vote-carrying message, gives no verdict and no error, whatever the model tag |
| PanelConsensus.UnknownTagNeedsVotes | Workflow/scripts/panel-coordinator.py:469-516 | an unknown model tag fails iff there are votes, and the error names the tag |
| PanelConsensus.VerdictIff | Workflow/scripts/panel-coordinator.py:476-516 | verdict v is reached iff there are votes and the tagged model selects v: all votes v, more than half v, or the configured first member voted v |
| PanelConsensus.ConsensusFailureIff | Workflow/scripts/panel-coordinator.py:448-516 | the check raises iff there are votes and the tag names no model (error naming the tag) or is primary-decides with the panel not configured (error naming the panel); split votes, ties and an absent primary member give no verdict, never an error |
| PanelConsensus.SplitVotesAreNoError | Workflow/scripts/panel-coordinator.py:476-500 | approve, approve, reject gives no unanimous verdict but a majority approval, and an approve/reject tie gives no majority verdict, all as results rather than errors |
| PanelConsensus.DefaultIsUnanimous | Workflow/scripts/panel-coordinator.py:279 | a panel without a decision_model entry is decided by the unanimous model |
| PanelConsensus.DecisionSearch | Workflow/scripts/panel-coordinator.py:443-446 | the decision search fails only when the clock reads less than seven days after `datetime.min`; it returns only panel-decision records no older than the timestamp of the local time seven days ago |

## Left out

- Maildir access (`mailbox.Maildir`, key listing, `send`, `read`, `_get_body`) is not modelled. The store is an input sequence in listing order, and any message that raises is `Unreadable`.
- Logging and the warnings printed for skipped messages are not modelled.
- RFC 5322 date parsing (section 3.3 of RFC 5322), `mktime_tz`, `datetime.fromisoformat` and `datetime.now()` are parameters.
- Cutoffs are exact integers of microseconds. The rounding of Python's float timestamps is not modelled.
- EmailFilters.ParseSince assumes the local-time conversion `.timestamp()` of a naive time never fails. A platform on which `mktime` cannot convert a very early date would raise there.
- EmailFilters.RelativeWindow accepts ASCII digits only. Python's `\d` and `int` also accept other Unicode decimal digits.
- PanelConsensus.VoteOf lowercases ASCII letters only. Python's `lower()` also folds non-ASCII letters.
- PanelConsensus.MostCommon breaks ties in the fixed order approve, reject, request-revision, not in the dictionary's insertion order. `MajorityIff` shows the verdict never depends on the tie-break.
- PanelConsensus.CheckConsensus takes the decision messages as input. Building the panel's maildir path and importing the search module are not modelled. `DecisionSearch` states what that search returns.
- Configuration values of the wrong JSON type (a non-list `members`, a null `decision_model`) are not modelled. An absent `members` list is the empty list.
- `spawn_panel_member`, `create_member_prompt`, `load_config`, the spawning phases of `coordinate_review_panel` and `coordinate_write_panel`, and every `main()` are not part of this model. They are process, file and terminal plumbing.
