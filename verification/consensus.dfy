/** `PanelCoordinator.check_consensus` of
    Workflow/scripts/panel-coordinator.py: one vote per panel member is
    read off the decision messages, then one of three decision models
    turns the votes into a verdict. */
module PanelConsensus {
  import opened Wrappers
  import opened Text
  import opened EmailMetadata
  import opened EmailFilters
  import opened TimeOrder
  import opened EmailSearch
  import opened PanelConfiguration

  /** The three verdicts: 'approve', 'reject' and 'request-revision'. */
  datatype Vote = Approve | Reject | RequestRevision

  /** The member a sender address names: the text before the first `@`,
      or the whole sender when it has none. */
  function MemberName(sender: string): (r: string)
    ensures '@' !in r
    ensures StartsWith(sender, r)
    ensures r == sender || sender[|r|] == '@'
  {
    if '@' in sender then
      var parts := SplitOn(sender, '@');
      assert |parts| > 1;
      assert sender == parts[0] + "@" + Join(parts[1..], "@");
      assert sender[..|parts[0]|] == parts[0];
      parts[0]
    else sender
  }

  /** The vote a subject line carries, by keyword on the lowercased line:
      "approve" wins over "reject", which wins over "revision" and
      "clarification"; a line with none of them carries no vote. */
  function VoteOf(subject: string): (r: Option<Vote>)
    ensures r == Some(Approve) <==> Occurs("approve", Lower(subject))
    ensures r == Some(Reject) <==> !Occurs("approve", Lower(subject)) && Occurs("reject", Lower(subject))
    ensures r == Some(RequestRevision) <==>
      !Occurs("approve", Lower(subject)) && !Occurs("reject", Lower(subject)) &&
      (Occurs("revision", Lower(subject)) || Occurs("clarification", Lower(subject)))
  {
    var s := Lower(subject);
    if Contains(s, "approve") then Some(Approve)
    else if Contains(s, "reject") then Some(Reject)
    else if Contains(s, "revision") || Contains(s, "clarification") then Some(RequestRevision)
    else None
  }

  lemma {:induction false} LowerTwice(s: string)
    ensures Lower(Lower(s)) == Lower(s)
  {
    var once := Lower(s);
    forall i | 0 <= i < |s|
      ensures Lower(once)[i] == once[i]
    {
      assert once[i] == LowerChar(s[i]);
    }
  }

  /** The vote does not depend on the case of the subject line. */
  lemma {:induction false} VoteIgnoresCase(subject: string)
    ensures VoteOf(Lower(subject)) == VoteOf(subject)
  {
    LowerTwice(subject);
  }

  /** Keywords are matched anywhere in the line, whatever surrounds them:
      "Not approved" and "Disapprove" are votes to approve. */
  lemma {:induction false} ApproveAnywhere(before: string, after: string)
    ensures VoteOf(before + "approve" + after) == Some(Approve)
  {
    var s := before + "approve" + after;
    var low := Lower(s);
    var n := |before|;
    forall i | 0 <= i < 7
      ensures low[n + i] == "approve"[i]
    {
      assert s[n + i] == "approve"[i];
    }
    assert low[n..][..7] == "approve";
  }

  /** One member's vote. */
  datatype Ballot = Ballot(member: string, vote: Vote)

  /** What one decision message contributes: its sender's vote, if its
      subject carries one. */
  function BallotOf(d: Metadata): Option<Ballot>
  {
    match VoteOf(d.subject)
    case Some(v) => Some(Ballot(MemberName(d.sender), v))
    case None => None
  }

  function Ballots(decisions: seq<Metadata>): (r: seq<Option<Ballot>>)
  {
    seq(|decisions|, k requires 0 <= k < |decisions| => BallotOf(decisions[k]))
  }

  /** `member_decisions`: each member's vote. */
  type Votes = map<string, Vote>

  /** The votes after the ballots in order, a later ballot of a member
      overwriting an earlier one. */
  function Tally(ballots: seq<Option<Ballot>>): Votes
  {
    if ballots == [] then map[]
    else
      var prior := Tally(ballots[..|ballots| - 1]);
      match ballots[|ballots| - 1]
      case Some(b) => prior[b.member := b.vote]
      case None => prior
  }

  function VotesOf(decisions: seq<Metadata>): Votes
  {
    Tally(Ballots(decisions))
  }

  /** The vote-extraction loop of `check_consensus`. */
  method CollectVotes(decisions: seq<Metadata>) returns (votes: Votes)
    ensures votes == VotesOf(decisions)
  {
    ghost var ballots := Ballots(decisions);
    assert |ballots| == |decisions|;
    votes := map[];
    for i := 0 to |decisions|
      invariant votes == Tally(ballots[..i])
    {
      assert ballots[..i + 1][..i] == ballots[..i];
      var member := MemberName(decisions[i].sender);
      var vote := VoteOf(decisions[i].subject);
      if vote.Some? {
        votes := votes[member := vote.value];
      }
    }
    assert ballots[..|decisions|] == ballots;
  }

  /** The ballot at `k` is one of `member`'s. */
  ghost predicate CastBy(ballots: seq<Option<Ballot>>, k: int, member: string)
  {
    0 <= k < |ballots| && ballots[k].Some? && ballots[k].value.member == member
  }

  lemma {:induction false} CastByFront(ballots: seq<Option<Ballot>>, k: int, member: string)
    requires 0 <= k < |ballots| - 1
    ensures CastBy(ballots[..|ballots| - 1], k, member) == CastBy(ballots, k, member)
  {
    assert ballots[..|ballots| - 1][k] == ballots[k];
  }

  /** The ballot at `k` is `member`'s last one. */
  ghost predicate LastCast(ballots: seq<Option<Ballot>>, k: int, member: string)
  {
    CastBy(ballots, k, member) && forall j :: k < j < |ballots| ==> !CastBy(ballots, j, member)
  }

  lemma {:induction false} LastCastFront(ballots: seq<Option<Ballot>>, k: int, member: string)
    requires |ballots| > 0 && !CastBy(ballots, |ballots| - 1, member)
    requires LastCast(ballots[..|ballots| - 1], k, member)
    ensures LastCast(ballots, k, member)
  {
    var n := |ballots| - 1;
    CastByFront(ballots, k, member);
    forall j | k < j < n
      ensures !CastBy(ballots, j, member)
    {
      CastByFront(ballots, j, member);
    }
  }

  /** A member has a vote exactly when one of their ballots was cast. */
  lemma {:induction false} BallotGivesVote(ballots: seq<Option<Ballot>>, member: string)
    ensures member in Tally(ballots) <==> exists k :: CastBy(ballots, k, member)
    decreases |ballots|
  {
    if ballots != [] {
      var n := |ballots| - 1;
      var front := ballots[..n];
      BallotGivesVote(front, member);
      if CastBy(ballots, n, member) {
        assert member in Tally(ballots);
      } else if member in Tally(ballots) {
        var k :| CastBy(front, k, member);
        CastByFront(ballots, k, member);
      } else if exists k :: CastBy(ballots, k, member) {
        var k :| CastBy(ballots, k, member);
        CastByFront(ballots, k, member);
        assert false;
      }
    }
  }

  /** The vote that counts is that of the member's last ballot. */
  lemma {:induction false} LastBallotCounts(ballots: seq<Option<Ballot>>, member: string)
    requires member in Tally(ballots)
    ensures exists k :: LastCast(ballots, k, member) && ballots[k].value.vote == Tally(ballots)[member]
    decreases |ballots|
  {
    var n := |ballots| - 1;
    var front := ballots[..n];
    if CastBy(ballots, n, member) {
      assert LastCast(ballots, n, member);
    } else {
      LastBallotCounts(front, member);
      var k :| LastCast(front, k, member) && front[k].value.vote == Tally(front)[member];
      LastCastFront(ballots, k, member);
    }
  }

  /** Fed the newest-first list `search` returns, the vote that counts
      for a member comes from their oldest decision message. */
  lemma {:induction false} OldestVoteCounts(decisions: seq<Metadata>, member: string, j: int)
    requires Ordered(decisions, true)
    requires CastBy(Ballots(decisions), j, member)
    ensures member in VotesOf(decisions)
    ensures exists k :: (CastBy(Ballots(decisions), k, member) &&
      Ballots(decisions)[k].value.vote == VotesOf(decisions)[member] &&
      decisions[k].timestamp <= decisions[j].timestamp)
  {
    var ballots := Ballots(decisions);
    BallotGivesVote(ballots, member);
    LastBallotCounts(ballots, member);
    var k :| LastCast(ballots, k, member) && ballots[k].value.vote == Tally(ballots)[member];
    OrderedPairwise(decisions, true, j, k);
  }

  // ------------------------------------------------------ decision models

  /** How many members voted `v`. */
  function Count(votes: Votes, v: Vote): nat
  {
    |set m | m in votes && votes[m] == v|
  }

  /** The one value of a set with one element. */
  function Only(values: set<Vote>): (v: Vote)
    requires |values| == 1
    ensures values == {v}
  {
    var v := if Approve in values then Approve else if Reject in values then Reject else RequestRevision;
    assert v in values by {
      assert values != {};
      var w :| w in values;
      assert w == Approve || w == Reject || w == RequestRevision;
    }
    assert |values - {v}| == 0;
    v
  }

  /** The `'consensus'` model: a verdict only when all votes agree. */
  function AllAgree(votes: Votes): Option<Vote>
  {
    if |votes.Values| == 1 then Some(Only(votes.Values)) else None
  }

  /** `AllAgree` gives `v` exactly when there are votes and every one of
      them is `v`. */
  lemma {:induction false} AllAgreeIff(votes: Votes, v: Vote)
    ensures AllAgree(votes) == Some(v) <==> votes != map[] && forall m :: m in votes ==> votes[m] == v
  {
    if votes != map[] && forall m :: m in votes ==> votes[m] == v {
      var m :| m in votes;
      assert votes[m] in votes.Values;
      assert votes.Values == {v};
    }
    if AllAgree(votes) == Some(v) {
      forall m | m in votes
        ensures votes[m] == v
      {
        assert votes[m] in votes.Values;
      }
      var w :| w in votes.Values;
    }
  }

  /** The value `Counter(...).most_common(1)` names: one with the highest
      count (ties resolved in the order approve, reject, revision). */
  function MostCommon(votes: Votes): (top: Vote)
    ensures forall v :: Count(votes, v) <= Count(votes, top)
  {
    var a := Count(votes, Approve);
    var r := Count(votes, Reject);
    var q := Count(votes, RequestRevision);
    if a >= r && a >= q then Approve else if r >= q then Reject else RequestRevision
  }

  /** The `'majority'` model: the most common vote, if more than half of
      the members cast it. */
  function Majority(votes: Votes): Option<Vote>
  {
    var top := MostCommon(votes);
    if 2 * Count(votes, top) > |votes| then Some(top) else None
  }

  lemma {:induction false} SubsetCard(x: set<string>, y: set<string>)
    requires x <= y
    ensures |x| <= |y|
  {
    assert y == x + (y - x);
  }

  /** Two different votes are never cast by more members than there are. */
  lemma {:induction false} CountsDisjoint(votes: Votes, a: Vote, b: Vote)
    requires a != b
    ensures Count(votes, a) + Count(votes, b) <= |votes|
  {
    var sa := set m | m in votes && votes[m] == a;
    var sb := set m | m in votes && votes[m] == b;
    assert sa * sb == {};
    SubsetCard(sa + sb, votes.Keys);
  }

  /** `Majority` gives `v` exactly when more than half of the members voted
      `v`; so how `most_common` breaks ties never matters. */
  lemma {:induction false} MajorityIff(votes: Votes, v: Vote)
    ensures Majority(votes) == Some(v) <==> 2 * Count(votes, v) > |votes|
  {
    var top := MostCommon(votes);
    if 2 * Count(votes, v) > |votes| && top != v {
      CountsDisjoint(votes, top, v);
    }
  }

  /** A tie for the highest count gives no verdict. */
  lemma {:induction false} MajorityTieIsNone(votes: Votes, a: Vote, b: Vote)
    requires a != b && Count(votes, a) == Count(votes, b)
    requires forall v :: Count(votes, v) <= Count(votes, a)
    ensures Majority(votes) == None
  {
    CountsDisjoint(votes, a, b);
    MajorityIff(votes, MostCommon(votes));
  }

  /** The `'primary-decides'` model: the vote of the first listed member,
      if the list is not empty and that member voted. */
  function PrimaryDecides(votes: Votes, members: seq<string>): (r: Option<Vote>)
    ensures r.Some? <==> |members| > 0 && members[0] in votes
  {
    if |members| > 0 && members[0] in votes then Some(votes[members[0]]) else None
  }

  /** Only the primary member's vote matters to `PrimaryDecides`. */
  lemma {:induction false} PrimaryIgnoresOthers(votes: Votes, members: seq<string>, other: string, v: Vote)
    requires |members| > 0 && other != members[0]
    ensures PrimaryDecides(votes[other := v], members) == PrimaryDecides(votes, members)
  {
  }

  /** A single vote decides under every model. */
  lemma {:induction false} SingleVoterDecides(member: string, v: Vote)
    ensures AllAgree(map[member := v]) == Some(v)
    ensures Majority(map[member := v]) == Some(v)
    ensures PrimaryDecides(map[member := v], [member]) == Some(v)
  {
    var votes := map[member := v];
    AllAgreeIff(votes, v);
    assert (set m | m in votes && votes[m] == v) == {member};
    MajorityIff(votes, v);
  }

  const MajorityTag := "majority"
  const PrimaryTag := "primary-decides"

  /** The verdict of the decision model named `tag` on non-empty votes. The
      primary-decides model looks the panel up again, which may fail. */
  function Decide(votes: Votes, tag: string, config: Config, panel: string): Result<Option<Vote>, PanelError>
  {
    if tag == Unanimous then Success(AllAgree(votes))
    else if tag == MajorityTag then Success(Majority(votes))
    else if tag == PrimaryTag then
      match GetPanelConfig(config, panel)
      case Success(p) => Success(PrimaryDecides(votes, p.members))
      case Failure(e) => Failure(e)
    else Failure(UnknownDecisionModel(tag))
  }

  /** The whole of `check_consensus` on the decision messages: no messages
      or no votes give no verdict, whatever the model; otherwise the model
      decides. */
  function ConsensusOf(decisions: seq<Metadata>, tag: string, config: Config, panel: string): Result<Option<Vote>, PanelError>
  {
    if decisions == [] then Success(None)
    else
      var votes := VotesOf(decisions);
      if votes == map[] then Success(None) else Decide(votes, tag, config, panel)
  }

  /** `PanelCoordinator.check_consensus(panel_name, decision_model)` on the
      messages the decision search returned. */
  method CheckConsensus(decisions: seq<Metadata>, tag: string, config: Config, panel: string)
    returns (r: Result<Option<Vote>, PanelError>)
    ensures r == ConsensusOf(decisions, tag, config, panel)
  {
    if |decisions| == 0 {
      return Success(None);
    }
    var votes := CollectVotes(decisions);
    if |votes| == 0 {
      return Success(None);
    }
    if tag == Unanimous {
      r := Success(AllAgree(votes));
    } else if tag == MajorityTag {
      r := Success(Majority(votes));
    } else if tag == PrimaryTag {
      var found := GetPanelConfig(config, panel);
      if found.Failure? {
        return Failure(found.error);
      }
      r := Success(PrimaryDecides(votes, found.value.members));
    } else {
      r := Failure(UnknownDecisionModel(tag));
    }
  }

  // ---------------------------------------------------------- properties

  /** No vote gives no verdict and no error, whatever the model tag. */
  lemma {:induction false} NoVotesNoVerdict(decisions: seq<Metadata>, tag: string, config: Config, panel: string)
    requires VotesOf(decisions) == map[]
    ensures ConsensusOf(decisions, tag, config, panel) == Success(None)
  {
  }

  /** An unknown model tag is an error only once there are votes. */
  lemma {:induction false} UnknownTagNeedsVotes(decisions: seq<Metadata>, tag: string, config: Config, panel: string)
    requires tag != Unanimous && tag != MajorityTag && tag != PrimaryTag
    ensures ConsensusOf(decisions, tag, config, panel).Failure? <==> VotesOf(decisions) != map[]
    ensures ConsensusOf(decisions, tag, config, panel).Failure? ==>
      ConsensusOf(decisions, tag, config, panel).error == UnknownDecisionModel(tag)
  {
    if decisions == [] {
      assert Ballots(decisions) == [];
    }
  }

  /** `check_consensus` raises exactly when there are votes and either the
      tag names no model, or it is primary-decides and the panel is not
      configured; every other case, split votes included, is a result. */
  lemma {:induction false} ConsensusFailureIff(decisions: seq<Metadata>, tag: string, config: Config, panel: string)
    ensures ConsensusOf(decisions, tag, config, panel).Failure? <==>
      VotesOf(decisions) != map[] &&
      ((tag != Unanimous && tag != MajorityTag && tag != PrimaryTag) ||
       (tag == PrimaryTag && panel !in config.panels))
    ensures ConsensusOf(decisions, tag, config, panel).Failure? && tag == PrimaryTag ==>
      ConsensusOf(decisions, tag, config, panel).error == PanelNotFound(panel)
    ensures ConsensusOf(decisions, tag, config, panel).Failure? && tag != PrimaryTag ==>
      ConsensusOf(decisions, tag, config, panel).error == UnknownDecisionModel(tag)
  {
    if decisions == [] {
      assert Ballots(decisions) == [];
    }
  }

  /** Two approvals and a rejection: no unanimous verdict, no majority tie,
      but a majority approval, and never an error. */
  lemma SplitVotesAreNoError(config: Config, panel: string)
    ensures Decide(map["a" := Approve, "b" := Approve, "c" := Reject], Unanimous, config, panel) == Success(None)
    ensures Decide(map["a" := Approve, "b" := Approve, "c" := Reject], MajorityTag, config, panel) == Success(Some(Approve))
    ensures Decide(map["a" := Approve, "b" := Reject], MajorityTag, config, panel) == Success(None)
  {
    var three := map["a" := Approve, "b" := Approve, "c" := Reject];
    assert three["a"] != three["c"];
    AllAgreeIff(three, Approve);
    AllAgreeIff(three, Reject);
    AllAgreeIff(three, RequestRevision);
    assert (set m | m in three && three[m] == Approve) == {"a", "b"};
    MajorityIff(three, Approve);
    var two := map["a" := Approve, "b" := Reject];
    assert (set m | m in two && two[m] == Approve) == {"a"};
    assert (set m | m in two && two[m] == Reject) == {"b"};
    assert (set m | m in two && two[m] == RequestRevision) == {};
    MajorityIff(two, Approve);
    MajorityIff(two, Reject);
    MajorityIff(two, RequestRevision);
  }

  /** A verdict `v` is reached exactly when there are votes and the model
      named by `tag` picks `v`: all votes are `v`, more than half are `v`,
      or the panel's first member voted `v`. */
  lemma {:induction false} VerdictIff(decisions: seq<Metadata>, tag: string, config: Config, panel: string, v: Vote)
    ensures ConsensusOf(decisions, tag, config, panel) == Success(Some(v)) <==>
      var votes := VotesOf(decisions);
      votes != map[] &&
      ((tag == Unanimous && forall m :: m in votes ==> votes[m] == v) ||
       (tag == MajorityTag && 2 * Count(votes, v) > |votes|) ||
       (tag == PrimaryTag && panel in config.panels && |config.panels[panel].members| > 0 &&
        config.panels[panel].members[0] in votes && votes[config.panels[panel].members[0]] == v))
  {
    var votes := VotesOf(decisions);
    if decisions == [] {
      assert Ballots(decisions) == [];
    }
    AllAgreeIff(votes, v);
    MajorityIff(votes, v);
  }

  /** A panel without a `decision_model` entry is decided unanimously. */
  lemma {:induction false} DefaultIsUnanimous(p: Panel, votes: Votes, config: Config, panel: string)
    requires p.decisionModel.None?
    ensures Decide(votes, DecisionModelOf(p), config, panel) == Success(AllAgree(votes))
  {
  }

  /** The search `check_consensus` runs: panel decisions of the last seven
      days, no limit. */
  function DecisionCriteria(): Criteria
  {
    Criteria("panel-decision", "", "7d", "", "", "", 0)
  }

  /** That search fails only when the clock reads less than seven days
      after `datetime.min`, and it returns only panel-decision records, none
      older than the timestamp of the local time seven days ago (the cutoff
      is not applied when it comes out as 0). */
  lemma {:induction false} DecisionSearch(store: seq<StoredMessage>, clock: Clock, dates: DateParsers, d: Metadata)
    ensures SearchResult(store, DecisionCriteria(), clock, dates).Success? <==> clock.wall >= Week
    ensures (SearchResult(store, DecisionCriteria(), clock, dates).Success? &&
             d in SearchResult(store, DecisionCriteria(), clock, dates).value) ==>
      var cutoff := LocalTimestamp(clock, clock.wall - Week);
      d.eventType == "panel-decision" && (cutoff != 0 ==> d.timestamp * MicrosPerSecond >= cutoff)
  {
    SevenDays(clock, dates.iso);
    if SearchResult(store, DecisionCriteria(), clock, dates).Success? &&
       d in SearchResult(store, DecisionCriteria(), clock, dates).value {
      SearchResultsMatch(store, DecisionCriteria(), clock, dates, d);
    }
  }
}
