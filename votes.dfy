/**
  controllers/voteController.js: submitting, listing, ranking, correcting
  and deleting votes.
 */
module VoteController {
  import opened Ledger
  import opened Queries
  import opened Ranking
  import opened Storage

  /** The payload of a ranking response; an absent `categoryId` is reported as "all". */
  datatype Report = Report(eventId: Id, categoryId: Option<Id>, totalVotes: nat, ranking: seq<Placing>)

  /** The filter getRanking fetches with. */
  function RankingQuery(eventId: Id, categoryId: Option<Id>): VoteQuery {
    VoteQuery(None, Some(eventId), categoryId, None, None)
  }

  /**
    POST /api/votes. Checks, in this order: every field present, the score in
    1..10, no vote yet for the ballot; only then stores the vote.
   */
  method SubmitVote(s: Store, event: Option<Id>, category: Option<Id>, judge: Option<Id>, candidate: Option<Id>, score: Option<int>)
    returns (r: Result<Vote>)
    requires s.Valid()
    modifies s`votes, s`nextId
    ensures s.Valid()
    ensures event.None? || category.None? || judge.None? || candidate.None? || score.None? ==> r == Err(MissingField)
    ensures event.Some? && category.Some? && judge.Some? && candidate.Some? && score.Some? ==>
      var b := Ballot(event.value, category.value, judge.value, candidate.value);
      && (!InRange(score.value) ==> r == Err(InvalidScore))
      && (InRange(score.value) && (exists i :: 0 <= i < |old(s.votes)| && old(s.votes)[i].Key() == b) ==> r == Err(DuplicateVote))
      && (InRange(score.value) && (forall i :: 0 <= i < |old(s.votes)| ==> old(s.votes)[i].Key() != b) ==>
            r == Ok(Vote(old(s.nextId), b.event, b.category, b.judge, b.candidate, score.value)))
    ensures r.Err? ==> s.votes == old(s.votes) && s.nextId == old(s.nextId)
    ensures r.Ok? ==> s.votes == old(s.votes) + [r.value]
    ensures old(s.LedgerSound()) ==> s.LedgerSound()
  {
    if event.None? || category.None? || judge.None? || candidate.None? || score.None? {
      return Err(MissingField);
    }
    if score.value < MinScore || score.value > MaxScore {
      return Err(InvalidScore);
    }
    var b := Ballot(event.value, category.value, judge.value, candidate.value);
    var existing := Find(s.votes, ByBallot(b));
    BallotTaken(s.votes, b);
    if existing != [] {
      return Err(DuplicateVote);
    }
    var vote := Vote(s.nextId, b.event, b.category, b.judge, b.candidate, score.value);
    s.votes := s.votes + [vote];
    s.nextId := s.nextId + 1;
    r := Ok(vote);
  }

  /**
    GET /api/votes/ranking/:eventId. The votes of the event (and of the category,
    when one is given) are ranked; no votes at all is a 404.
   */
  method GetRanking(s: Store, eventId: Option<Id>, categoryId: Option<Id>) returns (r: Result<Report>)
    ensures eventId.None? ==> r == Err(MissingField)
    ensures eventId.Some? ==>
      var considered := Find(s.votes, RankingQuery(eventId.value, categoryId));
      && (considered == [] ==> r == Err(NoVotes))
      && (considered != [] ==> r == Ok(Report(eventId.value, categoryId, |considered|, RankingOf(considered))))
  {
    if eventId.None? {
      return Err(MissingField);
    }
    var votes := Find(s.votes, RankingQuery(eventId.value, categoryId));
    if |votes| == 0 {
      return Err(NoVotes);
    }
    var standings := TallyVotes(votes);
    SortedNonEmpty(votes);
    var ranking := Rank(SortByTotal(standings));
    r := Ok(Report(eventId.value, categoryId, |votes|, ranking));
  }

  /** getRanking considers exactly the votes of the event, and of the category when one is given. */
  lemma {:induction false} RankingConsidersExactly(votes: seq<Vote>, eventId: Id, categoryId: Option<Id>)
    ensures forall v :: v in Find(votes, RankingQuery(eventId, categoryId)) <==>
      v in votes && v.event == eventId && (categoryId.None? || v.category == categoryId.value)
  {
    FindMembers(votes, RankingQuery(eventId, categoryId));
  }

  /** GET /api/votes/judge/:judgeId: the judge's votes, in the given event when one is named. */
  function GetVotesByJudge(s: Store, judgeId: Option<Id>, eventId: Option<Id>): (r: Result<seq<Vote>>)
    reads s
    ensures judgeId.None? ==> r == Err(MissingField)
    ensures judgeId.Some? ==> r.Ok? && forall v :: v in r.value <==>
      v in s.votes && v.judge == judgeId.value && (eventId.None? || v.event == eventId.value)
  {
    if judgeId.None? then Err(MissingField)
    else
      var q := VoteQuery(None, eventId, None, judgeId, None);
      FindMembers(s.votes, q);
      Ok(Find(s.votes, q))
  }

  /**
    PUT /api/votes/:voteId. Checks the id, then the score, then that the vote
    exists; only the score of that one vote changes.
   */
  method UpdateVote(s: Store, voteId: Option<Id>, score: Option<int>) returns (r: Result<Vote>)
    requires s.Valid()
    modifies s`votes
    ensures s.Valid()
    ensures voteId.None? ==> r == Err(MissingField)
    ensures voteId.Some? && (score.None? || !InRange(score.value)) ==> r == Err(InvalidScore)
    ensures voteId.Some? && score.Some? && InRange(score.value) ==>
      && ((forall i :: 0 <= i < |old(s.votes)| ==> old(s.votes)[i].id != voteId.value) ==> r == Err(NotFound(VoteDoc)))
      && ((exists i :: 0 <= i < |old(s.votes)| && old(s.votes)[i].id == voteId.value) ==> r.Ok?)
    ensures r.Err? ==> s.votes == old(s.votes)
    ensures r.Ok? ==> exists i :: (0 <= i < |old(s.votes)| && old(s.votes)[i].id == voteId.value
      && r.value == old(s.votes)[i].(score := score.value)
      && s.votes == old(s.votes)[i := r.value])
    ensures r.Ok? ==> r.value.Key() == old(s.votes)[IndexOfId(old(s.votes), voteId.value).value].Key()
    ensures old(s.LedgerSound()) ==> s.LedgerSound()
  {
    if voteId.None? {
      return Err(MissingField);
    }
    if score.None? || score.value < MinScore || score.value > MaxScore {
      return Err(InvalidScore);
    }
    var found := IndexOfId(s.votes, voteId.value);
    if found.None? {
      return Err(NotFound(VoteDoc));
    }
    var i := found.value;
    var vote := s.votes[i].(score := score.value);
    s.votes := s.votes[i := vote];
    r := Ok(vote);
    assert forall k :: 0 <= k < |s.votes| ==> s.votes[k].Key() == old(s.votes)[k].Key();
  }

  /** DELETE /api/votes/:voteId. Removes exactly the vote with that id. */
  method DeleteVote(s: Store, voteId: Option<Id>) returns (r: Result<()>)
    requires s.Valid()
    modifies s`votes
    ensures s.Valid()
    ensures voteId.None? ==> r == Err(MissingField)
    ensures voteId.Some? ==>
      && ((forall i :: 0 <= i < |old(s.votes)| ==> old(s.votes)[i].id != voteId.value) ==> r == Err(NotFound(VoteDoc)))
      && ((exists i :: 0 <= i < |old(s.votes)| && old(s.votes)[i].id == voteId.value) ==> r.Ok?)
    ensures r.Err? ==> s.votes == old(s.votes)
    ensures r.Ok? ==> exists i :: (0 <= i < |old(s.votes)| && old(s.votes)[i].id == voteId.value
      && s.votes == old(s.votes)[..i] + old(s.votes)[i + 1..])
    ensures old(s.LedgerSound()) ==> s.LedgerSound()
  {
    if voteId.None? {
      return Err(MissingField);
    }
    var found := IndexOfId(s.votes, voteId.value);
    if found.None? {
      return Err(NotFound(VoteDoc));
    }
    var i := found.value;
    DeleteOneById(s.votes, i, s.nextId);
    s.votes := DeleteMany(s.votes, ById(voteId.value));
    r := Ok(());
  }
}
