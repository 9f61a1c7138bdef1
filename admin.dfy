/**
  controllers/adminController.js: accounts, and the add / update / delete
  handlers for categories, candidates and judges, with the cascades that
  keep the vote ledger free of votes about deleted documents.
 */
module AdminController {
  import opened Ledger
  import opened Queries
  import opened Ranking
  import opened Storage
  import VoteController

  /** POST /api/admin/register: all three fields, and an email nobody uses yet. */
  method RegisterAdmin(s: Store, name: string, email: string, password: string) returns (r: Result<User>)
    requires s.Valid()
    modifies s`users, s`nextId
    ensures s.Valid()
    ensures name == "" || email == "" || password == "" ==> r == Err(MissingField)
    ensures name != "" && email != "" && password != "" ==>
      && (old(s.EmailInUse(email)) ==> r == Err(EmailTaken))
      && (!old(s.EmailInUse(email)) ==>
            && r == Ok(User(old(s.nextId), name, email, password, Admin))
            && old(s.nextId) !in old(s.users)
            && s.users == old(s.users)[old(s.nextId) := r.value])
    ensures r.Err? ==> s.users == old(s.users) && s.nextId == old(s.nextId)
    ensures old(s.EmailsDistinct()) ==> s.EmailsDistinct()
  {
    if name == "" || email == "" || password == "" {
      return Err(MissingField);
    }
    if s.EmailInUse(email) {
      return Err(EmailTaken);
    }
    var admin := User(s.nextId, name, email, password, Admin);
    s.users := s.users[admin.id := admin];
    s.nextId := s.nextId + 1;
    r := Ok(admin);
  }

  /**
    DELETE /api/admin/events/:eventId: the event's categories, candidates and
    votes go first, then the event.
   */
  method DeleteEvent(s: Store, eventId: Id) returns (r: Result<()>)
    requires s.Valid()
    modifies s`events, s`categories, s`candidates, s`votes
    ensures s.Valid()
    ensures eventId !in old(s.events) ==> r == Err(NotFound(EventDoc))
    ensures r.Err? ==>
      && s.events == old(s.events) && s.categories == old(s.categories)
      && s.candidates == old(s.candidates) && s.votes == old(s.votes)
    ensures eventId in old(s.events) ==>
      && r == Ok(())
      && s.events == old(s.events) - {eventId}
      && s.categories == DropCategoriesOf(old(s.categories), eventId)
      && s.candidates == DropCandidatesOf(old(s.candidates), eventId)
      && s.votes == DeleteMany(old(s.votes), ByEvent(eventId))
    ensures r.Ok? ==> forall v :: v in s.votes <==> v in old(s.votes) && v.event != eventId
    ensures old(s.LedgerSound()) ==> s.LedgerSound()
  {
    if eventId !in s.events {
      return Err(NotFound(EventDoc));
    }
    s.categories := DropCategoriesOf(s.categories, eventId);
    s.candidates := DropCandidatesOf(s.candidates, eventId);
    DropVotes(s, ByEvent(eventId));
    s.events := s.events - {eventId};
    r := Ok(());
  }

  /** `Vote.deleteMany(q)` on the store, keeping its invariants. */
  method DropVotes(s: Store, q: VoteQuery)
    requires s.Valid()
    modifies s`votes
    ensures s.Valid()
    ensures s.votes == DeleteMany(old(s.votes), q)
    ensures forall v :: v in s.votes <==> v in old(s.votes) && !Matches(v, q)
    ensures old(s.LedgerSound()) ==> s.LedgerSound()
  {
    DeleteManyMembers(s.votes, q);
    DeleteManyKeepsIdsDistinct(s.votes, q);
    var kept := DeleteMany(s.votes, q);
    forall i | 0 <= i < |kept| ensures kept[i].id < s.nextId {
      assert kept[i] in s.votes;
    }
    if s.LedgerSound() {
      DeleteManyKeepsUniqueBallots(s.votes, q);
      DeleteManyKeepsScoresInRange(s.votes, q);
    }
    s.votes := DeleteMany(s.votes, q);
  }

  /** POST /api/admin/events/:eventId/categories: a name, then an existing event. */
  method AddCategory(s: Store, eventId: Id, name: string) returns (r: Result<Category>)
    requires s.Valid()
    modifies s`categories, s`events, s`nextId
    ensures s.Valid()
    ensures name == "" ==> r == Err(MissingField)
    ensures name != "" && eventId !in old(s.events) ==> r == Err(NotFound(EventDoc))
    ensures r.Err? ==> s.categories == old(s.categories) && s.events == old(s.events) && s.nextId == old(s.nextId)
    ensures name != "" && eventId in old(s.events) ==>
      var e := old(s.events)[eventId];
      && r == Ok(Category(old(s.nextId), name, eventId))
      && old(s.nextId) !in old(s.categories)
      && s.categories == old(s.categories)[old(s.nextId) := r.value]
      && s.events == old(s.events)[eventId := e.(categories := e.categories + [old(s.nextId)])]
    ensures r.Ok? ==> forall event ::
      |CategoriesIn(s.categories, event)| == |CategoriesIn(old(s.categories), event)| + (if event == eventId then 1 else 0)
  {
    if name == "" {
      return Err(MissingField);
    }
    if eventId !in s.events {
      return Err(NotFound(EventDoc));
    }
    var category := Category(s.nextId, name, eventId);
    forall event ensures |CategoriesIn(s.categories[category.id := category], event)| ==
      |CategoriesIn(s.categories, event)| + (if event == eventId then 1 else 0) {
      CategoriesCountGrows(s.categories, category, event);
    }
    s.categories := s.categories[category.id := category];
    var e := s.events[eventId];
    assert category.id !in e.categories;
    s.events := s.events[eventId := e.(categories := e.categories + [category.id])];
    s.nextId := s.nextId + 1;
    r := Ok(category);
  }

  /** PUT /api/admin/events/:eventId/categories/:categoryId (the event id is not used): a falsy name keeps the stored one. */
  method UpdateCategory(s: Store, categoryId: Id, name: string) returns (r: Result<Category>)
    requires s.Valid()
    modifies s`categories
    ensures s.Valid()
    ensures categoryId !in old(s.categories) ==> r == Err(NotFound(CategoryDoc)) && s.categories == old(s.categories)
    ensures categoryId in old(s.categories) ==>
      var c := old(s.categories)[categoryId];
      && r == Ok(c.(name := if name == "" then c.name else name))
      && s.categories == old(s.categories)[categoryId := r.value]
  {
    if categoryId !in s.categories {
      return Err(NotFound(CategoryDoc));
    }
    var c := s.categories[categoryId];
    var updated := c.(name := OrElse(name, c.name));
    s.categories := s.categories[categoryId := updated];
    r := Ok(updated);
  }

  /**
    DELETE /api/admin/events/:eventId/categories/:categoryId: the id leaves the
    list of the event named in the route (if there is one), the category's
    votes go, then the category.
   */
  method DeleteCategory(s: Store, eventId: Id, categoryId: Id) returns (r: Result<()>)
    requires s.Valid()
    modifies s`events, s`votes, s`categories
    ensures s.Valid()
    ensures categoryId !in old(s.categories) ==> r == Err(NotFound(CategoryDoc))
    ensures r.Err? ==> s.events == old(s.events) && s.votes == old(s.votes) && s.categories == old(s.categories)
    ensures categoryId in old(s.categories) ==>
      && r == Ok(())
      && s.events == (if eventId in old(s.events)
                      then old(s.events)[eventId := old(s.events)[eventId].(categories := Pull(old(s.events)[eventId].categories, categoryId))]
                      else old(s.events))
      && s.votes == DeleteMany(old(s.votes), ByCategory(categoryId))
      && s.categories == old(s.categories) - {categoryId}
    ensures r.Ok? ==> forall v :: v in s.votes <==> v in old(s.votes) && v.category != categoryId
    ensures r.Ok? && eventId in s.events ==> categoryId !in s.events[eventId].categories
    ensures old(s.LedgerSound()) ==> s.LedgerSound()
  {
    if categoryId !in s.categories {
      return Err(NotFound(CategoryDoc));
    }
    PullFromEvent(s, eventId, categoryId, Categories);
    DropVotes(s, ByCategory(categoryId));
    s.categories := s.categories - {categoryId};
    r := Ok(());
  }

  /** The id list of an event that a `$pull` names. */
  datatype IdList = Categories | Judges

  /**
    `Event.findByIdAndUpdate(eventId, { $pull: ... })`, on the categories
    list or the judges list; nothing happens when there is no such event.
   */
  method PullFromEvent(s: Store, eventId: Id, x: Id, list: IdList)
    requires s.Valid()
    modifies s`events
    ensures s.Valid()
    ensures eventId !in old(s.events) ==> s.events == old(s.events)
    ensures eventId in old(s.events) ==>
      var e := old(s.events)[eventId];
      s.events == old(s.events)[eventId := if list == Categories then e.(categories := Pull(e.categories, x))
                                           else e.(judges := Pull(e.judges, x))]
    ensures eventId in s.events ==> x !in (if list == Categories then s.events[eventId].categories else s.events[eventId].judges)
  {
    if eventId in s.events {
      var e := s.events[eventId];
      PullMembers(e.categories, x);
      PullMembers(e.judges, x);
      var updated := if list == Categories then e.(categories := Pull(e.categories, x)) else e.(judges := Pull(e.judges, x));
      assert IssuedBefore(updated.categories, s.nextId) && IssuedBefore(updated.judges, s.nextId) by {
        forall k | 0 <= k < |updated.categories| ensures updated.categories[k] < s.nextId {
          assert updated.categories[k] in e.categories;
        }
        forall k | 0 <= k < |updated.judges| ensures updated.judges[k] < s.nextId {
          assert updated.judges[k] in e.judges;
        }
      }
      s.events := s.events[eventId := updated];
    }
  }

  /** POST /api/admin/events/:eventId/candidates: a name, then an existing event. */
  method AddCandidate(s: Store, eventId: Id, name: string) returns (r: Result<Candidate>)
    requires s.Valid()
    modifies s`candidates, s`nextId
    ensures s.Valid()
    ensures name == "" ==> r == Err(MissingField)
    ensures name != "" && eventId !in old(s.events) ==> r == Err(NotFound(EventDoc))
    ensures r.Err? ==> s.candidates == old(s.candidates) && s.nextId == old(s.nextId)
    ensures name != "" && eventId in old(s.events) ==>
      && r == Ok(Candidate(old(s.nextId), name, eventId))
      && old(s.nextId) !in old(s.candidates)
      && s.candidates == old(s.candidates)[old(s.nextId) := r.value]
    ensures r.Ok? ==> forall event ::
      |CandidatesIn(s.candidates, event)| == |CandidatesIn(old(s.candidates), event)| + (if event == eventId then 1 else 0)
  {
    if name == "" {
      return Err(MissingField);
    }
    if eventId !in s.events {
      return Err(NotFound(EventDoc));
    }
    var candidate := Candidate(s.nextId, name, eventId);
    forall event ensures |CandidatesIn(s.candidates[candidate.id := candidate], event)| ==
      |CandidatesIn(s.candidates, event)| + (if event == eventId then 1 else 0) {
      CandidatesCountGrows(s.candidates, candidate, event);
    }
    s.candidates := s.candidates[candidate.id := candidate];
    s.nextId := s.nextId + 1;
    r := Ok(candidate);
  }

  /** PUT /api/admin/events/:eventId/candidates/:candidateId (the event id is not used): a falsy name keeps the stored one. */
  method UpdateCandidate(s: Store, candidateId: Id, name: string) returns (r: Result<Candidate>)
    requires s.Valid()
    modifies s`candidates
    ensures s.Valid()
    ensures candidateId !in old(s.candidates) ==> r == Err(NotFound(CandidateDoc)) && s.candidates == old(s.candidates)
    ensures candidateId in old(s.candidates) ==>
      var c := old(s.candidates)[candidateId];
      && r == Ok(c.(name := if name == "" then c.name else name))
      && s.candidates == old(s.candidates)[candidateId := r.value]
  {
    if candidateId !in s.candidates {
      return Err(NotFound(CandidateDoc));
    }
    var c := s.candidates[candidateId];
    var updated := c.(name := OrElse(name, c.name));
    s.candidates := s.candidates[candidateId := updated];
    r := Ok(updated);
  }

  /** DELETE /api/admin/events/:eventId/candidates/:candidateId (the event id is not used): the candidate's votes go, then the candidate. */
  method DeleteCandidate(s: Store, candidateId: Id) returns (r: Result<()>)
    requires s.Valid()
    modifies s`votes, s`candidates
    ensures s.Valid()
    ensures candidateId !in old(s.candidates) ==> r == Err(NotFound(CandidateDoc))
    ensures r.Err? ==> s.votes == old(s.votes) && s.candidates == old(s.candidates)
    ensures candidateId in old(s.candidates) ==>
      && r == Ok(())
      && s.votes == DeleteMany(old(s.votes), ByCandidate(candidateId))
      && s.candidates == old(s.candidates) - {candidateId}
    ensures r.Ok? ==> forall v :: v in s.votes <==> v in old(s.votes) && v.candidate != candidateId
    ensures old(s.LedgerSound()) ==> s.LedgerSound()
  {
    if candidateId !in s.candidates {
      return Err(NotFound(CandidateDoc));
    }
    DropVotes(s, ByCandidate(candidateId));
    s.candidates := s.candidates - {candidateId};
    r := Ok(());
  }

  /**
    POST /api/admin/events/:eventId/judges: the three fields, an existing event,
    an unused email; the new judge account joins the event's judges.
   */
  method AddJudge(s: Store, eventId: Id, name: string, email: string, password: string) returns (r: Result<User>)
    requires s.Valid()
    modifies s`users, s`events, s`nextId
    ensures s.Valid()
    ensures name == "" || email == "" || password == "" ==> r == Err(MissingField)
    ensures name != "" && email != "" && password != "" ==>
      && (eventId !in old(s.events) ==> r == Err(NotFound(EventDoc)))
      && (eventId in old(s.events) && old(s.EmailInUse(email)) ==> r == Err(EmailTaken))
      && (eventId in old(s.events) && !old(s.EmailInUse(email)) ==>
            var e := old(s.events)[eventId];
            && r == Ok(User(old(s.nextId), name, email, password, Judge))
            && old(s.nextId) !in old(s.users)
            && s.users == old(s.users)[old(s.nextId) := r.value]
            && s.events == old(s.events)[eventId := e.(judges := e.judges + [old(s.nextId)])])
    ensures r.Err? ==> s.users == old(s.users) && s.events == old(s.events) && s.nextId == old(s.nextId)
    ensures old(s.EmailsDistinct()) ==> s.EmailsDistinct()
  {
    if name == "" || email == "" || password == "" {
      return Err(MissingField);
    }
    if eventId !in s.events {
      return Err(NotFound(EventDoc));
    }
    if s.EmailInUse(email) {
      return Err(EmailTaken);
    }
    var judge := User(s.nextId, name, email, password, Judge);
    s.users := s.users[judge.id := judge];
    var e := s.events[eventId];
    assert judge.id !in e.judges;
    s.events := s.events[eventId := e.(judges := e.judges + [judge.id])];
    s.nextId := s.nextId + 1;
    r := Ok(judge);
  }

  /** PUT /api/admin/events/:eventId/judges/:judgeId (the event id is not used): a judge account only; falsy fields keep the stored ones. */
  method UpdateJudge(s: Store, judgeId: Id, name: string, email: string) returns (r: Result<User>)
    requires s.Valid()
    modifies s`users
    ensures s.Valid()
    ensures judgeId !in old(s.users) ==> r == Err(NotFound(UserDoc))
    ensures judgeId in old(s.users) && old(s.users)[judgeId].role != Judge ==> r == Err(NotAJudge)
    ensures r.Err? ==> s.users == old(s.users)
    ensures judgeId in old(s.users) && old(s.users)[judgeId].role == Judge ==>
      var u := old(s.users)[judgeId];
      && r == Ok(u.(name := if name == "" then u.name else name, email := if email == "" then u.email else email))
      && s.users == old(s.users)[judgeId := r.value]
  {
    if judgeId !in s.users {
      return Err(NotFound(UserDoc));
    }
    var u := s.users[judgeId];
    if u.role != Judge {
      return Err(NotAJudge);
    }
    var updated := u.(name := OrElse(name, u.name), email := OrElse(email, u.email));
    s.users := s.users[judgeId := updated];
    r := Ok(updated);
  }

  /**
    DELETE /api/admin/events/:eventId/judges/:judgeId: the judge leaves the
    route's event, every vote the judge cast in any event goes, then the
    account.
   */
  method DeleteJudge(s: Store, eventId: Id, judgeId: Id) returns (r: Result<()>)
    requires s.Valid()
    modifies s`events, s`votes, s`users
    ensures s.Valid()
    ensures judgeId !in old(s.users) ==> r == Err(NotFound(UserDoc))
    ensures judgeId in old(s.users) && old(s.users)[judgeId].role != Judge ==> r == Err(NotAJudge)
    ensures r.Err? ==> s.events == old(s.events) && s.votes == old(s.votes) && s.users == old(s.users)
    ensures judgeId in old(s.users) && old(s.users)[judgeId].role == Judge ==>
      && r == Ok(())
      && s.events == (if eventId in old(s.events)
                      then old(s.events)[eventId := old(s.events)[eventId].(judges := Pull(old(s.events)[eventId].judges, judgeId))]
                      else old(s.events))
      && s.votes == DeleteMany(old(s.votes), ByJudge(judgeId))
      && s.users == old(s.users) - {judgeId}
    ensures r.Ok? ==> forall v :: v in s.votes <==> v in old(s.votes) && v.judge != judgeId
    ensures old(s.LedgerSound()) ==> s.LedgerSound()
  {
    if judgeId !in s.users {
      return Err(NotFound(UserDoc));
    }
    if s.users[judgeId].role != Judge {
      return Err(NotAJudge);
    }
    PullFromEvent(s, eventId, judgeId, Judges);
    DropVotes(s, ByJudge(judgeId));
    s.users := s.users - {judgeId};
    r := Ok(());
  }

  /** After deleteEvent, a ranking of that event (any category, or all) finds no votes. */
  lemma {:induction false} DeletedEventHasNoRanking(votes: seq<Vote>, eventId: Id, categoryId: Option<Id>)
    ensures Find(DeleteMany(votes, ByEvent(eventId)), VoteController.RankingQuery(eventId, categoryId)) == []
  {
    FindAfterDeleteAll(votes, ByEvent(eventId), VoteController.RankingQuery(eventId, categoryId));
  }

  /** deleteEvent leaves the ranking of every other event as it was. */
  lemma {:induction false} OtherEventRankingKept(votes: seq<Vote>, eventId: Id, other: Id, categoryId: Option<Id>)
    requires other != eventId
    ensures Find(DeleteMany(votes, ByEvent(eventId)), VoteController.RankingQuery(other, categoryId))
         == Find(votes, VoteController.RankingQuery(other, categoryId))
  {
    FindAfterDeleteNone(votes, ByEvent(eventId), VoteController.RankingQuery(other, categoryId));
  }

  /** After deleteCategory, a ranking of that category finds no votes. */
  lemma {:induction false} DeletedCategoryHasNoRanking(votes: seq<Vote>, eventId: Id, categoryId: Id)
    ensures Find(DeleteMany(votes, ByCategory(categoryId)), VoteController.RankingQuery(eventId, Some(categoryId))) == []
  {
    FindAfterDeleteAll(votes, ByCategory(categoryId), VoteController.RankingQuery(eventId, Some(categoryId)));
  }

  /** deleteCategory leaves the ranking of every other category as it was. */
  lemma {:induction false} OtherCategoryRankingKept(votes: seq<Vote>, eventId: Id, categoryId: Id, other: Id)
    requires other != categoryId
    ensures Find(DeleteMany(votes, ByCategory(categoryId)), VoteController.RankingQuery(eventId, Some(other)))
         == Find(votes, VoteController.RankingQuery(eventId, Some(other)))
  {
    FindAfterDeleteNone(votes, ByCategory(categoryId), VoteController.RankingQuery(eventId, Some(other)));
  }

  /** After deleteCandidate, no ranking lists the candidate. */
  lemma {:induction false} DeletedCandidateNotRanked(votes: seq<Vote>, candidateId: Id, eventId: Id, categoryId: Option<Id>)
    ensures var r := RankingOf(Find(DeleteMany(votes, ByCandidate(candidateId)), VoteController.RankingQuery(eventId, categoryId)));
      forall k :: 0 <= k < |r| ==> r[k].candidate != candidateId
  {
    var kept := DeleteMany(votes, ByCandidate(candidateId));
    var considered := Find(kept, VoteController.RankingQuery(eventId, categoryId));
    var r := RankingOf(considered);
    DeleteManyMembers(votes, ByCandidate(candidateId));
    FindMembers(kept, VoteController.RankingQuery(eventId, categoryId));
    RankingEntriesAreGroups(considered);
    forall k | 0 <= k < |r| ensures r[k].candidate != candidateId {
      var i :| 0 <= i < |considered| && considered[i].candidate == r[k].candidate;
      assert considered[i] in kept;
    }
  }

  /** After deleteJudge, the judge has no votes left in any event. */
  lemma {:induction false} DeletedJudgeHasNoVotes(votes: seq<Vote>, judgeId: Id, eventId: Option<Id>)
    ensures Find(DeleteMany(votes, ByJudge(judgeId)), VoteQuery(None, eventId, None, Some(judgeId), None)) == []
  {
    FindAfterDeleteAll(votes, ByJudge(judgeId), VoteQuery(None, eventId, None, Some(judgeId), None));
  }
}
