/**
  controllers/eventController.js: creating, editing and deleting events,
  assigning judges to them, and counting what an event holds.
 */
module EventController {
  import opened Ledger
  import opened Queries
  import opened Storage

  /** createEvent: name and date are both required. */
  method CreateEvent(s: Store, name: string, date: string) returns (r: Result<Event>)
    requires s.Valid()
    modifies s`events, s`nextId
    ensures s.Valid()
    ensures name == "" || date == "" ==> r == Err(MissingField)
    ensures name != "" && date != "" ==>
      && r == Ok(Event(old(s.nextId), name, date, [], []))
      && old(s.nextId) !in old(s.events)
      && s.events == old(s.events)[old(s.nextId) := r.value]
    ensures r.Err? ==> s.events == old(s.events) && s.nextId == old(s.nextId)
  {
    if name == "" || date == "" {
      return Err(MissingField);
    }
    var event := Event(s.nextId, name, date, [], []);
    s.events := s.events[event.id := event];
    s.nextId := s.nextId + 1;
    r := Ok(event);
  }

  /** updateEvent: a falsy name or date keeps the stored one. */
  method UpdateEvent(s: Store, id: Id, name: string, date: string) returns (r: Result<Event>)
    requires s.Valid()
    modifies s`events
    ensures s.Valid()
    ensures id !in old(s.events) ==> r == Err(NotFound(EventDoc)) && s.events == old(s.events)
    ensures id in old(s.events) ==>
      var e := old(s.events)[id];
      && r.Ok?
      && r.value.name == (if name == "" then e.name else name)
      && r.value.date == (if date == "" then e.date else date)
      && r.value.id == id && r.value.categories == e.categories && r.value.judges == e.judges
      && s.events == old(s.events)[id := r.value]
  {
    if id !in s.events {
      return Err(NotFound(EventDoc));
    }
    var e := s.events[id];
    var updated := e.(name := OrElse(name, e.name), date := OrElse(date, e.date));
    s.events := s.events[id := updated];
    r := Ok(updated);
  }

  /**
    deleteEvent: the event, its categories and its candidates go; the
    votes cast in it stay (votes is not in the frame).
   */
  method DeleteEvent(s: Store, id: Id) returns (r: Result<()>)
    requires s.Valid()
    modifies s`events, s`categories, s`candidates
    ensures s.Valid()
    ensures id !in old(s.events) ==> r == Err(NotFound(EventDoc))
    ensures r.Err? ==> s.events == old(s.events) && s.categories == old(s.categories) && s.candidates == old(s.candidates)
    ensures id in old(s.events) ==>
      && r == Ok(())
      && s.events == old(s.events) - {id}
      && s.categories == DropCategoriesOf(old(s.categories), id)
      && s.candidates == DropCandidatesOf(old(s.candidates), id)
    ensures r.Ok? ==> CategoriesIn(s.categories, id) == {} && CandidatesIn(s.candidates, id) == {}
  {
    if id !in s.events {
      return Err(NotFound(EventDoc));
    }
    s.categories := DropCategoriesOf(s.categories, id);
    s.candidates := DropCandidatesOf(s.candidates, id);
    s.events := s.events - {id};
    r := Ok(());
  }

  /**
    addJudgeToEvent. Both documents are looked up first; then, in
    this order: no event, no user, not a judge, already assigned.
   */
  method AddJudgeToEvent(s: Store, id: Id, judgeId: Option<Id>) returns (r: Result<Event>)
    requires s.Valid()
    modifies s`events
    ensures s.Valid()
    ensures id !in old(s.events) ==> r == Err(NotFound(EventDoc))
    ensures id in old(s.events) && (judgeId.None? || judgeId.value !in old(s.users)) ==> r == Err(NotFound(UserDoc))
    ensures id in old(s.events) && judgeId.Some? && judgeId.value in old(s.users) ==>
      var judges := old(s.events)[id].judges;
      && (old(s.users)[judgeId.value].role != Judge ==> r == Err(NotAJudge))
      && (old(s.users)[judgeId.value].role == Judge && judgeId.value in judges ==> r == Err(AlreadyAssigned))
      && (old(s.users)[judgeId.value].role == Judge && judgeId.value !in judges ==>
            && r == Ok(old(s.events)[id].(judges := judges + [judgeId.value]))
            && s.events == old(s.events)[id := r.value])
    ensures r.Err? ==> s.events == old(s.events)
    ensures r.Ok? ==> NoDup(r.value.judges) && |r.value.judges| == |old(s.events)[id].judges| + 1
  {
    if id !in s.events {
      return Err(NotFound(EventDoc));
    }
    if judgeId.None? || judgeId.value !in s.users {
      return Err(NotFound(UserDoc));
    }
    var judge := s.users[judgeId.value];
    if judge.role != Judge {
      return Err(NotAJudge);
    }
    var e := s.events[id];
    if judgeId.value in e.judges {
      return Err(AlreadyAssigned);
    }
    var updated := e.(judges := e.judges + [judgeId.value]);
    s.events := s.events[id := updated];
    r := Ok(updated);
  }

  /**
    removeJudgeFromEvent: every occurrence of the judge leaves
    the list and the other judges keep their order.
   */
  method RemoveJudgeFromEvent(s: Store, id: Id, judgeId: Id) returns (r: Result<Event>)
    requires s.Valid()
    modifies s`events
    ensures s.Valid()
    ensures id !in old(s.events) ==> r == Err(NotFound(EventDoc))
    ensures id in old(s.events) && judgeId !in old(s.events)[id].judges ==> r == Err(NotAssigned)
    ensures r.Err? ==> s.events == old(s.events)
    ensures id in old(s.events) && judgeId in old(s.events)[id].judges ==>
      && r == Ok(old(s.events)[id].(judges := Pull(old(s.events)[id].judges, judgeId)))
      && s.events == old(s.events)[id := r.value]
    ensures r.Ok? ==>
      var judges := old(s.events)[id].judges;
      && judgeId !in r.value.judges
      && |r.value.judges| == |judges| - 1
      && exists i :: (0 <= i < |judges| && judges[i] == judgeId && r.value.judges == judges[..i] + judges[i + 1..])
  {
    if id !in s.events {
      return Err(NotFound(EventDoc));
    }
    var e := s.events[id];
    if judgeId !in e.judges {
      return Err(NotAssigned);
    }
    var i :| 0 <= i < |e.judges| && e.judges[i] == judgeId;
    PullAt(e.judges, i);
    PullMembers(e.judges, judgeId);
    var updated := e.(judges := Pull(e.judges, judgeId));
    assert IssuedBefore(updated.judges, s.nextId) by {
      forall k | 0 <= k < |updated.judges| ensures updated.judges[k] < s.nextId {
        assert updated.judges[k] in e.judges;
      }
    }
    s.events := s.events[id := updated];
    r := Ok(updated);
  }

  /** The response of getEventStats. */
  datatype Stats = Stats(eventId: Id, eventName: string, eventDate: string,
                         categoriesCount: nat, candidatesCount: nat, judgesCount: nat)

  /** getEventStats: the event's name and date and how many categories, candidates and judges it has. */
  function GetEventStats(s: Store, id: Id): (r: Result<Stats>)
    reads s
    ensures id !in s.events <==> r == Err(NotFound(EventDoc))
    ensures r.Ok? ==>
      && r.value.eventId == id
      && r.value.eventName == s.events[id].name && r.value.eventDate == s.events[id].date
      && r.value.categoriesCount == |CategoriesIn(s.categories, id)|
      && r.value.candidatesCount == |CandidatesIn(s.candidates, id)|
      && r.value.judgesCount == |s.events[id].judges|
  {
    if id !in s.events then Err(NotFound(EventDoc))
    else
      var e := s.events[id];
      Ok(Stats(id, e.name, e.date, |CategoriesIn(s.categories, id)|, |CandidatesIn(s.candidates, id)|, |e.judges|))
  }

  /** In a consistent store, `judgesCount` is the number of distinct judges assigned. */
  lemma {:induction false} JudgesCountIsDistinctJudges(s: Store, id: Id)
    requires s.Valid() && id in s.events
    ensures GetEventStats(s, id).Ok? && GetEventStats(s, id).value.judgesCount == |Distinct(s.events[id].judges)|
  {
    NoDupCount(s.events[id].judges);
  }
}
