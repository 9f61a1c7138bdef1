/**
  The database the controllers share: the vote collection, and the event,
  category, candidate and user collections keyed by `_id`. The votes are
  kept in insertion order, and the model assumes that an unsorted `find`
  returns them in that order.
 */
module Storage {
  import opened Ledger
  import opened Queries

  /** Every id in the list was issued before `next`. */
  predicate IssuedBefore(ids: seq<Id>, next: Id) {
    forall k :: 0 <= k < |ids| ==> ids[k] < next
  }

  /** `Category.deleteMany({ event })`: the categories of other events. */
  function DropCategoriesOf(categories: map<Id, Category>, event: Id): (r: map<Id, Category>)
    ensures forall k :: k in r <==> k in categories && categories[k].event != event
    ensures forall k :: k in r ==> r[k] == categories[k]
  {
    map k | k in categories && categories[k].event != event :: categories[k]
  }

  /** `Candidate.deleteMany({ event })`: the candidates of other events. */
  function DropCandidatesOf(candidates: map<Id, Candidate>, event: Id): (r: map<Id, Candidate>)
    ensures forall k :: k in r <==> k in candidates && candidates[k].event != event
    ensures forall k :: k in r ==> r[k] == candidates[k]
  {
    map k | k in candidates && candidates[k].event != event :: candidates[k]
  }

  /** The ids `Category.countDocuments({ event })` counts. */
  function CategoriesIn(categories: map<Id, Category>, event: Id): set<Id> {
    set k | k in categories && categories[k].event == event
  }

  /** The ids `Candidate.countDocuments({ event })` counts. */
  function CandidatesIn(candidates: map<Id, Candidate>, event: Id): set<Id> {
    set k | k in candidates && candidates[k].event == event
  }

  /** Storing one more category of an event raises that event's `categoriesCount` by one, and no other. */
  lemma {:induction false} CategoriesCountGrows(categories: map<Id, Category>, c: Category, event: Id)
    requires c.id !in categories
    ensures |CategoriesIn(categories[c.id := c], event)| == |CategoriesIn(categories, event)| + (if c.event == event then 1 else 0)
  {
    if c.event == event {
      assert CategoriesIn(categories[c.id := c], event) == CategoriesIn(categories, event) + {c.id};
    } else {
      assert CategoriesIn(categories[c.id := c], event) == CategoriesIn(categories, event);
    }
  }

  /** Storing one more candidate of an event raises that event's `candidatesCount` by one, and no other. */
  lemma {:induction false} CandidatesCountGrows(candidates: map<Id, Candidate>, c: Candidate, event: Id)
    requires c.id !in candidates
    ensures |CandidatesIn(candidates[c.id := c], event)| == |CandidatesIn(candidates, event)| + (if c.event == event then 1 else 0)
  {
    if c.event == event {
      assert CandidatesIn(candidates[c.id := c], event) == CandidatesIn(candidates, event) + {c.id};
    } else {
      assert CandidatesIn(candidates[c.id := c], event) == CandidatesIn(candidates, event);
    }
  }

  class Store {
    var votes: seq<Vote>
    var events: map<Id, Event>
    var categories: map<Id, Category>
    var candidates: map<Id, Candidate>
    var users: map<Id, User>
    /** The next `_id` to issue; every id issued so far is smaller. */
    var nextId: Id

    /**
      Ids are unique and were all issued before `nextId`, each document is
      stored under its own id, and an event lists each category and each
      judge at most once.
     */
    ghost predicate Valid()
      reads this
    {
      VotesValid() && DocsValid()
    }

    /** The vote ids are unique and were issued before `nextId`. */
    ghost predicate VotesValid()
      reads this`votes, this`nextId
    {
      && IdsDistinct(votes)
      && (forall i :: 0 <= i < |votes| ==> votes[i].id < nextId)
    }

    /** Every other document is stored under its own id, issued before `nextId`. */
    ghost predicate DocsValid()
      reads this`events, this`categories, this`candidates, this`users, this`nextId
    {
      && (forall k :: k in events ==>
            && events[k].id == k && k < nextId
            && NoDup(events[k].categories) && IssuedBefore(events[k].categories, nextId)
            && NoDup(events[k].judges) && IssuedBefore(events[k].judges, nextId))
      && (forall k :: k in categories ==> categories[k].id == k && k < nextId)
      && (forall k :: k in candidates ==> candidates[k].id == k && k < nextId)
      && (forall k :: k in users ==> users[k].id == k && k < nextId)
    }

    /** The vote ledger's invariant: one vote per ballot, every score in 1..10. */
    predicate LedgerSound()
      reads this
    {
      UniqueBallots(votes) && ScoresInRange(votes)
    }

    /** `User.findOne({ email })` finds someone. */
    predicate EmailInUse(email: string)
      reads this
    {
      exists k :: k in users && users[k].email == email
    }

    /** No two users share an email. */
    predicate EmailsDistinct()
      reads this
    {
      forall a, b :: a in users && b in users && a != b ==> users[a].email != users[b].email
    }

    constructor ()
      ensures Valid() && LedgerSound() && EmailsDistinct()
      ensures votes == [] && events == map[] && categories == map[] && candidates == map[] && users == map[]
    {
      votes := [];
      events := map[];
      categories := map[];
      candidates := map[];
      users := map[];
      nextId := 0;
    }
  }
}
