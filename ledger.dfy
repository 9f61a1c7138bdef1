/**
  The records of the tabulator's MongoDB collections, the request values the
  handlers receive, and the closed set of outcomes they report.

  Every document is identified by an `Id` (its `_id`); all collections draw
  fresh ids from one counter, as ObjectIds are unique across collections.
 */
module Ledger {

  type Id = nat

  /** A request value that may be absent or falsy (`undefined`, `null`, `""`). */
  datatype Option<+T> = None | Some(value: T)

  datatype Role = Admin | Judge

  /** The identifying tuple of a vote: one judge's score of one candidate in one category of one event. */
  datatype Ballot = Ballot(event: Id, category: Id, judge: Id, candidate: Id)

  /** models/voteModel.js: a vote document. */
  datatype Vote = Vote(id: Id, event: Id, category: Id, judge: Id, candidate: Id, score: int)
  {
    function Key(): Ballot { Ballot(event, category, judge, candidate) }
  }

  /** models/eventModel.js: the lists hold the ids of the event's categories and judges. */
  datatype Event = Event(id: Id, name: string, date: string, categories: seq<Id>, judges: seq<Id>)

  /** models/categoryModel.js */
  datatype Category = Category(id: Id, name: string, event: Id)

  /** models/candidateModel.js */
  datatype Candidate = Candidate(id: Id, name: string, event: Id)

  /** A user account (admin or judge), with the fields the handlers set. */
  datatype User = User(id: Id, name: string, email: string, password: string, role: Role)

  /** The kind of document a 404 is about. */
  datatype Entity = EventDoc | CategoryDoc | CandidateDoc | UserDoc | VoteDoc

  /** Every error response the modelled handlers send, one constructor per message kind. */
  datatype Error =
    | MissingField          // a required field or id is absent or falsy
    | InvalidScore          // a score outside 1..10 (or, for an update, no score at all)
    | DuplicateVote         // the judge already scored this candidate in this category
    | NotFound(what: Entity)
    | NoVotes               // a ranking over zero votes
    | NotAJudge             // the user's role is not "judge"
    | AlreadyAssigned       // the judge is already in the event's list
    | NotAssigned           // the judge is not in the event's list
    | EmailTaken            // a user with this email already exists

  /** The HTTP status each error is sent with. */
  function Status(e: Error): (code: int)
    ensures code in {400, 404, 409}
    ensures code == 409 <==> e == DuplicateVote
    ensures code == 404 <==> e.NotFound? || e == NoVotes
  {
    match e
    case DuplicateVote => 409
    case NotFound(_) => 404
    case NoVotes => 404
    case _ => 400
  }

  /** Outcome of a handler: the response payload, or the error it reports. */
  datatype Result<+T> = Ok(value: T) | Err(error: Error)

  const MinScore: int := 1
  const MaxScore: int := 10

  predicate InRange(score: int) { MinScore <= score <= MaxScore }

  /** JavaScript's `value || fallback` on strings: the empty string is falsy. */
  function OrElse(value: string, fallback: string): (r: string)
    ensures value != "" ==> r == value
    ensures value == "" ==> r == fallback
  {
    if value != "" then value else fallback
  }
}
