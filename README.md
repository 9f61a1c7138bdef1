# Tabulator vote ledger, in Dafny

A model of the scoring back end of the tabulator: judges submit one score
(1 to 10) per candidate per category per event, the votes can be corrected
or deleted one at a time, and a ranking of an event (optionally of one
category) groups the votes by candidate, sums them, sorts by total score and
numbers the positions. Around the ledger sit the administrator's handlers,
which create, edit and delete events, categories, candidates and judge
accounts and cascade each deletion into the votes that refer to it, and an
event controller that assigns judges to events.

Layout (one module per file):

- `ledger.dfy` — `Ledger`: the documents (`Vote`, `Event`, `Category`,
  `Candidate`, `User`), the falsy-or-absent request value `Option`, the
  closed set of error responses `Error` with their HTTP status, `Result`.
- `queries.dfy` — `Queries`: Mongo-style vote filters (`find`,
  `deleteMany`, `findById`) and `$pull` on id lists, with their algebra.
- `ranking.dfy` — `Ranking`: the grouping loop of `getRanking` as a method
  proved against a grouping function, the stable sort by total, the ranks,
  and the properties of the ranking.
- `store.dfy` — `Storage`: the `Store` class holding the collections (votes
  in insertion order, the others keyed by id) and its invariants.
- `votes.dfy`, `admin.dfy`, `events.dfy` — the three controllers, one method
  per handler, taking the store they change.

Ids are natural numbers drawn from one counter (`Store.nextId`), as
ObjectIds are unique across collections. A request field that the handler
tests for truthiness is an `Option` (or a string where `""` is the falsy
value); an id that is only looked up is a plain `Id`. Every handler checks
its error cases in the order the source does, and returns `Err` with the
store unchanged on each of them.

The grouping loop keeps the candidates in the order of their first vote
(the key order of `Object.entries` for ObjectId keys) and the sort is
stable, so candidates with equal totals keep that order: with scores 5 and
7 for one candidate and then 10 and 2 for another, the first candidate is
ranked 1 and the second 2 (`Ranking.TieRanksFirstVotedFirst`).

## Model

| member | source | states |
|---|---|---|
| Ledger.Status | controllers/voteController.js:8-34 | a duplicate vote is the only 409; a missing document or an empty ranking is a 404; every other rejection is a 400 |
| Ledger.OrElse | controllers/eventController.js:67-68 | the logical-or merge of every update handler (`name` or the stored name): a non-empty request value wins, an empty one keeps the stored value |
| Queries.IndexOfId | controllers/voteController.js:199-204 | `findById` finds the position of the vote with that id, or reports that no vote has it |
| Queries.Find | controllers/voteController.js:80-83 | `Vote.find` with a filter, the matching votes in collection order; what it returns is stated by `Queries.FindMembers` |
| Queries.DeleteMany | controllers/adminController.js:227 | `Vote.deleteMany` with a filter, the votes left in collection order; what it keeps is stated by `Queries.DeleteManyMembers` and `Queries.FindDeleteManyPartition` |
| Queries.Pull | controllers/adminController.js:336-338 | `$pull` of one id from an id list; what it keeps is stated by `Queries.PullMembers` and `Queries.PullAt` |
| Queries.FindMembers | controllers/voteController.js:80-83 | `find` returns exactly the stored votes that match every given field, and no more votes than there are |
| Queries.DeleteManyMembers | controllers/adminController.js:227 | `deleteMany` keeps exactly the votes that do not match the filter |
| Queries.DeleteManyKeepsUniqueBallots | controllers/adminController.js:341 | deleting votes never creates two votes for one (event, category, judge, candidate) |
| Queries.DeleteManyKeepsIdsDistinct | controllers/adminController.js:448 | deleting votes keeps vote ids distinct |
| Queries.DeleteManyKeepsScoresInRange | controllers/adminController.js:599 | deleting votes keeps every score in 1..10 |
| Queries.BallotTaken | controllers/voteController.js:23-30 | the duplicate lookup finds a vote exactly when a stored vote has the same event, category, judge and candidate |
| Queries.DeleteByIdRemovesOne | controllers/voteController.js:245 | deleting by id removes exactly the one vote with that id; the others keep their order |
| Queries.DeleteOneById | controllers/voteController.js:245 | deleting an existing vote by id cuts out its position, keeps ids distinct and below the counter, and keeps one vote per ballot and scores in range |
| Queries.RemoveAtMembers | controllers/voteController.js:245 | with unique ids, cutting out one position removes exactly the votes with that vote's id |
| Queries.DeleteNoneOf | controllers/adminController.js:227 | a `deleteMany` that matches nothing changes nothing (deleting zero votes is not an error) |
| Queries.FindDeleteManyPartition | controllers/adminController.js:227 | the votes a filter finds and the votes its `deleteMany` keeps split the collection: as multisets they add up to it, so every vote lands in exactly one of the two |
| Queries.DeleteManyIdempotent | controllers/adminController.js:227 | repeating a `deleteMany` removes nothing more |
| Queries.FindAfterDeleteAll | controllers/adminController.js:341 | after deleting by a filter, a query whose matches all match that filter finds nothing |
| Queries.FindAfterDeleteNone | controllers/adminController.js:341 | after deleting by a filter, a query disjoint from it finds exactly what it found before |
| Queries.PullMembers | controllers/adminController.js:336-338 | `$pull` keeps exactly the other ids, and a duplicate-free list stays duplicate-free |
| Queries.PullAbsent | controllers/adminController.js:594-596 | pulling an id that is not in the list leaves it as it was |
| Queries.PullConcat | controllers/eventController.js:190 | the filter works piecewise, so the ids that stay keep their relative order |
| Queries.PullPresent | controllers/eventController.js:190 | pulling an id present once shortens the list by exactly one |
| Queries.PullAt | controllers/eventController.js:190 | in a duplicate-free list, pulling the id at a position removes exactly that position |
| Queries.NoDupCount | controllers/eventController.js:216 | a duplicate-free list has as many entries as distinct ids |
| Ranking.TallyVotes | controllers/voteController.js:92-113 | the `forEach` loop builds, for each candidate in order of first vote, the sum, count and list of that candidate's scores |
| Ranking.FirstSeen | controllers/voteController.js:95-108 | the key order of `candidateScores`: each voted candidate once, in the order of its first vote (`Ranking.FirstSeenMembers`) |
| Ranking.ScoresOf | controllers/voteController.js:110-112 | one candidate's scores in vote order; its tally grows as `Ranking.TallyOfSnocSame` and `Ranking.TallyOfSnocOther` state |
| Ranking.Standings | controllers/voteController.js:116-123 | the entries of `Object.entries(candidateScores)` after the first `map`; the loop computes exactly these (`Ranking.TallyVotes`) |
| Ranking.Accumulate | controllers/voteController.js:95-113 | one step of the `forEach` callback takes the dictionary for the votes seen so far to the dictionary for those votes and one more |
| Ranking.TalliedStep | controllers/voteController.js:98-112 | a new candidate is appended to the key order, the vote's score joins its own candidate's tally, and every other tally is kept |
| Ranking.TallyOfSnocSame | controllers/voteController.js:110-112 | one more vote adds its score to its candidate's total, one to its count and the score to the end of its list |
| Ranking.TallyOfSnocOther | controllers/voteController.js:110-112 | one more vote leaves every other candidate's tally as it was |
| Ranking.FirstSeenMembers | controllers/voteController.js:98-108 | the dictionary gets one key per candidate with a vote, each once |
| Ranking.UnseenHasNoScores | controllers/voteController.js:98-108 | a candidate never seen has no scores |
| Ranking.StandingsCountAllVotes | controllers/voteController.js:111 | the vote counts of the groups add up to the number of votes considered |
| Ranking.StandingsNonEmpty | controllers/voteController.js:120 | every group has at least one vote, so the average never divides by zero |
| Ranking.Insert | controllers/voteController.js:124 | one insertion step of the stable sort by total, highest first; the sort's properties are stated by `Ranking.SortByTotalSorts` and `Ranking.SortByTotalStable` |
| Ranking.SortByTotal | controllers/voteController.js:124 | the `.sort` by total score, highest first; sorted, a permutation and stable per `Ranking.SortByTotalSorts` and `Ranking.SortByTotalStable` |
| Ranking.SortByTotalSorts | controllers/voteController.js:124 | the sort orders by total, highest first, and is a permutation of the groups |
| Ranking.SortByTotalStable | controllers/voteController.js:124 | groups with equal totals keep their relative order |
| Ranking.Rank | controllers/voteController.js:125-128 | ranks are positions plus one; each entry copies its group, with the average times the count equal to the total |
| Ranking.SortedNonEmpty | controllers/voteController.js:120 | every sorted group has a vote |
| Ranking.RankingOf | controllers/voteController.js:91-128 | the whole ranking pipeline on the fetched votes; what it produces is stated by `Ranking.RankingCorrect` |
| Ranking.RankingEntriesAreGroups | controllers/voteController.js:116-123 | each entry holds one candidate's scores in fetch order, their sum and their number |
| Ranking.RankingEntryIsGroup | controllers/voteController.js:116-123 | the entry at any one position holds one voted candidate's scores in fetch order, their sum and their number |
| Ranking.RankingCoversVotedCandidates | controllers/voteController.js:95-113 | every candidate with a vote is ranked |
| Ranking.RankingCandidatesDistinct | controllers/voteController.js:116 | no candidate is ranked twice |
| Ranking.RankingCorrect | controllers/voteController.js:95-133 | a candidate is ranked iff it has a vote, once, with its own scores, sum and count; totals never increase down the list; rank is position + 1; the counts add up to `totalVotes` |
| Ranking.RankingTiesKeepFirstSeenOrder | controllers/voteController.js:116-128 | candidates with equal totals appear in the order of their first vote |
| Ranking.RankingScoreBounds | controllers/voteController.js:16-20 | with scores in 1..10, each entry has a vote, a total between its count and ten times it, and an average in 1..10 |
| Ranking.TieRanksFirstVotedFirst | controllers/voteController.js:116-128 | totals 5+7 and 10+2 tie at 12: the candidate voted for first gets rank 1, both average 6 |
| Storage.DropCategoriesOf | controllers/adminController.js:225 | removing an event's categories keeps exactly the categories of other events, unchanged |
| Storage.DropCandidatesOf | controllers/adminController.js:226 | removing an event's candidates keeps exactly the candidates of other events, unchanged |
| Storage.CategoriesIn | controllers/eventController.js:214 | the categories `Category.countDocuments({ event })` counts; `Storage.CategoriesCountGrows` says how one more category changes it |
| Storage.CandidatesIn | controllers/eventController.js:215 | the candidates `Candidate.countDocuments({ event })` counts; `Storage.CandidatesCountGrows` says how one more candidate changes it |
| Storage.CategoriesCountGrows | controllers/eventController.js:214 | one more category of an event raises that event's count by one and no other event's |
| Storage.CandidatesCountGrows | controllers/eventController.js:215 | one more candidate of an event raises that event's count by one and no other event's |
| VoteController.SubmitVote | controllers/voteController.js:8-42 | missing field, then score range, then duplicate ballot, each with the ledger unchanged; otherwise exactly one new vote with the given fields is appended; one vote per ballot and scores in range are kept |
| VoteController.GetRanking | controllers/voteController.js:68-135 | no event id is a 400; no matching vote is a 404; otherwise the report holds the number of matching votes and their ranking |
| VoteController.RankingQuery | controllers/voteController.js:74-78 | the filter `getRanking` builds: the event, and the category only when one is given; what it matches is stated by `VoteController.RankingConsidersExactly` |
| VoteController.RankingConsidersExactly | controllers/voteController.js:75-80 | the ranking considers exactly the votes of the event, and of the category when one is given |
| VoteController.GetVotesByJudge | controllers/voteController.js:150-161 | no judge id is a 400; otherwise exactly the judge's votes, in the given event when one is named |
| VoteController.UpdateVote | controllers/voteController.js:187-207 | missing id, then missing or out-of-range score, then unknown id, each with no change; otherwise only that vote's score changes, its ballot and every other vote stay, and the ledger invariant holds |
| VoteController.DeleteVote | controllers/voteController.js:232-245 | missing id, then unknown id, with no change; otherwise exactly that vote is removed and the others keep their order |
| EventController.CreateEvent | controllers/eventController.js:44-48 | a missing name or date creates nothing; otherwise one new event with empty category and judge lists (the admin handler, controllers/adminController.js lines 160-171, stores the same fields) |
| EventController.UpdateEvent | controllers/eventController.js:61-68 | unknown event is a 404; a falsy name or date keeps the stored one, a truthy one replaces it; nothing else changes (the admin handler, controllers/adminController.js lines 191-198, applies the same rule) |
| EventController.DeleteEvent | controllers/eventController.js:82-92 | unknown event is a 404; otherwise the event, its categories and its candidates go and every vote stays |
| EventController.AddJudgeToEvent | controllers/eventController.js:139-161 | no event, then no user, then not a judge, then already assigned, each with no change; otherwise the judge is appended, the list stays duplicate-free and grows by one |
| EventController.RemoveJudgeFromEvent | controllers/eventController.js:178-191 | no event is a 404, an unassigned judge a 400; otherwise exactly the judge's position leaves the list and the other judges keep their order |
| EventController.GetEventStats | controllers/eventController.js:208-216 | unknown event is a 404; otherwise name, date, the numbers of the event's categories and candidates, and the length of its judge list |
| EventController.JudgesCountIsDistinctJudges | controllers/eventController.js:216 | in a consistent store `judgesCount` is the number of distinct judges assigned |
| AdminController.RegisterAdmin | controllers/adminController.js:14-25 | missing field, then email in use, each creating nothing; otherwise one new admin account; emails stay distinct |
| AdminController.DeleteEvent | controllers/adminController.js:219-228 | unknown event is a 404 with nothing removed; otherwise its categories, candidates and votes go, then the event; no vote refers to it afterwards and every other vote stays |
| AdminController.DropVotes | controllers/adminController.js:227 | a cascade's `deleteMany` keeps exactly the non-matching votes and the ledger invariant |
| AdminController.AddCategory | controllers/adminController.js:265-283 | missing name, then unknown event; otherwise a new category of that event whose id is appended to the event's list; that event's category count rises by one and no other event's changes |
| AdminController.UpdateCategory | controllers/adminController.js:303-309 | unknown category is a 404; a falsy name keeps the stored one |
| AdminController.DeleteCategory | controllers/adminController.js:330-344 | unknown category is a 404; otherwise its id leaves the route's event, its votes go and votes of other categories stay, then the category goes |
| AdminController.PullFromEvent | controllers/adminController.js:336-338 | `findByIdAndUpdate` with `$pull` on a missing event changes nothing; otherwise the id leaves that list only |
| AdminController.AddCandidate | controllers/adminController.js:381-395 | missing name, then unknown event; otherwise a new candidate of that event; that event's candidate count rises by one and no other event's changes |
| AdminController.UpdateCandidate | controllers/adminController.js:415-421 | unknown candidate is a 404; a falsy name keeps the stored one |
| AdminController.DeleteCandidate | controllers/adminController.js:442-451 | unknown candidate is a 404; otherwise its votes go, votes for others stay, then the candidate goes |
| AdminController.AddJudge | controllers/adminController.js:494-523 | missing field, then unknown event, then email in use; otherwise a judge account whose id is appended to the event's judges; emails stay distinct |
| AdminController.UpdateJudge | controllers/adminController.js:548-558 | unknown user is a 404, a non-judge a 400; a falsy name or email keeps the stored one |
| AdminController.DeleteJudge | controllers/adminController.js:584-602 | unknown user, then non-judge, with no change; otherwise the judge leaves the route's event, all the judge's votes in every event go, then the account |
| AdminController.DeletedEventHasNoRanking | controllers/adminController.js:227 | after the cascade a ranking of the deleted event finds no votes (a 404) |
| AdminController.OtherEventRankingKept | controllers/adminController.js:227 | the cascade leaves the votes every other event's ranking considers unchanged |
| AdminController.DeletedCategoryHasNoRanking | controllers/adminController.js:341 | after the cascade a ranking of the deleted category finds no votes |
| AdminController.OtherCategoryRankingKept | controllers/adminController.js:341 | the cascade leaves the votes of every other category's ranking unchanged |
| AdminController.DeletedCandidateNotRanked | controllers/adminController.js:448 | after the cascade no ranking lists the deleted candidate |
| AdminController.DeletedJudgeHasNoVotes | controllers/adminController.js:599 | after the cascade the judge has no votes in any event |

## Left out

- Express and Mongoose plumbing: routing, `res.status(...).json`, the response messages, `populate` (names of events, categories, judges and candidates in responses), and the 500 branches of every handler's `catch` (including the cast error of a malformed id and the failure of `getRanking` when a vote's candidate document no longer exists).
- Authentication: `login`, the `protect`/`adminOnly` middleware, password hashing and `generateToken`; passwords are stored as given. models/userModel.js is not part of this model; users carry the fields the handlers set.
- Ranking.Rank: `averageScore` is an exact real (its product with the vote count is the total), not a floating-point quotient.
- VoteController.SubmitVote: scores are integers; JavaScript's acceptance of fractional or numeric-string scores is not modelled, and `null` is treated like an absent score.
- Queries.Find: the model assumes that a query without a sort returns votes in insertion order, which MongoDB does not promise; the order of tied candidates in a real ranking (and of the votes `getVotesByJudge` returns) may therefore differ from `Ranking.TieRanksFirstVotedFirst`.
- VoteController.GetVotesByJudge: returns the votes in fetch order; the `createdAt` sort (a field the vote schema lacks) is not modelled.
- The check-then-insert race of `submitVote` under concurrent requests: operations run one after another.
- `description`, `createdBy` and date casting: the schemas have no `description` or `createdBy` field, so the stored documents never hold them; event dates are kept as the strings given.
- AdminController.UpdateJudge: does not re-check that the new email is unused, as the handler does not, so it does not promise that emails stay distinct.
- AdminController.DeleteJudge and AdminController.DeleteCategory: only the event named in the route loses the id; other events' lists may still name the deleted judge or category, as in the source.
- EventController.AddJudgeToEvent: ids are taken in canonical form (an `Id` is a number, equal only to itself). The source compares the request's id string against the stored ObjectIds with `includes`, so a judge id spelled differently (upper-case hex, say) that `findById` still resolves can slip past the already-assigned check and store the judge twice; the model, and the duplicate-free judge lists in `Storage.Store.Valid`, do not cover that case.
- EventController.DeleteEvent: the votes of the deleted event stay and may name deleted candidates, as in the source.
- Read-only handlers (`getDashboardStats`, `getEvents`, `getEvent`, `getCategories`, `getCandidates`, `getJudges`, `getAllEvents`, `getEventById`, `getEventCategories`, `getEventJudges`), the seeder, the server start-up code and the error middleware.
