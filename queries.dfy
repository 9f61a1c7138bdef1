/**
  The MongoDB operations the controllers apply to stored data: `find`,
  `findOne` and `deleteMany` on the vote collection with an equality filter,
  and `$pull` (or an equivalent `filter`) on a list of ids.
 */
module Queries {
  import opened Ledger

  /** An equality filter on votes; an absent field does not constrain. */
  datatype VoteQuery = VoteQuery(id: Option<Id>, event: Option<Id>, category: Option<Id>, judge: Option<Id>, candidate: Option<Id>)

  function ById(id: Id): VoteQuery { VoteQuery(Some(id), None, None, None, None) }
  function ByEvent(e: Id): VoteQuery { VoteQuery(None, Some(e), None, None, None) }
  function ByCategory(c: Id): VoteQuery { VoteQuery(None, None, Some(c), None, None) }
  function ByJudge(j: Id): VoteQuery { VoteQuery(None, None, None, Some(j), None) }
  function ByCandidate(c: Id): VoteQuery { VoteQuery(None, None, None, None, Some(c)) }
  function ByBallot(b: Ballot): VoteQuery { VoteQuery(None, Some(b.event), Some(b.category), Some(b.judge), Some(b.candidate)) }

  predicate Matches(v: Vote, q: VoteQuery) {
    && (q.id.None? || v.id == q.id.value)
    && (q.event.None? || v.event == q.event.value)
    && (q.category.None? || v.category == q.category.value)
    && (q.judge.None? || v.judge == q.judge.value)
    && (q.candidate.None? || v.candidate == q.candidate.value)
  }

  /** The ledger invariant: at most one vote per (event, category, judge, candidate). */
  predicate UniqueBallots(votes: seq<Vote>) {
    forall i, j :: 0 <= i < j < |votes| ==> votes[i].Key() != votes[j].Key()
  }

  /** Every stored score lies in 1..10. */
  predicate ScoresInRange(votes: seq<Vote>) {
    forall i :: 0 <= i < |votes| ==> InRange(votes[i].score)
  }

  /** No two votes share an `_id`. */
  predicate IdsDistinct(votes: seq<Vote>) {
    forall i, j :: 0 <= i < j < |votes| ==> votes[i].id != votes[j].id
  }

  predicate NoDup(ids: seq<Id>) {
    forall i, j :: 0 <= i < j < |ids| ==> ids[i] != ids[j]
  }

  /** `Vote.findById(id)`: the position of the vote with that id, if any. */
  function IndexOfId(votes: seq<Vote>, id: Id): (r: Option<nat>)
    ensures r.Some? ==> r.value < |votes| && votes[r.value].id == id
    ensures r.None? ==> forall i :: 0 <= i < |votes| ==> votes[i].id != id
  {
    if votes == [] then None
    else if votes[0].id == id then Some(0)
    else match IndexOfId(votes[1..], id)
      case None => None
      case Some(i) => Some(i + 1)
  }

  /** `Vote.find(q)`: the matching votes, in collection order (assumed: an unsorted query promises no order). */
  function Find(votes: seq<Vote>, q: VoteQuery): seq<Vote>
  {
    if votes == [] then []
    else (if Matches(votes[0], q) then [votes[0]] else []) + Find(votes[1..], q)
  }

  /** `Vote.deleteMany(q)`: the votes that remain, in collection order. */
  function DeleteMany(votes: seq<Vote>, q: VoteQuery): seq<Vote>
  {
    if votes == [] then []
    else (if Matches(votes[0], q) then [] else [votes[0]]) + DeleteMany(votes[1..], q)
  }

  /** `find` returns exactly the matching votes. */
  lemma {:induction false} FindMembers(votes: seq<Vote>, q: VoteQuery)
    ensures forall v :: v in Find(votes, q) <==> v in votes && Matches(v, q)
    ensures |Find(votes, q)| <= |votes|
  {
    if votes != [] {
      FindMembers(votes[1..], q);
      assert votes == [votes[0]] + votes[1..];
    }
  }

  /** `deleteMany` keeps exactly the votes that do not match. */
  lemma {:induction false} DeleteManyMembers(votes: seq<Vote>, q: VoteQuery)
    ensures forall v :: v in DeleteMany(votes, q) <==> v in votes && !Matches(v, q)
    ensures |DeleteMany(votes, q)| <= |votes|
  {
    if votes != [] {
      DeleteManyMembers(votes[1..], q);
      assert votes == [votes[0]] + votes[1..];
    }
  }

  /** `deleteMany` keeps the ledger invariant: a store with unique ballots keeps them. */
  lemma {:induction false} DeleteManyKeepsUniqueBallots(votes: seq<Vote>, q: VoteQuery)
    requires UniqueBallots(votes)
    ensures UniqueBallots(DeleteMany(votes, q))
  {
    if votes != [] {
      var v, tail := votes[0], votes[1..];
      assert UniqueBallots(tail) by {
        forall i, j | 0 <= i < j < |tail| ensures tail[i].Key() != tail[j].Key() {
          assert tail[i] == votes[i + 1] && tail[j] == votes[j + 1];
        }
      }
      DeleteManyKeepsUniqueBallots(tail, q);
      var rest := DeleteMany(tail, q);
      if !Matches(v, q) {
        DeleteManyMembers(tail, q);
        forall k | 0 <= k < |rest| ensures rest[k].Key() != v.Key() {
          assert rest[k] in rest;
          var m :| 0 <= m < |tail| && tail[m] == rest[k];
          assert votes[m + 1] == rest[k];
        }
        assert DeleteMany(votes, q) == [v] + rest;
      } else {
        assert DeleteMany(votes, q) == rest;
      }
    }
  }

  /** `deleteMany` never makes two remaining votes share an id. */
  lemma {:induction false} DeleteManyKeepsIdsDistinct(votes: seq<Vote>, q: VoteQuery)
    requires IdsDistinct(votes)
    ensures IdsDistinct(DeleteMany(votes, q))
  {
    if votes != [] {
      var v, tail := votes[0], votes[1..];
      assert IdsDistinct(tail) by {
        forall i, j | 0 <= i < j < |tail| ensures tail[i].id != tail[j].id {
          assert tail[i] == votes[i + 1] && tail[j] == votes[j + 1];
        }
      }
      DeleteManyKeepsIdsDistinct(tail, q);
      var rest := DeleteMany(tail, q);
      if !Matches(v, q) {
        DeleteManyMembers(tail, q);
        forall k | 0 <= k < |rest| ensures rest[k].id != v.id {
          assert rest[k] in rest;
          var m :| 0 <= m < |tail| && tail[m] == rest[k];
          assert votes[m + 1] == rest[k];
        }
        assert DeleteMany(votes, q) == [v] + rest;
      } else {
        assert DeleteMany(votes, q) == rest;
      }
    }
  }

  /** `deleteMany` keeps every remaining score in 1..10. */
  lemma {:induction false} DeleteManyKeepsScoresInRange(votes: seq<Vote>, q: VoteQuery)
    requires ScoresInRange(votes)
    ensures ScoresInRange(DeleteMany(votes, q))
  {
    DeleteManyMembers(votes, q);
    var r := DeleteMany(votes, q);
    forall k | 0 <= k < |r| ensures InRange(r[k].score) {
      assert r[k] in r;
    }
  }

  /** `findOne` on a full ballot finds a vote exactly when some stored vote has that ballot. */
  lemma {:induction false} BallotTaken(votes: seq<Vote>, b: Ballot)
    ensures Find(votes, ByBallot(b)) != [] <==> exists i :: 0 <= i < |votes| && votes[i].Key() == b
  {
    FindMembers(votes, ByBallot(b));
    var r := Find(votes, ByBallot(b));
    if r != [] {
      assert r[0] in r;
      var i :| 0 <= i < |votes| && votes[i] == r[0];
    }
    if exists i :: 0 <= i < |votes| && votes[i].Key() == b {
      var i :| 0 <= i < |votes| && votes[i].Key() == b;
      assert votes[i] in r;
    }
  }

  /** `findByIdAndDelete`: with distinct ids, deleting by the id of the vote at `i` removes exactly that vote. */
  lemma {:induction false} DeleteByIdRemovesOne(votes: seq<Vote>, i: nat)
    requires IdsDistinct(votes) && i < |votes|
    ensures DeleteMany(votes, ById(votes[i].id)) == votes[..i] + votes[i + 1..]
  {
    var q := ById(votes[i].id);
    var tail := votes[1..];
    if i == 0 {
      assert DeleteMany(votes, q) == DeleteMany(tail, q);
      assert votes[0].id !in set k | 0 <= k < |tail| :: tail[k].id by {
        forall k | 0 <= k < |tail| ensures tail[k].id != votes[0].id {
          assert tail[k] == votes[k + 1];
        }
      }
      forall k | 0 <= k < |tail| ensures !Matches(tail[k], q) {
        assert tail[k] == votes[k + 1];
      }
      DeleteNoneOf(tail, q);
    } else {
      assert IdsDistinct(tail) by {
        forall a, b | 0 <= a < b < |tail| ensures tail[a].id != tail[b].id {
          assert tail[a] == votes[a + 1] && tail[b] == votes[b + 1];
        }
      }
      assert tail[i - 1] == votes[i];
      DeleteByIdRemovesOne(tail, i - 1);
      assert DeleteMany(votes, q) == [votes[0]] + DeleteMany(tail, q);
      assert tail[..i - 1] + tail[i..] == votes[1..i] + votes[i + 1..];
      assert votes[..i] == [votes[0]] + votes[1..i];
    }
  }

  /**
    `findByIdAndDelete` on an existing id: the vote at `i` is cut out, and
    the ledger's invariants hold of what is left.
   */
  lemma {:induction false} DeleteOneById(votes: seq<Vote>, i: nat, bound: Id)
    requires IdsDistinct(votes) && i < |votes|
    requires forall k :: 0 <= k < |votes| ==> votes[k].id < bound
    ensures var d := DeleteMany(votes, ById(votes[i].id));
      && d == votes[..i] + votes[i + 1..]
      && IdsDistinct(d)
      && (forall k :: 0 <= k < |d| ==> d[k].id < bound)
      && (UniqueBallots(votes) ==> UniqueBallots(d))
      && (ScoresInRange(votes) ==> ScoresInRange(d))
  {
    var q := ById(votes[i].id);
    var d := DeleteMany(votes, q);
    DeleteByIdRemovesOne(votes, i);
    DeleteManyMembers(votes, q);
    DeleteManyKeepsIdsDistinct(votes, q);
    forall k | 0 <= k < |d| ensures d[k].id < bound {
      assert d[k] == votes[if k < i then k else k + 1];
    }
    if UniqueBallots(votes) {
      DeleteManyKeepsUniqueBallots(votes, q);
    }
    if ScoresInRange(votes) {
      DeleteManyKeepsScoresInRange(votes, q);
    }
  }

  /** Cutting out the vote at `i` removes exactly the votes with its id, since ids are unique. */
  lemma {:induction false} RemoveAtMembers(votes: seq<Vote>, i: nat)
    requires IdsDistinct(votes) && i < |votes|
    ensures forall v :: v in votes[..i] + votes[i + 1..] <==> v in votes && v.id != votes[i].id
  {
    DeleteByIdRemovesOne(votes, i);
    DeleteManyMembers(votes, ById(votes[i].id));
  }

  /** A delete whose filter matches no stored vote leaves the collection as it is. */
  lemma {:induction false} DeleteNoneOf(votes: seq<Vote>, q: VoteQuery)
    requires forall k :: 0 <= k < |votes| ==> !Matches(votes[k], q)
    ensures DeleteMany(votes, q) == votes
  {
    if votes != [] {
      DeleteNoneOf(votes[1..], q);
      assert votes == [votes[0]] + votes[1..];
    }
  }

  /** `find` and `deleteMany` with one filter split the collection between them: every vote lands in exactly one. */
  lemma {:induction false} FindDeleteManyPartition(votes: seq<Vote>, q: VoteQuery)
    ensures multiset(Find(votes, q)) + multiset(DeleteMany(votes, q)) == multiset(votes)
    ensures |Find(votes, q)| + |DeleteMany(votes, q)| == |votes|
  {
    if votes != [] {
      FindDeleteManyPartition(votes[1..], q);
      assert votes == [votes[0]] + votes[1..];
    }
  }

  /** Deleting twice with the same filter deletes nothing more. */
  lemma {:induction false} DeleteManyIdempotent(votes: seq<Vote>, q: VoteQuery)
    ensures DeleteMany(DeleteMany(votes, q), q) == DeleteMany(votes, q)
  {
    if votes != [] {
      DeleteManyIdempotent(votes[1..], q);
      var v, rest := votes[0], DeleteMany(votes[1..], q);
      if Matches(v, q) {
        assert DeleteMany(votes, q) == rest;
      } else {
        assert DeleteMany(votes, q) == [v] + rest;
        assert ([v] + rest)[1..] == rest;
        assert DeleteMany([v] + rest, q) == [v] + DeleteMany(rest, q);
      }
    }
  }

  /** After a delete, a query that only selects deleted votes finds nothing. */
  lemma {:induction false} FindAfterDeleteAll(votes: seq<Vote>, deleted: VoteQuery, q: VoteQuery)
    requires forall v :: Matches(v, q) ==> Matches(v, deleted)
    ensures Find(DeleteMany(votes, deleted), q) == []
  {
    if votes != [] {
      FindAfterDeleteAll(votes[1..], deleted, q);
      var v, rest := votes[0], DeleteMany(votes[1..], deleted);
      if Matches(v, deleted) {
        assert DeleteMany(votes, deleted) == rest;
      } else {
        assert DeleteMany(votes, deleted) == [v] + rest;
        assert ([v] + rest)[1..] == rest;
      }
    }
  }

  /** After a delete, a query that never selects a deleted vote finds what it found before, in the same order. */
  lemma {:induction false} FindAfterDeleteNone(votes: seq<Vote>, deleted: VoteQuery, q: VoteQuery)
    requires forall v :: Matches(v, q) ==> !Matches(v, deleted)
    ensures Find(DeleteMany(votes, deleted), q) == Find(votes, q)
  {
    if votes != [] {
      FindAfterDeleteNone(votes[1..], deleted, q);
      var v := votes[0];
      if Matches(v, deleted) {
        assert DeleteMany(votes, deleted) == DeleteMany(votes[1..], deleted);
        assert Find(votes, q) == Find(votes[1..], q);
      } else {
        assert DeleteMany(votes, deleted) == [v] + DeleteMany(votes[1..], deleted);
        assert ([v] + DeleteMany(votes[1..], deleted))[1..] == DeleteMany(votes[1..], deleted);
      }
    }
  }

  /** `$pull: { list: x }`, and `list.filter(y => y != x)`: every occurrence of `x` removed. */
  function Pull(ids: seq<Id>, x: Id): seq<Id>
  {
    if ids == [] then []
    else (if ids[0] == x then [] else [ids[0]]) + Pull(ids[1..], x)
  }

  /** Pulling keeps exactly the other ids, and a duplicate-free list stays duplicate-free. */
  lemma {:induction false} PullMembers(ids: seq<Id>, x: Id)
    ensures forall y :: y in Pull(ids, x) <==> y in ids && y != x
    ensures NoDup(ids) ==> NoDup(Pull(ids, x))
  {
    if ids != [] {
      var tail := ids[1..];
      PullMembers(tail, x);
      assert ids == [ids[0]] + tail;
      var rest := Pull(tail, x);
      if NoDup(ids) {
        assert NoDup(tail) by {
          forall i, j | 0 <= i < j < |tail| ensures tail[i] != tail[j] {
            assert tail[i] == ids[i + 1] && tail[j] == ids[j + 1];
          }
        }
        forall k | 0 <= k < |rest| ensures rest[k] != ids[0] {
          assert rest[k] in rest;
          var m :| 0 <= m < |tail| && tail[m] == rest[k];
          assert ids[m + 1] == rest[k];
        }
      }
    }
  }

  /** Pulling an absent id changes nothing. */
  lemma {:induction false} PullAbsent(ids: seq<Id>, x: Id)
    requires x !in ids
    ensures Pull(ids, x) == ids
  {
    if ids != [] {
      PullAbsent(ids[1..], x);
      assert ids == [ids[0]] + ids[1..];
    }
  }

  /** Pulling works piecewise, so the ids that stay keep their relative order. */
  lemma {:induction false} PullConcat(a: seq<Id>, b: seq<Id>, x: Id)
    ensures Pull(a + b, x) == Pull(a, x) + Pull(b, x)
  {
    if a == [] {
      assert a + b == b;
    } else {
      assert (a + b)[1..] == a[1..] + b;
      PullConcat(a[1..], b, x);
      var head := if a[0] == x then [] else [a[0]];
      assert Pull(a + b, x) == head + Pull(a[1..] + b, x);
      assert Pull(a, x) == head + Pull(a[1..], x);
    }
  }

  /** Pulling an id that occurs once shortens the list by exactly one. */
  lemma {:induction false} PullPresent(ids: seq<Id>, x: Id)
    requires NoDup(ids) && x in ids
    ensures |Pull(ids, x)| == |ids| - 1
  {
    if ids[0] == x {
      assert x !in ids[1..] by {
        forall k | 0 <= k < |ids[1..]| ensures ids[1..][k] != x {
          assert ids[1..][k] == ids[k + 1];
        }
      }
      PullAbsent(ids[1..], x);
    } else {
      assert NoDup(ids[1..]) by {
        forall i, j | 0 <= i < j < |ids[1..]| ensures ids[1..][i] != ids[1..][j] {
          assert ids[1..][i] == ids[i + 1] && ids[1..][j] == ids[j + 1];
        }
      }
      PullPresent(ids[1..], x);
    }
  }

  /**
    In a duplicate-free list, pulling the id at position `i` removes exactly
    that position: the remaining ids keep their order.
   */
  lemma {:induction false} PullAt(ids: seq<Id>, i: nat)
    requires NoDup(ids) && i < |ids|
    ensures Pull(ids, ids[i]) == ids[..i] + ids[i + 1..]
  {
    OnlyOnce(ids, i);
    assert ids == ids[..i] + ([ids[i]] + ids[i + 1..]);
    PullSplit(ids[..i], ids[i], ids[i + 1..]);
  }

  /** In a duplicate-free list the id at `i` occurs neither before nor after `i`. */
  lemma {:induction false} OnlyOnce(ids: seq<Id>, i: nat)
    requires NoDup(ids) && i < |ids|
    ensures ids[i] !in ids[..i] && ids[i] !in ids[i + 1..]
  {
    var before, after := ids[..i], ids[i + 1..];
    forall k | 0 <= k < |before| ensures before[k] != ids[i] {
      assert before[k] == ids[k];
    }
    forall k | 0 <= k < |after| ensures after[k] != ids[i] {
      assert after[k] == ids[i + 1 + k];
    }
  }

  /** Pulling the one occurrence of `x` joins what surrounds it. */
  lemma {:induction false} PullSplit(before: seq<Id>, x: Id, after: seq<Id>)
    requires x !in before && x !in after
    ensures Pull(before + ([x] + after), x) == before + after
  {
    PullAbsent(before, x);
    PullAbsent(after, x);
    var xa := [x] + after;
    assert xa[0] == x && xa[1..] == after;
    assert Pull(xa, x) == after;
    PullConcat(before, xa, x);
  }

  /** The set of ids a list holds. */
  function Distinct(ids: seq<Id>): set<Id> { set y | y in ids }

  /** A duplicate-free list has as many entries as distinct ids. */
  lemma {:induction false} NoDupCount(ids: seq<Id>)
    requires NoDup(ids)
    ensures |Distinct(ids)| == |ids|
  {
    if ids != [] {
      var tail := ids[1..];
      assert NoDup(tail) by {
        forall i, j | 0 <= i < j < |tail| ensures tail[i] != tail[j] {
          assert tail[i] == ids[i + 1] && tail[j] == ids[j + 1];
        }
      }
      NoDupCount(tail);
      assert ids[0] !in tail by {
        forall k | 0 <= k < |tail| ensures tail[k] != ids[0] {
          assert tail[k] == ids[k + 1];
        }
      }
      assert Distinct(ids) == Distinct(tail) + {ids[0]} by {
        assert ids == [ids[0]] + tail;
      }
    }
  }
}
