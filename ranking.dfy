/**
  The leaderboard of `getRanking`: votes are grouped by candidate in the
  order candidates are first seen, each group is summed, the groups are
  sorted by total score (highest first, stably) and ranked by position.
 */
module Ranking {
  import opened Ledger
  import opened Queries

  /** One value of the handler's `candidateScores` dictionary. */
  datatype Tally = Tally(totalScore: int, voteCount: nat, scores: seq<int>)

  /** One entry of `Object.entries(candidateScores)` after the first `map`. */
  datatype Standing = Standing(candidate: Id, totalScore: int, voteCount: nat, scores: seq<int>)

  /** One entry of the ranking the handler returns. */
  datatype Placing = Placing(rank: nat, candidate: Id, totalScore: int, averageScore: real, voteCount: nat, scores: seq<int>)

  // ---------------------------------------------------------------------------
  // Grouping by candidate

  function Sum(s: seq<int>): int {
    if s == [] then 0 else Sum(s[..|s| - 1]) + s[|s| - 1]
  }

  predicate HasVote(votes: seq<Vote>, c: Id) {
    exists i :: 0 <= i < |votes| && votes[i].candidate == c
  }

  /** The scores of the votes for `c`, in the order the votes were fetched. */
  function ScoresOf(votes: seq<Vote>, c: Id): seq<int> {
    if votes == [] then []
    else
      var last := votes[|votes| - 1];
      ScoresOf(votes[..|votes| - 1], c) + (if last.candidate == c then [last.score] else [])
  }

  /** The candidates that received a vote, each once, in the order of their first vote. */
  function FirstSeen(votes: seq<Vote>): seq<Id> {
    if votes == [] then []
    else
      var seen, c := FirstSeen(votes[..|votes| - 1]), votes[|votes| - 1].candidate;
      if c in seen then seen else seen + [c]
  }

  function TallyOf(votes: seq<Vote>, c: Id): Tally {
    var sc := ScoresOf(votes, c);
    Tally(Sum(sc), |sc|, sc)
  }

  function StandingOf(votes: seq<Vote>, c: Id): Standing {
    var t := TallyOf(votes, c);
    Standing(c, t.totalScore, t.voteCount, t.scores)
  }

  /** The per-candidate aggregates, one per candidate in first-seen order. */
  function Standings(votes: seq<Vote>): seq<Standing> {
    var cs := FirstSeen(votes);
    seq(|cs|, k requires 0 <= k < |cs| => StandingOf(votes, cs[k]))
  }

  lemma {:induction false} UnseenHasNoScores(votes: seq<Vote>, c: Id)
    requires c !in FirstSeen(votes)
    ensures ScoresOf(votes, c) == []
  {
    FirstSeenMembers(votes);
    ScoresOfEmpty(votes, c);
  }

  /** The dictionary state after visiting `seen`: one tally per candidate seen, in key order `order`. */
  ghost predicate Tallied(seen: seq<Vote>, order: seq<Id>, tallies: map<Id, Tally>) {
    && order == FirstSeen(seen)
    && (forall c :: c in tallies <==> c in order)
    && (forall c :: c in tallies ==> tallies[c] == TallyOf(seen, c))
  }

  /** The `forEach` loop of getRanking: accumulate every vote into its candidate's tally. */
  method TallyVotes(votes: seq<Vote>) returns (standings: seq<Standing>)
    ensures standings == Standings(votes)
  {
    var order: seq<Id> := [];             // key order of the dictionary
    var tallies: map<Id, Tally> := map[]; // candidateScores
    var i := 0;
    while i < |votes|
      invariant 0 <= i <= |votes|
      invariant Tallied(votes[..i], order, tallies)
    {
      assert votes[..i + 1] == votes[..i] + [votes[i]];
      order, tallies := Accumulate(votes[..i], order, tallies, votes[i]);
      i := i + 1;
    }
    assert votes[..i] == votes;
    standings := seq(|order|, k requires 0 <= k < |order| =>
      var t := tallies[order[k]]; Standing(order[k], t.totalScore, t.voteCount, t.scores));
    TalliedStandings(votes, order, tallies, standings);
  }

  /** The `forEach` callback: open the candidate's tally if it has none yet, then add the vote to it. */
  method Accumulate(ghost seen: seq<Vote>, order: seq<Id>, tallies: map<Id, Tally>, v: Vote)
    returns (order': seq<Id>, tallies': map<Id, Tally>)
    requires Tallied(seen, order, tallies)
    ensures Tallied(seen + [v], order', tallies')
  {
    order', tallies' := order, tallies;
    if v.candidate !in tallies' {
      tallies' := tallies'[v.candidate := Tally(0, 0, [])];
      order' := order' + [v.candidate];
    }
    var t := tallies'[v.candidate];
    tallies' := tallies'[v.candidate := Tally(t.totalScore + v.score, t.voteCount + 1, t.scores + [v.score])];
    TalliedStep(seen, v, order, tallies, order', tallies');
  }

  /** Reading the finished dictionary in key order gives the per-candidate aggregates. */
  lemma {:induction false} TalliedStandings(votes: seq<Vote>, order: seq<Id>, tallies: map<Id, Tally>, standings: seq<Standing>)
    requires Tallied(votes, order, tallies)
    requires |standings| == |order|
    requires forall k :: 0 <= k < |order| ==>
      standings[k] == Standing(order[k], tallies[order[k]].totalScore, tallies[order[k]].voteCount, tallies[order[k]].scores)
    ensures standings == Standings(votes)
  {
  }

  /**
    One more vote: its candidate joins the key order if new, its score joins
    that candidate's tally, and every other tally stays as it was.
   */
  lemma {:induction false} TalliedStep(seen: seq<Vote>, v: Vote, order: seq<Id>, tallies: map<Id, Tally>,
                                       order': seq<Id>, tallies': map<Id, Tally>)
    requires Tallied(seen, order, tallies)
    requires order' == if v.candidate in tallies then order else order + [v.candidate]
    requires forall c :: c in tallies' <==> c in tallies || c == v.candidate
    requires v.candidate in tallies'
    requires var t := if v.candidate in tallies then tallies[v.candidate] else Tally(0, 0, []);
      tallies'[v.candidate] == Tally(t.totalScore + v.score, t.voteCount + 1, t.scores + [v.score])
    requires forall c :: c in tallies && c != v.candidate ==> tallies'[c] == tallies[c]
    ensures Tallied(seen + [v], order', tallies')
  {
    var t := if v.candidate in tallies then tallies[v.candidate] else Tally(0, 0, []);
    FirstSeenSnoc(seen, v);
    assert order' == FirstSeen(seen + [v]);
    if v.candidate !in tallies {
      UnseenHasNoScores(seen, v.candidate);
    }
    TallyOfSnocSame(seen, v, t);
    forall c | c in tallies' ensures tallies'[c] == TallyOf(seen + [v], c) {
      if c != v.candidate {
        TallyOfSnocOther(seen, v, c);
      }
    }
  }

  /** The new vote's score is added to its own candidate's tally. */
  lemma {:induction false} TallyOfSnocSame(seen: seq<Vote>, v: Vote, t: Tally)
    requires t == TallyOf(seen, v.candidate)
    ensures TallyOf(seen + [v], v.candidate) == Tally(t.totalScore + v.score, t.voteCount + 1, t.scores + [v.score])
  {
    ScoresOfSnoc(seen, v, v.candidate);
    SumSnoc(t.scores, v.score);
  }

  /** Every other candidate's tally is left as it was. */
  lemma {:induction false} TallyOfSnocOther(seen: seq<Vote>, v: Vote, c: Id)
    requires c != v.candidate
    ensures TallyOf(seen + [v], c) == TallyOf(seen, c)
  {
    ScoresOfSnoc(seen, v, c);
    assert ScoresOf(seen + [v], c) == ScoresOf(seen, c);
  }

  lemma {:induction false} FirstSeenSnoc(prefix: seq<Vote>, v: Vote)
    ensures FirstSeen(prefix + [v]) == if v.candidate in FirstSeen(prefix) then FirstSeen(prefix) else FirstSeen(prefix) + [v.candidate]
  {
    assert (prefix + [v])[..|prefix|] == prefix;
  }

  lemma {:induction false} ScoresOfSnoc(prefix: seq<Vote>, v: Vote, c: Id)
    ensures ScoresOf(prefix + [v], c) == ScoresOf(prefix, c) + (if v.candidate == c then [v.score] else [])
  {
    assert (prefix + [v])[..|prefix|] == prefix;
  }

  lemma {:induction false} SumSnoc(s: seq<int>, x: int)
    ensures Sum(s + [x]) == Sum(s) + x
  {
    assert (s + [x])[..|s|] == s;
  }

  /** Each candidate with a vote appears in the grouping exactly once, and no other does. */
  lemma {:induction false} FirstSeenMembers(votes: seq<Vote>)
    ensures NoDup(FirstSeen(votes))
    ensures forall c :: c in FirstSeen(votes) <==> HasVote(votes, c)
  {
    if votes != [] {
      var p := votes[..|votes| - 1];
      FirstSeenMembers(p);
      forall c ensures HasVote(votes, c) <==> HasVote(p, c) || votes[|votes| - 1].candidate == c {
        if HasVote(votes, c) {
          var i :| 0 <= i < |votes| && votes[i].candidate == c;
          if i < |p| { assert p[i] == votes[i]; }
        }
        if HasVote(p, c) {
          var i :| 0 <= i < |p| && p[i].candidate == c;
          assert votes[i] == p[i];
        }
      }
    }
  }

  /** A candidate has scores exactly when it has a vote. */
  lemma {:induction false} ScoresOfEmpty(votes: seq<Vote>, c: Id)
    ensures ScoresOf(votes, c) == [] <==> !HasVote(votes, c)
  {
    if votes != [] {
      var p := votes[..|votes| - 1];
      ScoresOfEmpty(p, c);
      if HasVote(votes, c) && votes[|votes| - 1].candidate != c {
        var i :| 0 <= i < |votes| && votes[i].candidate == c;
        assert p[i] == votes[i];
      }
      if HasVote(p, c) {
        var i :| 0 <= i < |p| && p[i].candidate == c;
        assert votes[i] == p[i];
      }
    }
  }

  // ---------------------------------------------------------------------------
  // Every vote is counted once

  /** Number of votes of the listed candidates. */
  function Occurrences(cs: seq<Id>, votes: seq<Vote>): nat {
    if cs == [] then 0 else |ScoresOf(votes, cs[0])| + Occurrences(cs[1..], votes)
  }

  function Count(cs: seq<Id>, x: Id): nat {
    if cs == [] then 0 else (if cs[0] == x then 1 else 0) + Count(cs[1..], x)
  }

  lemma {:induction false} CountNoDup(cs: seq<Id>, x: Id)
    requires NoDup(cs)
    ensures Count(cs, x) == if x in cs then 1 else 0
  {
    if cs != [] {
      assert NoDup(cs[1..]) by {
        forall i, j | 0 <= i < j < |cs[1..]| ensures cs[1..][i] != cs[1..][j] {
          assert cs[1..][i] == cs[i + 1] && cs[1..][j] == cs[j + 1];
        }
      }
      CountNoDup(cs[1..], x);
      if cs[0] == x {
        forall k | 0 <= k < |cs[1..]| ensures cs[1..][k] != x {
          assert cs[1..][k] == cs[k + 1];
        }
      }
      assert cs == [cs[0]] + cs[1..];
    }
  }

  lemma {:induction false} OccurrencesStep(cs: seq<Id>, votes: seq<Vote>, v: Vote)
    ensures Occurrences(cs, votes + [v]) == Occurrences(cs, votes) + Count(cs, v.candidate)
  {
    assert (votes + [v])[..|votes|] == votes;
    if cs != [] {
      OccurrencesStep(cs[1..], votes, v);
    }
  }

  lemma {:induction false} OccurrencesAppend(cs: seq<Id>, c: Id, votes: seq<Vote>)
    ensures Occurrences(cs + [c], votes) == Occurrences(cs, votes) + |ScoresOf(votes, c)|
  {
    if cs == [] {
      assert [c][1..] == [];
    } else {
      assert (cs + [c])[1..] == cs[1..] + [c];
      OccurrencesAppend(cs[1..], c, votes);
    }
  }

  /** Summed over the grouped candidates, the vote counts account for every vote once. */
  lemma {:induction false} OccurrencesCoverVotes(votes: seq<Vote>)
    ensures Occurrences(FirstSeen(votes), votes) == |votes|
  {
    if votes != [] {
      var p, v := votes[..|votes| - 1], votes[|votes| - 1];
      assert votes == p + [v];
      OccurrencesCoverVotes(p);
      FirstSeenMembers(p);
      var seen := FirstSeen(p);
      OccurrencesStep(seen, p, v);
      CountNoDup(seen, v.candidate);
      if v.candidate !in seen {
        OccurrencesAppend(seen, v.candidate, votes);
        UnseenHasNoScores(p, v.candidate);
      }
    }
  }

  function SumCounts(s: seq<Standing>): nat {
    if s == [] then 0 else s[0].voteCount + SumCounts(s[1..])
  }

  lemma {:induction false} SumCountsOver(s: seq<Standing>, cs: seq<Id>, votes: seq<Vote>)
    requires |s| == |cs|
    requires forall k :: 0 <= k < |s| ==> s[k].voteCount == |ScoresOf(votes, cs[k])|
    ensures SumCounts(s) == Occurrences(cs, votes)
  {
    if s != [] {
      SumCountsOver(s[1..], cs[1..], votes);
    }
  }

  /** The vote counts of the grouping add up to the number of votes considered. */
  lemma {:induction false} StandingsCountAllVotes(votes: seq<Vote>)
    ensures SumCounts(Standings(votes)) == |votes|
  {
    SumCountsOver(Standings(votes), FirstSeen(votes), votes);
    OccurrencesCoverVotes(votes);
  }

  /** Every group holds at least one vote, so its average is defined. */
  lemma {:induction false} StandingsNonEmpty(votes: seq<Vote>)
    ensures forall k :: 0 <= k < |Standings(votes)| ==> Standings(votes)[k].voteCount > 0
  {
    var cs := FirstSeen(votes);
    FirstSeenMembers(votes);
    forall k | 0 <= k < |cs| ensures |ScoresOf(votes, cs[k])| > 0 {
      assert cs[k] in cs;
      ScoresOfEmpty(votes, cs[k]);
    }
  }

  // ---------------------------------------------------------------------------
  // Sorting by total score, highest first, stably

  /** Insert `x` before the first entry whose total does not exceed its own. */
  function Insert(x: Standing, s: seq<Standing>): seq<Standing> {
    if s == [] || x.totalScore >= s[0].totalScore then [x] + s
    else [s[0]] + Insert(x, s[1..])
  }

  /** `.sort((a, b) => b.totalScore - a.totalScore)`, which is stable. */
  function SortByTotal(s: seq<Standing>): seq<Standing> {
    if s == [] then [] else Insert(s[0], SortByTotal(s[1..]))
  }

  predicate Descending(s: seq<Standing>) {
    forall i, j :: 0 <= i < j < |s| ==> s[i].totalScore >= s[j].totalScore
  }

  /** The entries with total `t`, in order. */
  function WithTotal(s: seq<Standing>, t: int): seq<Standing> {
    if s == [] then [] else (if s[0].totalScore == t then [s[0]] else []) + WithTotal(s[1..], t)
  }

  lemma {:induction false} InsertPermutes(x: Standing, s: seq<Standing>)
    ensures multiset(Insert(x, s)) == multiset(s) + multiset{x}
    ensures |Insert(x, s)| == |s| + 1
    ensures SumCounts(Insert(x, s)) == x.voteCount + SumCounts(s)
  {
    if s != [] && x.totalScore < s[0].totalScore {
      InsertPermutes(x, s[1..]);
      assert s == [s[0]] + s[1..];
    }
  }

  lemma {:induction false} InsertDescending(x: Standing, s: seq<Standing>)
    requires Descending(s)
    ensures Descending(Insert(x, s))
  {
    if s != [] && x.totalScore < s[0].totalScore {
      var tail := s[1..];
      assert Descending(tail) by {
        forall i, j | 0 <= i < j < |tail| ensures tail[i].totalScore >= tail[j].totalScore {
          assert tail[i] == s[i + 1] && tail[j] == s[j + 1];
        }
      }
      InsertDescending(x, tail);
      assert forall m :: 0 <= m < |tail| ==> tail[m] == s[m + 1];
      InsertBounded(x, tail, s[0].totalScore);
      InsertPermutes(x, tail);
      assert Insert(x, s) == [s[0]] + Insert(x, tail);
    }
  }

  /** Inserting below a bound keeps every total below it. */
  lemma {:induction false} InsertBounded(x: Standing, s: seq<Standing>, b: int)
    requires x.totalScore <= b
    requires forall m :: 0 <= m < |s| ==> s[m].totalScore <= b
    ensures forall k :: 0 <= k < |Insert(x, s)| ==> Insert(x, s)[k].totalScore <= b
  {
    if s != [] && x.totalScore < s[0].totalScore {
      var tail := s[1..];
      assert forall m :: 0 <= m < |tail| ==> tail[m] == s[m + 1];
      InsertBounded(x, tail, b);
      assert Insert(x, s) == [s[0]] + Insert(x, tail);
    }
  }

  lemma {:induction false} InsertStable(x: Standing, s: seq<Standing>, t: int)
    ensures WithTotal(Insert(x, s), t) == (if x.totalScore == t then [x] else []) + WithTotal(s, t)
  {
    var mine := if x.totalScore == t then [x] else [];
    if s == [] || x.totalScore >= s[0].totalScore {
      assert Insert(x, s) == [x] + s;
      assert ([x] + s)[1..] == s;
      assert WithTotal([x] + s, t) == mine + WithTotal(s, t);
    } else {
      var tail := s[1..];
      InsertStable(x, tail, t);
      var ins := Insert(x, tail);
      assert Insert(x, s) == [s[0]] + ins;
      assert ([s[0]] + ins)[1..] == ins;
      var head := if s[0].totalScore == t then [s[0]] else [];
      assert WithTotal([s[0]] + ins, t) == head + WithTotal(ins, t);
      assert WithTotal(s, t) == head + WithTotal(tail, t);
      assert head == [] || mine == [];
    }
  }

  /** The sort yields a descending permutation of its input. */
  lemma {:induction false} SortByTotalSorts(s: seq<Standing>)
    ensures Descending(SortByTotal(s))
    ensures multiset(SortByTotal(s)) == multiset(s)
    ensures |SortByTotal(s)| == |s|
    ensures SumCounts(SortByTotal(s)) == SumCounts(s)
  {
    SortByTotalDescending(s);
    SortByTotalPermutes(s);
  }

  lemma {:induction false} SortByTotalDescending(s: seq<Standing>)
    ensures Descending(SortByTotal(s))
  {
    if s != [] {
      SortByTotalDescending(s[1..]);
      InsertDescending(s[0], SortByTotal(s[1..]));
    }
  }

  lemma {:induction false} SortByTotalPermutes(s: seq<Standing>)
    ensures multiset(SortByTotal(s)) == multiset(s)
    ensures |SortByTotal(s)| == |s|
    ensures SumCounts(SortByTotal(s)) == SumCounts(s)
  {
    if s != [] {
      var tail := s[1..];
      SortByTotalPermutes(tail);
      InsertPermutes(s[0], SortByTotal(tail));
      assert SumCounts(s) == s[0].voteCount + SumCounts(tail);
      assert multiset(s) == multiset{s[0]} + multiset(tail) by {
        assert s == [s[0]] + tail;
      }
    }
  }

  /** The sort is stable: entries with equal totals keep their relative order. */
  lemma {:induction false} SortByTotalStable(s: seq<Standing>, t: int)
    ensures WithTotal(SortByTotal(s), t) == WithTotal(s, t)
  {
    if s != [] {
      SortByTotalStable(s[1..], t);
      InsertStable(s[0], SortByTotal(s[1..]), t);
    }
  }

  // ---------------------------------------------------------------------------
  // Ranks

  /** `.map((item, index) => ({ rank: index + 1, ...item }))`, with the average of each group. */
  function Rank(sorted: seq<Standing>): (r: seq<Placing>)
    requires forall k :: 0 <= k < |sorted| ==> sorted[k].voteCount > 0
    ensures |r| == |sorted|
    ensures forall k :: 0 <= k < |r| ==>
      && r[k].rank == k + 1
      && r[k].candidate == sorted[k].candidate
      && r[k].totalScore == sorted[k].totalScore
      && r[k].voteCount == sorted[k].voteCount
      && r[k].scores == sorted[k].scores
      && r[k].averageScore * (r[k].voteCount as real) == r[k].totalScore as real
  {
    seq(|sorted|, k requires 0 <= k < |sorted| =>
      var s := sorted[k];
      Placing(k + 1, s.candidate, s.totalScore, (s.totalScore as real) / (s.voteCount as real), s.voteCount, s.scores))
  }

  lemma {:induction false} SortedNonEmpty(votes: seq<Vote>)
    ensures forall k :: 0 <= k < |SortByTotal(Standings(votes))| ==> SortByTotal(Standings(votes))[k].voteCount > 0
  {
    var s := Standings(votes);
    var sorted := SortByTotal(s);
    StandingsNonEmpty(votes);
    SortByTotalSorts(s);
    forall k | 0 <= k < |sorted| ensures sorted[k].voteCount > 0 {
      assert sorted[k] in multiset(s);
    }
  }

  /** The ranking of a set of votes. */
  function RankingOf(votes: seq<Vote>): seq<Placing> {
    SortedNonEmpty(votes);
    Rank(SortByTotal(Standings(votes)))
  }

  function TotalVoteCount(r: seq<Placing>): nat {
    if r == [] then 0 else r[0].voteCount + TotalVoteCount(r[1..])
  }

  /** The candidates with total `t`, in ranking order. */
  function TiedAt(r: seq<Placing>, t: int): seq<Id> {
    if r == [] then [] else (if r[0].totalScore == t then [r[0].candidate] else []) + TiedAt(r[1..], t)
  }

  /** The candidates with total `t`, in the order of their first vote. */
  function FirstSeenWithTotal(cs: seq<Id>, votes: seq<Vote>, t: int): seq<Id> {
    if cs == [] then []
    else (if Sum(ScoresOf(votes, cs[0])) == t then [cs[0]] else []) + FirstSeenWithTotal(cs[1..], votes, t)
  }

  function Ids(s: seq<Standing>): seq<Id> {
    if s == [] then [] else [s[0].candidate] + Ids(s[1..])
  }

  lemma {:induction false} IdsWithTotalStep(s: seq<Standing>, t: int)
    requires s != []
    ensures Ids(WithTotal(s, t)) == (if s[0].totalScore == t then [s[0].candidate] else []) + Ids(WithTotal(s[1..], t))
  {
    var w := WithTotal(s[1..], t);
    if s[0].totalScore == t {
      assert WithTotal(s, t) == [s[0]] + w;
      assert ([s[0]] + w)[1..] == w;
    } else {
      assert WithTotal(s, t) == [] + w;
      assert [] + w == w;
      assert [] + Ids(w) == Ids(w);
    }
  }

  lemma {:induction false} TiedAtRank(r: seq<Placing>, s: seq<Standing>, t: int)
    requires |r| == |s|
    requires forall k :: 0 <= k < |r| ==> r[k].candidate == s[k].candidate && r[k].totalScore == s[k].totalScore
    ensures TiedAt(r, t) == Ids(WithTotal(s, t))
  {
    if r != [] {
      TiedAtRank(r[1..], s[1..], t);
      IdsWithTotalStep(s, t);
    }
  }

  lemma {:induction false} TotalVoteCountRank(r: seq<Placing>, s: seq<Standing>)
    requires |r| == |s|
    requires forall k :: 0 <= k < |r| ==> r[k].voteCount == s[k].voteCount
    ensures TotalVoteCount(r) == SumCounts(s)
  {
    if r != [] {
      TotalVoteCountRank(r[1..], s[1..]);
    }
  }

  lemma {:induction false} IdsWithTotalOver(s: seq<Standing>, cs: seq<Id>, votes: seq<Vote>, t: int)
    requires |s| == |cs|
    requires forall k :: 0 <= k < |s| ==> s[k] == StandingOf(votes, cs[k])
    ensures Ids(WithTotal(s, t)) == FirstSeenWithTotal(cs, votes, t)
  {
    if s != [] {
      IdsWithTotalOver(s[1..], cs[1..], votes, t);
      IdsWithTotalStep(s, t);
    }
  }

  /** Each ranking entry is the group of one voted-for candidate: the sum, number and fetch-ordered list of its scores. */
  lemma {:induction false} RankingEntriesAreGroups(votes: seq<Vote>)
    ensures var r := RankingOf(votes);
      forall k :: 0 <= k < |r| ==>
        && HasVote(votes, r[k].candidate)
        && r[k].scores == ScoresOf(votes, r[k].candidate)
        && r[k].totalScore == Sum(r[k].scores)
        && r[k].voteCount == |r[k].scores|
  {
    var r := RankingOf(votes);
    forall k | 0 <= k < |r|
      ensures HasVote(votes, r[k].candidate)
      ensures r[k].scores == ScoresOf(votes, r[k].candidate)
      ensures r[k].totalScore == Sum(r[k].scores) && r[k].voteCount == |r[k].scores|
    {
      RankingEntryIsGroup(votes, k);
    }
  }

  /** The `k`-th entry of the ranking is the group of one voted candidate. */
  lemma {:induction false} RankingEntryIsGroup(votes: seq<Vote>, k: nat)
    requires k < |RankingOf(votes)|
    ensures var p := RankingOf(votes)[k];
      && HasVote(votes, p.candidate)
      && p.scores == ScoresOf(votes, p.candidate)
      && p.totalScore == Sum(p.scores)
      && p.voteCount == |p.scores|
  {
    var s := Standings(votes);
    var sorted := SortByTotal(s);
    var cs := FirstSeen(votes);
    SortedNonEmpty(votes);
    SortByTotalSorts(s);
    FirstSeenMembers(votes);
    assert sorted[k] in multiset(s);
    var m :| 0 <= m < |s| && s[m] == sorted[k];
    assert s[m].candidate == cs[m] && cs[m] in cs;
  }

  /** Every candidate with a vote has an entry in the ranking. */
  lemma {:induction false} RankingCoversVotedCandidates(votes: seq<Vote>, c: Id)
    requires HasVote(votes, c)
    ensures var r := RankingOf(votes); exists k :: 0 <= k < |r| && r[k].candidate == c
  {
    var s := Standings(votes);
    var sorted := SortByTotal(s);
    var r := RankingOf(votes);
    var cs := FirstSeen(votes);
    SortedNonEmpty(votes);
    SortByTotalSorts(s);
    FirstSeenMembers(votes);
    var m :| 0 <= m < |cs| && cs[m] == c;
    assert s[m] in multiset(sorted);
    var k :| 0 <= k < |sorted| && sorted[k] == s[m];
    assert r[k].candidate == c;
  }

  /** No candidate has two entries in the ranking. */
  lemma {:induction false} RankingCandidatesDistinct(votes: seq<Vote>)
    ensures var r := RankingOf(votes);
      forall i, j :: 0 <= i < j < |r| ==> r[i].candidate != r[j].candidate
  {
    var s := Standings(votes);
    var sorted := SortByTotal(s);
    var r := RankingOf(votes);
    SortedNonEmpty(votes);
    SortByTotalSorts(s);
    RankingEntriesAreGroups(votes);
    StandingsDistinct(votes);
    forall i, j | 0 <= i < j < |r| ensures r[i].candidate != r[j].candidate {
      if r[i].candidate == r[j].candidate {
        // one candidate twice would be one standing listed twice
        assert sorted[i] == sorted[j];
        MultisetTwice(sorted, i, j);
        assert false;
      }
    }
  }

  /**
    The ranking holds each candidate with a vote exactly once, with the sum,
    number and fetch-ordered list of its scores; it is ordered by total
    score, highest first; ranks are the positions 1..n; and the vote counts
    add up to the number of votes considered.
   */
  lemma {:induction false} RankingCorrect(votes: seq<Vote>)
    ensures var r := RankingOf(votes);
      && (forall c :: HasVote(votes, c) <==> exists k :: 0 <= k < |r| && r[k].candidate == c)
      && (forall i, j :: 0 <= i < j < |r| ==> r[i].candidate != r[j].candidate)
      && (forall k :: 0 <= k < |r| ==>
            && r[k].scores == ScoresOf(votes, r[k].candidate)
            && r[k].totalScore == Sum(r[k].scores)
            && r[k].voteCount == |r[k].scores|)
      && (forall i, j :: 0 <= i < j < |r| ==> r[i].totalScore >= r[j].totalScore)
      && (forall k :: 0 <= k < |r| ==> r[k].rank == k + 1)
      && TotalVoteCount(r) == |votes|
  {
    var s := Standings(votes);
    var sorted := SortByTotal(s);
    var r := RankingOf(votes);
    SortedNonEmpty(votes);
    SortByTotalSorts(s);
    StandingsCountAllVotes(votes);
    TotalVoteCountRank(r, sorted);
    RankingEntriesAreGroups(votes);
    RankingCandidatesDistinct(votes);
    forall c | HasVote(votes, c) ensures exists k :: 0 <= k < |r| && r[k].candidate == c {
      RankingCoversVotedCandidates(votes, c);
    }
  }

  lemma {:induction false} MultisetTwice(s: seq<Standing>, i: nat, j: nat)
    requires i < j < |s| && s[i] == s[j]
    ensures multiset(s)[s[i]] >= 2
  {
    var x := s[i];
    assert s == s[..j] + [x] + s[j + 1..];
    assert s[..j] == s[..i] + [x] + s[i + 1..j];
  }

  /** A sequence without repeated entries holds each entry at most once. */
  lemma {:induction false} DistinctOnce(s: seq<Standing>)
    requires forall i, j :: 0 <= i < j < |s| ==> s[i] != s[j]
    ensures forall x :: multiset(s)[x] <= 1
  {
    if s != [] {
      var tail := s[1..];
      forall i, j | 0 <= i < j < |tail| ensures tail[i] != tail[j] {
        assert tail[i] == s[i + 1] && tail[j] == s[j + 1];
      }
      DistinctOnce(tail);
      forall k | 0 <= k < |tail| ensures tail[k] != s[0] {
        assert tail[k] == s[k + 1];
      }
      assert multiset(tail)[s[0]] == 0;
      assert s == [s[0]] + tail;
      assert multiset(s) == multiset{s[0]} + multiset(tail);
    }
  }

  /** No standing occurs twice in the grouping. */
  lemma {:induction false} StandingsDistinct(votes: seq<Vote>)
    ensures forall x :: multiset(Standings(votes))[x] <= 1
  {
    var s := Standings(votes);
    var cs := FirstSeen(votes);
    FirstSeenMembers(votes);
    forall i, j | 0 <= i < j < |s| ensures s[i] != s[j] {
      assert s[i].candidate == cs[i] && s[j].candidate == cs[j];
    }
    DistinctOnce(s);
  }

  /** Candidates with equal totals appear in the ranking in the order of their first vote. */
  lemma {:induction false} RankingTiesKeepFirstSeenOrder(votes: seq<Vote>, t: int)
    ensures TiedAt(RankingOf(votes), t) == FirstSeenWithTotal(FirstSeen(votes), votes, t)
  {
    var s := Standings(votes);
    var sorted := SortByTotal(s);
    SortedNonEmpty(votes);
    SortByTotalSorts(s);
    TiedAtRank(RankingOf(votes), sorted, t);
    SortByTotalStable(s, t);
    IdsWithTotalOver(s, FirstSeen(votes), votes, t);
  }

  // ---------------------------------------------------------------------------
  // Score bounds

  /** Every score in a candidate's group is the score of one of the votes. */
  lemma {:induction false} ScoresOfInRange(votes: seq<Vote>, c: Id)
    requires ScoresInRange(votes)
    ensures forall k :: 0 <= k < |ScoresOf(votes, c)| ==> InRange(ScoresOf(votes, c)[k])
  {
    if votes != [] {
      var init := votes[..|votes| - 1];
      assert ScoresInRange(init) by {
        forall k | 0 <= k < |init| ensures InRange(init[k].score) {
          assert init[k] == votes[k];
        }
      }
      ScoresOfInRange(init, c);
    }
  }

  /** A sum of `n` scores in 1..10 lies between `n` and `10 * n`. */
  lemma {:induction false} SumBounds(s: seq<int>)
    requires forall k :: 0 <= k < |s| ==> InRange(s[k])
    ensures MinScore * |s| <= Sum(s) <= MaxScore * |s|
  {
    if s != [] {
      var init := s[..|s| - 1];
      assert forall k :: 0 <= k < |init| ==> init[k] == s[k];
      SumBounds(init);
    }
  }

  /**
    When every vote's score is in 1..10, every ranked candidate has at least
    one vote, a total between its vote count and ten times it, and an
    average in 1..10.
   */
  lemma {:induction false} RankingScoreBounds(votes: seq<Vote>)
    requires ScoresInRange(votes)
    ensures var r := RankingOf(votes);
      forall k :: 0 <= k < |r| ==>
        && r[k].voteCount > 0
        && MinScore * r[k].voteCount <= r[k].totalScore <= MaxScore * r[k].voteCount
        && MinScore as real <= r[k].averageScore <= MaxScore as real
  {
    var r := RankingOf(votes);
    forall k | 0 <= k < |r|
      ensures r[k].voteCount > 0
      ensures MinScore * r[k].voteCount <= r[k].totalScore <= MaxScore * r[k].voteCount
      ensures MinScore as real <= r[k].averageScore <= MaxScore as real
    {
      EntryBounds(votes, k);
    }
  }

  /** The bounds for the entry at position `k`. */
  lemma {:induction false} EntryBounds(votes: seq<Vote>, k: nat)
    requires ScoresInRange(votes) && k < |RankingOf(votes)|
    ensures var p := RankingOf(votes)[k];
      && p.voteCount > 0
      && MinScore * p.voteCount <= p.totalScore <= MaxScore * p.voteCount
      && MinScore as real <= p.averageScore <= MaxScore as real
  {
    var sorted := SortByTotal(Standings(votes));
    SortedNonEmpty(votes);
    var r := Rank(sorted);
    assert RankingOf(votes) == r;
    var p := r[k];
    assert p.voteCount == sorted[k].voteCount > 0;
    assert p.averageScore * (p.voteCount as real) == p.totalScore as real;
    RankingEntryIsGroup(votes, k);
    ScoresOfInRange(votes, p.candidate);
    PlacingBounds(p);
  }

  /** The bounds for one entry whose scores are all in 1..10. */
  lemma {:induction false} PlacingBounds(p: Placing)
    requires forall k :: 0 <= k < |p.scores| ==> InRange(p.scores[k])
    requires p.totalScore == Sum(p.scores) && p.voteCount == |p.scores| && p.voteCount > 0
    requires p.averageScore * (p.voteCount as real) == p.totalScore as real
    ensures MinScore * p.voteCount <= p.totalScore <= MaxScore * p.voteCount
    ensures MinScore as real <= p.averageScore <= MaxScore as real
  {
    SumBounds(p.scores);
    AverageBounds(p.averageScore, p.voteCount as real, p.totalScore as real);
  }

  /** An average of values in 1..10 lies in 1..10. */
  lemma {:induction false} AverageBounds(a: real, n: real, t: real)
    requires a * n == t && n >= 1.0 && n <= t <= 10.0 * n
    ensures 1.0 <= a <= 10.0
  {
    assert (a - 1.0) * n == t - n;
    NonNegativeFactor(a - 1.0, n);
    assert (10.0 - a) * n == 10.0 * n - t;
    NonNegativeFactor(10.0 - a, n);
  }

  /** A factor whose product with a positive number is not negative is not negative. */
  lemma {:induction false} NonNegativeFactor(x: real, n: real)
    requires n > 0.0 && x * n >= 0.0
    ensures x >= 0.0
  {
  }

  // ---------------------------------------------------------------------------
  // A tie

  /** Four votes of one category: 5 and 7 for candidate 10, then 10 and 2 for candidate 11. */
  function TieVotes(): seq<Vote> {
    [Vote(0, 1, 2, 3, 10, 5), Vote(1, 1, 2, 4, 10, 7), Vote(2, 1, 2, 3, 11, 10), Vote(3, 1, 2, 4, 11, 2)]
  }

  lemma {:induction false} TieOrder()
    ensures FirstSeen(TieVotes()) == [10, 11]
  {
    var votes := TieVotes();
    assert votes[..3][..2] == votes[..2] && votes[..2][..1] == votes[..1] && votes[..1][..0] == [];
    assert FirstSeen(votes[..1]) == [10];
    assert FirstSeen(votes[..2]) == [10];
    assert FirstSeen(votes[..3]) == [10, 11];
    assert votes[..4] == votes;
  }

  lemma {:induction false} TieScores()
    ensures ScoresOf(TieVotes(), 10) == [5, 7] && ScoresOf(TieVotes(), 11) == [10, 2]
  {
    var votes := TieVotes();
    assert votes[..3][..2] == votes[..2] && votes[..2][..1] == votes[..1] && votes[..1][..0] == [];
    assert ScoresOf(votes[..1], 10) == [5] && ScoresOf(votes[..1], 11) == [];
    assert ScoresOf(votes[..2], 10) == [5, 7] && ScoresOf(votes[..2], 11) == [];
    assert ScoresOf(votes[..3], 10) == [5, 7] && ScoresOf(votes[..3], 11) == [10];
    assert votes[..4] == votes;
  }

  /**
    The two candidates of `TieVotes` tie at 12: the one voted for first is
    ranked first, both average 6, and the ranks are 1 and 2.
   */
  lemma {:induction false} TieRanksFirstVotedFirst()
    ensures var r := RankingOf(TieVotes());
      && |r| == 2
      && r[0] == Placing(1, 10, 12, 6.0, 2, [5, 7])
      && r[1] == Placing(2, 11, 12, 6.0, 2, [10, 2])
  {
    TieOrder();
    TieScores();
    assert Sum([5]) == 5 && Sum([10]) == 10;
    assert Sum([5, 7]) == 12 && Sum([10, 2]) == 12;
    var a, b := Standing(10, 12, 2, [5, 7]), Standing(11, 12, 2, [10, 2]);
    assert Standings(TieVotes()) == [a, b];
    assert SortByTotal([b]) == [b];
    assert SortByTotal([a, b]) == Insert(a, [b]);
    assert Insert(a, [b]) == [a, b];
  }
}
