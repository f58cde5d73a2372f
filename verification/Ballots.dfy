/** Votes on one proposal: the quorum arithmetic behind approval and rejection. */
module Ballots {
  import opened Primitives

  datatype Vote = Approve | Reject
  datatype Ballot = Ballot(voter: UserId, vote: Vote)
  datatype VoteOutcome = ReachedApproval | ReachedRejection | StillPending

  function Count(votes: seq<Ballot>, vote: Vote): (n: nat)
    ensures n <= |votes|
  {
    if votes == [] then 0
    else Count(votes[..|votes| - 1], vote) + if votes[|votes| - 1].vote == vote then 1 else 0
  }

  function Tally(threshold: nat, approvers: nat, votes: seq<Ballot>): VoteOutcome {
    if Count(votes, Approve) >= threshold then ReachedApproval
    else if Count(votes, Reject) > SaturatingSub(approvers, threshold) then ReachedRejection
    else StillPending
  }

  predicate HasVoted(votes: seq<Ballot>, user: UserId) {
    exists i :: 0 <= i < |votes| && votes[i].voter == user
  }

  // Ballots that the vote check lets in: distinct voters, all of them approvers.
  ghost predicate Admissible(approvers: seq<UserId>, votes: seq<Ballot>) {
    && (forall i :: 0 <= i < |votes| ==> votes[i].voter in approvers)
    && (forall i, j :: 0 <= i < j < |votes| ==> votes[i].voter != votes[j].voter)
  }

  // What every stored pending proposal satisfies.
  ghost predicate PendingInvariant(threshold: nat, approvers: seq<UserId>, votes: seq<Ballot>) {
    && NoDuplicates(approvers)
    && 1 <= threshold <= |approvers|
    && Admissible(approvers, votes)
    && Count(votes, Approve) < threshold
    && Count(votes, Reject) <= |approvers| - threshold
  }

  lemma {:induction false} CountsSplit(votes: seq<Ballot>)
    ensures Count(votes, Approve) + Count(votes, Reject) == |votes|
  {
    if votes != [] {
      CountsSplit(votes[..|votes| - 1]);
    }
  }

  lemma {:induction false} CountAppend(a: seq<Ballot>, b: seq<Ballot>, vote: Vote)
    ensures Count(a + b, vote) == Count(a, vote) + Count(b, vote)
    decreases |b|
  {
    if b == [] {
      assert a + b == a;
    } else {
      assert (a + b)[..|a + b| - 1] == a + b[..|b| - 1];
      CountAppend(a, b[..|b| - 1], vote);
    }
  }

  ghost function Voters(votes: seq<Ballot>): set<UserId> {
    set b | b in votes :: b.voter
  }

  lemma {:induction false} VotersDistinct(approvers: seq<UserId>, votes: seq<Ballot>)
    requires Admissible(approvers, votes)
    ensures |Voters(votes)| == |votes| && Voters(votes) <= ToSet(approvers)
  {
    if votes != [] {
      var init, last := votes[..|votes| - 1], votes[|votes| - 1];
      VotersDistinct(approvers, init);
      assert Voters(votes) == Voters(init) + {last.voter};
    }
  }

  lemma {:induction false} SetOfDistinct<T>(s: seq<T>)
    requires NoDuplicates(s)
    ensures |ToSet(s)| == |s|
  {
    if s != [] {
      SetOfDistinct(s[..|s| - 1]);
      assert ToSet(s) == ToSet(s[..|s| - 1]) + {s[|s| - 1]};
    }
  }

  // No more admissible ballots than approvers.
  lemma BallotsBounded(approvers: seq<UserId>, votes: seq<Ballot>)
    requires NoDuplicates(approvers) && Admissible(approvers, votes)
    ensures |votes| <= |approvers|
  {
    VotersDistinct(approvers, votes);
    SetOfDistinct(approvers);
    SubsetSize(Voters(votes), ToSet(approvers));
  }

  // The remaining approvers, all approving.
  lemma {:induction false} AllOthersApprove(approvers: seq<UserId>, votes: seq<Ballot>) returns (rest: seq<Ballot>)
    requires NoDuplicates(approvers) && Admissible(approvers, votes)
    ensures Admissible(approvers, votes + rest)
    ensures Count(rest, Approve) == |rest| == |approvers| - |votes|
    decreases |approvers| - |votes|
  {
    BallotsBounded(approvers, votes);
    if |votes| == |approvers| {
      rest := [];
      assert votes + rest == votes;
    } else {
      VotersDistinct(approvers, votes);
      SetOfDistinct(approvers);
      assert exists u :: u in approvers && u !in Voters(votes) by {
        if forall u :: u in approvers ==> u in Voters(votes) {
          assert ToSet(approvers) <= Voters(votes);
          SubsetSize(ToSet(approvers), Voters(votes));
        }
      }
      var u :| u in approvers && u !in Voters(votes);
      var next := Ballot(u, Approve);
      assert forall b :: b in votes ==> b.voter in Voters(votes);
      var more := AllOthersApprove(approvers, votes + [next]);
      rest := [next] + more;
      assert votes + rest == votes + [next] + more;
      CountAppend([next], more, Approve);
      assert Count([next], Approve) == 1;
    }
  }

  // Rejection fires exactly when no way of casting the remaining ballots can still approve.
  lemma RejectionIffApprovalUnreachable(threshold: nat, approvers: seq<UserId>, votes: seq<Ballot>)
    requires NoDuplicates(approvers) && threshold <= |approvers|
    requires Admissible(approvers, votes) && Count(votes, Approve) < threshold
    ensures Tally(threshold, |approvers|, votes) == ReachedRejection <==>
            forall rest :: Admissible(approvers, votes + rest) ==> Count(votes + rest, Approve) < threshold
  {
    CountsSplit(votes);
    if Tally(threshold, |approvers|, votes) == ReachedRejection {
      forall rest | Admissible(approvers, votes + rest) ensures Count(votes + rest, Approve) < threshold {
        BallotsBounded(approvers, votes + rest);
        CountsSplit(votes + rest);
        CountAppend(votes, rest, Reject);
      }
    } else {
      var rest := AllOthersApprove(approvers, votes);
      CountAppend(votes, rest, Approve);
      assert Count(votes + rest, Approve) >= threshold;
    }
  }

  // Once everybody has voted the proposal is decided.
  lemma FullTurnoutDecides(threshold: nat, approvers: seq<UserId>, votes: seq<Ballot>)
    requires threshold <= |approvers| == |votes|
    ensures Tally(threshold, |approvers|, votes) != StillPending
  {
    CountsSplit(votes);
  }

  // Ballots cast one after another: the first decision stands and later ballots are refused.
  ghost function Decision(threshold: nat, approvers: nat, votes: seq<Ballot>): VoteOutcome {
    if votes == [] then Tally(threshold, approvers, [])
    else
      var before := Decision(threshold, approvers, votes[..|votes| - 1]);
      if before != StillPending then before else Tally(threshold, approvers, votes)
  }

  // The stepwise decision is the tally of all ballots: stopping early loses nothing.
  lemma {:induction false} DecisionIsTally(threshold: nat, approvers: seq<UserId>, votes: seq<Ballot>)
    requires NoDuplicates(approvers) && threshold <= |approvers| && Admissible(approvers, votes)
    ensures Decision(threshold, |approvers|, votes) == Tally(threshold, |approvers|, votes)
  {
    if votes != [] {
      var init := votes[..|votes| - 1];
      DecisionIsTally(threshold, approvers, init);
      BallotsBounded(approvers, votes);
      CountsSplit(init);
      CountsSplit(votes);
    }
  }

  // The outcome depends on the ballots, not on the order in which they arrive.
  lemma BallotOrderIrrelevant(threshold: nat, approvers: seq<UserId>, votes: seq<Ballot>, others: seq<Ballot>)
    requires NoDuplicates(approvers) && threshold <= |approvers|
    requires Admissible(approvers, votes) && Admissible(approvers, others)
    requires multiset(votes) == multiset(others)
    ensures Decision(threshold, |approvers|, votes) == Decision(threshold, |approvers|, others)
  {
    DecisionIsTally(threshold, approvers, votes);
    DecisionIsTally(threshold, approvers, others);
    CountIsMultiset(votes, others, Approve);
    CountIsMultiset(votes, others, Reject);
  }

  lemma {:induction false} CountIsMultiset(a: seq<Ballot>, b: seq<Ballot>, vote: Vote)
    requires multiset(a) == multiset(b)
    ensures Count(a, vote) == Count(b, vote)
    decreases |a|
  {
    if a == [] {
      assert |multiset(b)| == |b| == 0;
    } else {
      var init, last := a[..|a| - 1], a[|a| - 1];
      assert a == init + [last];
      assert last in multiset(b);
      var i :| 0 <= i < |b| && b[i] == last;
      var left, right := b[..i], b[i + 1..];
      assert b == left + [last] + right;
      assert multiset(init) == multiset(left + right) by {
        assert multiset(a) == multiset(init) + multiset{last};
        assert multiset(b) == multiset(left) + multiset{last} + multiset(right);
        assert multiset(left + right) == multiset(b) - multiset{last};
      }
      CountIsMultiset(init, left + right, vote);
      CountAppend(init, [last], vote);
      CountAppend(left, [last], vote);
      CountAppend(left + [last], right, vote);
      CountAppend(left, right, vote);
    }
  }
}
