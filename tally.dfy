/**
 * The per-session vote tally of "Quién es más probable": votes received per
 * username. Its total is the number of ballots cast, which is what ties it to
 * the set of users who have voted.
 */
module Tally {

  /** `votes.getOrDefault(name, 0)`. */
  function VotesFor(votes: map<string, nat>, name: string): nat
  {
    if name in votes then votes[name] else 0
  }

  /** The tally after one more vote for `name`. */
  function AddVote(votes: map<string, nat>, name: string): (r: map<string, nat>)
    ensures r.Keys == votes.Keys + {name}
    ensures r[name] == VotesFor(votes, name) + 1
    ensures forall k | k in votes && k != name :: r[k] == votes[k]
  {
    votes[name := VotesFor(votes, name) + 1]
  }

  ghost function Pick(names: set<string>): string
    requires names != {}
  {
    var k :| k in names; k
  }

  /** The total number of votes in the tally. */
  ghost function Total(votes: map<string, nat>): nat
    decreases |votes.Keys|
  {
    if votes == map[] then 0
    else
      var k := Pick(votes.Keys);
      assert (votes - {k}).Keys == votes.Keys - {k};
      votes[k] + Total(votes - {k})
  }

  /** The total splits into any one entry and the rest, whichever entry is taken out. */
  lemma {:induction false} TotalWithout(votes: map<string, nat>, name: string)
    requires name in votes
    ensures Total(votes) == votes[name] + Total(votes - {name})
    decreases |votes.Keys|
  {
    var k := Pick(votes.Keys);
    if k != name {
      assert (votes - {k}).Keys == votes.Keys - {k};
      assert (votes - {name}).Keys == votes.Keys - {name};
      TotalWithout(votes - {k}, name);
      TotalWithout(votes - {name}, k);
      assert votes - {k} - {name} == votes - {name} - {k};
    }
  }

  /** One more vote raises the total by exactly one. */
  lemma {:induction false} AddVoteRaisesTotal(votes: map<string, nat>, name: string)
    ensures Total(AddVote(votes, name)) == Total(votes) + 1
  {
    var r := AddVote(votes, name);
    TotalWithout(r, name);
    if name in votes {
      TotalWithout(votes, name);
      assert r - {name} == votes - {name};
    } else {
      assert r - {name} == votes;
    }
  }

  /** `name` has a tally no other entry exceeds. */
  predicate IsTop(votes: map<string, nat>, name: string)
  {
    name in votes && forall k | k in votes :: votes[k] <= votes[name]
  }
}
