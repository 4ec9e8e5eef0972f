/**
 * The stream pipelines of the submitted-question game: the questions of the
 * current round, the ones not shown yet, the ones addressed to someone other
 * than the last recipient, and the round ordered by question id.
 */
module Rounds {
  import opened Outcomes
  import opened Entities

  /** Round statuses stored on the session. */
  const WaitingQuestions: string := "WAITING_QUESTIONS"
  const InProgress: string := "IN_PROGRESS"
  const Completed: string := "COMPLETED"

  /** Game names stored as the session's current game. */
  const PreguntasDirectas: string := "preguntas-directas"
  const YoNuncaNunca: string := "yo-nunca-nunca"
  const QuienEsMasProbable: string := "quien-es-mas-probable"
  const CulturaPendeja: string := "cultura-pendeja"
  const PreguntasIncomodas: string := "preguntas-incomodas"

  /** `filter(q -> currentRoundId != null && currentRoundId.equals(q.getRoundId()))`, order kept. */
  function RoundQuestions(qs: seq<Question>, round: Option<string>): (r: seq<Question>)
    reads set q | q in qs
    ensures forall q | q in r :: q in qs && round.Some? && q.roundId == round
    ensures forall q | q in qs && round.Some? && q.roundId == round :: q in r
    ensures |r| <= |qs|
    ensures (forall q | q in qs :: q.roundId != round) || round.None? ==> r == []
  {
    if qs == [] then []
    else (if round.Some? && qs[0].roundId == round then [qs[0]] else []) + RoundQuestions(qs[1..], round)
  }

  /** The questions whose id is not in the shown set. */
  function Unshown(qs: seq<Question>, shown: set<nat>): (r: seq<Question>)
    reads set q | q in qs
    ensures forall q | q in r :: q in qs && q.id !in shown
    ensures forall q | q in qs && q.id !in shown :: q in r
  {
    if qs == [] then []
    else (if qs[0].id !in shown then [qs[0]] else []) + Unshown(qs[1..], shown)
  }

  /** `!q.getToUser().equals(lastToUser)`: a missing last recipient differs from everyone. */
  predicate ToSomeoneElse(q: Question, lastToUser: Option<string>)
    reads q
  {
    lastToUser.None? || q.toUser != lastToUser.value
  }

  /** The unshown questions addressed to someone other than the last recipient. */
  function UnshownToOthers(qs: seq<Question>, shown: set<nat>, lastToUser: Option<string>): (r: seq<Question>)
    reads set q | q in qs
    ensures forall q | q in r :: q in qs && q.id !in shown && ToSomeoneElse(q, lastToUser)
    ensures forall q | q in qs && q.id !in shown && ToSomeoneElse(q, lastToUser) :: q in r
  {
    if qs == [] then []
    else
      (if qs[0].id !in shown && ToSomeoneElse(qs[0], lastToUser) then [qs[0]] else [])
      + UnshownToOthers(qs[1..], shown, lastToUser)
  }

  /**
   * The pick of `selectAndSetNextQuestion` among the round's questions: an
   * unshown one addressed to someone other than the last recipient if there
   * is one, else any unshown one, the random index being `choice`; none
   * exactly when every question has been shown.
   */
  function PickNext(round: seq<Question>, shown: set<nat>, lastToUser: Option<string>, choice: nat): (r: Option<Question>)
    reads set q | q in round
    ensures r.None? <==> forall q | q in round :: q.id in shown
    ensures r.Some? ==> r.value in round && r.value.id !in shown
    ensures r.Some? && (exists q | q in round :: q.id !in shown && ToSomeoneElse(q, lastToUser)) ==>
              ToSomeoneElse(r.value, lastToUser)
  {
    var preferred := UnshownToOthers(round, shown, lastToUser);
    var candidates := if preferred != [] then preferred else Unshown(round, shown);
    if candidates == [] then
      assert forall q | q in round :: q.id in shown;
      None
    else
      var k := choice % |candidates|;
      assert candidates[k] in candidates;
      Some(candidates[k])
  }

  // ---------------------------------------------------------------------------
  // `sorted(Comparator.comparingLong(Question::getId))`

  predicate SortedById(qs: seq<Question>)
    reads set q | q in qs
  {
    forall i, j | 0 <= i < j < |qs| :: qs[i].id <= qs[j].id
  }

  /** Puts q before the first element whose id is not smaller, so equal ids keep their order. */
  function Insert(q: Question, sorted: seq<Question>): (r: seq<Question>)
    reads q, set x | x in sorted
    ensures multiset(r) == multiset(sorted) + multiset{q}
    ensures |r| == |sorted| + 1
    ensures q in r && forall x | x in sorted :: x in r
    ensures forall x | x in r :: x == q || x in sorted
  {
    if sorted == [] || q.id <= sorted[0].id then [q] + sorted
    else
      assert sorted == [sorted[0]] + sorted[1..];
      [sorted[0]] + Insert(q, sorted[1..])
  }

  /** Dropping the first question keeps a list sorted. */
  lemma TailSorted(s: seq<Question>)
    requires s != [] && SortedById(s)
    ensures SortedById(s[1..])
  {
    var t := s[1..];
    forall i, j | 0 <= i < j < |t| ensures t[i].id <= t[j].id {
      assert t[i] == s[i + 1] && t[j] == s[j + 1];
    }
  }

  /** A question no later than every element of a sorted list can go in front of it. */
  lemma ConsSorted(x: Question, t: seq<Question>)
    requires SortedById(t)
    requires forall y | y in t :: x.id <= y.id
    ensures SortedById([x] + t)
  {
    var r := [x] + t;
    forall i, j | 0 <= i < j < |r| ensures r[i].id <= r[j].id {
      assert r[j] == t[j - 1];
      if i > 0 {
        assert r[i] == t[i - 1];
      }
    }
  }

  lemma {:induction false} InsertKeepsSorted(q: Question, s: seq<Question>)
    requires SortedById(s)
    ensures SortedById(Insert(q, s))
    decreases |s|
  {
    if s == [] || q.id <= s[0].id {
      forall y | y in s ensures q.id <= y.id {
        var k :| 0 <= k < |s| && s[k] == y;
        assert s[0].id <= s[k].id;
      }
      ConsSorted(q, s);
    } else {
      var tail := s[1..];
      TailSorted(s);
      InsertKeepsSorted(q, tail);
      var t := Insert(q, tail);
      forall y | y in t ensures s[0].id <= y.id {
        if y != q {
          var k :| 0 <= k < |tail| && tail[k] == y;
          assert tail[k] == s[k + 1];
        }
      }
      ConsSorted(s[0], t);
    }
  }

  /** The round in id order: a sorted permutation of the input. */
  function SortById(qs: seq<Question>): (r: seq<Question>)
    reads set q | q in qs
    ensures multiset(r) == multiset(qs)
    ensures SortedById(r)
  {
    if qs == [] then []
    else
      var rest := SortById(qs[1..]);
      assert qs == [qs[0]] + qs[1..];
      SameMembers(rest, qs[1..]);
      InsertKeepsSorted(qs[0], rest);
      Insert(qs[0], rest)
  }

  /** A permutation has the same length and the same members. */
  lemma SameMembers(a: seq<Question>, b: seq<Question>)
    requires multiset(a) == multiset(b)
    ensures |a| == |b|
    ensures forall x | x in a :: x in b
    ensures forall x | x in b :: x in a
  {
    assert |a| == |multiset(a)| == |multiset(b)| == |b|;
    forall x | x in a ensures x in b {
      assert x in multiset(a);
    }
    forall x | x in b ensures x in a {
      assert x in multiset(b);
    }
  }

  /** `getQuestionsForSession`: the current round's questions in id order. */
  function OrderedRound(qs: seq<Question>, round: Option<string>): (r: seq<Question>)
    reads set q | q in qs
    ensures SortedById(r)
    ensures |r| == |RoundQuestions(qs, round)|
    ensures forall q | q in r :: q in qs && round.Some? && q.roundId == round
    ensures forall q | q in qs && round.Some? && q.roundId == round :: q in r
  {
    var round' := RoundQuestions(qs, round);
    SameMembers(SortById(round'), round');
    SortById(round')
  }
}
