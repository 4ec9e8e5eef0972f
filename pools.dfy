/**
 * Pre-authored prompt banks and the list operations the dispensers perform on
 * them: `findByTipo`, `Collections.shuffle`, `remove(index)` and the first entry
 * of a given type.
 */
module Pools {
  import opened Outcomes
  import opened Text

  /** A pre-authored bank entry (YoNuncaNunca, CulturaPendeja, QuienEsMasProbable, PreguntasIncomodas). */
  datatype BankEntry = BankEntry(id: nat, texto: string, tipo: string)

  /** `repository.findByTipo(tipo)`: the entries of one type, in store order. */
  function FindByTipo(bank: seq<BankEntry>, tipo: string): (r: seq<BankEntry>)
    ensures forall e :: e in r <==> e in bank && e.tipo == tipo
    ensures |r| <= |bank|
  {
    if bank == [] then []
    else (if bank[0].tipo == tipo then [bank[0]] else []) + FindByTipo(bank[1..], tipo)
  }

  /** `list.remove(k)`: the list without its k-th element, the rest in order. */
  function RemoveAt<T>(s: seq<T>, k: nat): (r: seq<T>)
    requires k < |s|
    ensures |r| == |s| - 1
    ensures multiset(r) + multiset{s[k]} == multiset(s)
    ensures forall i :: 0 <= i < k ==> r[i] == s[i]
    ensures forall i :: k <= i < |r| ==> r[i] == s[i + 1]
  {
    assert s == s[..k] + [s[k]] + s[k + 1..];
    s[..k] + s[k + 1..]
  }

  /**
   * `Collections.shuffle`: the random source is the sequence of choices; the
   * element put next is the remaining one at index `choice % remaining`.
   */
  function Shuffle<T>(s: seq<T>, choices: seq<nat>): (r: seq<T>)
    ensures multiset(r) == multiset(s)
    ensures |r| == |s|
    decreases |s|
  {
    if s == [] then []
    else
      var k := (if choices == [] then 0 else choices[0]) % |s|;
      [s[k]] + Shuffle(RemoveAt(s, k), if choices == [] then [] else choices[1..])
  }

  /** The position of the first occurrence of x. */
  function IndexOf<T(==)>(s: seq<T>, x: T): (k: nat)
    requires x in s
    ensures k < |s| && s[k] == x && x !in s[..k]
  {
    if s[0] == x then 0 else 1 + IndexOf(s[1..], x)
  }

  lemma MultisetCancel<T>(a: multiset<T>, b: multiset<T>, x: T)
    requires a + multiset{x} == b + multiset{x}
    ensures a == b
  {
    forall y ensures a[y] == b[y] {
      assert (a + multiset{x})[y] == (b + multiset{x})[y];
    }
  }

  /** Taking the head of t out of s leaves a permutation of t's tail. */
  lemma RemoveHeadPermutation<T>(s: seq<T>, t: seq<T>, k: nat)
    requires multiset(t) == multiset(s) && k < |s| && t != [] && s[k] == t[0]
    ensures multiset(t[1..]) == multiset(RemoveAt(s, k))
  {
    assert t == [t[0]] + t[1..];
    assert multiset(t) == multiset(t[1..]) + multiset{t[0]};
    MultisetCancel(multiset(t[1..]), multiset(RemoveAt(s, k)), t[0]);
  }

  lemma PermutationHead<T>(s: seq<T>, t: seq<T>)
    requires multiset(t) == multiset(s) && s != []
    ensures t != [] && t[0] in s
  {
    assert |t| == |multiset(t)| == |multiset(s)| == |s|;
    assert t[0] in multiset(t);
  }

  lemma ShuffleStep<T>(s: seq<T>, k: nat, more: seq<nat>)
    requires k < |s|
    ensures Shuffle(s, [k] + more) == [s[k]] + Shuffle(RemoveAt(s, k), more)
  {
    var choices := [k] + more;
    assert choices != [] && choices[0] == k && choices[1..] == more;
    ModSmall(k, |s|);
  }

  lemma ModSmall(k: nat, n: nat)
    requires k < n
    ensures k % n == k
  {
  }

  /** The choices that make Shuffle produce a given permutation. */
  lemma {:induction false} ShuffleChoicesFor<T>(s: seq<T>, t: seq<T>) returns (choices: seq<nat>)
    requires multiset(t) == multiset(s)
    ensures Shuffle(s, choices) == t
    decreases |s|
  {
    if s == [] {
      assert |t| == |multiset(t)| == 0;
      choices := [];
    } else {
      PermutationHead(s, t);
      var k := IndexOf(s, t[0]);
      RemoveHeadPermutation(s, t, k);
      var more := ShuffleChoicesFor(RemoveAt(s, k), t[1..]);
      ShuffleStep(s, k, more);
      assert [t[0]] + t[1..] == t;
      choices := [k] + more;
    }
  }

  /** Every permutation is a possible outcome of Shuffle, so Shuffle stands for any shuffle. */
  lemma ShuffleReachesEveryPermutation<T>(s: seq<T>, t: seq<T>)
    requires multiset(t) == multiset(s)
    ensures exists choices :: Shuffle(s, choices) == t
  {
    var choices := ShuffleChoicesFor(s, t);
  }

  /** `list.remove(x)`: drops the first occurrence of x, if there is one. */
  function RemoveFirst<T(==)>(s: seq<T>, x: T): (r: seq<T>)
    ensures x !in s ==> r == s
    ensures x in s ==> exists k :: 0 <= k < |s| && s[k] == x && x !in s[..k] && r == s[..k] + s[k + 1..]
    ensures x in s ==> multiset(r) + multiset{x} == multiset(s)
  {
    if x in s then
      var k := IndexOf(s, x);
      assert r: RemoveAt(s, k) == s[..k] + s[k + 1..];
      RemoveAt(s, k)
    else s
  }

  /** Removing the first occurrence from a list without repeats removes the element altogether. */
  lemma RemoveFirstLeavesNone<T>(s: seq<T>, x: T)
    requires NoRepeats(s)
    ensures var r := RemoveFirst(s, x); NoRepeats(r) && x !in r && forall y | y in r :: y in s
  {
    var r := RemoveFirst(s, x);
    if x in s {
      assert multiset(r) + multiset{x} == multiset(s);
      assert multiset(r)[x] == 0;
      forall y | y in r ensures y in s && multiset(r)[y] <= 1 {
        assert multiset(r)[y] <= multiset(s)[y];
      }
    }
  }

  /** The queue operation every dispenser performs: remove and return the head. */
  function TakeFirst(pool: seq<BankEntry>, whenEmpty: Failure): (r: (Result<BankEntry>, seq<BankEntry>))
    ensures pool == [] ==> r.0 == Err(whenEmpty) && r.1 == pool
    ensures pool != [] ==> r.0 == Ok(pool[0]) && [pool[0]] + r.1 == pool
  {
    if pool == [] then (Err(whenEmpty), pool) else (Ok(pool[0]), pool[1..])
  }

  /** The global dispensers' cache: reloaded, shuffled, from findByTipo only when it is empty. */
  function ReloadIfEmpty(current: seq<BankEntry>, bank: seq<BankEntry>, tipo: string, shuffle: seq<nat>): (r: seq<BankEntry>)
    ensures current != [] ==> r == current
    ensures current == [] ==> multiset(r) == multiset(FindByTipo(bank, tipo))
  {
    if current == [] then Shuffle(FindByTipo(bank, tipo), shuffle) else current
  }

  /** `queue.stream().filter(q -> q.getTipo().equalsIgnoreCase(tipo)).findFirst()`, as an index. */
  function FirstOfTipo(queue: seq<BankEntry>, tipo: string): (r: Option<nat>)
    ensures r.Some? ==> r.value < |queue| && EqualsIgnoreCase(queue[r.value].tipo, tipo)
    ensures r.Some? ==> forall j :: 0 <= j < r.value ==> !EqualsIgnoreCase(queue[j].tipo, tipo)
    ensures r.None? ==> forall j :: 0 <= j < |queue| ==> !EqualsIgnoreCase(queue[j].tipo, tipo)
  {
    if queue == [] then None
    else if EqualsIgnoreCase(queue[0].tipo, tipo) then Some(0)
    else match FirstOfTipo(queue[1..], tipo)
      case None => None
      case Some(k) => Some(k + 1)
  }

  // ---------------------------------------------------------------------------
  // The anti-repeat member draw of `getRandomUser`.

  /** The outcome of one draw and what is left in the session's remaining pool. */
  datatype Draw<T> = Draw(outcome: Result<T>, left: Option<seq<T>>)

  /**
   * One `getRandomUser` step: the remaining pool is created from the member
   * list on first use and refilled from it when it is empty; then the element
   * at `choice % size` is removed and returned. A missing member list where it
   * is needed is a NullPointerException; an empty pool makes `nextInt(0)` throw.
   */
  function DrawOne<T>(remaining: Option<seq<T>>, members: Option<seq<T>>, choice: nat): (d: Draw<T>)
    ensures remaining.Some? && remaining.value != [] ==>
              d.outcome.Ok? && d.outcome.value in remaining.value && d.left.Some? &&
              |d.left.value| == |remaining.value| - 1 &&
              multiset(d.left.value) + multiset{d.outcome.value} == multiset(remaining.value)
    ensures (remaining.None? || remaining.value == []) && members.None? ==>
              d.outcome == Err(NullPointer) && d.left == remaining
    ensures (remaining.None? || remaining.value == []) && members.Some? && members.value == [] ==>
              d.outcome == Err(IllegalArgument("bound must be positive")) && d.left == Some([])
    ensures (remaining.None? || remaining.value == []) && members.Some? && members.value != [] ==>
              d.outcome.Ok? && d.outcome.value in members.value && d.left.Some? &&
              |d.left.value| == |members.value| - 1 &&
              multiset(d.left.value) + multiset{d.outcome.value} == multiset(members.value)
  {
    var pool :=
      if remaining.Some? && remaining.value != [] then Some(remaining.value)
      else if members.None? then None
      else Some(members.value);
    if pool.None? then Draw(Err(NullPointer), remaining)
    else if pool.value == [] then Draw(Err(IllegalArgument("bound must be positive")), Some([]))
    else
      var k := choice % |pool.value|;
      Draw(Ok(pool.value[k]), Some(RemoveAt(pool.value, k)))
  }

  /** No element occurs twice. */
  predicate NoRepeats<T(==)>(s: seq<T>)
  {
    forall x | x in s :: multiset(s)[x] <= 1
  }

  /**
   * Successive DrawOne steps from a pool holding at least as many members as
   * there are draws, so that no refill happens: what was drawn, in order, and
   * what is left.
   */
  function DrawMany<T>(pool: seq<T>, members: Option<seq<T>>, choices: seq<nat>): (r: (seq<T>, seq<T>))
    requires |choices| <= |pool|
    ensures |r.0| == |choices| && |r.1| == |pool| - |choices|
    decreases |choices|
  {
    if choices == [] then ([], pool)
    else
      var d := DrawOne(Some(pool), members, choices[0]);
      var rest := DrawMany(d.left.value, members, choices[1..]);
      ([d.outcome.value] + rest.0, rest.1)
  }

  /** Between refills the draws and the remainder together are exactly the pool. */
  lemma {:induction false} DrawsPartitionPool<T>(pool: seq<T>, members: Option<seq<T>>, choices: seq<nat>)
    requires |choices| <= |pool|
    ensures multiset(DrawMany(pool, members, choices).0) + multiset(DrawMany(pool, members, choices).1) == multiset(pool)
    decreases |choices|
  {
    if choices != [] {
      var d := DrawOne(Some(pool), members, choices[0]);
      DrawsPartitionPool(d.left.value, members, choices[1..]);
    }
  }

  /** So no member of a repeat-free pool is drawn twice before the pool is refilled. */
  lemma DrawsRepeatNobody<T>(pool: seq<T>, members: Option<seq<T>>, choices: seq<nat>)
    requires |choices| <= |pool|
    requires NoRepeats(pool)
    ensures NoRepeats(DrawMany(pool, members, choices).0)
  {
    DrawsPartitionPool(pool, members, choices);
    var drawn := DrawMany(pool, members, choices).0;
    forall x | x in drawn
      ensures multiset(drawn)[x] <= 1
    {
      assert multiset(drawn)[x] <= multiset(pool)[x];
      assert x in pool by { assert multiset(pool)[x] > 0; }
    }
  }

  // ---------------------------------------------------------------------------
  // The per-session pools of `getNextYoNuncaNunca` and `getNextCulturaPendeja`.

  const NoUsersAvailable: string := "No users available in the session."
  const NoMoreQuestionsAvailable: string := "No more questions available."

  /**
   * One call on values: the pool of the session is created from `loaded` only
   * if it has none (`putIfAbsent`), the session must have players, and then
   * the head of its pool is removed and returned. The pool is never refilled.
   */
  function NextFromSessionPool<U>(pools: map<string, seq<BankEntry>>, code: string, loaded: seq<BankEntry>, users: Option<seq<U>>)
    : (r: (Result<BankEntry>, map<string, seq<BankEntry>>))
    ensures var pool := if code in pools then pools[code] else loaded;
            && r.1.Keys == pools.Keys + {code}
            && (forall c | c in pools && c != code :: r.1[c] == pools[c])
            && ((users.None? || users.value == []) ==> r.0 == Err(IllegalState(NoUsersAvailable)) && r.1[code] == pool)
            && (users.Some? && users.value != [] && pool == [] ==> r.0 == Err(IllegalState(NoMoreQuestionsAvailable)) && r.1[code] == pool)
            && (users.Some? && users.value != [] && pool != [] ==> r.0 == Ok(pool[0]) && [pool[0]] + r.1[code] == pool)
  {
    var pools' := if code in pools then pools else pools[code := loaded];
    var pool := pools'[code];
    if users.None? || users.value == [] then (Err(IllegalState(NoUsersAvailable)), pools')
    else if pool == [] then (Err(IllegalState(NoMoreQuestionsAvailable)), pools')
    else
      assert [pool[0]] + pool[1..] == pool;
      (Ok(pool[0]), pools'[code := pool[1..]])
  }

  /**
   * A run of calls on one session, each with the prompts its own type would
   * load: the outcomes in order and the pools at the end.
   */
  function NextAll<U>(pools: map<string, seq<BankEntry>>, code: string, loads: seq<seq<BankEntry>>, users: Option<seq<U>>)
    : (r: (seq<Result<BankEntry>>, map<string, seq<BankEntry>>))
    ensures |r.0| == |loads|
    decreases |loads|
  {
    if loads == [] then ([], pools)
    else
      var step := NextFromSessionPool(pools, code, loads[0], users);
      var rest := NextAll(step.1, code, loads[1..], users);
      ([step.0] + rest.0, rest.1)
  }

  /** Once a session has a pool and players, the calls leave it only ever shorter, never refilled. */
  lemma {:induction false} SessionPoolDrains<U>(pools: map<string, seq<BankEntry>>, code: string, loads: seq<seq<BankEntry>>, users: Option<seq<U>>)
    requires code in pools && users.Some? && users.value != []
    ensures var r, pool := NextAll(pools, code, loads, users), pools[code];
            code in r.1 && r.1[code] == (if |loads| <= |pool| then pool[|loads|..] else [])
    decreases |loads|
  {
    if loads != [] {
      var pool := pools[code];
      var step := NextFromSessionPool(pools, code, loads[0], users);
      SessionPoolDrains(step.1, code, loads[1..], users);
      if pool != [] {
        assert step.1[code] == pool[1..];
        if |loads| <= |pool| {
          assert pool[1..][|loads| - 1..] == pool[|loads|..];
        }
      }
    }
  }

  /**
   * Once a session has a pool and players, the calls hand out that pool's
   * entries in order, each once, whatever types they ask for; after the last
   * one every call fails (see SessionPoolDrains for the pool left behind).
   */
  lemma {:induction false} SessionPoolIsNeverRefilled<U>(pools: map<string, seq<BankEntry>>, code: string, loads: seq<seq<BankEntry>>, users: Option<seq<U>>)
    requires code in pools && users.Some? && users.value != []
    ensures var r, pool := NextAll(pools, code, loads, users), pools[code];
            && (forall i | 0 <= i < |loads| && i < |pool| :: r.0[i] == Ok(pool[i]))
            && (forall i | |pool| <= i < |loads| :: r.0[i] == Err(IllegalState(NoMoreQuestionsAvailable)))
    decreases |loads|
  {
    if loads != [] {
      var pool := pools[code];
      var step := NextFromSessionPool(pools, code, loads[0], users);
      SessionPoolIsNeverRefilled(step.1, code, loads[1..], users);
      var r := NextAll(pools, code, loads, users);
      var rest := NextAll(step.1, code, loads[1..], users);
      assert r.0 == [step.0] + rest.0;
      if pool == [] {
        assert step.0 == Err(IllegalState(NoMoreQuestionsAvailable)) && step.1[code] == [];
      } else {
        assert step.0 == Ok(pool[0]) && step.1[code] == pool[1..];
        forall i | 0 < i < |loads| && i < |pool|
          ensures r.0[i] == Ok(pool[i])
        {
          assert r.0[i] == rest.0[i - 1] && pool[1..][i - 1] == pool[i];
        }
      }
      assert |step.1[code]| <= if pool == [] then 0 else |pool| - 1;
      assert var r', pool' := NextAll(step.1, code, loads[1..], users), step.1[code];
        forall i | |pool'| <= i < |loads[1..]| :: r'.0[i] == Err(IllegalState(NoMoreQuestionsAvailable));
      forall i | 0 < i < |loads| && |pool| <= i
        ensures r.0[i] == Err(IllegalState(NoMoreQuestionsAvailable))
      {
        assert r.0[i] == rest.0[i - 1];
      }
    }
  }
}
