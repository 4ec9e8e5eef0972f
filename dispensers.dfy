/**
 * The three application-wide prompt dispensers (PreguntasIncomodasService,
 * QuienEsMasProbableService and CulturaPendejaService). The three classes have
 * the same body over different banks, so they are one class here, instantiated
 * once per bank. Each keeps one list shared by every caller; it is reloaded,
 * shuffled, from the entries of the requested type only when it has run dry,
 * and each call removes and returns its head.
 */
module Dispensers {
  import opened Outcomes
  import opened Pools

  /** The start of the message thrown when no entry of the type exists. */
  const NoMoreQuestions: string := "No hay más preguntas disponibles para el tipo: "

  /** One `getRandomQuestion` call on values: the outcome and the list left behind. */
  function Dispense(cache: seq<BankEntry>, bank: seq<BankEntry>, tipo: string, shuffle: seq<nat>): (r: (Result<BankEntry>, seq<BankEntry>))
    ensures cache != [] ==> r.0 == Ok(cache[0]) && r.1 == cache[1..]
    ensures cache == [] && FindByTipo(bank, tipo) == [] ==> r.0 == Err(IllegalState(NoMoreQuestions + tipo)) && r.1 == []
    ensures cache == [] && FindByTipo(bank, tipo) != [] ==>
              r.0.Ok? && multiset([r.0.value] + r.1) == multiset(FindByTipo(bank, tipo))
  {
    var loaded := ReloadIfEmpty(cache, bank, tipo, shuffle);
    assert cache == [] ==> |loaded| == |FindByTipo(bank, tipo)|;
    TakeFirst(loaded, IllegalState(NoMoreQuestions + tipo))
  }

  /** While the list holds entries the requested type plays no part: the head comes out whatever is asked. */
  lemma DispenseIgnoresTipo(cache: seq<BankEntry>, bank: seq<BankEntry>, tipo: string, other: string, shuffle: seq<nat>, shuffle': seq<nat>)
    requires cache != []
    ensures Dispense(cache, bank, tipo, shuffle) == Dispense(cache, bank, other, shuffle')
    ensures Dispense(cache, bank, other, shuffle').0 == Ok(cache[0])
  {
  }

  /** On a reload the entry handed out is one of the requested type from the bank. */
  lemma {:induction false} ReloadServesRequestedTipo(bank: seq<BankEntry>, tipo: string, shuffle: seq<nat>)
    ensures Dispense([], bank, tipo, shuffle).0.Ok? <==> exists e :: e in bank && e.tipo == tipo
    ensures Dispense([], bank, tipo, shuffle).0.Ok? ==>
              var e := Dispense([], bank, tipo, shuffle).0.value;
              e in bank && e.tipo == tipo
  {
    var r := Dispense([], bank, tipo, shuffle);
    var typed := FindByTipo(bank, tipo);
    if r.0.Ok? {
      assert r.0.value in multiset([r.0.value] + r.1);
      assert r.0.value in typed;
    }
    if e :| e in bank && e.tipo == tipo {
      assert e in typed;
    }
  }

  /** Every entry of the shared list comes from the bank. */
  predicate FromBank(cache: seq<BankEntry>, bank: seq<BankEntry>)
  {
    forall e | e in cache :: e in bank
  }

  /** ...and a call keeps it so, so what is handed out always comes from the bank. */
  lemma {:induction false} DispensePreservesFromBank(cache: seq<BankEntry>, bank: seq<BankEntry>, tipo: string, shuffle: seq<nat>)
    requires FromBank(cache, bank)
    ensures FromBank(Dispense(cache, bank, tipo, shuffle).1, bank)
    ensures Dispense(cache, bank, tipo, shuffle).0.Ok? ==> Dispense(cache, bank, tipo, shuffle).0.value in bank
  {
    var r := Dispense(cache, bank, tipo, shuffle);
    if cache == [] {
      var typed := FindByTipo(bank, tipo);
      forall e | e in r.1 ensures e in bank {
        assert e in multiset([r.0.value] + r.1);
        assert e in typed;
      }
      if r.0.Ok? {
        assert r.0.value in multiset([r.0.value] + r.1);
        assert r.0.value in typed;
      }
    } else {
      forall e | e in r.1 ensures e in bank {
        assert e in cache[1..];
        assert e in cache;
      }
    }
  }

  /** A run of calls, each with its own type and shuffle: the outcomes in order and the list at the end. */
  function DispenseAll(cache: seq<BankEntry>, bank: seq<BankEntry>, calls: seq<(string, seq<nat>)>): (r: (seq<Result<BankEntry>>, seq<BankEntry>))
    ensures |r.0| == |calls|
    decreases |calls|
  {
    if calls == [] then ([], cache)
    else
      var step := Dispense(cache, bank, calls[0].0, calls[0].1);
      var rest := DispenseAll(step.1, bank, calls[1..]);
      ([step.0] + rest.0, rest.1)
  }

  /**
   * Until the list runs dry the calls hand out its entries in order, each once,
   * whatever types they ask for.
   */
  lemma {:induction false} DispenseAllServesInOrder(cache: seq<BankEntry>, bank: seq<BankEntry>, calls: seq<(string, seq<nat>)>)
    requires |calls| <= |cache|
    ensures forall i | 0 <= i < |calls| :: DispenseAll(cache, bank, calls).0[i] == Ok(cache[i])
    ensures DispenseAll(cache, bank, calls).1 == cache[|calls|..]
  {
    if calls != [] {
      var step := Dispense(cache, bank, calls[0].0, calls[0].1);
      DispenseAllServesInOrder(step.1, bank, calls[1..]);
      var r := DispenseAll(cache, bank, calls);
      forall i | 0 <= i < |calls| ensures r.0[i] == Ok(cache[i]) {
        if i > 0 {
          assert r.0[i] == DispenseAll(step.1, bank, calls[1..]).0[i - 1];
        }
      }
    }
  }

  /** One of the three services: the bank it reads and the list it shares between callers. */
  class GlobalDispenser {
    const repository: seq<BankEntry>
    var currentSessionQuestions: seq<BankEntry>

    constructor (repository: seq<BankEntry>)
      ensures this.repository == repository && currentSessionQuestions == []
    {
      this.repository := repository;
      currentSessionQuestions := [];
    }

    /**
     * `getRandomQuestion(tipo)`: reload the list from the entries of that type,
     * shuffled, if it is empty; then remove and return its head, or throw if it
     * is still empty.
     */
    method GetRandomQuestion(tipo: string, shuffle: seq<nat>) returns (r: Result<BankEntry>)
      modifies this`currentSessionQuestions
      ensures (r, currentSessionQuestions) == Dispense(old(currentSessionQuestions), repository, tipo, shuffle)
      ensures old(currentSessionQuestions) != [] ==>
                r == Ok(old(currentSessionQuestions)[0]) && currentSessionQuestions == old(currentSessionQuestions)[1..]
      ensures old(currentSessionQuestions) == [] && r.Ok? ==>
                r.value.tipo == tipo && multiset([r.value] + currentSessionQuestions) == multiset(FindByTipo(repository, tipo))
      ensures r.Err? <==> old(currentSessionQuestions) == [] && FindByTipo(repository, tipo) == []
      ensures r.Err? ==> r.failure == IllegalState(NoMoreQuestions + tipo) && currentSessionQuestions == []
    {
      if currentSessionQuestions == [] {
        currentSessionQuestions := Shuffle(FindByTipo(repository, tipo), shuffle);
      }
      if currentSessionQuestions != [] {
        r := Ok(currentSessionQuestions[0]);
        currentSessionQuestions := currentSessionQuestions[1..];
      } else {
        r := Err(IllegalState(NoMoreQuestions + tipo));
      }
      if old(currentSessionQuestions) == [] && r.Ok? {
        assert r.value in multiset([r.value] + currentSessionQuestions);
      }
    }
  }
}
