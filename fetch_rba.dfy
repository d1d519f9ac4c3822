/** The state machine of the rare-bird-alert fetch hook. The request, its
    JSON decoding and the clock are abstracted: a call is given the outcome
    of the fetch and the time stamp taken when it succeeds. */
module FetchRba {
  import opened Wrappers

  /** `error`, `loading`, `lastUpdate` (a time stamp, `None` for `null`) and
      the fetched `species`, whose element type is left abstract. */
  datatype RbaState<S> = RbaState(error: bool, loading: bool, lastUpdate: Option<int>, species: seq<S>)

  /** How the fetch ended: a response that is not ok, an exception from the
      request or its decoding, a body that is not an array, or an array. */
  datatype Outcome<S> = NotOk | Threw | NonArrayBody | ArrayBody(items: seq<S>)

  function Initial<S>(): (s: RbaState<S>)
    ensures !s.error && !s.loading && s.lastUpdate.None? && s.species == []
  {
    RbaState(false, false, None, [])
  }

  /** The first update of a call. */
  function Started<S>(current: RbaState<S>): (s: RbaState<S>)
    ensures s.loading && !s.error && s.species == []
    ensures s.lastUpdate == current.lastUpdate
  {
    current.(loading := true, error := false, species := [])
  }

  /** The terminal update of a call. */
  function Finished<S>(current: RbaState<S>, outcome: Outcome<S>, now: int): (s: RbaState<S>)
    ensures !s.loading
    ensures s.error <==> !outcome.ArrayBody?
    ensures s.error ==> s.species == [] && s.lastUpdate == current.lastUpdate
    ensures outcome.ArrayBody? ==> s.species == outcome.items && s.lastUpdate == Some(now)
  {
    match outcome
    case ArrayBody(items) => RbaState(false, false, Some(now), items)
    case _ => current.(loading := false, error := true, species := [])
  }

  /** The state a completed call leaves: not loading, and no species when
      it failed. */
  predicate Settled<S>(s: RbaState<S>) {
    !s.loading && (s.error ==> s.species == [])
  }

  /** A whole call from any state ends settled; a failed call keeps the time
      of the last success. */
  lemma CallSettles<S>(s: RbaState<S>, outcome: Outcome<S>, now: int)
    ensures Settled(Finished(Started(s), outcome, now))
    ensures !outcome.ArrayBody? ==> Finished(Started(s), outcome, now).lastUpdate == s.lastUpdate
  {
  }

  /** Repeating a call with the same outcome and time stamp changes nothing. */
  lemma CallRepeat<S>(s: RbaState<S>, outcome: Outcome<S>, now: int)
    ensures var once := Finished(Started(s), outcome, now);
      Finished(Started(once), outcome, now) == once
  {
  }

  /** The hook's state, replaced by each step of `call`. */
  class RbaHook<S> {
    var state: RbaState<S>

    constructor()
      ensures state == Initial()
    {
      state := Initial();
    }

    method Start()
      modifies this
      ensures state == Started(old(state))
    {
      state := Started(state);
    }

    method Finish(outcome: Outcome<S>, now: int)
      modifies this
      ensures state == Finished(old(state), outcome, now)
    {
      state := Finished(state, outcome, now);
    }

    /** `call`: the start update, then one terminal update. */
    method Call(outcome: Outcome<S>, now: int)
      modifies this
      ensures state == Finished(Started(old(state)), outcome, now)
      ensures Settled(state)
      ensures outcome.ArrayBody? ==> state == RbaState(false, false, Some(now), outcome.items)
      ensures !outcome.ArrayBody? ==> state == RbaState(true, false, old(state).lastUpdate, [])
    {
      Start();
      Finish(outcome, now);
      CallSettles(old(state), outcome, now);
    }
  }
}
