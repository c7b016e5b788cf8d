/** Bookkeeping of the decoder states the Brotli library hands out.
    The library itself is not modelled; what is kept is which states are
    live and, in order, every creation, destruction and decode step made
    on them, so that "destroyed exactly once" and "never used after
    destruction" can be stated. */
module Ledgers {
  import opened BrotliTypes

  /** One call into the library on the state with the given identity. */
  datatype Event = Created(id: nat) | Destroyed(id: nat) | Stepped(id: nat)

  /** Replays a log from the beginning and gives the set of live states,
      or None as soon as an event creates a state that is already live,
      or destroys or steps one that is not (a double free, a use after
      free). This is the reference the ledger is checked against. */
  function Replay(log: seq<Event>): Option<set<nat>>
    decreases |log|
  {
    if log == [] then Some({})
    else
      match Replay(log[..|log| - 1])
      case None => None
      case Some(live) =>
        match log[|log| - 1]
        case Created(i) => if i in live then None else Some(live + {i})
        case Destroyed(i) => if i in live then Some(live - {i}) else None
        case Stepped(i) => if i in live then Some(live) else None
  }

  /** Replaying one more event only looks at the replay of what came before. */
  lemma ReplayAppend(log: seq<Event>, e: Event)
    ensures Replay(log + [e]) ==
      match Replay(log)
      case None => None
      case Some(live) =>
        match e
        case Created(i) => if i in live then None else Some(live + {i})
        case Destroyed(i) => if i in live then Some(live - {i}) else None
        case Stepped(i) => if i in live then Some(live) else None
  {
    assert (log + [e])[..|log + [e]| - 1] == log;
  }

  /** The library's view of its states: those live, the identity the next
      creation gets, and the log of every call so far. */
  datatype Ledger = Ledger(live: set<nat>, nextId: nat, log: seq<Event>)

  /** A ledger agrees with its own log, and identities are never reused. */
  ghost predicate Sound(l: Ledger) {
    Replay(l.log) == Some(l.live) && forall i :: i in l.live ==> i < l.nextId
  }

  /** The ledger of a library no one has called yet. */
  function EmptyLedger(): (l: Ledger)
    ensures Sound(l) && l.live == {}
  {
    Ledger({}, 0, [])
  }

  /** BrotliCreateState: a new state, with an identity never used before. */
  function Create(l: Ledger): Ledger {
    Ledger(l.live + {l.nextId}, l.nextId + 1, l.log + [Created(l.nextId)])
  }

  /** BrotliDestroyState on a live state. */
  function Destroy(l: Ledger, i: nat): Ledger
    requires i in l.live
  {
    Ledger(l.live - {i}, l.nextId, l.log + [Destroyed(i)])
  }

  /** One BrotliDecompressStream call on a live state: the live set does not change. */
  function Step(l: Ledger, i: nat): Ledger
    requires i in l.live
  {
    l.(log := l.log + [Stepped(i)])
  }

  lemma CreateKeepsSound(l: Ledger)
    requires Sound(l)
    ensures Sound(Create(l))
    ensures l.nextId !in l.live
  {
    ReplayAppend(l.log, Created(l.nextId));
  }

  lemma DestroyKeepsSound(l: Ledger, i: nat)
    requires Sound(l) && i in l.live
    ensures Sound(Destroy(l, i))
  {
    ReplayAppend(l.log, Destroyed(i));
  }

  lemma StepKeepsSound(l: Ledger, i: nat)
    requires Sound(l) && i in l.live
    ensures Sound(Step(l, i))
  {
    ReplayAppend(l.log, Stepped(i));
  }

  /** Destroying a state that is not live, which the wrapper must never do,
      is exactly what the replay rejects: a second destruction of the same
      state makes the log unsound. */
  lemma SecondDestroyRejected(l: Ledger, i: nat)
    requires Sound(l) && i in l.live
    ensures Replay(Destroy(l, i).log + [Destroyed(i)]) == None
  {
    DestroyKeepsSound(l, i);
    ReplayAppend(Destroy(l, i).log, Destroyed(i));
  }
}
