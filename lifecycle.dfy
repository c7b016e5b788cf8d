/** The decompressor handle's ownership of its decoder state, as values:
    the identity of the state it owns (None for the null field) together
    with the library's ledger. The class in module StreamDeCompressor is
    proved to move between these values; the lemmas here say what any
    sequence of calls on one handle does to the states it owns. */
module Lifecycle {
  import opened BrotliTypes
  import opened Ledgers

  datatype Handle = Handle(owned: Option<nat>, ledger: Ledger)

  /** The ledger is sound and the handle only ever owns a live state. */
  ghost predicate Healthy(h: Handle) {
    Sound(h.ledger) && (h.owned.Some? ==> h.owned.value in h.ledger.live)
  }

  /** The identities the handle owns, as a set of at most one. */
  function OwnedIds(h: Handle): set<nat> {
    if h.owned.Some? then {h.owned.value} else {}
  }

  /** The library has no live state but the one this handle owns. */
  ghost predicate Exclusive(h: Handle) {
    h.ledger.live == OwnedIds(h)
  }

  /** The log entries a destruction of the owned state adds. */
  function DestroyEvents(h: Handle): seq<Event> {
    if h.owned.Some? then [Destroyed(h.owned.value)] else []
  }

  /** A Java object whose state field is still 0, with a library no one has called. */
  function Uninitialised(): (h: Handle)
    ensures Healthy(h) && Exclusive(h) && h.owned == None
  {
    Handle(None, EmptyLedger())
  }

  /** initBrotliDeCompressor: destroy the state owned, if any, then ask
      the library for a new one and store what it returns; when the
      library cannot allocate (`stateCreated` false) the field is left null.
      The handle stays healthy, and what it owns afterwards was not live
      before. */
  function Init(h: Handle, stateCreated: bool): (r: Handle)
    requires Healthy(h)
    ensures Healthy(r)
    ensures r.owned.Some? ==> r.owned.value !in h.ledger.live
  {
    var l := if h.owned.Some? then Destroy(h.ledger, h.owned.value) else h.ledger;
    assert Sound(l) by {
      if h.owned.Some? {
        DestroyKeepsSound(h.ledger, h.owned.value);
      }
    }
    if stateCreated then CreateKeepsSound(l); Handle(Some(l.nextId), Create(l)) else Handle(None, l)
  }

  /** freeNativeResources: destroy the state owned and clear the field;
      nothing at all when the field is null. The handle stays healthy
      and owns nothing afterwards. */
  function Free(h: Handle): (r: Handle)
    requires Healthy(h)
    ensures Healthy(r) && r.owned == None
  {
    if h.owned.Some? then
      DestroyKeepsSound(h.ledger, h.owned.value);
      Handle(None, Destroy(h.ledger, h.owned.value))
    else h
  }

  /** A decode call: one engine step on the owned state when the engine is
      reached, nothing otherwise. The handle stays healthy and keeps the
      state it owns. */
  function Decode(h: Handle, engineRuns: bool): (r: Handle)
    requires Healthy(h)
    requires engineRuns ==> h.owned.Some?
    ensures Healthy(r) && r.owned == h.owned
  {
    if engineRuns then
      StepKeepsSound(h.ledger, h.owned.value);
      h.(ledger := Step(h.ledger, h.owned.value))
    else h
  }

  /** After initialisation the handle owns a state that was not live
      before and that no one owned, unless the library could not allocate
      one, in which case it owns nothing; the state owned before, if any,
      is destroyed exactly once, before the new one is created; no other
      state is touched. */
  lemma InitOwnsFreshState(h: Handle, stateCreated: bool)
    requires Healthy(h)
    ensures var r := Init(h, stateCreated);
      (r.owned.Some? <==> stateCreated) &&
      r.ledger.live == (h.ledger.live - OwnedIds(h)) + OwnedIds(r) &&
      r.ledger.log == h.ledger.log + DestroyEvents(h) + (if stateCreated then [Created(r.owned.value)] else [])
  {
    var l := h.ledger;
    if h.owned.Some? {
      DestroyKeepsSound(l, h.owned.value);
      l := Destroy(l, h.owned.value);
    }
    if stateCreated {
      CreateKeepsSound(l);
    }
  }

  /** After freeing, the handle owns nothing; the state it owned, if any,
      is destroyed once and nothing else changes. */
  lemma FreeReleasesState(h: Handle)
    requires Healthy(h)
    ensures var r := Free(h);
      Healthy(r) && r.owned == None &&
      r.ledger.live == h.ledger.live - OwnedIds(h) &&
      r.ledger.nextId == h.ledger.nextId &&
      r.ledger.log == h.ledger.log + DestroyEvents(h)
  {
    if h.owned.Some? {
      DestroyKeepsSound(h.ledger, h.owned.value);
    }
  }

  /** Freeing an uninitialised handle destroys nothing and changes nothing,
      so freeing twice is freeing once. */
  lemma FreeIdempotent(h: Handle)
    requires Healthy(h)
    ensures Healthy(Free(h)) && Free(Free(h)) == Free(h)
  {
    FreeReleasesState(h);
  }

  /** Initialising is freeing followed by creating a state and owning it. */
  lemma InitIsFreeThenCreate(h: Handle, stateCreated: bool)
    requires Healthy(h)
    ensures Init(h, stateCreated) ==
      (if stateCreated then Handle(Some(Free(h).ledger.nextId), Create(Free(h).ledger)) else Free(h))
  {
  }

  /** A decode step keeps the state owned and the live set as they were. */
  lemma DecodeKeepsOwnership(h: Handle, engineRuns: bool)
    requires Healthy(h)
    requires engineRuns ==> h.owned.Some?
    ensures var r := Decode(h, engineRuns);
      Healthy(r) && r.owned == h.owned && r.ledger.live == h.ledger.live && r.ledger.nextId == h.ledger.nextId
  {
    if engineRuns {
      StepKeepsSound(h.ledger, h.owned.value);
    }
  }

  /** A call a Java caller can make on the handle. For a decode call,
      `passes` says whether the windows, the JVM and (for the array
      variant) the pins let it reach the engine, had the handle been live;
      for an initialisation, `stateCreated` says whether the library could
      allocate a state. */
  datatype Call = InitCall(stateCreated: bool) | FreeCall | DecodeCall(passes: bool)

  function Apply(h: Handle, c: Call): (r: Handle)
    requires Healthy(h)
    ensures Healthy(r)
    ensures Exclusive(h) ==> Exclusive(r)
  {
    match c
    case InitCall(stateCreated) => InitOwnsFreshState(h, stateCreated); Init(h, stateCreated)
    case FreeCall => FreeReleasesState(h); Free(h)
    case DecodeCall(passes) =>
      DecodeKeepsOwnership(h, passes && h.owned.Some?);
      Decode(h, passes && h.owned.Some?)
  }

  /** The handle after a sequence of calls. */
  function Run(h: Handle, calls: seq<Call>): (r: Handle)
    requires Healthy(h)
    ensures Healthy(r)
    decreases |calls|
  {
    if calls == [] then h else Run(Apply(h, calls[0]), calls[1..])
  }

  lemma {:induction false} RunAppend(h: Handle, calls: seq<Call>, c: Call)
    requires Healthy(h)
    ensures Run(h, calls + [c]) == Apply(Run(h, calls), c)
    decreases |calls|
  {
    if calls == [] {
      assert calls + [c] == [c];
    } else {
      assert (calls + [c])[1..] == calls[1..] + [c];
      RunAppend(Apply(h, calls[0]), calls[1..], c);
    }
  }

  /** A handle that is the library's only client keeps it that way: every
      live state is the one the handle owns, whatever the calls. */
  lemma {:induction false} RunStaysExclusive(h: Handle, calls: seq<Call>)
    requires Healthy(h) && Exclusive(h)
    ensures Exclusive(Run(h, calls))
    decreases |calls|
  {
    if calls != [] {
      RunStaysExclusive(Apply(h, calls[0]), calls[1..]);
    }
  }

  /** Starting from a fresh object, at most one decoder state is ever live. */
  lemma AtMostOneLiveState(calls: seq<Call>)
    ensures |Run(Uninitialised(), calls).ledger.live| <= 1
  {
    RunStaysExclusive(Uninitialised(), calls);
  }

  /** Starting from a fresh object, any sequence of calls that ends with
      freeNativeResources leaves no decoder state live: none leaks. */
  lemma FreeLeavesNothingLive(calls: seq<Call>)
    ensures Run(Uninitialised(), calls + [FreeCall]).ledger.live == {}
    ensures Run(Uninitialised(), calls + [FreeCall]).owned == None
  {
    RunAppend(Uninitialised(), calls, FreeCall);
    RunStaysExclusive(Uninitialised(), calls);
    FreeReleasesState(Run(Uninitialised(), calls));
  }
}
