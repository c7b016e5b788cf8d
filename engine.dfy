/** The three entry points of the Brotli decoder library that the wrapper
    calls (brotli/dec/decode.h). Their internals (the format of RFC 7932)
    are not part of this model: each body below chooses any result that
    the library's contract allows, so whatever is proved of a caller holds
    for every behaviour of the library within that contract. */
module Engine {
  import opened BrotliTypes
  import opened Ledgers

  /** One decoder state (BrotliState). Its contents are private to the
      library and change on every decode step; `id` only names it in the
      ledger. */
  class BrotliState {
    ghost const id: nat
    var machine: seq<int>

    constructor (ghost id: nat)
      ensures this.id == id
    {
      this.id := id;
      machine := [];
    }
  }

  /** What one BrotliDecompressStream call hands back: its status and how
      much of the input and output window is left (`available_in` and
      `available_out` after the call). */
  datatype StreamStep = StreamStep(status: BrotliResult, remainingIn: nat, remainingOut: nat)

  /** The library as a whole, with the ledger of the states it gave out. */
  class BrotliLibrary {
    ghost var ledger: Ledger

    ghost predicate Valid()
      reads this
    {
      Sound(ledger)
    }

    constructor ()
      ensures Valid() && ledger == EmptyLedger()
    {
      ledger := EmptyLedger();
    }

    /** BrotliCreateState(0, 0, NULL): a fresh state, now live, or None
        (the null pointer) when the library cannot allocate one, in which
        case nothing changes. */
    method CreateState() returns (s: Option<BrotliState>)
      requires Valid()
      modifies this
      ensures Valid()
      ensures s.Some? ==> fresh(s.value) && s.value.id == old(ledger.nextId) && s.value.id !in old(ledger.live)
      ensures ledger == if s.Some? then Create(old(ledger)) else old(ledger)
    {
      var obtained: bool := *;
      if obtained {
        CreateKeepsSound(ledger);
        var created := new BrotliState(ledger.nextId);
        ledger := Create(ledger);
        s := Some(created);
      } else {
        s := None;
      }
    }

    /** BrotliDestroyState: only a live state may be destroyed. */
    method DestroyState(s: BrotliState)
      requires Valid() && s.id in ledger.live
      modifies this
      ensures Valid()
      ensures ledger == Destroy(old(ledger), s.id)
    {
      DestroyKeepsSound(ledger, s.id);
      ledger := Destroy(ledger, s.id);
    }

    /** BrotliDecompressStream on the input window input[inPos .. inPos +
        availableIn) and the output window output[outPos .. outPos +
        availableOut). The library's contract, which this body realises
        for every choice: it consumes and produces no more than it was
        given, writes only the prefix of the output window it reports as
        produced, and changes no state but the one it was passed. */
    method DecompressStream(input: array<bv8>, inPos: nat, availableIn: nat,
                            output: array<bv8>, outPos: nat, availableOut: nat,
                            s: BrotliState)
      returns (step: StreamStep)
      requires Valid() && s.id in ledger.live
      requires inPos + availableIn <= input.Length
      requires outPos + availableOut <= output.Length
      modifies this, s, output
      ensures Valid()
      ensures ledger == Step(old(ledger), s.id)
      ensures step.remainingIn <= availableIn && step.remainingOut <= availableOut
      ensures forall i :: 0 <= i < output.Length && !(outPos <= i < outPos + (availableOut - step.remainingOut)) ==>
                output[i] == old(output[i])
    {
      StepKeepsSound(ledger, s.id);
      ledger := Step(ledger, s.id);
      var status: BrotliResult := *;
      var remainingIn: nat :| remainingIn <= availableIn;
      var remainingOut: nat :| remainingOut <= availableOut;
      assert |seq(availableOut - remainingOut, _ => 0 as bv8)| == availableOut - remainingOut;
      var written: seq<bv8> :| |written| == availableOut - remainingOut;
      forall i | outPos <= i < outPos + |written| {
        output[i] := written[i - outPos];
      }
      s.machine := *;
      step := StreamStep(status, remainingIn, remainingOut);
    }
  }
}
