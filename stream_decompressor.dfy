/** The native half of org.meteogroup.jbrotli.BrotliStreamDeCompressor: a
    handle whose one field holds the decoder state it owns, and the
    methods Java calls on it. Each method is proved against the value
    model of module Lifecycle and, for the decode calls, against the
    outcome functions of module DecodeStep. */
module StreamDeCompressor {
  import opened BrotliTypes
  import opened Engine
  import opened DecodeStep
  import Lifecycle

  /** The JNI environment of one native call: how the JVM answers
      (`answers`, fixed for the call) and which Java arrays are currently
      pinned by GetPrimitiveArrayCritical. */
  class JniEnv {
    const answers: Jvm
    var pinned: set<Side>

    constructor (answers: Jvm)
      ensures this.answers == answers && pinned == {}
    {
      this.answers := answers;
      pinned := {};
    }

    /** GetPrimitiveArrayCritical followed by ExceptionCheck: ok when a
        pointer came back and no exception is pending; the array is then
        pinned. */
    method GetPrimitiveArrayCritical(side: Side) returns (ok: bool)
      requires side !in pinned
      modifies this
      ensures ok == (if side == Input then answers.inPinned else answers.outPinned)
      ensures pinned == if ok then old(pinned) + {side} else old(pinned)
    {
      ok := if side == Input then answers.inPinned else answers.outPinned;
      if ok {
        pinned := pinned + {side};
      }
    }

    /** ReleasePrimitiveArrayCritical followed by ExceptionCheck: the array
        is unpinned either way; `raised` reports an exception. */
    method ReleasePrimitiveArrayCritical(side: Side) returns (raised: bool)
      requires side in pinned
      modifies this
      ensures raised == (if side == Input then answers.inReleaseRaises else answers.outReleaseRaises)
      ensures pinned == old(pinned) - {side}
    {
      raised := if side == Input then answers.inReleaseRaises else answers.outReleaseRaises;
      pinned := pinned - {side};
    }

    /** GetDirectBufferAddress: ok when the buffer has an address. Nothing is pinned. */
    method GetDirectBufferAddress(side: Side) returns (ok: bool)
      ensures ok == (if side == Input then answers.inDirectAddress else answers.outDirectAddress)
    {
      ok := if side == Input then answers.inDirectAddress else answers.outDirectAddress;
    }
  }

  class BrotliStreamDeCompressor {
    /** The brotliDeCompressorState field: None is the null pointer. */
    var state: Option<BrotliState>

    /** A new Java object: the field starts at 0. */
    constructor ()
      ensures state == None
    {
      state := None;
    }

    /** The handle and the library as a value of the lifecycle model. */
    ghost function View(lib: BrotliLibrary): Lifecycle.Handle
      reads this, lib
    {
      Lifecycle.Handle(if state.Some? then Some(state.value.id) else None, lib.ledger)
    }

    ghost predicate Valid(lib: BrotliLibrary)
      reads this, lib
    {
      Lifecycle.Healthy(View(lib))
    }

    /** The decoder state object the handle owns, if any. */
    function StateObjects(): set<object>
      reads this
    {
      if state.Some? then {state.value} else {}
    }

    /** initBrotliDeCompressor. Returns 0, also when the library could not
        allocate a state and the field is left null. */
    method InitBrotliDeCompressor(lib: BrotliLibrary) returns (code: jint)
      requires Valid(lib)
      modifies this, lib
      ensures Valid(lib) && code == 0
      ensures View(lib) == Lifecycle.Init(old(View(lib)), state.Some?)
      ensures state.Some? ==> fresh(state.value)
    {
      ghost var before := View(lib);
      Lifecycle.InitOwnsFreshState(before, true);
      Lifecycle.InitOwnsFreshState(before, false);
      if state.Some? {
        lib.DestroyState(state.value);
      }
      state := lib.CreateState();
      code := 0;
    }

    /** freeNativeResources. Returns 0. */
    method FreeNativeResources(lib: BrotliLibrary) returns (code: jint)
      requires Valid(lib)
      modifies this, lib
      ensures Valid(lib) && code == 0
      ensures View(lib) == Lifecycle.Free(old(View(lib)))
      ensures state == None
      ensures old(state) == None ==> unchanged(this, lib)
    {
      ghost var before := View(lib);
      Lifecycle.FreeReleasesState(before);
      if state.Some? {
        lib.DestroyState(state.value);
        state := None;
      }
      code := 0;
    }

    /** deCompressBytes: one decode step over byte arrays. Equal to
        BytesOutcome; the engine is reached exactly when BytesEngineRuns,
        and otherwise neither the decoder state nor the output array
        changes; the engine writes only the produced prefix of the output
        window. Unlike the code as written, the input array is released on
        every path that pinned it, so no array stays pinned on return. */
    method DeCompressBytes(env: JniEnv, lib: BrotliLibrary,
                           inBuf: array<bv8>, inPos: jint, inLen: jint,
                           outBuf: array<bv8>, outPos: jint, outLen: jint)
      returns (outcome: Outcome, ghost step: StreamStep)
      requires Valid(lib) && env.pinned == {}
      requires WindowValid(inPos, inLen) ==> inPos as int + inLen as int <= inBuf.Length
      requires WindowValid(outPos, outLen) ==> outPos as int + outLen as int <= outBuf.Length
      modifies env, lib, StateObjects(), outBuf
      ensures Valid(lib) && env.pinned == {}
      ensures WindowValid(inPos, inLen) && WindowValid(outPos, outLen) ==> StepFits(step, inLen, outLen)
      ensures outcome == BytesOutcome(inPos, inLen, outPos, outLen, state.Some?, env.answers, step)
      ensures View(lib) == Lifecycle.Decode(old(View(lib)), BytesEngineRuns(inPos, inLen, outPos, outLen, state.Some?, env.answers))
      ensures !BytesEngineRuns(inPos, inLen, outPos, outLen, state.Some?, env.answers) ==>
                unchanged(outBuf) && unchanged(StateObjects())
      ensures BytesEngineRuns(inPos, inLen, outPos, outLen, state.Some?, env.answers) ==>
                forall i :: 0 <= i < outBuf.Length && !(outPos as int <= i < outPos as int + (outLen as int - step.remainingOut)) ==>
                  outBuf[i] == old(outBuf[i])
    {
      ghost var before := View(lib);
      step := StreamStep(ResultSuccess, 0, 0);
      if inPos < 0 || inLen < 0 {
        outcome := Thrown(IllegalArgument(Input));
        return;
      }
      if outPos < 0 || outLen < 0 {
        outcome := Thrown(IllegalArgument(Output));
        return;
      }
      if state.None? || env.answers.exceptionPending {
        outcome := Thrown(IllegalState(NotInitialised));
        return;
      }
      var s := state.value;
      var inOk := env.GetPrimitiveArrayCritical(Input);
      if !inOk {
        outcome := Returned(NewErrorResult(GetCriticalInBuf));
        return;
      }
      var outOk := env.GetPrimitiveArrayCritical(Output);
      if !outOk {
        // the input array is released here too, see the findings
        var _ := env.ReleasePrimitiveArrayCritical(Input);
        outcome := Returned(NewErrorResult(GetCriticalOutBuf));
        return;
      }
      var availableIn: nat := inLen as int;
      var availableOut: nat := outLen as int;
      var engineStep := lib.DecompressStream(inBuf, inPos as int, availableIn, outBuf, outPos as int, availableOut, s);
      availableIn, availableOut := engineStep.remainingIn, engineStep.remainingOut;
      step := engineStep;
      Lifecycle.DecodeKeepsOwnership(before, true);
      var outRaised := env.ReleasePrimitiveArrayCritical(Output);
      if outRaised {
        // the input array is released here too, see the findings
        var _ := env.ReleasePrimitiveArrayCritical(Input);
        outcome := Returned(NewErrorResult(ReleaseCriticalOutBuf));
        return;
      }
      var inRaised := env.ReleasePrimitiveArrayCritical(Input);
      if inRaised {
        outcome := Returned(NewErrorResult(ReleaseCriticalInBuf));
        return;
      }
      outcome := Returned(Report(inLen, outLen, StreamStep(engineStep.status, availableIn, availableOut)));
    }

    /** deCompressByteBuffer: one decode step over direct buffers. Equal to
        BufferOutcome; the engine is reached exactly when BufferEngineRuns,
        and otherwise neither the decoder state nor the output buffer
        changes; the engine writes only the produced prefix of the output
        window. */
    method DeCompressByteBuffer(env: JniEnv, lib: BrotliLibrary,
                                inBuf: array<bv8>, inPos: jint, inLen: jint,
                                outBuf: array<bv8>, outPos: jint, outLen: jint)
      returns (outcome: Outcome, ghost step: StreamStep)
      requires Valid(lib)
      requires WindowValid(inPos, inLen) ==> inPos as int + inLen as int <= inBuf.Length
      requires WindowValid(outPos, outLen) ==> outPos as int + outLen as int <= outBuf.Length
      modifies lib, StateObjects(), outBuf
      ensures Valid(lib)
      ensures WindowValid(inPos, inLen) && WindowValid(outPos, outLen) ==> StepFits(step, inLen, outLen)
      ensures outcome == BufferOutcome(inPos, inLen, outPos, outLen, state.Some?, env.answers, step)
      ensures View(lib) == Lifecycle.Decode(old(View(lib)), BufferEngineRuns(inPos, inLen, outPos, outLen, state.Some?, env.answers))
      ensures !BufferEngineRuns(inPos, inLen, outPos, outLen, state.Some?, env.answers) ==>
                unchanged(outBuf) && unchanged(StateObjects())
      ensures BufferEngineRuns(inPos, inLen, outPos, outLen, state.Some?, env.answers) ==>
                forall i :: 0 <= i < outBuf.Length && !(outPos as int <= i < outPos as int + (outLen as int - step.remainingOut)) ==>
                  outBuf[i] == old(outBuf[i])
    {
      ghost var before := View(lib);
      step := StreamStep(ResultSuccess, 0, 0);
      if inPos < 0 || inLen < 0 {
        outcome := Thrown(IllegalArgument(Input));
        return;
      }
      if outPos < 0 || outLen < 0 {
        outcome := Thrown(IllegalArgument(Output));
        return;
      }
      if state.None? || env.answers.exceptionPending {
        outcome := Thrown(IllegalState(NotInitialised));
        return;
      }
      var s := state.value;
      var inOk := env.GetDirectBufferAddress(Input);
      if !inOk {
        outcome := Thrown(IllegalState(NoDirectAddress(Input)));
        return;
      }
      var outOk := env.GetDirectBufferAddress(Output);
      if !outOk {
        outcome := Thrown(IllegalState(NoDirectAddress(Output)));
        return;
      }
      var availableIn: nat := inLen as int;
      var availableOut: nat := outLen as int;
      var engineStep := lib.DecompressStream(inBuf, inPos as int, availableIn, outBuf, outPos as int, availableOut, s);
      availableIn, availableOut := engineStep.remainingIn, engineStep.remainingOut;
      step := engineStep;
      Lifecycle.DecodeKeepsOwnership(before, true);
      outcome := Returned(Report(inLen, outLen, StreamStep(engineStep.status, availableIn, availableOut)));
    }
  }
}
