/** Calls a Java client makes on one decompressor object, checked against
    the contracts of the handle's methods alone. */
module Scenarios {
  import opened BrotliTypes
  import opened Engine
  import opened DecodeStep
  import opened StreamDeCompressor

  /** Initialise, free, free again, then decode: both frees return 0 and
      the decode throws IllegalStateException, whatever the JVM answers. */
  method FreedHandleRejectsDecode(answers: Jvm) returns (firstFree: jint, secondFree: jint, outcome: Outcome)
    ensures firstFree == 0 && secondFree == 0
    ensures outcome == Thrown(IllegalState(NotInitialised))
  {
    var lib := new BrotliLibrary();
    var handle := new BrotliStreamDeCompressor();
    var env := new JniEnv(answers);
    var _ := handle.InitBrotliDeCompressor(lib);
    firstFree := handle.FreeNativeResources(lib);
    secondFree := handle.FreeNativeResources(lib);
    var input := new bv8[4];
    var output := new bv8[4];
    ghost var step;
    outcome, step := handle.DeCompressBytes(env, lib, input, 0, 4, output, 0, 4);
  }

  /** Initialise, then decode over four-byte windows with a JVM that pins
      and releases cleanly. When the library allocated a state, the call
      returns a result whose counts lie within the windows and whose code
      is no acquisition failure; when it could not, initialisation still
      returned 0 and the decode throws IllegalStateException. */
  method DecodeAfterInit() returns (initCode: jint, initialised: bool, outcome: Outcome)
    ensures initCode == 0
    ensures initialised ==>
              (outcome.Returned? &&
               0 <= outcome.result.bytesConsumed <= 4 && 0 <= outcome.result.bytesProduced <= 4 &&
               !outcome.result.errorCode.IsAcquisitionFailure())
    ensures !initialised ==> outcome == Thrown(IllegalState(NotInitialised))
  {
    var lib := new BrotliLibrary();
    var handle := new BrotliStreamDeCompressor();
    var env := new JniEnv(Jvm(false, true, true, false, false, true, true));
    initCode := handle.InitBrotliDeCompressor(lib);
    initialised := handle.state.Some?;
    var input := new bv8[4];
    var output := new bv8[4];
    ghost var step;
    outcome, step := handle.DeCompressBytes(env, lib, input, 0, 4, output, 0, 4);
  }
}
