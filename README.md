# jbrotli stream decompressor, modelled in Dafny

This project models the native half of `org.meteogroup.jbrotli.BrotliStreamDeCompressor`
(`jbrotli-native/src/main/cpp/org_meteogroup_jbrotli_BrotliStreamDeCompressor.cxx`): the JNI
wrapper that lets Java push compressed bytes through a Brotli decoder state piece by piece.
The wrapper's own logic is small. It manages the lifecycle of one decoder state per Java object,
validates the input and output windows of each decode call, pins and releases the Java buffers,
makes one call into the Brotli decoder, classifies its status and reports how many bytes were
consumed and produced.

Modules and files:

- `brotli_types.dfy` (`BrotliTypes`): Java `int` as the newtype `jint`, the decoder status
  `BrotliResult`, the `BrotliError` codes the decompressor uses (by name; `NoError` is the
  literal 0), `getErrorCode` and `newErrorResult`.
- `ledger.dfy` (`Ledgers`): ghost bookkeeping of the decoder states the library hands out:
  which are live, and a log of every create, destroy and decode step. `Replay` is the reference
  that rejects a double destroy and any use of a destroyed state.
- `engine.dfy` (`Engine`): the decoder library's three entry points, `BrotliCreateState`,
  `BrotliDestroyState` and `BrotliDecompressStream`. Their bodies choose any result the library's
  contract allows. So everything proved about the wrapper holds for every decoder that keeps
  `available_in' <= available_in` and `available_out' <= available_out` and writes only the output
  it reports as produced. That contract is an assumption about the library, which is not part
  of this model.
- `decode_step.dfy` (`DecodeStep`): what one decode call reports, as functions. It covers the
  window and handle checks (`CheckCall`), the counter arithmetic (`Report`) and the full outcome
  of each entry point (`BytesOutcome`, `BufferOutcome`). It also holds the parity between the two
  entry points and the as-written pin model behind the finding below.
- `lifecycle.dfy` (`Lifecycle`): the handle as a value: the state it owns, plus the ledger. It
  gives `initBrotliDeCompressor`, `freeNativeResources` and the decode step's effect on ownership,
  with lemmas over arbitrary sequences of calls: at most one state is live, and none leaks.
- `stream_decompressor.dfy` (`StreamDeCompressor`): the imperative model. `JniEnv` is the JNI
  environment of one call. `BrotliStreamDeCompressor` is a class whose field `state` is the
  `brotliDeCompressorState` field (None is the null pointer). Each of its methods is proved equal
  to the functions above.
- `scenarios.dfy` (`Scenarios`): two client call sequences, checked from the method contracts.

How the JVM answers during a call is an input. The `Jvm` record says whether an exception is
already pending, whether each pin succeeds, whether each release raises, and whether each direct
buffer has an address. This stands in for the nondeterminism of those JNI calls.

The code reports failures on two channels:

- A caller error throws a Java exception and returns no result: `IllegalArgumentException` for a
  negative position or length, and `IllegalStateException` for a null state or an exception
  already pending.
- A decoder status, and in the array variant a failure to pin or to release an array, comes back
  as a `NativeDeCompressorResult`. Pin and release failures carry their own codes and 0/0 counts.
  In the direct-buffer variant, a buffer without an address throws `IllegalStateException`
  instead.

## Model

| member | source | states |
|---|---|---|
| `BrotliTypes.GetErrorCode` | jbrotli-native/src/main/cpp/org_meteogroup_jbrotli_BrotliStreamDeCompressor.cxx:30-43 | Total on every status, including values outside the enum. ERROR, NEEDS_MORE_INPUT and NEEDS_MORE_OUTPUT are each recovered from their code by `StatusOf`, so they get distinct non-zero codes. SUCCESS and any other value give 0. No status is ever reported as an acquisition failure. |
| `BrotliTypes.ReportableCodesDistinct` | jbrotli-native/src/main/cpp/org_meteogroup_jbrotli_BrotliStreamDeCompressor.cxx:30-43 | Two different reportable statuses never share a code, and neither is 0. |
| `BrotliTypes.NewErrorResult` | jbrotli-native/src/main/cpp/org_meteogroup_jbrotli_BrotliStreamDeCompressor.cxx:60-63 | An error result carries the given code and reports 0 bytes consumed and 0 produced. |
| `Ledgers.SecondDestroyRejected` | jbrotli-native/src/main/cpp/org_meteogroup_jbrotli_BrotliStreamDeCompressor.cxx:102-111 | Destroying the same decoder state twice is rejected by the reference replay of the log. Every method of the handle keeps the log accepted, so none of them double-frees. |
| `Engine.BrotliLibrary.CreateState` | jbrotli-native/src/main/cpp/org_meteogroup_jbrotli_BrotliStreamDeCompressor.cxx:92 | Either a fresh state that was not live before becomes live and its creation is logged, or the library cannot allocate one, returns null and nothing changes. |
| `Engine.BrotliLibrary.DestroyState` | jbrotli-native/src/main/cpp/org_meteogroup_jbrotli_BrotliStreamDeCompressor.cxx:88-91 | Only a live state may be destroyed. It stops being live and its destruction is logged. |
| `Engine.BrotliLibrary.DecompressStream` | jbrotli-native/src/main/cpp/org_meteogroup_jbrotli_BrotliStreamDeCompressor.cxx:147-152 | Assumed library contract: what is left of each window is at most what was given. Output bytes outside the produced prefix of the output window are unchanged. Only the passed state is stepped, and the live set is unchanged. |
| `DecodeStep.CheckCall` | jbrotli-native/src/main/cpp/org_meteogroup_jbrotli_BrotliStreamDeCompressor.cxx:127-140 | A negative input position or length gives IllegalArgument(Input), whatever the handle's state. Otherwise a negative output position or length gives IllegalArgument(Output). Otherwise a null state or a pending exception gives IllegalState. The call goes on exactly when none of these holds. |
| `DecodeStep.Report` | jbrotli-native/src/main/cpp/org_meteogroup_jbrotli_BrotliStreamDeCompressor.cxx:159-163 | Under the engine contract, 0 <= consumed <= inLength and 0 <= produced <= outLength, so the cast back to a Java int never wraps. Consumed plus the input left equals inLength, and produced plus the output left equals outLength. The code is the classified status. |
| `DecodeStep.BytesOutcome` | jbrotli-native/src/main/cpp/org_meteogroup_jbrotli_BrotliStreamDeCompressor.cxx:118-164 | deCompressBytes throws exactly when `CheckCall` objects, and throws that exception. A failed input pin, then a failed output pin, gives its own code with 0/0 counts. After the engine has run, a raising output release and then a raising input release each give their own code with 0/0 counts. When the engine runs and both releases are clean, the result is `Report` of the engine step. |
| `DecodeStep.BufferOutcome` | jbrotli-native/src/main/cpp/org_meteogroup_jbrotli_BrotliStreamDeCompressor.cxx:171-218 | deCompressByteBuffer returns a result exactly when the checks pass and both buffers have an address. That result is `Report` of the engine step. A missing input address, then a missing output address, throws IllegalState instead. |
| `DecodeStep.VariantsAgree` | jbrotli-native/src/main/cpp/org_meteogroup_jbrotli_BrotliStreamDeCompressor.cxx:118-218 | Take the same windows, handle and engine step, and a JVM under which both variants reach the engine and release cleanly. Then both entry points give the same outcome, code and counts included. |
| `DecodeStep.VariantsDifferOnlyInChannel` | jbrotli-native/src/main/cpp/org_meteogroup_jbrotli_BrotliStreamDeCompressor.cxx:142-204 | When the input buffer cannot be reached, the array variant returns the GetPrimitiveArrayCritical_INBUF result and the buffer variant throws IllegalState naming the input. When the input is reachable but the output is not, the array variant returns the GetPrimitiveArrayCritical_OUTBUF result and the buffer variant throws IllegalState naming the output. |
| `DecodeStep.PinsHeldAsWritten` | jbrotli-native/src/main/cpp/org_meteogroup_jbrotli_BrotliStreamDeCompressor.cxx:142-157 | The code as written leaves the input array pinned on return exactly when it was pinned and then either the output pin failed or the output release raised. |
| `DecodeStep.InputLeftPinnedWhenOutputPinFails` | jbrotli-native/src/main/cpp/org_meteogroup_jbrotli_BrotliStreamDeCompressor.cxx:144-145 | A concrete call returns the GetPrimitiveArrayCritical_OUTBUF result with the input array still pinned. |
| `DecodeStep.InputLeftPinnedWhenOutputReleaseRaises` | jbrotli-native/src/main/cpp/org_meteogroup_jbrotli_BrotliStreamDeCompressor.cxx:154-157 | A concrete call runs the engine, returns the ReleasePrimitiveArrayCritical_OUTBUF result with 0/0 counts, and leaves the input array still pinned. |
| `Lifecycle.Init` | jbrotli-native/src/main/cpp/org_meteogroup_jbrotli_BrotliStreamDeCompressor.cxx:86-95 | Init keeps the handle healthy: it owns only a live state, and a state it owns afterwards was not live before. |
| `Lifecycle.Free` | jbrotli-native/src/main/cpp/org_meteogroup_jbrotli_BrotliStreamDeCompressor.cxx:102-111 | Free keeps the handle healthy and leaves it owning nothing. |
| `Lifecycle.Decode` | jbrotli-native/src/main/cpp/org_meteogroup_jbrotli_BrotliStreamDeCompressor.cxx:136-152 | A decode call keeps the handle healthy and owning the same state. |
| `Lifecycle.InitOwnsFreshState` | jbrotli-native/src/main/cpp/org_meteogroup_jbrotli_BrotliStreamDeCompressor.cxx:86-95 | After init the handle owns a state exactly when the library could allocate one, and that state was not live before. The previously owned state, if any, is destroyed exactly once and before the creation. The live set changes by exactly that removal and that addition. |
| `Lifecycle.FreeReleasesState` | jbrotli-native/src/main/cpp/org_meteogroup_jbrotli_BrotliStreamDeCompressor.cxx:102-111 | After free the handle owns nothing. The state it owned, if any, is destroyed once, and nothing else changes. |
| `Lifecycle.FreeIdempotent` | jbrotli-native/src/main/cpp/org_meteogroup_jbrotli_BrotliStreamDeCompressor.cxx:102-111 | Free on an uninitialised handle changes nothing, so freeing twice is the same as freeing once. |
| `Lifecycle.InitIsFreeThenCreate` | jbrotli-native/src/main/cpp/org_meteogroup_jbrotli_BrotliStreamDeCompressor.cxx:86-111 | Init is free followed by creating a state and owning it; when the library cannot allocate, init is exactly free. |
| `Lifecycle.DecodeKeepsOwnership` | jbrotli-native/src/main/cpp/org_meteogroup_jbrotli_BrotliStreamDeCompressor.cxx:136-152 | A decode call never changes which state the handle owns or which states are live. |
| `Lifecycle.RunStaysExclusive` | jbrotli-native/src/main/cpp/org_meteogroup_jbrotli_BrotliStreamDeCompressor.cxx:86-111 | If the handle is the library's only client, then after any sequence of init, free and decode calls the only live state is the one the handle owns. |
| `Lifecycle.AtMostOneLiveState` | jbrotli-native/src/main/cpp/org_meteogroup_jbrotli_BrotliStreamDeCompressor.cxx:86-95 | Starting from a new object, at most one decoder state is live after any sequence of calls. |
| `Lifecycle.FreeLeavesNothingLive` | jbrotli-native/src/main/cpp/org_meteogroup_jbrotli_BrotliStreamDeCompressor.cxx:102-111 | Starting from a new object, any sequence of calls ending in free leaves no state live: none leaks. |
| `StreamDeCompressor.JniEnv.GetPrimitiveArrayCritical` | jbrotli-native/src/main/cpp/org_meteogroup_jbrotli_BrotliStreamDeCompressor.cxx:142-145 | Pinning succeeds as the JVM answers, and a successful pin adds the array to the pinned set. |
| `StreamDeCompressor.JniEnv.ReleasePrimitiveArrayCritical` | jbrotli-native/src/main/cpp/org_meteogroup_jbrotli_BrotliStreamDeCompressor.cxx:154-157 | Only a pinned array is released. It leaves the pinned set, and whether an exception is raised is as the JVM answers. |
| `StreamDeCompressor.JniEnv.GetDirectBufferAddress` | jbrotli-native/src/main/cpp/org_meteogroup_jbrotli_BrotliStreamDeCompressor.cxx:195-204 | A buffer has an address as the JVM answers. Nothing is pinned. |
| `StreamDeCompressor.BrotliStreamDeCompressor.InitBrotliDeCompressor` | jbrotli-native/src/main/cpp/org_meteogroup_jbrotli_BrotliStreamDeCompressor.cxx:86-95 | Returns 0. The handle and library move as `Lifecycle.Init` says, and the field holds a freshly allocated state or, when the library could not allocate one, null. It returns 0 in that case too, so the next decode throws IllegalState. |
| `StreamDeCompressor.BrotliStreamDeCompressor.FreeNativeResources` | jbrotli-native/src/main/cpp/org_meteogroup_jbrotli_BrotliStreamDeCompressor.cxx:102-111 | Returns 0. They move as `Lifecycle.Free` says and the field is null afterwards. On a null field nothing at all changes. |
| `StreamDeCompressor.BrotliStreamDeCompressor.DeCompressBytes` | jbrotli-native/src/main/cpp/org_meteogroup_jbrotli_BrotliStreamDeCompressor.cxx:118-164 | The outcome is `BytesOutcome`, and the engine is called exactly when `BytesEngineRuns`. Otherwise neither the decoder state nor the output array changes. The engine writes only the produced prefix of the output window. Every array pinned is released before return (the corrected behaviour, see Findings). |
| `StreamDeCompressor.BrotliStreamDeCompressor.DeCompressByteBuffer` | jbrotli-native/src/main/cpp/org_meteogroup_jbrotli_BrotliStreamDeCompressor.cxx:171-218 | The outcome is `BufferOutcome`, and the engine is called exactly when `BufferEngineRuns`. Otherwise neither the decoder state nor the output buffer changes. The engine writes only the produced prefix of the output window. |
| `Scenarios.FreedHandleRejectsDecode` | jbrotli-native/src/main/cpp/org_meteogroup_jbrotli_BrotliStreamDeCompressor.cxx:102-140 | Init, free, then free again: both frees return 0. A decode after that throws IllegalState, whatever the JVM answers. |
| `Scenarios.DecodeAfterInit` | jbrotli-native/src/main/cpp/org_meteogroup_jbrotli_BrotliStreamDeCompressor.cxx:86-163 | Init returns 0. If it obtained a state, a decode over 4-byte windows with clean pins returns a stream result whose counts lie within the windows. If it did not, the decode throws IllegalState. |

## Left out

- The decoding itself (the format of RFC 7932) is not part of this model. `BrotliCreateState`, `BrotliDestroyState` and `BrotliDecompressStream` are modelled only by their contracts. The engine's `total_out` output and the advanced cursors are not modelled, since the wrapper never reads them.
- Engine.BrotliLibrary.DecompressStream: its bound on what is left of each window is the library's contract, taken as an assumption. The header that states it, brotli/dec/decode.h, is not part of this model.
- `BrotliTypes.ErrorCode` names the codes of `BrotliError`, but the numeric values in org_meteogroup_jbrotli_BrotliError.h are not part of this model. Likewise the numeric values of `BrotliResult` are not part of it. The only number used is the literal 0.
- `initJavaFieldIdCache` (the field-ID lookup) is left out. It only has to run once before the other calls. The field accessors `GetLongFieldAsPointer`/`SetLongFieldFromPointer` become the plain `state` field.
- `newResult` returning NULL when the result class or its constructor cannot be found is left out: this is JNI plumbing. A result is always built. The exception messages are left out; only the exception class and which side failed are kept.
- Pinning is modelled as a set of pinned sides, not as real memory pinning.
- StreamDeCompressor.JniEnv.GetPrimitiveArrayCritical: a pin whose pointer comes back together with a pending exception is modelled as no pin held. So the model does not show that the code then returns with the array still pinned: the input array at line 143, and both arrays at line 145.
- An exception raised by a release stays pending in the JVM after the native method returns its error result. The model records only the returned value.
- The code never checks that position plus length fits the Java buffer. Each decode method requires it for a valid window, as a caller obligation.
- Concurrent use of one handle from several threads is a caller obligation and is not modelled.
- The Java compressor test `jbrotli/src/test/java/com/meteogroup/jbrotli/BrotliStreamCompressorByteBufferTest.java` exercises the compressor, which is not part of this model.

## Findings

| source | as written | input that shows it | evidently intended | confidence | as-written member | corrected member |
|---|---|---|---|---|---|---|
| jbrotli-native/src/main/cpp/org_meteogroup_jbrotli_BrotliStreamDeCompressor.cxx:144-145 | returns the OUTBUF error result without releasing the input array pinned at line 142 | valid windows, live handle, input pin succeeds, output pin fails | every array obtained with GetPrimitiveArrayCritical is released before returning | high; not executed | `DecodeStep.InputLeftPinnedWhenOutputPinFails` | `StreamDeCompressor.BrotliStreamDeCompressor.DeCompressBytes` |
| jbrotli-native/src/main/cpp/org_meteogroup_jbrotli_BrotliStreamDeCompressor.cxx:154-157 | returns the release-OUTBUF error result without releasing the input array | valid windows, live handle, both pins succeed, releasing the output array raises | the input array is still released; the result is the same | medium; not executed; needs a JVM whose release raises, which the JNI documentation does not describe | `DecodeStep.InputLeftPinnedWhenOutputReleaseRaises` | `StreamDeCompressor.BrotliStreamDeCompressor.DeCompressBytes` |

The corrected `DeCompressBytes` returns exactly `BytesOutcome`, the same results as the code as
written. It differs only in releasing the input array on those two paths, and it ensures that
no array is pinned on return.
