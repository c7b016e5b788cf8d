/** What one decode call reports to Java, as a function of its arguments,
    of whether the handle is live, of how the JVM answers the calls made
    into it, and of what the engine step returned. The two native entry
    points (deCompressBytes over byte arrays, deCompressByteBuffer over
    direct buffers) are proved to equal these functions. */
module DecodeStep {
  import opened BrotliTypes
  import opened Engine

  datatype Side = Input | Output

  /** Why the wrapper reports an IllegalStateException. */
  datatype StateFault = NotInitialised | NoDirectAddress(side: Side)

  /** The exceptions the native code throws; a throwing call returns no result. */
  datatype JavaException = IllegalArgument(side: Side) | IllegalState(fault: StateFault)

  /** The two channels: a thrown exception, or a result object. */
  datatype Outcome = Thrown(exception: JavaException) | Returned(result: DeCompressorResult)

  /** How the JVM answers the calls the wrapper makes into it during one
      decode call: whether an exception is already pending when the state
      is looked up, whether pinning each array succeeds (a pointer and no
      exception), whether releasing each array raises an exception, and
      whether each direct buffer has an address. */
  datatype Jvm = Jvm(
    exceptionPending: bool,
    inPinned: bool,
    outPinned: bool,
    outReleaseRaises: bool,
    inReleaseRaises: bool,
    inDirectAddress: bool,
    outDirectAddress: bool)

  predicate WindowValid(position: jint, length: jint) {
    position >= 0 && length >= 0
  }

  /** The checks both entry points make before touching any buffer: the
      input window, then the output window, then the handle. The outcome
      is None exactly when the call may go on. An invalid window is
      reported whatever the handle's state, and the input window is
      reported first. */
  function CheckCall(inPos: jint, inLen: jint, outPos: jint, outLen: jint, live: bool, pending: bool): (r: Option<JavaException>)
    ensures r == Some(IllegalArgument(Input)) <==> !WindowValid(inPos, inLen)
    ensures r == Some(IllegalArgument(Output)) <==> WindowValid(inPos, inLen) && !WindowValid(outPos, outLen)
    ensures r == Some(IllegalState(NotInitialised)) <==>
              WindowValid(inPos, inLen) && WindowValid(outPos, outLen) && (!live || pending)
    ensures r == None <==> WindowValid(inPos, inLen) && WindowValid(outPos, outLen) && live && !pending
  {
    if !WindowValid(inPos, inLen) then Some(IllegalArgument(Input))
    else if !WindowValid(outPos, outLen) then Some(IllegalArgument(Output))
    else if !live || pending then Some(IllegalState(NotInitialised))
    else None
  }

  /** The engine kept to its contract on windows of these lengths. */
  predicate StepFits(step: StreamStep, inLen: jint, outLen: jint) {
    step.remainingIn <= inLen as int && step.remainingOut <= outLen as int
  }

  /** The result built after a completed engine step: the classified
      status, and consumed and produced as the window lengths minus what
      the engine left. Given the engine's contract the counts lie between
      0 and the window lengths, so the conversion back to a Java int
      never wraps, and consumed plus what is left is the whole window. */
  function Report(inLen: jint, outLen: jint, step: StreamStep): (r: DeCompressorResult)
    requires StepFits(step, inLen, outLen)
    ensures r.errorCode == GetErrorCode(step.status)
    ensures 0 <= r.bytesConsumed <= inLen && 0 <= r.bytesProduced <= outLen
    ensures r.bytesConsumed as int + step.remainingIn == inLen as int
    ensures r.bytesProduced as int + step.remainingOut == outLen as int
  {
    DeCompressorResult(GetErrorCode(step.status),
                       (inLen as int - step.remainingIn) as jint,
                       (outLen as int - step.remainingOut) as jint)
  }

  /** deCompressBytes runs the engine exactly when the checks pass and both arrays are pinned. */
  predicate BytesEngineRuns(inPos: jint, inLen: jint, outPos: jint, outLen: jint, live: bool, jvm: Jvm) {
    CheckCall(inPos, inLen, outPos, outLen, live, jvm.exceptionPending) == None && jvm.inPinned && jvm.outPinned
  }

  /** deCompressByteBuffer runs the engine exactly when the checks pass and both buffers have an address. */
  predicate BufferEngineRuns(inPos: jint, inLen: jint, outPos: jint, outLen: jint, live: bool, jvm: Jvm) {
    CheckCall(inPos, inLen, outPos, outLen, live, jvm.exceptionPending) == None && jvm.inDirectAddress && jvm.outDirectAddress
  }

  /** What deCompressBytes reports. Contract errors are thrown and nothing
      else; a failure to pin or release an array is a result with its own
      code and zero counts, even after the engine has advanced; otherwise
      the result reports the engine step, with counts within the windows. */
  function BytesOutcome(inPos: jint, inLen: jint, outPos: jint, outLen: jint, live: bool, jvm: Jvm, step: StreamStep): (r: Outcome)
    requires WindowValid(inPos, inLen) && WindowValid(outPos, outLen) ==> StepFits(step, inLen, outLen)
    ensures r.Thrown? <==> CheckCall(inPos, inLen, outPos, outLen, live, jvm.exceptionPending).Some?
    ensures r.Thrown? ==> Some(r.exception) == CheckCall(inPos, inLen, outPos, outLen, live, jvm.exceptionPending)
    ensures r.Returned? ==> 0 <= r.result.bytesConsumed <= inLen && 0 <= r.result.bytesProduced <= outLen
    ensures r.Returned? && r.result.errorCode.IsAcquisitionFailure() ==>
              r.result.bytesConsumed == 0 && r.result.bytesProduced == 0
    ensures r.Returned? && !r.result.errorCode.IsAcquisitionFailure() ==>
              r.result == Report(inLen, outLen, step)
    ensures r.Returned? && !jvm.inPinned ==> r.result.errorCode == GetCriticalInBuf
    ensures r.Returned? && jvm.inPinned && !jvm.outPinned ==> r.result.errorCode == GetCriticalOutBuf
    ensures BytesEngineRuns(inPos, inLen, outPos, outLen, live, jvm) && jvm.outReleaseRaises ==>
              r == Returned(NewErrorResult(ReleaseCriticalOutBuf))
    ensures BytesEngineRuns(inPos, inLen, outPos, outLen, live, jvm) && !jvm.outReleaseRaises && jvm.inReleaseRaises ==>
              r == Returned(NewErrorResult(ReleaseCriticalInBuf))
    ensures BytesEngineRuns(inPos, inLen, outPos, outLen, live, jvm) && !jvm.outReleaseRaises && !jvm.inReleaseRaises ==>
              r == Returned(Report(inLen, outLen, step))
  {
    match CheckCall(inPos, inLen, outPos, outLen, live, jvm.exceptionPending)
    case Some(e) => Thrown(e)
    case None =>
      if !jvm.inPinned then Returned(NewErrorResult(GetCriticalInBuf))
      else if !jvm.outPinned then Returned(NewErrorResult(GetCriticalOutBuf))
      else if jvm.outReleaseRaises then Returned(NewErrorResult(ReleaseCriticalOutBuf))
      else if jvm.inReleaseRaises then Returned(NewErrorResult(ReleaseCriticalInBuf))
      else Returned(Report(inLen, outLen, step))
  }

  /** What deCompressByteBuffer reports. A missing direct address is a
      thrown IllegalStateException (input checked first), never a result;
      every returned result reports the engine step. */
  function BufferOutcome(inPos: jint, inLen: jint, outPos: jint, outLen: jint, live: bool, jvm: Jvm, step: StreamStep): (r: Outcome)
    requires WindowValid(inPos, inLen) && WindowValid(outPos, outLen) ==> StepFits(step, inLen, outLen)
    ensures r.Returned? <==> BufferEngineRuns(inPos, inLen, outPos, outLen, live, jvm)
    ensures r.Returned? ==> r.result == Report(inLen, outLen, step)
    ensures r.Returned? ==> !r.result.errorCode.IsAcquisitionFailure()
    ensures r.Thrown? && CheckCall(inPos, inLen, outPos, outLen, live, jvm.exceptionPending).Some? ==>
              Some(r.exception) == CheckCall(inPos, inLen, outPos, outLen, live, jvm.exceptionPending)
    ensures CheckCall(inPos, inLen, outPos, outLen, live, jvm.exceptionPending).None? && !jvm.inDirectAddress ==>
              r == Thrown(IllegalState(NoDirectAddress(Input)))
    ensures CheckCall(inPos, inLen, outPos, outLen, live, jvm.exceptionPending).None? && jvm.inDirectAddress && !jvm.outDirectAddress ==>
              r == Thrown(IllegalState(NoDirectAddress(Output)))
  {
    match CheckCall(inPos, inLen, outPos, outLen, live, jvm.exceptionPending)
    case Some(e) => Thrown(e)
    case None =>
      if !jvm.inDirectAddress then Thrown(IllegalState(NoDirectAddress(Input)))
      else if !jvm.outDirectAddress then Thrown(IllegalState(NoDirectAddress(Output)))
      else Returned(Report(inLen, outLen, step))
  }

  /** Given the same windows, handle, engine step and a JVM under which
      both variants reach the engine and release cleanly, the two entry
      points report the same code and counts. */
  lemma VariantsAgree(inPos: jint, inLen: jint, outPos: jint, outLen: jint, live: bool, jvm: Jvm, step: StreamStep)
    requires WindowValid(inPos, inLen) && WindowValid(outPos, outLen) ==> StepFits(step, inLen, outLen)
    requires jvm.inPinned && jvm.outPinned && !jvm.outReleaseRaises && !jvm.inReleaseRaises
    requires jvm.inDirectAddress && jvm.outDirectAddress
    ensures BytesOutcome(inPos, inLen, outPos, outLen, live, jvm, step) ==
            BufferOutcome(inPos, inLen, outPos, outLen, live, jvm, step)
  {
  }

  /** Where a buffer cannot be reached, the variants differ only in the
      channel: the array variant returns an error result naming that
      buffer, the direct buffer variant throws IllegalStateException
      naming the same side. The input buffer is looked at first. */
  lemma VariantsDifferOnlyInChannel(inPos: jint, inLen: jint, outPos: jint, outLen: jint, live: bool, jvm: Jvm, step: StreamStep)
    requires WindowValid(inPos, inLen) && WindowValid(outPos, outLen) ==> StepFits(step, inLen, outLen)
    requires CheckCall(inPos, inLen, outPos, outLen, live, jvm.exceptionPending).None?
    ensures !jvm.inPinned && !jvm.inDirectAddress ==>
              BytesOutcome(inPos, inLen, outPos, outLen, live, jvm, step) == Returned(NewErrorResult(GetCriticalInBuf)) &&
              BufferOutcome(inPos, inLen, outPos, outLen, live, jvm, step) == Thrown(IllegalState(NoDirectAddress(Input)))
    ensures jvm.inPinned && jvm.inDirectAddress && !jvm.outPinned && !jvm.outDirectAddress ==>
              BytesOutcome(inPos, inLen, outPos, outLen, live, jvm, step) == Returned(NewErrorResult(GetCriticalOutBuf)) &&
              BufferOutcome(inPos, inLen, outPos, outLen, live, jvm, step) == Thrown(IllegalState(NoDirectAddress(Output)))
  {
  }

  /** Which arrays deCompressBytes, as written, leaves pinned when it
      returns: every array pinned by GetPrimitiveArrayCritical should be
      released, but the early return after a failed output pin, and the
      one after a failed output release, skip the release of the input. */
  function PinsHeldAsWritten(inPos: jint, inLen: jint, outPos: jint, outLen: jint, live: bool, jvm: Jvm): (held: set<Side>)
    ensures held <= {Input}
    ensures held == {} <==>
              CheckCall(inPos, inLen, outPos, outLen, live, jvm.exceptionPending).Some? || !jvm.inPinned ||
              (jvm.outPinned && !jvm.outReleaseRaises)
  {
    if CheckCall(inPos, inLen, outPos, outLen, live, jvm.exceptionPending).Some? then {}
    else if !jvm.inPinned then {}
    else if !jvm.outPinned then {Input}
    else if jvm.outReleaseRaises then {Input}
    else {}
  }

  /** A concrete call that shows it: valid windows, a live handle, the
      input array pinned and the output array refused. The call returns
      the GetCriticalOutBuf result with the input array still pinned. */
  lemma InputLeftPinnedWhenOutputPinFails()
    ensures var jvm := Jvm(false, true, false, false, false, true, true);
            PinsHeldAsWritten(0, 4, 0, 4, true, jvm) == {Input} &&
            BytesOutcome(0, 4, 0, 4, true, jvm, StreamStep(ResultSuccess, 0, 0)) == Returned(NewErrorResult(GetCriticalOutBuf))
  {
  }

  /** The same on the release path: the engine has run, releasing the
      output array raises, and the call returns the ReleaseCriticalOutBuf
      result with zero counts and the input array still pinned. */
  lemma InputLeftPinnedWhenOutputReleaseRaises()
    ensures var jvm := Jvm(false, true, true, true, false, true, true);
            PinsHeldAsWritten(0, 4, 0, 4, true, jvm) == {Input} &&
            BytesEngineRuns(0, 4, 0, 4, true, jvm) &&
            BytesOutcome(0, 4, 0, 4, true, jvm, StreamStep(ResultSuccess, 1, 2)) == Returned(NewErrorResult(ReleaseCriticalOutBuf))
  {
  }
}
