/** Values that cross the boundary between the Java class
    org.meteogroup.jbrotli.BrotliStreamDeCompressor and its native half:
    Java's 32-bit int, the decoder's status, the error codes of
    org.meteogroup.jbrotli.BrotliError and the NativeDeCompressorResult record. */
module BrotliTypes {

  /** Java's `int` (JNI `jint`): every position, length and count passed to or
      returned from the native methods has this type. */
  newtype jint = x: int | -0x8000_0000 <= x < 0x8000_0000

  datatype Option<T> = None | Some(value: T)

  /** The status returned by the decoder's single step (BrotliResult).
      The four named values are those the library declares; `Unrecognised`
      stands for any other value the C enum can carry, which the
      wrapper's `default:` branch has to classify too. */
  datatype BrotliResult =
    | ResultError
    | ResultSuccess
    | ResultNeedsMoreInput
    | ResultNeedsMoreOutput
    | Unrecognised(raw: int)

  /** The codes of BrotliError that the decompressor reports, by name.
      `NoError` is the literal 0 the wrapper returns for a clean step. */
  datatype ErrorCode =
    | NoError
    | DecompressResultError
    | DecompressNeedsMoreInput
    | DecompressNeedsMoreOutput
    | GetCriticalInBuf
    | GetCriticalOutBuf
    | ReleaseCriticalInBuf
    | ReleaseCriticalOutBuf
  {
    /** A failure to pin or unpin one of the Java arrays, as opposed to a
        condition of the compressed stream. */
    predicate IsAcquisitionFailure() {
      GetCriticalInBuf? || GetCriticalOutBuf? || ReleaseCriticalInBuf? || ReleaseCriticalOutBuf?
    }
  }

  /** The engine statuses that reach Java as a non-zero code. */
  predicate Reportable(status: BrotliResult) {
    status.ResultError? || status.ResultNeedsMoreInput? || status.ResultNeedsMoreOutput?
  }

  /** The engine status a decompression code stands for, if any: the
      reading a Java caller gives to `getErrorCode` of a result. */
  function StatusOf(code: ErrorCode): Option<BrotliResult> {
    match code
    case DecompressResultError => Some(ResultError)
    case DecompressNeedsMoreInput => Some(ResultNeedsMoreInput)
    case DecompressNeedsMoreOutput => Some(ResultNeedsMoreOutput)
    case _ => None
  }

  /** Classifies an engine status for Java (getErrorCode). Total: every
      status, named or not, gets a code. A reportable status is recovered
      from its code, so the three reportable statuses get three distinct
      codes; everything else is reported as 0; no stream status is ever
      mistaken for an acquisition failure. */
  function GetErrorCode(status: BrotliResult): (code: ErrorCode)
    ensures Reportable(status) ==> StatusOf(code) == Some(status)
    ensures !Reportable(status) ==> code == NoError
    ensures !code.IsAcquisitionFailure()
  {
    match status
    case ResultError => DecompressResultError
    case ResultNeedsMoreInput => DecompressNeedsMoreInput
    case ResultNeedsMoreOutput => DecompressNeedsMoreOutput
    case ResultSuccess => NoError
    case Unrecognised(_) => NoError
  }

  /** Two different reportable statuses never share a code, and none of
      them is reported as 0. */
  lemma ReportableCodesDistinct(a: BrotliResult, b: BrotliResult)
    requires Reportable(a) && Reportable(b) && a != b
    ensures GetErrorCode(a) != GetErrorCode(b)
    ensures GetErrorCode(a) != NoError && GetErrorCode(b) != NoError
  {
  }

  /** What the native side hands back to Java per decode call
      (NativeDeCompressorResult): a code and two counts. */
  datatype DeCompressorResult = DeCompressorResult(errorCode: ErrorCode, bytesConsumed: jint, bytesProduced: jint)

  /** The result built for a failure that happened around the engine call
      (newErrorResult): the given code, and nothing consumed or produced. */
  function NewErrorResult(code: ErrorCode): (r: DeCompressorResult)
    ensures r.errorCode == code
    ensures r.bytesConsumed == 0 && r.bytesProduced == 0
  {
    DeCompressorResult(code, 0, 0)
  }
}
