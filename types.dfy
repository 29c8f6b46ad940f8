/**
 * Value types shared by the image-resizing core: the optional and
 * success-or-error wrappers that stand for the nullable blob and the
 * rejected promise, the record handed back to the page, and the ways a
 * resize can be rejected.
 */
module Types {

  /** A value that may be missing: the encoder's callback may deliver no blob. */
  datatype Option<+T> = None | Some(value: T)

  /** The settled state of a promise: resolved with a value or rejected with an error. */
  datatype Result<+T, +E> = Success(value: T) | Failure(error: E)

  /** Why a resize is rejected. */
  datatype Error =
    | ContextUnavailable          // the canvas gave no 2d drawing context
    | EncodeFailed                // the encoder delivered no blob for some quality
    | CompressionFailed(limitMiB: nat)  // even the fallback encode is over the byte ceiling

  /**
   * The record a successful resize resolves with. The object URL of the blob
   * is not part of this model; name, dimensions and byte size are.
   */
  datatype ImageFile = ImageFile(name: string, width: nat, height: nat, size: nat)
}
