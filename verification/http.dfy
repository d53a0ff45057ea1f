/**
 * What the model keeps of one HTTP exchange with the drive service: whether a
 * response came back at all, and its status code. Bodies, headers and the
 * bearer token are not modelled.
 */
module Http {

  /** The outcome of `clientHTTP.Do(req)`. */
  datatype Response = TransportError | Answered(status: int)

  /** The outcome of one `DeleteBackupOnOneDrive` call. `NotSent` stands for the
      failures that happen before the request goes out: the token exchange
      failing or the request failing to build. */
  datatype DeleteCall = NotSent | Sent(response: Response)

  const StatusOK: int := 200
  const StatusCreated: int := 201
  const StatusNoContent: int := 204

  /** `DeleteBackupOnOneDrive` returns nil exactly when the service answered 204. */
  predicate DeleteSucceeded(call: DeleteCall)
  {
    call.Sent? && call.response.Answered? && call.response.status == StatusNoContent
  }

  /** The upload loop accepts a response with status 200 or 201 and nothing else. */
  predicate UploadAccepted(response: Response)
  {
    response.Answered? && (response.status == StatusOK || response.status == StatusCreated)
  }
}
