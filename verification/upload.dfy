/**
 * `UploadFileToOneDrive`: one whole-file PUT, re-sent until the service
 * answers 200 or 201. There is no chunking and no retry limit.
 *
 * The loop never ends on its own unless a request is accepted, so it is
 * modelled over a finite sequence of observed outcomes: either the loop has
 * returned within them, or it is still retrying after all of them.
 */
module Upload {
  import opened Http

  /** Where the retry loop stands after a sequence of outcomes. */
  datatype LoopState = Returned(attempts: nat) | StillRetrying

  /** The retry loop run over the outcomes of its successive requests. */
  function RetryLoop(outcomes: seq<Response>): (r: LoopState)
    ensures r.Returned? <==> exists k | 0 <= k < |outcomes| :: UploadAccepted(outcomes[k])
    ensures r.Returned? ==> 1 <= r.attempts <= |outcomes| && UploadAccepted(outcomes[r.attempts - 1])
    ensures r.Returned? ==> forall k | 0 <= k < r.attempts - 1 :: !UploadAccepted(outcomes[k])
  {
    if |outcomes| == 0 then StillRetrying
    else if UploadAccepted(outcomes[0]) then Returned(1)
    else
      match RetryLoop(outcomes[1..])
      case Returned(n) => Returned(n + 1)
      case StillRetrying => StillRetrying
  }

  /** Once the loop has returned, later outcomes make no difference; while it
      is still retrying, it returns on the extra outcomes exactly when the loop
      run on them alone would, that many requests later. */
  lemma {:induction false} RetryLoopAppend(p: seq<Response>, q: seq<Response>)
    ensures RetryLoop(p).Returned? ==> RetryLoop(p + q) == RetryLoop(p)
    ensures RetryLoop(p).StillRetrying? ==>
      match RetryLoop(q)
      case Returned(n) => RetryLoop(p + q) == Returned(|p| + n)
      case StillRetrying => RetryLoop(p + q) == StillRetrying
  {
    if |p| > 0 {
      assert (p + q)[1..] == p[1..] + q;
      assert (p + q)[0] == p[0];
      RetryLoopAppend(p[1..], q);
    } else {
      assert p + q == q;
    }
  }

  /** The step of `UploadFileToOneDrive` that failed before the loop. */
  datatype UploadStage = TokenStage | ReadStage | RequestStage

  /** The outcomes of the steps before the loop: the token exchange, reading
      the local file, and building the request. */
  datatype Setup = Setup(tokenOk: bool, readOk: bool, requestOk: bool)

  /** How `UploadFileToOneDrive` stands: returned nil after some requests,
      returned an error before sending any, or still retrying. */
  datatype UploadResult = UploadNil(attempts: nat) | UploadErr(stage: UploadStage) | UploadPending

  predicate SetupOk(setup: Setup)
  {
    setup.tokenOk && setup.readOk && setup.requestOk
  }

  function UploadFileToOneDrive(setup: Setup, outcomes: seq<Response>): (r: UploadResult)
    // an error is returned only from the steps before the loop, and names the first that failed
    ensures r.UploadErr? <==> !SetupOk(setup)
    ensures r == UploadErr(TokenStage) <==> !setup.tokenOk
    ensures r == UploadErr(ReadStage) <==> setup.tokenOk && !setup.readOk
    // nil only after an accepted request, and then the first one
    ensures r.UploadNil? <==> SetupOk(setup) && exists k | 0 <= k < |outcomes| :: UploadAccepted(outcomes[k])
    ensures r.UploadNil? ==> 1 <= r.attempts <= |outcomes| && UploadAccepted(outcomes[r.attempts - 1])
    ensures r.UploadNil? ==> forall k | 0 <= k < r.attempts - 1 :: !UploadAccepted(outcomes[k])
  {
    if !setup.tokenOk then UploadErr(TokenStage)
    else if !setup.readOk then UploadErr(ReadStage)
    else if !setup.requestOk then UploadErr(RequestStage)
    else
      match RetryLoop(outcomes)
      case Returned(n) => UploadNil(n)
      case StillRetrying => UploadPending
  }
}
