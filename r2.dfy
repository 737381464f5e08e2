/**
 * `R2Store` (src/store/r2.rs): an S3-compatible bucket client whose
 * `get_object` and `put_object` retry a request up to 30 times, with no
 * backoff. The bucket's answers are given as a function of the filename (and
 * content) and the attempt's index, so any sequence of faults can be
 * injected; each method also returns the requests it made, in order.
 */
module R2 {
  import opened Wrappers
  import opened Bytes
  import opened StoreInterface

  const MAX_ATTEMPTS: nat := 30

  const R2_REGION: string := "auto"
  const ENDPOINT_SCHEME: string := "https://"
  const ENDPOINT_SUFFIX: string := ".r2.cloudflarestorage.com"

  datatype Region = Custom(region: string, endpoint: string)

  /** The bucket handle, by name and region; credentials and the request timeout are not modelled. */
  datatype R2Store = R2Store(bucketName: string, region: Region)

  /**
   * A bucket's response to a request that did not fail. Its status code is
   * carried but never consulted by the store: whether an attempt succeeded
   * is only whether the request returned a response rather than an error.
   */
  datatype ResponseData = ResponseData(status: int, bytes: seq<uint8>)

  /** The `i`-th `Bucket::get_object(filename)` answer. */
  type GetResponses = (string, nat) -> Result<ResponseData, S3Error>

  /** The `i`-th `Bucket::put_object(filename, content)` answer. */
  type PutResponses = (string, seq<uint8>, nat) -> Result<ResponseData, S3Error>

  datatype PutRequest = PutRequest(filename: string, content: seq<uint8>)

  /**
   * `R2Store::new`: region "auto" at endpoint
   * "https://<account_id>.r2.cloudflarestorage.com".
   */
  function New(accessKeyId: string, secretAccessKey: string, accountId: string, bucketName: string): (s: R2Store)
    ensures s.bucketName == bucketName && s.region.region == R2_REGION
    ensures var e := s.region.endpoint;
      && |e| == |ENDPOINT_SCHEME| + |accountId| + |ENDPOINT_SUFFIX|
      && e[..|ENDPOINT_SCHEME|] == ENDPOINT_SCHEME
      && e[|ENDPOINT_SCHEME|..|e| - |ENDPOINT_SUFFIX|] == accountId
      && e[|e| - |ENDPOINT_SUFFIX|..] == ENDPOINT_SUFFIX
  {
    var endpoint := ENDPOINT_SCHEME + accountId + ENDPOINT_SUFFIX;
    assert endpoint[..|ENDPOINT_SCHEME|] == ENDPOINT_SCHEME;
    assert endpoint[|ENDPOINT_SCHEME|..|endpoint| - |ENDPOINT_SUFFIX|] == accountId;
    assert endpoint[|endpoint| - |ENDPOINT_SUFFIX|..] == ENDPOINT_SUFFIX;
    R2Store(bucketName, Custom(R2_REGION, endpoint))
  }

  /** Different accounts get different endpoints. */
  lemma EndpointInjective(a: string, b: string)
    ensures New("", "", a, "").region.endpoint == New("", "", b, "").region.endpoint ==> a == b
  {
  }

  /**
   * How many attempts a retry loop `while !success && retries > 0` makes when
   * attempt i sets `success := stop(i)`, counting from attempt `from`: the
   * first attempt that stops, or the 30th.
   */
  function AttemptCount(stop: nat -> bool, from: nat): (n: nat)
    requires from < MAX_ATTEMPTS
    ensures from < n <= MAX_ATTEMPTS
    ensures n == MAX_ATTEMPTS || stop(n - 1)
    ensures forall i | from <= i < n - 1 :: !stop(i)
    decreases MAX_ATTEMPTS - from
  {
    if stop(from) || from + 1 == MAX_ATTEMPTS then from + 1 else AttemptCount(stop, from + 1)
  }

  /** The attempt count is the only n the loop's exit condition allows. */
  lemma AttemptCountIs(stop: nat -> bool, n: nat)
    requires 0 < n <= MAX_ATTEMPTS
    requires n == MAX_ATTEMPTS || stop(n - 1)
    requires forall i | 0 <= i < n - 1 :: !stop(i)
    ensures AttemptCount(stop, 0) == n
  {
  }

  /** As written, `get_object` stops retrying on a failed attempt (`success = response.is_err()`). */
  function GetStops(responses: GetResponses, filename: string): (stop: nat -> bool) {
    (i: nat) => responses(filename, i).Err?
  }

  /** `put_object` stops retrying on a successful attempt (`success = response.is_ok()`). */
  function PutStops(responses: PutResponses, filename: string, content: seq<uint8>): (stop: nat -> bool) {
    (i: nat) => responses(filename, content, i).Ok?
  }

  /** The as-written read makes n attempts when the first n - 1 succeed and the n-th fails or is the 30th. */
  lemma GetAttempts(responses: GetResponses, filename: string, n: nat)
    requires 0 < n <= MAX_ATTEMPTS
    requires n == MAX_ATTEMPTS || responses(filename, n - 1).Err?
    requires forall i | 0 <= i < n - 1 :: responses(filename, i).Ok?
    ensures AttemptCount(GetStops(responses, filename), 0) == n
    ensures GetOutcome(responses, filename) == match responses(filename, n - 1)
      case Ok(response) => Ok(Some(response.bytes))
      case Err(e) => Err(R2(e))
  {
    AttemptCountIs(GetStops(responses, filename), n);
  }

  /** The write makes n attempts when the first n - 1 fail and the n-th succeeds or is the 30th. */
  lemma PutAttempts(responses: PutResponses, filename: string, content: seq<uint8>, n: nat)
    requires 0 < n <= MAX_ATTEMPTS
    requires n == MAX_ATTEMPTS || responses(filename, content, n - 1).Ok?
    requires forall i | 0 <= i < n - 1 :: responses(filename, content, i).Err?
    ensures AttemptCount(PutStops(responses, filename, content), 0) == n
    ensures PutOutcome(responses, filename, content) == if responses(filename, content, n - 1).Ok? then Ok(()) else Err(R2(responses(filename, content, n - 1).error))
  {
    AttemptCountIs(PutStops(responses, filename, content), n);
  }

  /** What `get_object` returns, from the last attempt it makes. */
  function GetOutcome(responses: GetResponses, filename: string): (r: Result<Option<seq<uint8>>, StoreError>)
    ensures r != Ok(None)
  {
    match responses(filename, AttemptCount(GetStops(responses, filename), 0) - 1)
    case Ok(response) => Ok(Some(response.bytes))
    case Err(e) => Err(R2(e))
  }

  /** What `put_object` returns, from the last attempt it makes. */
  function PutOutcome(responses: PutResponses, filename: string, content: seq<uint8>): (r: Result<(), StoreError>) {
    match responses(filename, content, AttemptCount(PutStops(responses, filename, content), 0) - 1)
    case Ok(_) => Ok(())
    case Err(e) => Err(R2(e))
  }

  /**
   * `R2Store::get_object` as written: between 1 and 30 requests, all for
   * `filename`; it keeps requesting while requests succeed and stops at the
   * first failure; the `None` arm after the loop is never taken.
   */
  method GetObject(responses: GetResponses, filename: string)
    returns (r: Result<Option<seq<uint8>>, StoreError>, requests: seq<string>)
    ensures 1 <= |requests| <= MAX_ATTEMPTS
    ensures forall i | 0 <= i < |requests| :: requests[i] == filename
    ensures |requests| == AttemptCount(GetStops(responses, filename), 0)
    ensures forall i | 0 <= i < |requests| - 1 :: responses(filename, i).Ok?
    ensures r == GetOutcome(responses, filename)
    ensures r != Ok(None)
  {
    var retries := MAX_ATTEMPTS;
    var success := false;
    var lastResponse: Option<Result<ResponseData, S3Error>> := None;
    requests := [];
    while !success && retries > 0
      invariant 0 <= retries <= MAX_ATTEMPTS
      invariant |requests| == MAX_ATTEMPTS - retries
      invariant forall i | 0 <= i < |requests| :: requests[i] == filename
      invariant forall i | 0 <= i < |requests| - 1 :: responses(filename, i).Ok?
      invariant |requests| == 0 ==> lastResponse.None? && !success
      invariant |requests| > 0 ==> lastResponse == Some(responses(filename, |requests| - 1))
      invariant |requests| > 0 ==> (success <==> responses(filename, |requests| - 1).Err?)
      decreases retries
    {
      var response := responses(filename, |requests|);
      requests := requests + [filename];
      success := response.Err?;
      lastResponse := Some(response);
      retries := retries - 1;
    }
    assert 0 < |requests|;
    GetAttempts(responses, filename, |requests|);
    match lastResponse
    case Some(Ok(response)) => r := Ok(Some(response.bytes));
    case Some(Err(e)) => r := Err(R2(e));
    case None => r := Ok(None);
  }

  /**
   * `R2Store::put_object`: between 1 and 30 requests, all with the same
   * filename and content; it stops at the first success and otherwise
   * returns the 30th attempt's error; the `None` arm is never taken.
   */
  method PutObject(responses: PutResponses, filename: string, content: seq<uint8>)
    returns (r: Result<(), StoreError>, requests: seq<PutRequest>)
    ensures 1 <= |requests| <= MAX_ATTEMPTS
    ensures forall i | 0 <= i < |requests| :: requests[i] == PutRequest(filename, content)
    ensures |requests| == AttemptCount(PutStops(responses, filename, content), 0)
    ensures forall i | 0 <= i < |requests| - 1 :: responses(filename, content, i).Err?
    ensures r == PutOutcome(responses, filename, content)
  {
    var retries := MAX_ATTEMPTS;
    var success := false;
    var lastResponse: Option<Result<ResponseData, S3Error>> := None;
    requests := [];
    while !success && retries > 0
      invariant 0 <= retries <= MAX_ATTEMPTS
      invariant |requests| == MAX_ATTEMPTS - retries
      invariant forall i | 0 <= i < |requests| :: requests[i] == PutRequest(filename, content)
      invariant forall i | 0 <= i < |requests| - 1 :: responses(filename, content, i).Err?
      invariant |requests| == 0 ==> lastResponse.None? && !success
      invariant |requests| > 0 ==> lastResponse == Some(responses(filename, content, |requests| - 1))
      invariant |requests| > 0 ==> (success <==> responses(filename, content, |requests| - 1).Ok?)
      decreases retries
    {
      var response := responses(filename, content, |requests|);
      requests := requests + [PutRequest(filename, content)];
      success := response.Ok?;
      lastResponse := Some(response);
      retries := retries - 1;
    }
    assert 0 < |requests|;
    PutAttempts(responses, filename, content, |requests|);
    match lastResponse
    case Some(Ok(_)) => r := Ok(());
    case Some(Err(e)) => r := Err(R2(e));
    case None => r := Ok(());
  }

  /** `put_object` returns `Ok` after k + 1 attempts when attempt k is the first to succeed (k < 30). */
  lemma PutStopsAtFirstSuccess(responses: PutResponses, filename: string, content: seq<uint8>, k: nat)
    requires k < MAX_ATTEMPTS && responses(filename, content, k).Ok?
    requires forall i | 0 <= i < k :: responses(filename, content, i).Err?
    ensures AttemptCount(PutStops(responses, filename, content), 0) == k + 1
    ensures PutOutcome(responses, filename, content) == Ok(())
  {
    AttemptCountIs(PutStops(responses, filename, content), k + 1);
  }

  /** When all 30 attempts fail, `put_object` returns the 30th attempt's own error as `StoreError::R2`. */
  lemma PutAllFail(responses: PutResponses, filename: string, content: seq<uint8>)
    requires forall i | 0 <= i < MAX_ATTEMPTS :: responses(filename, content, i).Err?
    ensures AttemptCount(PutStops(responses, filename, content), 0) == MAX_ATTEMPTS
    ensures PutOutcome(responses, filename, content) == Err(R2(responses(filename, content, MAX_ATTEMPTS - 1).error))
  {
    AttemptCountIs(PutStops(responses, filename, content), MAX_ATTEMPTS);
  }

  /** As written, `get_object` returns the error of attempt k, after k + 1 attempts, when k is the first to fail. */
  lemma GetStopsAtFirstFailure(responses: GetResponses, filename: string, k: nat)
    requires k < MAX_ATTEMPTS && responses(filename, k).Err?
    requires forall i | 0 <= i < k :: responses(filename, i).Ok?
    ensures AttemptCount(GetStops(responses, filename), 0) == k + 1
    ensures GetOutcome(responses, filename) == Err(R2(responses(filename, k).error))
  {
    AttemptCountIs(GetStops(responses, filename), k + 1);
  }

  /** As written, while attempts succeed `get_object` repeats the request 30 times and returns the last bytes. */
  lemma GetRepeatsSuccesses(responses: GetResponses, filename: string)
    requires forall i | 0 <= i < MAX_ATTEMPTS :: responses(filename, i).Ok?
    ensures AttemptCount(GetStops(responses, filename), 0) == MAX_ATTEMPTS
    ensures GetOutcome(responses, filename) == Ok(Some(responses(filename, MAX_ATTEMPTS - 1).value.bytes))
  {
    AttemptCountIs(GetStops(responses, filename), MAX_ATTEMPTS);
  }

  // The retry `get_object` evidently intends: stop at the first success, like `put_object`.

  function RetryGetStops(responses: GetResponses, filename: string): (stop: nat -> bool) {
    (i: nat) => responses(filename, i).Ok?
  }

  /** The corrected read makes n attempts when the first n - 1 fail and the n-th succeeds or is the 30th. */
  lemma CorrectedGetAttempts(responses: GetResponses, filename: string, n: nat)
    requires 0 < n <= MAX_ATTEMPTS
    requires n == MAX_ATTEMPTS || responses(filename, n - 1).Ok?
    requires forall i | 0 <= i < n - 1 :: responses(filename, i).Err?
    ensures AttemptCount(RetryGetStops(responses, filename), 0) == n
    ensures CorrectedGetOutcome(responses, filename) == match responses(filename, n - 1)
      case Ok(response) => Ok(Some(response.bytes))
      case Err(e) => Err(R2(e))
  {
    AttemptCountIs(RetryGetStops(responses, filename), n);
  }

  function CorrectedGetOutcome(responses: GetResponses, filename: string): (r: Result<Option<seq<uint8>>, StoreError>)
    ensures r != Ok(None)
  {
    match responses(filename, AttemptCount(RetryGetStops(responses, filename), 0) - 1)
    case Ok(response) => Ok(Some(response.bytes))
    case Err(e) => Err(R2(e))
  }

  /**
   * `get_object` with `success = response.is_ok()`: it retries failures,
   * stops at the first success and returns its bytes, or the 30th error.
   */
  method GetObjectCorrected(responses: GetResponses, filename: string)
    returns (r: Result<Option<seq<uint8>>, StoreError>, requests: seq<string>)
    ensures 1 <= |requests| <= MAX_ATTEMPTS
    ensures forall i | 0 <= i < |requests| :: requests[i] == filename
    ensures |requests| == AttemptCount(RetryGetStops(responses, filename), 0)
    ensures forall i | 0 <= i < |requests| - 1 :: responses(filename, i).Err?
    ensures r == CorrectedGetOutcome(responses, filename)
    ensures r != Ok(None)
  {
    var retries := MAX_ATTEMPTS;
    var success := false;
    var lastResponse: Option<Result<ResponseData, S3Error>> := None;
    requests := [];
    while !success && retries > 0
      invariant 0 <= retries <= MAX_ATTEMPTS
      invariant |requests| == MAX_ATTEMPTS - retries
      invariant forall i | 0 <= i < |requests| :: requests[i] == filename
      invariant forall i | 0 <= i < |requests| - 1 :: responses(filename, i).Err?
      invariant |requests| == 0 ==> lastResponse.None? && !success
      invariant |requests| > 0 ==> lastResponse == Some(responses(filename, |requests| - 1))
      invariant |requests| > 0 ==> (success <==> responses(filename, |requests| - 1).Ok?)
      decreases retries
    {
      var response := responses(filename, |requests|);
      requests := requests + [filename];
      success := response.Ok?;
      lastResponse := Some(response);
      retries := retries - 1;
    }
    assert 0 < |requests|;
    CorrectedGetAttempts(responses, filename, |requests|);
    match lastResponse
    case Some(Ok(response)) => r := Ok(Some(response.bytes));
    case Some(Err(e)) => r := Err(R2(e));
    case None => r := Ok(None);
  }

  /** The corrected read succeeds with the bytes of the first successful attempt, after k + 1 attempts. */
  lemma CorrectedGetStopsAtFirstSuccess(responses: GetResponses, filename: string, k: nat)
    requires k < MAX_ATTEMPTS && responses(filename, k).Ok?
    requires forall i | 0 <= i < k :: responses(filename, i).Err?
    ensures AttemptCount(RetryGetStops(responses, filename), 0) == k + 1
    ensures CorrectedGetOutcome(responses, filename) == Ok(Some(responses(filename, k).value.bytes))
  {
    AttemptCountIs(RetryGetStops(responses, filename), k + 1);
  }

  /** A bucket that times out 29 times and then answers. */
  function FlakyBucket(filename: string, i: nat): (response: Result<ResponseData, S3Error>) {
    if i < MAX_ATTEMPTS - 1 then Err(S3Error("timeout")) else Ok(ResponseData(200, [0x2A]))
  }

  /**
   * On that bucket the read as written gives up after the first timeout,
   * while the corrected read (and `put_object`'s loop) would reach the 30th
   * attempt and succeed.
   */
  lemma GetGivesUpOnFlakyBucket(filename: string)
    ensures AttemptCount(GetStops(FlakyBucket, filename), 0) == 1
    ensures GetOutcome(FlakyBucket, filename) == Err(R2(S3Error("timeout")))
    ensures CorrectedGetOutcome(FlakyBucket, filename) == Ok(Some([0x2A]))
  {
    GetStopsAtFirstFailure(FlakyBucket, filename, 0);
    CorrectedGetStopsAtFirstSuccess(FlakyBucket, filename, MAX_ATTEMPTS - 1);
  }
}
