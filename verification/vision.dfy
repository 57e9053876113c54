/** batchAnalyze: submit every fetched image to the face-detection endpoint, one after the
    other, and decode each answer (main.go:163-219). The endpoint is the oracle `vision`,
    called with the position of the image and its bytes; base64 encoding, the JSON request
    text, headers and the token are inside that oracle. */
module Vision {
  import opened Wrappers
  import opened Types
  import opened FailFast

  /** Handling one image, with the checks in the order the code makes them. */
  function AnalyzeStep(vision: (nat, seq<Byte>) -> HttpOutcome): (nat, Reader) -> Result<VisionResponse, Error> {
    (i: nat, reader: Reader) =>
      match reader
      case Unreadable => Failure(ReadFailed)
      case Readable(content) =>
        match vision(i, content)
        case RequestInvalid => Failure(RequestFailed)
        case TransportError => Failure(TransportFailed)
        case Responded(status, decoded) =>
          if status != STATUS_OK then Failure(UnexpectedStatus(status))
          else if decoded.None? then Failure(DecodeFailed)
          else Success(decoded.value)
  }

  /** One pass of the loop: read the image, build and send the request, check the status,
      decode the answer; the first check that fails gives the error. */
  method AnalyzeOne(i: nat, reader: Reader, vision: (nat, seq<Byte>) -> HttpOutcome)
    returns (r: Result<VisionResponse, Error>)
    ensures r == AnalyzeStep(vision)(i, reader)
    ensures r.Success? <==>
      reader.Readable? && vision(i, reader.content).Responded? &&
      vision(i, reader.content).statusCode == STATUS_OK && vision(i, reader.content).decoded.Some?
  {
    if reader.Unreadable? {
      return Failure(ReadFailed);
    }
    var b := reader.content;
    var resp := vision(i, b);
    if resp.RequestInvalid? {
      return Failure(RequestFailed);
    }
    if resp.TransportError? {
      return Failure(TransportFailed);
    }
    if resp.statusCode != STATUS_OK {
      return Failure(UnexpectedStatus(resp.statusCode));
    }
    if resp.decoded.None? {
      return Failure(DecodeFailed);
    }
    return Success(resp.decoded.value);
  }

  /** On success, one decoded response per reader, in reader order; on failure, the error of the
      first image that failed, and no image after it is read or sent. `attempted` counts the
      images handled. */
  method BatchAnalyze(readers: seq<Reader>, vision: (nat, seq<Byte>) -> HttpOutcome)
    returns (r: Result<seq<VisionResponse>, Error>, attempted: nat)
    ensures r == Traverse(readers, AnalyzeStep(vision))
    ensures attempted == Attempts(readers, AnalyzeStep(vision))
    ensures r.Success? ==>
      && attempted == |readers| == |r.value|
      && forall i :: 0 <= i < |readers| ==>
           && readers[i].Readable?
           && vision(i, readers[i].content) == Responded(STATUS_OK, Some(r.value[i]))
    ensures r.Failure? ==>
      var k := attempted - 1;
      && 0 <= k < |readers|
      && (forall i :: 0 <= i < k ==> AnalyzeStep(vision)(i, readers[i]).Success?)
      && AnalyzeStep(vision)(k, readers[k]) == Failure(r.error)
  {
    ghost var step := AnalyzeStep(vision);
    var visionOuts: seq<VisionResponse> := [];
    attempted := 0;
    for i := 0 to |readers|
      invariant attempted == i && |visionOuts| == i
      invariant Traverse(readers[..i], step) == Success(visionOuts)
      invariant FirstFailure(readers[..i], step) == i
      invariant forall j :: 0 <= j < i ==> step(j, readers[j]) == Success(visionOuts[j])
      invariant forall j :: 0 <= j < i ==>
        readers[j].Readable? && vision(j, readers[j].content) == Responded(STATUS_OK, Some(visionOuts[j]))
    {
      attempted := attempted + 1;
      var visionOut := AnalyzeOne(i, readers[i], vision);
      if visionOut.Failure? {
        StepFails(readers, i, step, visionOut.error);
        return Failure(visionOut.error), attempted;
      }
      StepSucceeds(readers, i, step, visionOuts, visionOut.value);
      visionOuts := visionOuts + [visionOut.value];
    }
    assert readers[..|readers|] == readers;
    r := Success(visionOuts);
  }
}
