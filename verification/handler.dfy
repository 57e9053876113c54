/** Handler: one invocation of the function, running the stages in order and returning
    "OK" or the first error (main.go:276-297). Every external service is an oracle in the
    environment; loading the SDK configuration is reduced to whether it succeeds. */
module Handler {
  import opened Wrappers
  import opened Types
  import opened FailFast
  import opened Trigger
  import opened Fetcher
  import opened Vision
  import opened Aggregator
  import opened Publisher

  /** The answers of the outside world for one invocation. */
  datatype Environment = Environment(
    configLoads: bool,
    fetch: (nat, FileData) -> FetchOutcome,
    vision: (nat, seq<Byte>) -> HttpOutcome,
    marshal: QueuePayload -> Option<string>,
    send: (nat, string) -> SendOutcome)

  /** What an invocation returns and what it did: the images requested from the store, the
      number of images handed to the vision stage, and the payloads published. */
  datatype Trace = Trace(result: Result<string, Error>, requested: seq<FileData>, analyzed: nat, sent: seq<QueuePayload>)

  const SUCCESS := "OK"

  /** The whole invocation, stage by stage. */
  function Invoke(request: ObjectTriggerPayload, env: Environment): Trace {
    if !env.configLoads then Trace(Failure(ConfigLoadFailed), [], 0, [])
    else Process(CreatedImages(request.messages), env)
  }

  /** The stages after the trigger is decoded: fetch every image, then analyse, then publish. */
  function Process(images: seq<FileData>, env: Environment): Trace {
    var fetchStep := FetchStep(env.fetch);
    var requested := images[..Attempts(images, fetchStep)];
    match Traverse(images, fetchStep)
    case Failure(e) => Trace(Failure(e), requested, 0, [])
    case Success(readers) =>
      TraverseMeaning(images, fetchStep);
      VisionStage(images, readers, requested, env)
  }

  /** Analyse every fetched image; on success go on to publishing. */
  function VisionStage(images: seq<FileData>, readers: seq<Reader>, requested: seq<FileData>, env: Environment): Trace
    requires |readers| == |images|
  {
    var visionStep := AnalyzeStep(env.vision);
    var analyzed := Attempts(readers, visionStep);
    match Traverse(readers, visionStep)
    case Failure(e) => Trace(Failure(e), requested, analyzed, [])
    case Success(visionOut) =>
      TraverseMeaning(readers, visionStep);
      PublishStage(images, visionOut, requested, analyzed, env)
  }

  /** Build the payloads and publish those with faces. */
  function PublishStage(images: seq<FileData>, visionOut: seq<VisionResponse>, requested: seq<FileData>,
                        analyzed: nat, env: Environment): Trace
    requires |visionOut| >= |images|
  {
    var payloads := Aggregate(images, visionOut);
    var publishStep := PublishStep(env.marshal, env.send);
    var sent := Sendable(payloads[..FirstFailure(payloads, publishStep)]);
    match Traverse(payloads, publishStep)
    case Failure(e) => Trace(Failure(e), requested, analyzed, sent)
    case Success(_) => Trace(Success(SUCCESS), requested, analyzed, sent)
  }

  /** The invocation as the code runs it. */
  method Handle(request: ObjectTriggerPayload, env: Environment) returns (t: Trace)
    ensures t == Invoke(request, env)
  {
    if !env.configLoads {
      return Trace(Failure(ConfigLoadFailed), [], 0, []);
    }
    var fetched, requested := GetImage(request, env.fetch);
    if fetched.Failure? {
      return Trace(Failure(fetched.error), requested, 0, []);
    }
    var (imageUrl, reader) := fetched.value;
    var visionOut, analyzed := BatchAnalyze(reader, env.vision);
    if visionOut.Failure? {
      return Trace(Failure(visionOut.error), requested, analyzed, []);
    }
    var err, sent := SendToQueue(imageUrl, visionOut.value, env.marshal, env.send);
    if err.Fail? {
      return Trace(Failure(err.error), requested, analyzed, sent);
    }
    return Trace(Success(SUCCESS), requested, analyzed, sent);
  }

  /** What the pipeline makes of the image at position i: its fetch, then its analysis. */
  function Analysis(env: Environment, i: nat, image: FileData): Result<VisionResponse, Error> {
    match env.fetch(i, image)
    case Fetched(body) => AnalyzeStep(env.vision)(i, body)
    case FetchError => Failure(FetchFailed(image))
    case NilBody => Failure(NilBodyFor(image))
  }

  /** A trigger with no object-created event fetches nothing, analyses nothing, publishes
      nothing, and succeeds. */
  lemma NoCreateEventsNoWork(request: ObjectTriggerPayload, env: Environment)
    requires env.configLoads
    requires forall i :: 0 <= i < |request.messages| ==>
      request.messages[i].eventMetadata.eventType != CREATE_EVENT.name
    ensures Invoke(request, env) == Trace(Success(SUCCESS), [], 0, [])
  {
    NoCreateEventsNoImages(request.messages);
  }

  /** If fetching image k fails, the invocation ends with that fetch's error: images after k
      are never requested, nothing is analysed and nothing is published. */
  lemma FetchFailureStopsPipeline(images: seq<FileData>, env: Environment, k: nat)
    requires k < |images|
    requires forall i :: 0 <= i < k ==> env.fetch(i, images[i]).Fetched?
    requires !env.fetch(k, images[k]).Fetched?
    ensures var t := Process(images, env);
      && t.requested == images[..k + 1]
      && t.analyzed == 0
      && t.sent == []
      && t.result == Failure(if env.fetch(k, images[k]).FetchError? then FetchFailed(images[k]) else NilBodyFor(images[k]))
  {
    FirstFailureAt(images, FetchStep(env.fetch), k);
  }

  /** The bodies fetched when every fetch succeeds, one per image. */
  lemma AllFetched(images: seq<FileData>, env: Environment) returns (readers: seq<Reader>)
    requires forall i :: 0 <= i < |images| ==> env.fetch(i, images[i]).Fetched?
    ensures |readers| == |images|
    ensures forall i :: 0 <= i < |images| ==> env.fetch(i, images[i]) == Fetched(readers[i])
    ensures Process(images, env) == VisionStage(images, readers, images, env)
  {
    var fetchStep := FetchStep(env.fetch);
    TraverseSucceedsIff(images, fetchStep);
    TraverseMeaning(images, fetchStep);
    readers := Traverse(images, fetchStep).value;
    assert images[..|images|] == images;
    forall i | 0 <= i < |images|
      ensures env.fetch(i, images[i]) == Fetched(readers[i])
    {
      assert fetchStep(i, images[i]) == Success(readers[i]);
    }
  }

  /** If the vision service answers image k with a status other than 200, after every image was
      fetched and the images before k were analysed, the invocation ends with that status, no
      image after k is analysed and nothing is published. */
  lemma VisionStatusStopsPublishing(images: seq<FileData>, env: Environment, k: nat)
    requires forall i :: 0 <= i < |images| ==> env.fetch(i, images[i]).Fetched?
    requires k < |images|
    requires forall i :: 0 <= i < k ==> Analysis(env, i, images[i]).Success?
    requires env.fetch(k, images[k]).body.Readable?
    requires var status := env.vision(k, env.fetch(k, images[k]).body.content);
      status.Responded? && status.statusCode != STATUS_OK
    ensures var t := Process(images, env);
      && t.requested == images
      && t.analyzed == k + 1
      && t.sent == []
      && t.result == Failure(UnexpectedStatus(env.vision(k, env.fetch(k, images[k]).body.content).statusCode))
  {
    var readers := AllFetched(images, env);
    var visionStep := AnalyzeStep(env.vision);
    forall i | 0 <= i <= k
      ensures visionStep(i, readers[i]) == Analysis(env, i, images[i])
    {
    }
    FirstFailureAt(readers, visionStep, k);
  }

  /** The responses of a successful run, one per image and aligned with the images, and the
      payloads it published. */
  lemma SuccessfulRunPayloads(images: seq<FileData>, env: Environment) returns (visionOut: seq<VisionResponse>)
    requires Process(images, env).result.Success?
    ensures var t := Process(images, env);
      && |visionOut| == |images|
      && (forall i :: 0 <= i < |images| ==> Analysis(env, i, images[i]) == Success(visionOut[i]))
      && t.requested == images
      && t.analyzed == |images|
      && t.result == Success(SUCCESS)
      && t.sent == Sendable(Aggregate(images, visionOut))
  {
    var fetchStep := FetchStep(env.fetch);
    TraverseMeaning(images, fetchStep);
    var readers := AllFetched(images, env);
    var visionStep := AnalyzeStep(env.vision);
    TraverseMeaning(readers, visionStep);
    visionOut := Traverse(readers, visionStep).value;
    assert Process(images, env) == PublishStage(images, visionOut, images, |images|, env);
    forall i | 0 <= i < |images|
      ensures Analysis(env, i, images[i]) == Success(visionOut[i])
    {
      assert visionStep(i, readers[i]) == Success(visionOut[i]);
    }
    var payloads := Aggregate(images, visionOut);
    TraverseMeaning(payloads, PublishStep(env.marshal, env.send));
    assert payloads[..|payloads|] == payloads;
  }

  /** A successful run fetched and analysed every image, and published exactly the payloads of
      the images with at least one face, each naming its own image and carrying its own boxes. */
  lemma SuccessfulRun(images: seq<FileData>, env: Environment)
    requires Process(images, env).result.Success?
    ensures var t := Process(images, env);
      && t.requested == images
      && t.analyzed == |images|
      && (forall i :: 0 <= i < |images| ==> Analysis(env, i, images[i]).Success?)
      && (forall p :: p in t.sent <==>
            exists i :: 0 <= i < |images| && Analysis(env, i, images[i]).Success? &&
              FaceCount(Analysis(env, i, images[i]).value) > 0 &&
              p == QueuePayload(images[i], Coordinates(Analysis(env, i, images[i]).value)))
  {
    var visionOut := SuccessfulRunPayloads(images, env);
    var payloads := Aggregate(images, visionOut);
    forall i | 0 <= i < |images|
      ensures (FaceCount(visionOut[i]) > 0) == (|payloads[i].coordinates| > 0)
    {
      CoordinatesCount(visionOut[i]);
    }
    forall p
      ensures p in Process(images, env).sent <==>
        exists i :: 0 <= i < |images| && Analysis(env, i, images[i]).Success? &&
          FaceCount(Analysis(env, i, images[i]).value) > 0 &&
          p == QueuePayload(images[i], Coordinates(Analysis(env, i, images[i]).value))
    {
      SendableMembers(payloads, p);
      if p in payloads && |p.coordinates| > 0 {
        var i :| 0 <= i < |payloads| && payloads[i] == p;
        assert Analysis(env, i, images[i]).value == visionOut[i];
      }
    }
  }

  /** When every image has at least one face, a successful run publishes exactly one message per
      image, message i carrying image i and the boxes of image i's response. */
  lemma EveryImageWithFacesPublished(images: seq<FileData>, env: Environment)
    requires Process(images, env).result.Success?
    requires forall i :: 0 <= i < |images| && Analysis(env, i, images[i]).Success? ==>
      FaceCount(Analysis(env, i, images[i]).value) > 0
    ensures var t := Process(images, env);
      && |t.sent| == |images|
      && forall i :: 0 <= i < |images| ==>
           Analysis(env, i, images[i]).Success? &&
           t.sent[i] == QueuePayload(images[i], Coordinates(Analysis(env, i, images[i]).value))
  {
    var visionOut := SuccessfulRunPayloads(images, env);
    var payloads := Aggregate(images, visionOut);
    forall i | 0 <= i < |payloads|
      ensures |payloads[i].coordinates| > 0
    {
      CoordinatesCount(visionOut[i]);
    }
    NonEmptyPayloadsAllSendable(payloads);
  }
}
