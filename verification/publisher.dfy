/** sendToQueue: build one payload per image and publish those with at least one face,
    stopping at the first marshal or send failure (main.go:121-161). `marshal` stands for
    json.Marshal and `send` for the queue's SendMessage, called with the payload's position. */
module Publisher {
  import opened Wrappers
  import opened Types
  import opened FailFast
  import opened Aggregator

  /** The payload built for image i from response i. */
  function Aggregate(images: seq<FileData>, visionOut: seq<VisionResponse>): seq<QueuePayload>
    requires |visionOut| >= |images|
  {
    seq(|images|, i requires 0 <= i < |images| => QueuePayload(images[i], Coordinates(visionOut[i])))
  }

  /** The payloads that are worth publishing: those with at least one face, in order. */
  function Sendable(payloads: seq<QueuePayload>): seq<QueuePayload>
    decreases |payloads|
  {
    if payloads == [] then []
    else
      var n := |payloads| - 1;
      Sendable(payloads[..n]) + (if |payloads[n].coordinates| == 0 then [] else [payloads[n]])
  }

  /** Publishing one payload as a step: an empty one is skipped (None), a published one is
      returned, and a marshal or send failure fails. */
  function PublishStep(marshal: QueuePayload -> Option<string>, send: (nat, string) -> SendOutcome)
    : (nat, QueuePayload) -> Result<Option<QueuePayload>, Error>
  {
    (i: nat, payload: QueuePayload) =>
      if |payload.coordinates| == 0 then Success(None)
      else
        match marshal(payload)
        case None => Failure(MarshalFailed)
        case Some(body) =>
          match send(i, body)
          case SendError => Failure(SendFailed)
          case Sent(_) => Success(Some(payload))
  }

  /** The innermost loop of sendToQueue: append each face's bounding box, in face order. */
  method AppendFaces(coordinates: seq<Vertices>, faces: seq<Face>) returns (extended: seq<Vertices>)
    ensures extended == coordinates + FacePolygons(faces)
    ensures |extended| == |coordinates| + |faces|
  {
    extended := coordinates;
    for c := 0 to |faces|
      invariant extended == coordinates + FacePolygons(faces[..c])
    {
      FacePolygonsStep(faces, c);
      extended := extended + [faces[c].boundingBox.vertices];
    }
    assert faces[..|faces|] == faces;
    FacePolygonsCount(faces);
  }

  /** The three inner loops of sendToQueue's first loop: every bounding box of one response,
      one per face, in outer-result, inner-result, face order. */
  method GatherCoordinates(response: VisionResponse) returns (coordinates: seq<Vertices>)
    ensures coordinates == Coordinates(response)
    ensures |coordinates| == FaceCount(response)
  {
    coordinates := [];
    var levelOnes := response.results;
    for a := 0 to |levelOnes|
      invariant coordinates == ResultPolygons(levelOnes[..a])
    {
      ghost var before := coordinates;
      var levelTwos := levelOnes[a].results;
      for b := 0 to |levelTwos|
        invariant coordinates == before + DetectionPolygons(levelTwos[..b])
      {
        coordinates := AppendFaces(coordinates, levelTwos[b].faceDetection.faces);
        DetectionPolygonsStep(levelTwos, b);
      }
      assert levelTwos[..|levelTwos|] == levelTwos;
      ResultPolygonsStep(levelOnes, a);
    }
    assert levelOnes[..|levelOnes|] == levelOnes;
    CoordinatesCount(response);
  }

  /** The first loop of sendToQueue: payload i names image i and carries every bounding box of
      response i, one per face. */
  method CollectPayloads(images: seq<FileData>, visionOut: seq<VisionResponse>)
    returns (bodies: seq<QueuePayload>)
    requires |visionOut| >= |images|
    ensures |bodies| == |images|
    ensures forall i :: 0 <= i < |images| ==>
      && bodies[i].imageUrl == images[i]
      && bodies[i].coordinates == Coordinates(visionOut[i])
      && |bodies[i].coordinates| == FaceCount(visionOut[i])
  {
    bodies := [];
    for i := 0 to |images|
      invariant |bodies| == i
      invariant forall j :: 0 <= j < i ==>
        && bodies[j].imageUrl == images[j]
        && bodies[j].coordinates == Coordinates(visionOut[j])
        && |bodies[j].coordinates| == FaceCount(visionOut[j])
    {
      var coordinates := GatherCoordinates(visionOut[i]);
      bodies := bodies + [QueuePayload(images[i], coordinates)];
    }
  }

  /** sendToQueue. On success every payload with faces was published, in image order, and no
      other; on failure the error is that of the first payload with faces whose marshal or send
      failed, the payloads published before it stay published, and nothing after it is tried. */
  method SendToQueue(images: seq<FileData>, visionOut: seq<VisionResponse>,
                     marshal: QueuePayload -> Option<string>, send: (nat, string) -> SendOutcome)
    returns (err: Outcome<Error>, sent: seq<QueuePayload>)
    requires |visionOut| >= |images|
    ensures var payloads := Aggregate(images, visionOut);
      var step := PublishStep(marshal, send);
      && (err.Pass? <==> Traverse(payloads, step).Success?)
      && (err.Fail? ==> Traverse(payloads, step) == Failure(err.error))
      && sent == Sendable(payloads[..FirstFailure(payloads, step)])
    ensures err.Pass? ==> sent == Sendable(Aggregate(images, visionOut))
    ensures err.Fail? ==>
      var payloads := Aggregate(images, visionOut);
      var k := FirstFailure(payloads, PublishStep(marshal, send));
      && k < |payloads|
      && |payloads[k].coordinates| > 0
      && match marshal(payloads[k])
         case None => err.error == MarshalFailed
         case Some(body) => send(k, body) == SendError && err.error == SendFailed
  {
    var messageBodies := CollectPayloads(images, visionOut);
    assert messageBodies == Aggregate(images, visionOut);

    ghost var step := PublishStep(marshal, send);
    ghost var done: seq<Option<QueuePayload>> := [];
    sent := [];
    for i := 0 to |messageBodies|
      invariant Traverse(messageBodies[..i], step) == Success(done)
      invariant FirstFailure(messageBodies[..i], step) == i
      invariant sent == Sendable(messageBodies[..i])
    {
      var payload := messageBodies[i];
      assert messageBodies[..i + 1][..i] == messageBodies[..i];
      if |payload.coordinates| == 0 {
        StepSucceeds(messageBodies, i, step, done, None);
        done := done + [None];
        continue;
      }
      var body := marshal(payload);
      if body.None? {
        StepFails(messageBodies, i, step, MarshalFailed);
        return Fail(MarshalFailed), sent;
      }
      var result := send(i, body.value);
      if result.SendError? {
        StepFails(messageBodies, i, step, SendFailed);
        return Fail(SendFailed), sent;
      }
      StepSucceeds(messageBodies, i, step, done, Some(payload));
      done := done + [Some(payload)];
      sent := sent + [payload];
    }
    assert messageBodies[..|messageBodies|] == messageBodies;
    err := Pass;
  }

  /** Filtering keeps order: the sendable payloads of a concatenation are those of each part, in turn. */
  lemma {:induction false} SendableConcat(a: seq<QueuePayload>, b: seq<QueuePayload>)
    ensures Sendable(a + b) == Sendable(a) + Sendable(b)
    decreases |b|
  {
    if b == [] {
      assert a + b == a;
    } else {
      var m := |b| - 1;
      SendableConcat(a, b[..m]);
      assert (a + b)[..|a + b| - 1] == a + b[..m];
    }
  }

  /** A payload is sendable exactly when it is one of the payloads and has a face. */
  lemma {:induction false} SendableMembers(payloads: seq<QueuePayload>, p: QueuePayload)
    ensures p in Sendable(payloads) <==> p in payloads && |p.coordinates| > 0
    decreases |payloads|
  {
    if payloads != [] {
      var n := |payloads| - 1;
      SendableMembers(payloads[..n], p);
      assert payloads == payloads[..n] + [payloads[n]];
    }
  }

  /** A payload without faces never causes an error and is never published: when all are
      empty, publishing succeeds and sends nothing. */
  lemma {:induction false} EmptyPayloadsPublishNothing(payloads: seq<QueuePayload>,
      marshal: QueuePayload -> Option<string>, send: (nat, string) -> SendOutcome)
    requires forall i :: 0 <= i < |payloads| ==> payloads[i].coordinates == []
    ensures Traverse(payloads, PublishStep(marshal, send)).Success?
    ensures Sendable(payloads) == []
    decreases |payloads|
  {
    TraverseSucceedsIff(payloads, PublishStep(marshal, send));
    if payloads != [] {
      var n := |payloads| - 1;
      assert forall i :: 0 <= i < n ==> payloads[..n][i] == payloads[i];
      EmptyPayloadsPublishNothing(payloads[..n], marshal, send);
    }
  }

  /** When every payload has a face, every one is sendable, in order and at its own position. */
  lemma {:induction false} NonEmptyPayloadsAllSendable(payloads: seq<QueuePayload>)
    requires forall i :: 0 <= i < |payloads| ==> |payloads[i].coordinates| > 0
    ensures Sendable(payloads) == payloads
    decreases |payloads|
  {
    if payloads != [] {
      var n := |payloads| - 1;
      var prefix := payloads[..n];
      forall i | 0 <= i < n
        ensures |prefix[i].coordinates| > 0
      {
        assert prefix[i] == payloads[i];
      }
      NonEmptyPayloadsAllSendable(prefix);
      calc {
        Sendable(payloads);
        Sendable(prefix) + [payloads[n]];
        prefix + [payloads[n]];
        { assert prefix + [payloads[n]] == payloads; }
        payloads;
      }
    }
  }
}
