/** getImage: pick the images out of the trigger and fetch each one from the object store
    (main.go:221-253). The store's answers are the oracle `fetch`, called with the
    position of the request and the image asked for. */
module Fetcher {
  import opened Wrappers
  import opened Types
  import opened FailFast
  import opened Trigger

  /** One GetObject call seen as a step: an error or a nil body fails, naming the image. */
  function FetchStep(fetch: (nat, FileData) -> FetchOutcome): (nat, FileData) -> Result<Reader, Error> {
    (i: nat, image: FileData) =>
      match fetch(i, image)
      case FetchError => Failure(FetchFailed(image))
      case NilBody => Failure(NilBodyFor(image))
      case Fetched(body) => Success(body)
  }

  /** The first loop of getImage: the image of every object-created message, in message order. */
  method FilterCreated(messages: seq<TriggerMessage>) returns (images: seq<FileData>)
    ensures images == CreatedImages(messages)
  {
    images := [];
    for j := 0 to |messages|
      invariant images == CreatedImages(messages[..j])
    {
      assert messages[..j + 1][..j] == messages[..j];
      var message := messages[j];
      if message.eventMetadata.eventType == CREATE_EVENT.String() {
        images := images + [FileData(message.details.bucketId, message.details.objectId)];
      }
    }
    assert messages[..|messages|] == messages;
  }

  /** The second loop of getImage: fetch the images in order, stopping at the first failure. */
  method FetchAll(images: seq<FileData>, fetch: (nat, FileData) -> FetchOutcome)
    returns (r: Result<seq<Reader>, Error>, requested: seq<FileData>)
    ensures r == Traverse(images, FetchStep(fetch))
    ensures requested == images[..Attempts(images, FetchStep(fetch))]
  {
    ghost var step := FetchStep(fetch);
    var readers: seq<Reader> := [];
    requested := [];
    for i := 0 to |images|
      invariant requested == images[..i] && |readers| == i
      invariant Traverse(images[..i], step) == Success(readers)
      invariant FirstFailure(images[..i], step) == i
    {
      var image := images[i];
      requested := requested + [image];
      assert requested == images[..i + 1];
      match fetch(i, image)
      case FetchError =>
        StepFails(images, i, step, FetchFailed(image));
        return Failure(FetchFailed(image)), requested;
      case NilBody =>
        StepFails(images, i, step, NilBodyFor(image));
        return Failure(NilBodyFor(image)), requested;
      case Fetched(body) =>
        StepSucceeds(images, i, step, readers, body);
        readers := readers + [body];
    }
    assert images[..|images|] == images;
    r := Success(readers);
  }

  /** What the fail-fast fetch loop means for the store: on success one body per image from a
      successful GetObject; on failure every earlier fetch succeeded and the failing one names its image. */
  lemma {:induction false} FetchOutcomeMeaning(images: seq<FileData>, fetch: (nat, FileData) -> FetchOutcome)
    ensures Traverse(images, FetchStep(fetch)).Success? ==>
      var readers := Traverse(images, FetchStep(fetch)).value;
      && Attempts(images, FetchStep(fetch)) == |images| == |readers|
      && forall i :: 0 <= i < |images| ==> fetch(i, images[i]) == Fetched(readers[i])
    ensures Traverse(images, FetchStep(fetch)).Failure? ==>
      var k := FirstFailure(images, FetchStep(fetch));
      var e := Traverse(images, FetchStep(fetch)).error;
      && k < |images| && Attempts(images, FetchStep(fetch)) == k + 1
      && (forall i :: 0 <= i < k ==> fetch(i, images[i]).Fetched?)
      && match fetch(k, images[k])
         case Fetched(_) => false
         case FetchError => e == FetchFailed(images[k])
         case NilBody => e == NilBodyFor(images[k])
  {
    var step := FetchStep(fetch);
    TraverseMeaning(images, step);
    FirstFailureIsFirst(images, step);
    var k := FirstFailure(images, step);
    forall i | 0 <= i < k
      ensures fetch(i, images[i]).Fetched?
    {
      assert step(i, images[i]).Success?;
    }
  }

  /** On success, the images of the object-created messages and one body per image, aligned;
      on failure, the error for the first image whose fetch failed, after which nothing is requested. */
  method GetImage(payload: ObjectTriggerPayload, fetch: (nat, FileData) -> FetchOutcome)
    returns (r: Result<(seq<FileData>, seq<Reader>), Error>, requested: seq<FileData>)
    ensures var images := CreatedImages(payload.messages);
      && requested == images[..Attempts(images, FetchStep(fetch))]
      && match Traverse(images, FetchStep(fetch))
         case Success(readers) => r == Success((images, readers))
         case Failure(e) => r == Failure(e)
    ensures r.Success? ==>
      var (images, readers) := r.value;
      && requested == images
      && |readers| == |images|
      && forall i :: 0 <= i < |images| ==> fetch(i, images[i]) == Fetched(readers[i])
    ensures r.Failure? ==>
      var k := |requested| - 1;
      && 0 <= k
      && (forall i :: 0 <= i < k ==> fetch(i, requested[i]).Fetched?)
      && match fetch(k, requested[k])
         case Fetched(_) => false
         case FetchError => r.error == FetchFailed(requested[k])
         case NilBody => r.error == NilBodyFor(requested[k])
  {
    var images := FilterCreated(payload.messages);
    var fetched;
    fetched, requested := FetchAll(images, fetch);
    FetchOutcomeMeaning(images, fetch);
    if fetched.Failure? {
      return Failure(fetched.error), requested;
    }
    assert images[..|images|] == images;
    r := Success((images, fetched.value));
  }
}
