/** Which trigger messages name an image to process (main.go:90, 222-228). */
module Trigger {
  import opened Types

  /** A message is acted on when its event type is the object-created tag. */
  predicate IsCreate(m: TriggerMessage) {
    m.eventMetadata.eventType == CREATE_EVENT.String()
  }

  /** The image a message refers to. */
  function ImageOf(m: TriggerMessage): FileData {
    FileData(m.details.bucketId, m.details.objectId)
  }

  /** The images of the object-created messages, in message order. */
  function CreatedImages(ms: seq<TriggerMessage>): seq<FileData>
    decreases |ms|
  {
    if ms == [] then []
    else
      var n := |ms| - 1;
      CreatedImages(ms[..n]) + (if IsCreate(ms[n]) then [ImageOf(ms[n])] else [])
  }

  /** Filtering keeps order: the images of a concatenation are the images of each part, in turn. */
  lemma {:induction false} CreatedImagesConcat(a: seq<TriggerMessage>, b: seq<TriggerMessage>)
    ensures CreatedImages(a + b) == CreatedImages(a) + CreatedImages(b)
    decreases |b|
  {
    if b == [] {
      assert a + b == a;
    } else {
      var m := |b| - 1;
      CreatedImagesConcat(a, b[..m]);
      assert (a + b)[..|a + b| - 1] == a + b[..m];
    }
  }

  /** An image is produced exactly when some object-created message names it. */
  lemma {:induction false} CreatedImagesMembers(ms: seq<TriggerMessage>, image: FileData)
    ensures image in CreatedImages(ms) <==> exists i :: 0 <= i < |ms| && IsCreate(ms[i]) && ImageOf(ms[i]) == image
    decreases |ms|
  {
    if ms != [] {
      var n := |ms| - 1;
      var prefix := ms[..n];
      var last := if IsCreate(ms[n]) then [ImageOf(ms[n])] else [];
      CreatedImagesMembers(prefix, image);
      assert CreatedImages(ms) == CreatedImages(prefix) + last;
      if image in CreatedImages(prefix) {
        var i :| 0 <= i < n && IsCreate(prefix[i]) && ImageOf(prefix[i]) == image;
        assert ms[i] == prefix[i];
      } else if image !in last {
        forall i | 0 <= i < n && IsCreate(ms[i])
          ensures ImageOf(ms[i]) != image
        {
          assert ms[i] == prefix[i];
        }
      }
    }
  }

  /** Messages of any other event type are dropped without error; with none left the list is empty. */
  lemma {:induction false} NoCreateEventsNoImages(ms: seq<TriggerMessage>)
    requires forall i :: 0 <= i < |ms| ==> ms[i].eventMetadata.eventType != CREATE_EVENT.name
    ensures CreatedImages(ms) == []
    decreases |ms|
  {
    if ms != [] {
      var n := |ms| - 1;
      assert forall i :: 0 <= i < n ==> ms[..n][i] == ms[i];
      NoCreateEventsNoImages(ms[..n]);
    }
  }

  /** When every message is an object-created event, each yields its own image at its own position. */
  lemma {:induction false} AllCreateEventsKept(ms: seq<TriggerMessage>)
    requires forall i :: 0 <= i < |ms| ==> ms[i].eventMetadata.eventType == CREATE_EVENT.name
    ensures |CreatedImages(ms)| == |ms|
    ensures forall i :: 0 <= i < |ms| ==> CreatedImages(ms)[i] == ImageOf(ms[i])
    decreases |ms|
  {
    if ms != [] {
      var n := |ms| - 1;
      assert forall i :: 0 <= i < n ==> ms[..n][i] == ms[i];
      AllCreateEventsKept(ms[..n]);
    }
  }
}
