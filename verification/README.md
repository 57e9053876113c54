# Face detection function — a Dafny model

The face-detection service is a serverless function. An object-storage trigger starts it
(`Handler`, `task01/services/face-detection/main.go`). Each run goes through four stages, in order:

1. Keep the messages whose event type is the object-created event, and turn each one into an
   image reference (bucket, object key).
2. Fetch every image from the object store (`getImage`).
3. Send every image to the vision service's batch-analyse endpoint and decode each face
   detection answer (`batchAnalyze`).
4. Build one queue payload per image and publish each payload that has at least one face to
   the message queue (`sendToQueue`). A payload holds the image reference and the bounding box
   of every face found, in response order.

Every stage stops at its first error. That error ends the invocation, and later stages do not
run. A run with no error returns `"OK"`. The endpoint resolver (`customResolver`) maps the
storage and queue services in the `ru-central1` region to their cloud endpoints.

The model is laid out like the program:

- `Types`: the program's records (`types.dfy`).
- `FailFast`: the abort-at-first-error loop shared by the three stages (`fail_fast.dfy`).
- `Trigger`: the event filter (`trigger.dfy`).
- `Fetcher`: `getImage` (`fetcher.dfy`).
- `Vision`: `batchAnalyze` (`vision.dfy`).
- `Aggregator`: the flattening of a response into bounding boxes (`aggregator.dfy`).
- `Publisher`: `sendToQueue` (`publisher.dfy`).
- `Resolver`: `customResolver` (`resolver.dfy`).
- `Handler`: the invocation (`handler.dfy`).

The loops of `getImage`, `batchAnalyze` and `sendToQueue` are methods with loop invariants. Each
is proved against a specification function:

- `Traverse` gives the outputs, or the first failing step's error.
- `FirstFailure` and `Attempts` give how far the loop got.
- `Sendable` gives what was published.

`customResolver` and `Event.String` are functions.

The outside world is passed in as oracle functions:

- the object store's GetObject (`fetch`), given the image's position in the list of created images and the image;
- the vision HTTP exchange (`vision`), given the image's position in the list of fetched bodies and its bytes: request creation, transport, status and JSON decoding (a body that cannot be read is the `Unreadable` reader, checked before the oracle is called);
- JSON marshalling of a payload (`marshal`), a plain function of the payload;
- the queue's SendMessage (`send`), given the payload's position in the full payload list (skipped payloads without faces included) and the marshalled text;
- whether the SDK configuration loads (`configLoads`).

Method results and the `Trace` record the calls that were made:

- the images requested from the store;
- how many images the vision stage handled: every image before the first failure, plus the failing one. That last image may have failed before any request was sent, when its body could not be read (main.go:166-169) or the request could not be built (main.go:183-186);
- the payloads sent.

This lets the model state what is never asked for after an error.

## Model

| member | source | states |
|---|---|---|
| Types.Event.String | task01/services/face-detection/main.go:27-29 | The string of an event is its name: converting it back gives the same event. |
| FailFast.FirstFailure | task01/services/face-detection/main.go:231-250 | The index where the abort-at-first-error loop stops is at most the number of inputs. |
| FailFast.FirstFailureIsFirst | task01/services/face-detection/main.go:231-250 | Every step before the stopping index succeeds, and when the loop stops early, the step at that index fails. |
| FailFast.TraverseMeaning | task01/services/face-detection/main.go:165-212 | When the loop succeeds, it ran every step and output i is step i's value. When it fails, the stopping index is inside the input and the error is that step's error. |
| FailFast.TraverseSucceedsIff | task01/services/face-detection/main.go:165-212 | The loop succeeds if and only if every step succeeds. |
| FailFast.FailureIgnoresRest | task01/services/face-detection/main.go:136-158 | Once a prefix has failed, later inputs change neither the result nor the stopping index. |
| FailFast.StepSucceeds | task01/services/face-detection/main.go:249 | A successful step appends its output and moves the stopping index forward by one. |
| FailFast.FailedPrefixDecides | task01/services/face-detection/main.go:237-244 | A prefix that has already failed decides the result and the stopping index of the whole input. |
| FailFast.StepFails | task01/services/face-detection/main.go:237-244 | A step that fails after a run of successes gives the loop's error, the stopping index, and the number of attempts (that index plus one). |
| FailFast.FirstFailureAt | task01/services/face-detection/main.go:165-212 | A run of successes followed by a failure at k puts the stopping index at k, with step k's error. |
| Trigger.CreatedImagesConcat | task01/services/face-detection/main.go:222-228 | The filter keeps order: the images of two message lists joined together are the first list's images followed by the second's. |
| Trigger.CreatedImagesMembers | task01/services/face-detection/main.go:223-227 | An image is selected if and only if some object-created message names its bucket and key. |
| Trigger.NoCreateEventsNoImages | task01/services/face-detection/main.go:224 | Messages of any other event type yield no image and no error. |
| Trigger.AllCreateEventsKept | task01/services/face-detection/main.go:222-228 | When every message is an object-created event, image i comes from message i. |
| Fetcher.FilterCreated | task01/services/face-detection/main.go:222-228 | The first loop of getImage returns the images of the object-created messages, in message order. |
| Fetcher.FetchAll | task01/services/face-detection/main.go:230-252 | The fetch loop returns the fail-fast traversal of the images with the store, and requests exactly the images up to and including the first failure. |
| Fetcher.FetchOutcomeMeaning | task01/services/face-detection/main.go:232-249 | On success there is one body per image, from a successful GetObject. On failure every earlier fetch succeeded, and the error names the failing image: a fetch error and a nil body each give their own error. |
| Fetcher.GetImage | task01/services/face-detection/main.go:221-253 | On success the result pairs the created images with aligned bodies, and every image was requested. On failure the error belongs to the last image requested, every earlier fetch succeeded, and no image after it was requested. |
| Vision.AnalyzeOne | task01/services/face-detection/main.go:166-211 | One image succeeds if and only if it is readable, the request is created and delivered, the status is 200 and the body decodes. The checks run in the code's order. |
| Vision.BatchAnalyze | task01/services/face-detection/main.go:163-219 | On success there is one decoded response per reader, in order, and every exchange returned status 200. On failure the error is the first failing image's check, every earlier image succeeded, and nothing after it was sent. |
| Aggregator.FacePolygonsStep | task01/services/face-detection/main.go:128-130 | One more face appends its bounding box at the end. |
| Aggregator.DetectionPolygonsStep | task01/services/face-detection/main.go:127-131 | One more inner result appends its faces' boxes at the end. |
| Aggregator.ResultPolygonsStep | task01/services/face-detection/main.go:126-132 | One more outer result appends its inner results' boxes at the end. |
| Aggregator.FacePolygonsCount | task01/services/face-detection/main.go:128-130 | There is one bounding box per face. |
| Aggregator.DetectionPolygonsCount | task01/services/face-detection/main.go:127-131 | The boxes of a list of inner results number as many as their faces. |
| Aggregator.ResultPolygonsCount | task01/services/face-detection/main.go:126-132 | The boxes of a list of outer results number as many as their faces. |
| Aggregator.CoordinatesCount | task01/services/face-detection/main.go:126-137 | A response's coordinate list has one entry per face, and it is empty exactly when the response has no face. |
| Aggregator.FacePolygonsConcat | task01/services/face-detection/main.go:128-130 | Flattening keeps face order across joined lists. |
| Aggregator.DetectionPolygonsConcat | task01/services/face-detection/main.go:127-131 | Flattening keeps inner-result order across joined lists. |
| Aggregator.ResultPolygonsConcat | task01/services/face-detection/main.go:126-132 | Flattening keeps outer-result order across joined lists. |
| Aggregator.FacePolygonsAt | task01/services/face-detection/main.go:128-130 | Entry k of the flattened faces is face k's bounding box. |
| Aggregator.DetectionPolygonsMembers | task01/services/face-detection/main.go:127-131 | A box is in the flattened inner results if and only if some face there has it. |
| Aggregator.ResultPolygonsMembers | task01/services/face-detection/main.go:126-132 | A box is in the flattened outer results if and only if some face at some outer and inner position has it. |
| Aggregator.CoordinatesMembers | task01/services/face-detection/main.go:126-132 | A response's coordinate list holds exactly the bounding boxes of its faces. |
| Publisher.AppendFaces | task01/services/face-detection/main.go:128-130 | The innermost loop appends every face's box to the coordinates gathered so far, in face order. |
| Publisher.GatherCoordinates | task01/services/face-detection/main.go:126-132 | The two outer loops gather a response's boxes in outer, inner, face order: one per face. |
| Publisher.CollectPayloads | task01/services/face-detection/main.go:123-134 | Payload i names image i. Its coordinates are the flattened boxes of response i, one per face. |
| Publisher.SendToQueue | task01/services/face-detection/main.go:121-161 | The result passes if and only if no marshal or send fails. On failure the error is the first failing payload's, and that payload has faces. What was sent is always the non-empty payloads before the stopping point, in order; on success it is all of them. |
| Publisher.SendableConcat | task01/services/face-detection/main.go:136-140 | Skipping empty payloads keeps order across joined lists. |
| Publisher.SendableMembers | task01/services/face-detection/main.go:136-140 | A payload is published if and only if it is one of the payloads and has a face. |
| Publisher.EmptyPayloadsPublishNothing | task01/services/face-detection/main.go:137-140 | Payloads without faces never cause an error, and none is published. |
| Publisher.NonEmptyPayloadsAllSendable | task01/services/face-detection/main.go:136-158 | When every payload has a face, all are published, in order. |
| Resolver.Resolve | task01/services/face-detection/main.go:97-118 | The service is checked before the region. An unknown service is refused, naming the service. A known service in another region gives "unknown endpoint". Otherwise the endpoint has partition `yc`, signing region `ru-central1`, and the storage or queue URL for its service. |
| Handler.Handle | task01/services/face-detection/main.go:276-297 | Running the stages in order yields exactly the staged specification `Invoke`: a config error, or the first stage's error, or `"OK"`. |
| Handler.NoCreateEventsNoWork | task01/services/face-detection/main.go:222-228 | A trigger without object-created messages fetches, analyses and sends nothing, and returns `"OK"`. |
| Handler.FetchFailureStopsPipeline | task01/services/face-detection/main.go:237-244 | A failed fetch of image k ends the run with that fetch's error. Nothing after k is requested, nothing is analysed, and nothing is sent. |
| Handler.AllFetched | task01/services/face-detection/main.go:281-286 | When every fetch succeeds, the run hands one body per image to the vision stage. |
| Handler.VisionStatusStopsPublishing | task01/services/face-detection/main.go:194-196 | A non-200 status for image k ends the run with that status's error, after k+1 images were submitted and before anything is sent. |
| Handler.SuccessfulRunPayloads | task01/services/face-detection/main.go:276-297 | A successful run requested and analysed every image, returned `"OK"`, and sent exactly the non-empty payloads built from the responses. |
| Handler.SuccessfulRun | task01/services/face-detection/main.go:276-297 | In a successful run every image was analysed. A payload was sent if and only if it is the payload of an image with at least one face. |
| Handler.EveryImageWithFacesPublished | task01/services/face-detection/main.go:136-158 | In a successful run where every image has a face, one payload per image is sent, in image order. |

## Left out

- `initClients` (main.go:255-274) sets environment variables and builds the SDK clients. The model keeps only whether the configuration loads, as the `configLoads` flag, which fails with its own error.
- `customResolver` is modelled on its own. The SDK calls it from inside its clients, and the region is fixed to `ru-central1` by `initClients`, so `Handler` does not call `Resolve`.
- The request body, the bearer token, the base64 encoding and the whitespace stripping of `batchAnalyze` (main.go:171-188) are inside the `vision` oracle. The model keeps the outcomes the code distinguishes: request creation fails, transport fails, status, decode.
- JSON decoding of the trigger payload happens before `Handler` is called and is not part of this model. JSON marshalling of a queue payload is the `marshal` oracle.
- Logging, `context.Context`, and the deferred closing of response bodies (main.go:198-202) have no effect on results and are not modelled.
- The trigger's `created_at` and tracing fields are dropped, because no decision depends on them. Vertex coordinates stay strings.
- `fetch`, `vision` and `send` are indexed by the position of the image or payload in their stage's input, not by a count of calls made; for `send` that position counts the skipped payloads without faces too. A service that answers differently over time is modelled as a different oracle. `marshal` has no index.
- The message id of a successful SendMessage is only logged (main.go:157). `Sent(messageId)` always carries one, so a reply without an id, which would panic on the dereference, is not modelled: the queue API always returns one.
- The check at main.go:214-216 can never fire: the loop's `err` variables shadow the named result. It does not appear in the model.
- `Handler` returns `[]byte("OK")`. The model returns the string `"OK"`.
- `sendToQueue` indexes `visionOut[i]` without a bound check, so a shorter response list would panic. `Publisher.Aggregate`, `Publisher.CollectPayloads` and `Publisher.SendToQueue` require at least one response per image. `batchAnalyze` always returns one response per image, so `Handler` meets this.
- Error messages are modelled as distinct error values, one per `return` in the code. Each stage returns its own error without a stage label, as the code does.
