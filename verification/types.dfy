/** The values that flow through the face-detection function (main.go:27-91). */
module Types {
  import opened Wrappers

  /** An event type tag of the storage trigger. */
  datatype Event = Event(name: string) {
    /** Converting an event to its text loses nothing. */
    function String(): (s: string)
      ensures Event(s) == this
    {
      name
    }
  }

  /** The tag of the events this function acts on. */
  const CREATE_EVENT := Event("yandex.cloud.events.storage.ObjectCreate")

  /** The trigger payload; time stamps and tracing data are not modelled. */
  datatype EventMetadata = EventMetadata(eventId: string, eventType: string, cloudId: string, folderId: string)
  datatype Details = Details(bucketId: string, objectId: string)
  datatype TriggerMessage = TriggerMessage(eventMetadata: EventMetadata, details: Details)
  datatype ObjectTriggerPayload = ObjectTriggerPayload(messages: seq<TriggerMessage>)

  /** One image in the object store. */
  datatype FileData = FileData(bucketId: string, objectId: string)

  /** The vision response: results, each with results, each with a face-detection list of faces. */
  datatype Vertex = Vertex(x: string, y: string)
  type Vertices = seq<Vertex>
  datatype BoundingBox = BoundingBox(vertices: Vertices)
  datatype Face = Face(boundingBox: BoundingBox)
  datatype FaceDetection = FaceDetection(faces: seq<Face>)
  datatype FeatureResult = FeatureResult(faceDetection: FaceDetection)
  datatype ImageResult = ImageResult(results: seq<FeatureResult>)
  datatype VisionResponse = VisionResponse(results: seq<ImageResult>)

  /** The message published to the queue for one image. */
  datatype QueuePayload = QueuePayload(imageUrl: FileData, coordinates: seq<Vertices>)

  newtype Byte = x: int | 0 <= x < 256

  /** The body of a fetched object: reading it yields its bytes or fails. */
  datatype Reader = Readable(content: seq<Byte>) | Unreadable

  /** What the object store answers to one GetObject call. */
  datatype FetchOutcome = Fetched(body: Reader) | FetchError | NilBody

  /** What the vision endpoint yields for one request: the request could not be built,
      the transport failed, or a status code with the result of decoding the body. */
  datatype HttpOutcome =
    | RequestInvalid
    | TransportError
    | Responded(statusCode: int, decoded: Option<VisionResponse>)

  const STATUS_OK := 200

  /** What the queue answers to one SendMessage call. */
  datatype SendOutcome = Sent(messageId: string) | SendError

  /** Every error the function can return, one per `fmt.Errorf` site. */
  datatype Error =
    | ConfigLoadFailed
    | UnknownService(service: string)
    | UnknownEndpoint
    | FetchFailed(image: FileData)
    | NilBodyFor(image: FileData)
    | ReadFailed
    | RequestFailed
    | TransportFailed
    | UnexpectedStatus(statusCode: int)
    | DecodeFailed
    | MarshalFailed
    | SendFailed
}
