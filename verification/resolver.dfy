/** customResolver: the static table that maps an SDK service and region to an endpoint
    (main.go:22-25, 97-118). The service identifiers are those of the AWS SDK for Go v2
    S3 and SQS clients. */
module Resolver {
  import opened Wrappers
  import opened Types

  const S3_SERVICE_ID := "S3"
  const SQS_SERVICE_ID := "SQS"
  const REGION_ID := "ru-central1"
  const PARTITION_ID := "yc"
  const STORAGE_URL := "https://storage.yandexcloud.net"
  const QUEUE_URL := "https://message-queue.api.cloud.yandex.net"

  datatype Endpoint = Endpoint(partitionId: string, url: string, signingRegion: string)

  /** Only the object store and the queue, and only in the one region, resolve; an unknown
      service is reported before the region is looked at. */
  function Resolve(service: string, region: string): (r: Result<Endpoint, Error>)
    ensures r.Success? <==> (service == S3_SERVICE_ID || service == SQS_SERVICE_ID) && region == REGION_ID
    ensures service != S3_SERVICE_ID && service != SQS_SERVICE_ID ==> r == Failure(UnknownService(service))
    ensures (service == S3_SERVICE_ID || service == SQS_SERVICE_ID) && region != REGION_ID ==>
      r == Failure(UnknownEndpoint)
    ensures r.Success? ==> r.value.partitionId == PARTITION_ID && r.value.signingRegion == region
    ensures r.Success? ==>
      r.value.url == (if service == S3_SERVICE_ID then STORAGE_URL else QUEUE_URL)
  {
    var url :=
      if service == S3_SERVICE_ID then Some(STORAGE_URL)
      else if service == SQS_SERVICE_ID then Some(QUEUE_URL)
      else None;
    if url.None? then Failure(UnknownService(service))
    else if region == REGION_ID then Success(Endpoint(PARTITION_ID, url.value, REGION_ID))
    else Failure(UnknownEndpoint)
  }
}
