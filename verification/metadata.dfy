/**
 The host application's metadata records that the actions fill in
 (`VolumeMetadata`, `IssueMetadata`, `IssueDetailsMetadata`). A setter the
 code never calls leaves its field at `null`, which is `None` here.
 */
module Metadata {

  import opened Common

  /** A `java.util.Date`, identified by its instant. */
  datatype Date = Date(epochMillis: int)

  /** `MarvelMetadataAdaptor.PUBLISHER_NAME`. */
  const PublisherName: string := "Marvel"

  datatype VolumeMetadata = VolumeMetadata(
    id: string,
    name: string,
    startYear: string,
    publisher: string,
    issueCount: Int32,
    imageUrl: string)

  datatype IssueMetadata = IssueMetadata(
    id: string,
    volumeId: string,
    name: string,
    volumeName: string,
    description: string,
    coverDate: Option<Date>,
    storeDate: Option<Date>,
    coverUrl: string)

  datatype IssueDetailsMetadata = IssueDetailsMetadata(
    sourceId: string,
    publisher: string,
    series: string,
    volume: string,
    issueNumber: string,
    title: Option<string>,
    coverDate: Option<Date>,
    storeDate: Option<Date>,
    description: Option<string>,
    webAddress: Option<string>)
}
