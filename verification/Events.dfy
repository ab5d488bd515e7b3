/** The typed values of storage_consumer/core/events.py, and the rows they become. */
module Events {
  import opened Wrappers

  type Byte = x: int | 0 <= x < 256

  /** Times are integers: microseconds since an epoch. */
  type Time = int

  /** One pipeline per topic; each writes one table. */
  datatype Kind = AppStatsKind | ReviewKind | NetworkMetricKind

  datatype Event =
    | AppStats(
        packageName: string, crawledAt: Time, minInstalls: Option<int>, rating: Option<real>,
        ratings: Option<int>, reviewsCount: Option<int>, version: Option<string>,
        adSupported: Option<bool>, appUpdatedAt: Option<Time>)
    | Review(
        packageName: string, reviewId: string, at: Time, crawledAt: Time,
        userName: Option<string>, thumbsUpCount: int, stars: Option<int>, content: Option<string>)
    | NetworkMetric(
        analysisId: string, packageName: string, scenario: string, analyzedAt: Time,
        bytesTransferredTotal: int, bytesPayloadTotal: int, overheadRatio: real,
        rttHandshake: Option<real>, retransmissionCount: int, outOfOrderCount: int,
        spuriousRetransmissionCount: int, zeroWindowCount: int, tcpResetCount: int,
        sourcePcapFilename: Option<string>)
  {
    function Kind(): Kind {
      match this
      case AppStats(_, _, _, _, _, _, _, _, _) => AppStatsKind
      case Review(_, _, _, _, _, _, _, _) => ReviewKind
      case NetworkMetric(_, _, _, _, _, _, _, _, _, _, _, _, _, _) => NetworkMetricKind
    }

    function ConflictKey(): ConflictKey {
      match Kind()
      case AppStatsKind => AppStatsKey(packageName, crawledAt)
      case ReviewKind => ReviewKey(reviewId)
      case NetworkMetricKind => AnalysisKey(analysisId)
    }

    function ObservedAt(): Time {
      if Kind() == NetworkMetricKind then analyzedAt else crawledAt
    }
  }

  /** What `dedupe_by_key` collapses on. */
  datatype ConflictKey =
    | AppStatsKey(packageName: string, crawledAt: Time)
    | ReviewKey(reviewId: string)
    | AnalysisKey(analysisId: string)

  /** What the UNIQUE constraint of the target table compares; one UUID is taken to have one spelling. */
  datatype RowKey =
    | AppStatsRow(applicationId: int, crawledAt: Time)
    | ReviewRow(reviewId: string)
    | AnalysisRow(analysisId: string)

  /** A Kafka record, with its body undecoded. */
  datatype Record = Record(topic: string, partition: nat, offset: nat, key: Option<string>, value: Option<seq<Byte>>)

  datatype Coordinates = Coordinates(topic: string, partition: nat, offset: nat)

  datatype DecodedRecord = DecodedRecord(source: Record, event: Event)

  datatype BoundRecord = BoundRecord(source: Record, event: Event, applicationId: int) {
    function RowKey(): RowKey {
      match event.Kind()
      case AppStatsKind => AppStatsRow(applicationId, event.crawledAt)
      case ReviewKind => ReviewRow(event.reviewId)
      case NetworkMetricKind => AnalysisRow(event.analysisId)
    }

    /** `_row`: the columns the INSERT supplies. */
    function Columns(): Columns {
      match event
      case AppStats(_, crawledAt, minInstalls, rating, ratings, reviewsCount, version, adSupported, appUpdatedAt) =>
        AppStatsColumns(applicationId, minInstalls, rating, ratings, reviewsCount, version, adSupported,
                        appUpdatedAt, crawledAt)
      case Review(_, reviewId, at, crawledAt, userName, thumbsUpCount, stars, content) =>
        ReviewColumns(applicationId, reviewId, userName, thumbsUpCount, stars, content, at, crawledAt)
      case NetworkMetric(analysisId, _, scenario, analyzedAt, transferred, payload, overhead, rtt, retrans, ooo,
                         spurious, zero, reset, filename) =>
        MetricColumns(applicationId, analysisId, scenario, rtt, retrans, ooo, spurious, zero, reset,
                      transferred, payload, overhead, filename, analyzedAt)
    }
  }

  datatype RejectedRecord = RejectedRecord(source: Record, reason: string)

  datatype Columns =
    | AppStatsColumns(
        applicationId: int, minInstalls: Option<int>, rating: Option<real>, ratings: Option<int>,
        reviewsCount: Option<int>, version: Option<string>, adSupported: Option<bool>,
        appUpdatedAt: Option<Time>, crawledAt: Time)
    | ReviewColumns(
        applicationId: int, reviewId: string, userName: Option<string>, thumbsUpCount: int,
        stars: Option<int>, content: Option<string>, at: Time, lastSyncedAt: Time)
    | MetricColumns(
        applicationId: int, analysisId: string, scenario: string, rttHandshake: Option<real>,
        retransmissionCount: int, outOfOrderCount: int, spuriousRetransmissionCount: int,
        zeroWindowCount: int, tcpResetCount: int, bytesTransferredTotal: int,
        bytesPayloadTotal: int, overheadRatio: real, sourcePcapFilename: Option<string>, analyzedAt: Time)
  {
    /** The time column that came from the event's `observed_at`. */
    function ObservedAt(): Time {
      match this
      case AppStatsColumns(_, _, _, _, _, _, _, _, crawledAt) => crawledAt
      case ReviewColumns(_, _, _, _, _, _, _, lastSyncedAt) => lastSyncedAt
      case MetricColumns(_, _, _, _, _, _, _, _, _, _, _, _, _, analyzedAt) => analyzedAt
    }

    /** The event a stored row came from, given the name its `applicationId` stands for. */
    function Event(name: string): Event {
      if AppStatsColumns? then
        AppStats(packageName := name, crawledAt := crawledAt, minInstalls := minInstalls, rating := rating,
                 ratings := ratings, reviewsCount := reviewsCount, version := version,
                 adSupported := adSupported, appUpdatedAt := appUpdatedAt)
      else if ReviewColumns? then
        Review(packageName := name, reviewId := reviewId, at := at, crawledAt := lastSyncedAt,
               userName := userName, thumbsUpCount := thumbsUpCount, stars := stars, content := content)
      else
        NetworkMetric(
          analysisId := analysisId, packageName := name, scenario := scenario, analyzedAt := analyzedAt,
          bytesTransferredTotal := bytesTransferredTotal, bytesPayloadTotal := bytesPayloadTotal,
          overheadRatio := overheadRatio, rttHandshake := rttHandshake,
          retransmissionCount := retransmissionCount, outOfOrderCount := outOfOrderCount,
          spuriousRetransmissionCount := spuriousRetransmissionCount, zeroWindowCount := zeroWindowCount,
          tcpResetCount := tcpResetCount, sourcePcapFilename := sourcePcapFilename)
    }
  }

  /** Nothing an event says is lost or misplaced in its row: only the name became an id. */
  lemma RowLosesNothing(r: BoundRecord)
    ensures r.Columns().applicationId == r.applicationId
    ensures r.Columns().Event(r.event.packageName) == r.event
  {
  }

  lemma ColumnsKeepObservedAt(r: BoundRecord)
    ensures r.Columns().ObservedAt() == r.event.ObservedAt()
  {
  }
}
