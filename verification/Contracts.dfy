/** The frozen value types of `contracts.py` that event clustering works on. */
module Contracts {
  import opened Common

  /** A UUID; `str(uuid)` is a fixed-width hexadecimal text, so its order is the order of the number. */
  type EventId = nat
  type RawItemId = nat

  /** Times are integer microseconds since the epoch, in UTC. */
  type Time = int

  datatype RawEnvelope = RawEnvelope(
    id: RawItemId,
    provider: string,
    sourceId: string,
    nativeId: Option<string>,
    eventTime: Option<Time>,
    publishedAt: Option<Time>,
    receivedAt: Time,
    processedAt: Time,
    title: string,
    language: string,
    category: string,
    contentHash: string,
    independenceGroup: Option<string>)

  datatype EventMention = EventMention(
    rawItemId: RawItemId,
    sourceId: string,
    independenceGroup: string,
    publishedAt: Option<Time>,
    receivedAt: Time)

  /** `sourceIndependence` is counted in quarters: 2 stands for 0.5 and 4 for 1.0. */
  datatype CanonicalEvent = CanonicalEvent(
    eventId: EventId,
    eventVersion: nat,
    versionCreatedAt: Time,
    canonicalTitle: string,
    eventType: string,
    eventTime: Option<Time>,
    firstReceivedAt: Time,
    lastUpdatedAt: Time,
    language: string,
    sourceIndependence: nat,
    mentions: seq<EventMention>)
}
