/** The time-record value that the service caches and submits. */
module TimeRecords {

  /** A point in time. Zones and text layouts belong to the presentation layer and play
      no part in the cache, so a timestamp is an opaque number here. */
  type Timestamp = int

  /** One time entry: whose it is (the email, never validated by the service), when it
      started and when it ended. Immutable once built. */
  datatype TimeRecord = TimeRecord(email: string, start: Timestamp, end: Timestamp)

  /** Java's 32-bit `int`, the type of a page's offset and length. */
  type Int32 = x: int | -0x8000_0000 <= x < 0x8000_0000
}
