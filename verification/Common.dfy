/** Types shared by every component: optional values, clock readings and IPv4 addresses. */
module Common {

  datatype Option<+T> = None | Some(value: T)

  /** A clock reading in nanoseconds. Zero stands for Go's zero time. */
  type Time = int

  const SECOND: int := 1_000_000_000
  const MINUTE: int := 60 * SECOND
  const HOUR: int := 60 * MINUTE
  const DAY: int := 24 * HOUR

  /** An IPv4 address, as the unsigned integer it encodes. */
  type IPv4 = i: int | 0 <= i < 0x1_0000_0000

  /** A Go string used as a client identity: valid UTF-8 text, or bytes that are not. */
  datatype ClientId = Utf8(text: string) | NotUtf8(raw: seq<int>)

  predicate ValidClientId(client: ClientId) {
    client.Utf8? && client.text != ""
  }

  /** Dropping elements from a finite set cannot make it larger. */
  lemma SubsetSize<T>(a: set<T>, b: set<T>)
    requires a <= b
    ensures |a| <= |b|
    ensures a != b ==> |a| < |b|
  {
    assert b == a + (b - a);
  }
}
