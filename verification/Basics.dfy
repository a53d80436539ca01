/** Types shared by every part of the model. */
module Basics {

  /** A value that may be absent: Go's nil address, or a failed lookup. */
  datatype Option<+T> = None | Some(value: T)

  /** Outcome of an operation that reports one of the source's errors. */
  datatype Result<+T, +E> = Ok(value: T) | Err(error: E)

  type byte = x: int | 0 <= x < 0x100
  type uint16 = x: int | 0 <= x < 0x1_0000
  type uint32 = x: int | 0 <= x < 0x1_0000_0000

  /** The printed form of a network address, which is what the Go code compares and uses as a key. */
  type Address = string

  /** Voice-plane errors (backend/internal/audio/protocol.go), and any error of the packet writer itself. */
  datatype AudioError =
    | PacketTooShort
    | InvalidMagic
    | InvalidVersion
    | InvalidType
    | PayloadLengthMismatch
    | PayloadTooLarge
    | SessionNotFound
    | UnauthorizedSession
    | UserServerMuted
    | ChannelMismatch
    | WriteFailed

  ghost predicate Distinct<T>(xs: seq<T>) {
    forall i, j :: 0 <= i < j < |xs| ==> xs[i] != xs[j]
  }

  /** The list holds each element of the set once, in some order. */
  ghost predicate Enumerates<T>(xs: seq<T>, elements: set<T>) {
    (forall x :: x in xs ==> x in elements) && (forall x :: x in elements ==> x in xs) && Distinct(xs)
  }

  /** Two maps that agree everywhere but at k. */
  lemma OneEntryDiffers<K, V>(before: map<K, V>, after: map<K, V>, k: K)
    requires after.Keys == before.Keys + {k} && forall j :: j in before && j != k ==> after[j] == before[j]
    ensures after == before[k := after[k]]
  {
  }

  lemma UpdateTwice<K, V>(m: map<K, V>, k: K, v: V, w: V)
    ensures m[k := v][k := w] == m[k := w]
  {
  }
}
