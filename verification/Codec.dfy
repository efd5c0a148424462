/**
 * Hashing and compression, for every hash that is injective and every compressor with a
 * left inverse. SHA-256 and gzip are one such pair as far as the repository relies on them.
 * A payload's text is identified with its UTF-8 bytes.
 */
module Codec {
  import opened Common

  type Bytes = seq<nat>
  type Digest = nat

  datatype Codec = Codec(sha: Bytes -> Digest, gzip: Bytes -> Bytes, gunzip: Bytes -> Option<Bytes>) {
    ghost predicate Sound() {
      && (forall a, b :: sha(a) == sha(b) ==> a == b)
      && (forall p :: gunzip(gzip(p)) == Some(p))
    }
  }
}
