/** Secrets are kept by their hash. SHA-256 is a free constructor, so distinct secrets have distinct hashes. */
module Digests {
  type Secret = string

  datatype Digest = Sha256(of: Secret)
}
