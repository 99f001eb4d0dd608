/** Identity fingerprints of a device. */
module Fingerprints {
  datatype Fingerprint = Fingerprint(kind: string, value: string)
}
