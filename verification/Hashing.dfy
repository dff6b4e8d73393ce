/** SHA-256 of a text, as a free constructor: equal digests mean equal texts. */
module Hashing {
  datatype Digest = Sha256(text: string)

  /** The printed digest. Nothing depends on its characters, only on different digests printing
      differently. */
  function Hex(d: Digest): string {
    d.text
  }
}
