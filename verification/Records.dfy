/** Values shared by the trust modules. */
module Records {
  import opened Machine

  /** A 16-byte identifier (`maxsecu_encoding::types::Id`). */
  datatype Id = Id(raw: Bytes)
}
