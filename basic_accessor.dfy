/** The operations of an `SSZBasicAccessor` (a fixed-width scalar codec),
    as a record of functions so that one accessor can wrap another. */
module BasicAccessors {
  import opened SszBase
  import opened Descriptors

  /** `V` is the type of values encoded, `D` of values decoded, `R` the
      reader decoding draws from. `encoding` gives the bytes `encode` writes
      to its stream for a value and descriptor. */
  datatype BasicAccessor<!V, D, !R> = BasicAccessor(
    supportedSszTypes: set<string>,
    supportedClasses: set<ClassName>,
    getSize: SszField -> int,
    encoding: (V, SszField) -> seq<byte>,
    decode: (SszField, R) -> Result<D, SszError>)
}
