/** Types shared by the server helpers and the page: the network enumeration,
    the discriminated result union and a few string helpers. */
module Common {

  datatype Option<+T> = None | Some(value: T)

  /** `Result<T>`: exactly one of `{data}` or `{error: {message}}` is present.
      As a datatype, "never both, never neither" holds by construction. */
  datatype Result<+T> = Data(data: T) | Error(message: string)

  /** The closed set of networks the service knows about. */
  datatype Network =
    | Arbitrum
    | Aurora
    | Avalanche
    | Bsc
    | Celo
    | Ethereum
    | Fantom
    | Gnosis
    | Hsc
    | Moonbeam
    | Moonriver
    | Optimism
    | Polygon

  /** JavaScript's `s.startsWith(prefix)`. */
  predicate StartsWith(s: string, prefix: string)
  {
    |prefix| <= |s| && s[..|prefix|] == prefix
  }
}
