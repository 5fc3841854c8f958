/** The network registry: a fixed table from each network to the host of its
    block explorer and the API key read from the process environment. */
module Registry {
  import opened Common

  datatype NetworkEntry = NetworkEntry(scanDomain: string, apiKey: string)

  /** The process environment, from variable name to value. */
  type Environment = map<string, string>

  /** Host (and, for Gnosis, path) of each network's explorer API. */
  function ScanDomain(n: Network): string
  {
    match n
    case Ethereum => "api.etherscan.io"
    case Bsc => "api.bscscan.com"
    case Avalanche => "api.snowtrace.io"
    case Fantom => "api.ftmscan.com"
    case Arbitrum => "api.arbiscan.io"
    case Polygon => "api.polygonscan.com"
    case Aurora => "api.aurorascan.dev"
    case Optimism => "api-optimistic.etherscan.io"
    case Celo => "api.celoscan.xyz"
    case Gnosis => "blockscout.com/xdai/mainnet"
    case Hsc => "api.hooscan.com"
    case Moonriver => "api-moonriver.moonscan.io"
    case Moonbeam => "api-moonbeam.moonscan.io"
  }

  /** The environment variable holding each network's API key; Gnosis needs none.
      The Moonriver name keeps the source's spelling. */
  function ApiKeyVariable(n: Network): Option<string>
  {
    match n
    case Ethereum => Some("ETHERSCAN_API_KEY")
    case Bsc => Some("BSCSCAN_API_KEY")
    case Avalanche => Some("SNOWTRACE_API_KEY")
    case Fantom => Some("FTMSCAN_API_KEY")
    case Arbitrum => Some("ARBISCAN_API_KEY")
    case Polygon => Some("POLYGONSCAN_API_KEY")
    case Aurora => Some("AURORASCAN_API_KEY")
    case Optimism => Some("OPTIMISTIC_ETHERSCAN_API_KEY")
    case Celo => Some("CELOSCAN_API_KEY")
    case Gnosis => None
    case Hsc => Some("HOOSCAN_API_KEY")
    case Moonriver => Some("MOONRIVIER_MOONSCAN_API_KEY")
    case Moonbeam => Some("MOONBEAM_MOONSCAN_API_KEY")
  }

  /** The value of an environment variable, with "" for an unset one (an
      empty value also gives ""). */
  function EnvOrEmpty(env: Environment, name: string): string
  {
    if name in env then env[name] else ""
  }

  /** `config[n]`: total over the enumeration. */
  function Config(n: Network, env: Environment): NetworkEntry
  {
    NetworkEntry(
      ScanDomain(n),
      match ApiKeyVariable(n)
      case None => ""
      case Some(name) => EnvOrEmpty(env, name))
  }

  /** Every network is served by its own explorer: no two share a host, in any
      environments. */
  lemma ScanDomainsDistinct(n: Network, m: Network, env: Environment, env': Environment)
    ensures n != m ==> Config(n, env).scanDomain != Config(m, env').scanDomain
  {
  }

  /** The key is the value of the network's own variable when it is set, and ""
      when it is unset; a non-empty key always comes from that variable, and
      Gnosis never gets one. */
  lemma ApiKeyFromOwnVariable(n: Network, env: Environment)
    ensures n == Gnosis ==> Config(n, env).apiKey == ""
    ensures Config(n, env).apiKey != "" ==>
      ApiKeyVariable(n).Some? && ApiKeyVariable(n).value in env &&
      env[ApiKeyVariable(n).value] == Config(n, env).apiKey
    ensures ApiKeyVariable(n).Some? && ApiKeyVariable(n).value !in env ==> Config(n, env).apiKey == ""
    ensures ApiKeyVariable(n).Some? && ApiKeyVariable(n).value in env ==>
      Config(n, env).apiKey == env[ApiKeyVariable(n).value]
  {
  }

  /** Two environments that agree on a network's variable give it the same entry. */
  lemma ConfigReadsOnlyOwnVariable(n: Network, env: Environment, env': Environment)
    requires ApiKeyVariable(n).Some? ==>
      EnvOrEmpty(env, ApiKeyVariable(n).value) == EnvOrEmpty(env', ApiKeyVariable(n).value)
    ensures Config(n, env) == Config(n, env')
  {
  }
}
