/** The code resolver (`getCode`) and the contract summary (`getContract`).
    The explorer HTTP call is an abstract function from request to response;
    the recursion through proxy records carries a fuel bound (the number of
    explorer calls allowed), and running out of fuel stands for the source's
    unbounded recursion. */
module CodeResolver {
  import opened Common
  import opened Registry
  import opened SourceNormalizer

  /** The fields of one `result[0]` record that the resolver reads. */
  datatype RawRecord = RawRecord(
    abi: string,
    contractName: string,
    implementation: string,
    proxy: string,
    sourceCode: string)

  /** The explorer's `result` field: a text on failure, a record list on success. */
  datatype Payload = Text(text: string) | Records(records: seq<RawRecord>)

  /** What the explorer call yields: a thrown failure (timeout, transport error,
      malformed body) or a parsed reply `{status, message, result}`. */
  datatype Response = Throws | Reply(status: string, message: string, result: Payload)

  /** The query sent to `https://{scanDomain}/api` with `module=contract` and
      `action=getsourcecode`. */
  datatype Request = Request(scanDomain: string, address: string, apiKey: string)

  type Explorer = Request -> Response

  /** The collaborators the resolver cannot see: the explorer, the JSON decoder
      used by the normaliser, and the process environment. */
  datatype Services = Services(explorer: Explorer, decode: Decoder, env: Environment)

  /** `GetCodeData`. */
  datatype CodeData = CodeData(contractName: string, verified: bool, code: string)

  /** `GetContractData`. */
  datatype ContractData = ContractData(contractName: string, verified: bool, openSource: bool)

  const UnknownError: string := "unknown error"

  /** The ABI text an explorer returns for an address whose source is not verified. */
  const NotVerified: string := "Contract source code not verified"

  /** The request for `address` on `network`, built from the registry entry. */
  function RequestFor(s: Services, address: string, network: Network): Request
  {
    var entry := Config(network, s.env);
    Request(entry.scanDomain, address, entry.apiKey)
  }

  /** `Array.prototype.toString`: the elements joined by ",", nothing for an
      empty array. */
  function CommaJoin(parts: seq<string>): string
  {
    if |parts| == 0 then ""
    else if |parts| == 1 then parts[0]
    else parts[0] + "," + CommaJoin(parts[1..])
  }

  /** JavaScript's rendering of `${result}` inside a template: a text as
      itself, a list of records as one "[object Object]" per record, joined
      by commas. */
  function Render(p: Payload): string
  {
    match p
    case Text(t) => t
    case Records(rs) => CommaJoin(seq(|rs|, _ => "[object Object]"))
  }

  /** Appending a record appends "," and one more "[object Object]"; one
      record renders as a single "[object Object]", none as "". */
  lemma {:induction false} RenderRecords(rs: seq<RawRecord>, r: RawRecord)
    ensures Render(Records([])) == ""
    ensures Render(Records([r])) == "[object Object]"
    ensures |rs| > 0 ==> Render(Records(rs + [r])) == Render(Records(rs)) + ",[object Object]"
    ensures Render(Records([r, r])) == "[object Object],[object Object]"
  {
    assert seq(1, _ => "[object Object]") == ["[object Object]"];
    assert seq(2, _ => "[object Object]") == ["[object Object]", "[object Object]"];
    if |rs| > 0 {
      CommaJoinSnoc(seq(|rs|, _ => "[object Object]"), "[object Object]");
      assert seq(|rs| + 1, _ => "[object Object]") == seq(|rs|, _ => "[object Object]") + ["[object Object]"];
    }
  }

  lemma {:induction false} CommaJoinSnoc(parts: seq<string>, last: string)
    requires |parts| > 0
    ensures CommaJoin(parts + [last]) == CommaJoin(parts) + "," + last
    decreases |parts|
  {
    if |parts| == 1 {
      assert (parts + [last])[1..] == [last];
    } else {
      assert (parts + [last])[1..] == parts[1..] + [last];
      CommaJoinSnoc(parts[1..], last);
    }
  }

  /** The outcome of one explorer reply: a final result, or the implementation
      address to follow. */
  datatype Step = Final(result: Result<CodeData>) | Follow(implementation: string)

  /** One round of `getCode` without the recursive call. A success reply without
      a first record makes `result.Proxy` throw, which is caught. */
  function Interpret(response: Response, decode: Decoder): Step
  {
    match response
    case Throws => Final(Error(UnknownError))
    case Reply(status, message, result) =>
      if status == "0" then Final(Error("[" + message + "] " + Render(result)))
      else if !result.Records? || |result.records| == 0 then Final(Error(UnknownError))
      else
        var record := result.records[0];
        if record.proxy == "0" then
          Final(Data(CodeData(
            record.contractName,
            record.abi != NotVerified,
            ParseSourceCode(record.sourceCode, decode))))
        else Follow(record.implementation)
  }

  /** The step taken for `address` on `network`. */
  function StepAt(s: Services, address: string, network: Network): Step
  {
    Interpret(s.explorer(RequestFor(s, address, network)), s.decode)
  }

  /** `getCode(address, network)` with at most `fuel` explorer calls; None when
      the proxy chain is longer than that. */
  function GetCode(s: Services, address: string, network: Network, fuel: nat): Option<Result<CodeData>>
    decreases fuel
  {
    if fuel == 0 then None
    else
      match StepAt(s, address, network)
      case Final(r) => Some(r)
      case Follow(next) => GetCode(s, next, network, fuel - 1)
  }

  /** `fuel` consecutive addresses from `address` on are all proxies. */
  predicate ProxyChain(s: Services, address: string, network: Network, fuel: nat)
    decreases fuel
  {
    fuel == 0 ||
    (StepAt(s, address, network).Follow? &&
     ProxyChain(s, StepAt(s, address, network).implementation, network, fuel - 1))
  }

  // ---------------------------------------------------------------------------
  // One explorer reply

  /** A reply with status "0" is an error whose message is "[message] result",
      with the result rendered as a template renders it: a text verbatim. */
  lemma UpstreamErrorMessage(s: Services, address: string, network: Network, fuel: nat,
                             message: string, result: Payload)
    requires fuel > 0
    requires s.explorer(RequestFor(s, address, network)) == Reply("0", message, result)
    ensures GetCode(s, address, network, fuel) == Some(Error("[" + message + "] " + Render(result)))
    ensures result.Text? ==> GetCode(s, address, network, fuel) == Some(Error("[" + message + "] " + result.text))
  {
  }

  /** Every failure thrown inside the `try` becomes the opaque "unknown error":
      a thrown explorer call, and a success reply with no first record, whose
      `Proxy` is read off `undefined`. */
  lemma TransportErrorIsOpaque(s: Services, address: string, network: Network, fuel: nat)
    requires fuel > 0
    ensures s.explorer(RequestFor(s, address, network)) == Throws ==>
      GetCode(s, address, network, fuel) == Some(Error("unknown error"))
    ensures forall status, message ::
      status != "0" && s.explorer(RequestFor(s, address, network)) == Reply(status, message, Records([])) ==>
        GetCode(s, address, network, fuel) == Some(Error("unknown error"))
  {
  }

  /** A non-proxy record ends the lookup with its name, the verification flag
      read off the ABI sentinel, and the normalised source. */
  lemma TerminalRecord(s: Services, address: string, network: Network, fuel: nat,
                       status: string, message: string, records: seq<RawRecord>)
    requires fuel > 0 && status != "0" && |records| > 0 && records[0].proxy == "0"
    requires s.explorer(RequestFor(s, address, network)) == Reply(status, message, Records(records))
    ensures GetCode(s, address, network, fuel) == Some(Data(CodeData(
      records[0].contractName,
      records[0].abi != "Contract source code not verified",
      ParseSourceCode(records[0].sourceCode, s.decode))))
  {
  }

  /** Proxy transparency: looking up a proxy is looking up its implementation
      on the same network, one explorer call later. */
  lemma ProxyTransparency(s: Services, address: string, network: Network, fuel: nat,
                          status: string, message: string, records: seq<RawRecord>)
    requires status != "0" && |records| > 0 && records[0].proxy != "0"
    requires s.explorer(RequestFor(s, address, network)) == Reply(status, message, Records(records))
    ensures GetCode(s, address, network, fuel + 1) == GetCode(s, records[0].implementation, network, fuel)
  {
  }

  // ---------------------------------------------------------------------------
  // The proxy chain

  /** More fuel never changes an answer already reached. */
  lemma {:induction false} FuelMonotone(s: Services, address: string, network: Network, fuel: nat, more: nat)
    requires GetCode(s, address, network, fuel).Some?
    requires fuel <= more
    ensures GetCode(s, address, network, more) == GetCode(s, address, network, fuel)
    decreases fuel
  {
    match StepAt(s, address, network)
    case Final(r) =>
    case Follow(next) =>
      FuelMonotone(s, next, network, fuel - 1, more - 1);
  }

  /** The lookup is unresolved exactly when every one of the `fuel` addresses
      it visits is a proxy. */
  lemma {:induction false} UnresolvedIffProxyChain(s: Services, address: string, network: Network, fuel: nat)
    ensures GetCode(s, address, network, fuel).None? <==> ProxyChain(s, address, network, fuel)
    decreases fuel
  {
    if fuel > 0 {
      match StepAt(s, address, network)
      case Final(r) =>
      case Follow(next) =>
        UnresolvedIffProxyChain(s, next, network, fuel - 1);
    }
  }

  /** Once the chain from `address` reaches a non-proxy record within `hops`
      explorer calls, every larger fuel gives the same, final answer. */
  lemma ResolvesWithinChain(s: Services, address: string, network: Network, hops: nat, fuel: nat)
    requires !ProxyChain(s, address, network, hops)
    requires hops <= fuel
    ensures GetCode(s, address, network, fuel).Some?
    ensures GetCode(s, address, network, fuel) == GetCode(s, address, network, hops)
  {
    UnresolvedIffProxyChain(s, address, network, hops);
    FuelMonotone(s, address, network, hops, fuel);
  }

  /** A proxy whose implementation is itself never resolves, whatever the fuel:
      the source recurses without end on it. */
  lemma {:induction false} SelfProxyNeverResolves(s: Services, address: string, network: Network, fuel: nat)
    requires StepAt(s, address, network) == Follow(address)
    ensures GetCode(s, address, network, fuel).None?
    decreases fuel
  {
    if fuel > 0 {
      SelfProxyNeverResolves(s, address, network, fuel - 1);
    }
  }

  /** Every request goes to the registered host with the registered key of the
      one network asked about: two explorers that answer those requests alike
      give the same result, through any chain of proxies. */
  lemma {:induction false} OnlyRegisteredExplorerAsked(s: Services, s': Services, address: string,
                                                       network: Network, fuel: nat)
    requires s.decode == s'.decode
    requires Config(network, s.env) == Config(network, s'.env)
    requires forall a :: s.explorer(RequestFor(s, a, network)) == s'.explorer(RequestFor(s, a, network))
    ensures GetCode(s, address, network, fuel) == GetCode(s', address, network, fuel)
    decreases fuel
  {
    if fuel > 0 {
      assert RequestFor(s, address, network) == RequestFor(s', address, network);
      match StepAt(s, address, network)
      case Final(r) =>
      case Follow(next) =>
        OnlyRegisteredExplorerAsked(s, s', next, network, fuel - 1);
    }
  }

  // ---------------------------------------------------------------------------
  // getContract

  /** The reshaping `getContract` applies to a `getCode` result. */
  function Summarize(code: Result<CodeData>): Result<ContractData>
  {
    match code
    case Error(message) => Error(message)
    case Data(d) => Data(ContractData(d.contractName, d.verified, d.code != ""))
  }

  /** `getContract(address, network)`, unresolved exactly when `getCode` is. */
  function GetContract(s: Services, address: string, network: Network, fuel: nat): Option<Result<ContractData>>
  {
    match GetCode(s, address, network, fuel)
    case None => None
    case Some(code) => Some(Summarize(code))
  }

  /** Errors pass through with the identical message; on success the name and
      the verification flag are copied and OpenSource says whether any source
      text was recovered. */
  lemma GetContractReshapes(s: Services, address: string, network: Network, fuel: nat)
    ensures GetContract(s, address, network, fuel).None? <==> GetCode(s, address, network, fuel).None?
    ensures GetCode(s, address, network, fuel).Some? && GetCode(s, address, network, fuel).value.Error? ==>
      GetContract(s, address, network, fuel) == Some(Error(GetCode(s, address, network, fuel).value.message))
    ensures GetCode(s, address, network, fuel).Some? && GetCode(s, address, network, fuel).value.Data? ==>
      var d := GetCode(s, address, network, fuel).value.data;
      GetContract(s, address, network, fuel) == Some(Data(ContractData(d.contractName, d.verified, d.code != "")))
  {
  }

  /** OpenSource does not depend on Verified: an unverified record with source
      text is still open source, and a verified one without text is not. */
  lemma OpenSourceIgnoresVerified(name: string, verified: bool, verified': bool, code: string)
    ensures Summarize(Data(CodeData(name, verified, code))).data.openSource
         == Summarize(Data(CodeData(name, verified', code))).data.openSource
    ensures Summarize(Data(CodeData(name, verified, code))).data.openSource <==> code != ""
  {
  }

  /** A proxy's summary is its implementation's summary. */
  lemma ContractProxyTransparency(s: Services, address: string, network: Network, fuel: nat,
                                  status: string, message: string, records: seq<RawRecord>)
    requires status != "0" && |records| > 0 && records[0].proxy != "0"
    requires s.explorer(RequestFor(s, address, network)) == Reply(status, message, Records(records))
    ensures GetContract(s, address, network, fuel + 1) == GetContract(s, records[0].implementation, network, fuel)
  {
    ProxyTransparency(s, address, network, fuel, status, message, records);
  }
}
