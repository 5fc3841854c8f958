# MetaShield contract inspection — a Dafny model

MetaShield takes a contract address and a blockchain network. It asks that
network's block explorer for the contract's published source. It follows proxy
contracts to their implementation. It flattens a multi-file source bundle into
one document. Then it reports whether the contract is verified and open source.

This project models that core as pure Dafny functions and proves what it promises:

- `common.dfy`, module `Common`: the thirteen-value `Network` enumeration and the
  `Result<T>` union (exactly one of data or error, by construction).
- `registry.dfy`, module `Registry`: the `config` table from network to explorer
  host and API key. The key is read from a process environment given as a map.
- `source_normalizer.dfy`, module `SourceNormalizer`: `parseSourceCode` and
  `filterOutSolidityFileHeader`. This includes JavaScript's `substring`,
  `split('\n')` and `join('\n')`, written out.
- `code_resolver.dfy`, module `CodeResolver`: `getCode` over an abstract explorer
  (a function from request to response), and `getContract`. The recursion through
  proxies carries a fuel bound, the number of explorer calls allowed. `None` means
  the chain was not resolved within that bound. It stands for the source's
  unbounded recursion.
- `home.dfy`, module `Home`: the page's pure logic. This covers `validateAddress`,
  the `trim().toLowerCase()` normalisation of typed input, the `isValidInput`
  gate, and the branch order of `Answer`, which returns a `View` value instead of
  markup.

## Model

| member | source | states |
|---|---|---|
| `Registry.Config` | pages/api/utils.ts:30-83 | `config[n]`: the network's explorer host and its key variable's value, "" when unset and always "" for Gnosis; its contract is carried by the three lemmas below |
| `Registry.ScanDomainsDistinct` | pages/api/utils.ts:30-83 | no two networks share an explorer host, whatever the environments |
| `Registry.ApiKeyFromOwnVariable` | pages/api/utils.ts:30-83 | a set key variable's value is the key; an unset variable gives ""; a non-empty key is the value of that network's own variable; Gnosis's key is always "" |
| `Registry.ConfigReadsOnlyOwnVariable` | pages/api/utils.ts:30-83 | environments that agree on a network's variable give it the same entry |
| `SourceNormalizer.JsSubstring` | pages/api/utils.ts:157 | `substring` with both bounds clamped to the text and swapped when out of order; see `InnerStripsDelimiters` |
| `SourceNormalizer.Inner` | pages/api/utils.ts:157 | `sourceCode.substring(1, sourceCode.length - 1)`; see `InnerStripsDelimiters` |
| `SourceNormalizer.InnerStripsDelimiters` | pages/api/utils.ts:157 | `substring(1, length - 1)` drops one character at each end; a one-character text is kept whole and "" stays "" |
| `SourceNormalizer.Split` | pages/api/utils.ts:175 | `split('\n')` gives at least one piece, and no piece holds a newline |
| `SourceNormalizer.Join` | pages/api/utils.ts:179 | `join('\n')`, the inverse of `Split` by `JoinSplit` and `SplitJoin` |
| `SourceNormalizer.JoinSplit` | pages/api/utils.ts:175-179 | joining the split pieces with "\n" gives back the text |
| `SourceNormalizer.SplitJoin` | pages/api/utils.ts:175-179 | splitting a join of newline-free lines gives back the lines |
| `SourceNormalizer.KeepLines` | pages/api/utils.ts:176-178 | the `filter` over lines; its contract is carried by `KeepLinesSpec`, `KeepLinesAppend` and `KeepLinesIdempotent` |
| `SourceNormalizer.KeepLinesSpec` | pages/api/utils.ts:176-178 | a line is kept exactly when it is in the input and starts with neither "pragma solidity" nor "import"; nothing is dropped when no line has such a prefix |
| `SourceNormalizer.KeepLinesAppend` | pages/api/utils.ts:176-178 | filtering two blocks of lines one after the other is filtering their concatenation, so kept lines stay in their original order |
| `SourceNormalizer.KeepLinesIdempotent` | pages/api/utils.ts:176-178 | the line filter applied twice equals the filter applied once |
| `SourceNormalizer.FilterOutSolidityFileHeader` | pages/api/utils.ts:174-180 | split, filter, join; its contract is carried by `FilterOutputLines`, `FilterIdentity`, `FilterIdempotent` and `HeaderLineDropped` |
| `SourceNormalizer.FilterOutputLines` | pages/api/utils.ts:174-180 | the output's lines are exactly the input's non-header lines in order; the output is "" when every line is a header line |
| `SourceNormalizer.FilterIdentity` | pages/api/utils.ts:174-180 | a text with no pragma or import line passes unchanged |
| `SourceNormalizer.FilterIdempotent` | pages/api/utils.ts:174-180 | filtering twice equals filtering once |
| `SourceNormalizer.HeaderLineDropped` | pages/api/utils.ts:174-180 | a header line followed by a body line filters to the body line |
| `SourceNormalizer.Flatten` | pages/api/utils.ts:159-167 | the `reduce` from "", appending "\n" and each entry's piece from the left; equal to `Bundle` by `FlattenIsBundle` |
| `SourceNormalizer.FlattenIsBundle` | pages/api/utils.ts:159-167 | the reduce fold gives "\n" + the first file verbatim, then "\n" + the filtered content of each later file, in entry order |
| `SourceNormalizer.ParseSourceCode` | pages/api/utils.ts:155-172 | decode the inner text and flatten its `sources`, or keep the input; see `ParseFallsBack` and `ParseFlattensBundle` |
| `SourceNormalizer.ParseFallsBack` | pages/api/utils.ts:155-171 | a text whose inner part does not decode to a `sources` bundle is returned unchanged |
| `SourceNormalizer.ParseFlattensBundle` | pages/api/utils.ts:155-167 | a decoded bundle gives the flattened document: "" for no files, otherwise a text that starts with "\n" and the first file verbatim |
| `SourceNormalizer.TwoFileBundle` | pages/api/utils.ts:159-166 | with two files, the first is kept whole, pragma included, and the second loses its leading import or pragma line |
| `CodeResolver.CommaJoin` | pages/api/utils.ts:105 | `Array.prototype.toString`: elements joined by ","; see `RenderRecords` |
| `CodeResolver.Render` | pages/api/utils.ts:105 | `${data.result}` in the error template; see `RenderRecords` and `UpstreamErrorMessage` |
| `CodeResolver.Interpret` | pages/api/utils.ts:102-131 | one explorer reply: error, terminal record or proxy hop; see `UpstreamErrorMessage`, `TransportErrorIsOpaque`, `TerminalRecord` and `ProxyTransparency` |
| `CodeResolver.GetCode` | pages/api/utils.ts:85-132 | `getCode` with a fuel bound; see `FuelMonotone`, `UnresolvedIffProxyChain`, `ResolvesWithinChain`, `SelfProxyNeverResolves` and `OnlyRegisteredExplorerAsked` |
| `CodeResolver.UpstreamErrorMessage` | pages/api/utils.ts:102-108 | a reply with status "0" gives an error whose message is exactly "[" + message + "] " + the rendered result, which is the text itself for a text result |
| `CodeResolver.RenderRecords` | pages/api/utils.ts:105 | a record list renders as in a template: "" for none, "[object Object]" for one, "[object Object],[object Object]" for two, and each further record adds ",[object Object]" |
| `CodeResolver.TransportErrorIsOpaque` | pages/api/utils.ts:89-131 | a thrown explorer call, and a success reply with an empty record list (reading `Proxy` of undefined throws), each give exactly the error "unknown error" |
| `CodeResolver.TerminalRecord` | pages/api/utils.ts:109-120 | a non-proxy first record gives data with its ContractName, Verified iff the ABI is not "Contract source code not verified", and the normalised source |
| `CodeResolver.ProxyTransparency` | pages/api/utils.ts:122-123 | looking up a proxy equals looking up its Implementation on the same network |
| `CodeResolver.FuelMonotone` | pages/api/utils.ts:85-132 | once resolved, more fuel gives the same result, so the fuel bound does not change any answer |
| `CodeResolver.UnresolvedIffProxyChain` | pages/api/utils.ts:109-123 | the lookup stays unresolved exactly when every address it visits within the bound is a proxy |
| `CodeResolver.ResolvesWithinChain` | pages/api/utils.ts:109-123 | when the Implementation chain reaches a non-proxy record within the bound, the lookup resolves, and its result does not change with more fuel |
| `CodeResolver.SelfProxyNeverResolves` | pages/api/utils.ts:122-123 | a proxy whose Implementation is itself never resolves, for any bound |
| `CodeResolver.OnlyRegisteredExplorerAsked` | pages/api/utils.ts:89-123 | every request, along the whole proxy chain, goes to the asked network's registered host with its registered key |
| `CodeResolver.Summarize` | pages/api/utils.ts:139-152 | the reshaping of a `getCode` result; see `GetContractReshapes` and `OpenSourceIgnoresVerified` |
| `CodeResolver.GetContract` | pages/api/utils.ts:134-153 | `getContract`, unresolved exactly when `getCode` is; see `GetContractReshapes` and `ContractProxyTransparency` |
| `CodeResolver.GetContractReshapes` | pages/api/utils.ts:134-153 | an error passes through with the identical message; data keeps ContractName and Verified, and OpenSource is Code != "" |
| `CodeResolver.OpenSourceIgnoresVerified` | pages/api/utils.ts:150 | OpenSource is Code != "" whatever Verified is |
| `CodeResolver.ContractProxyTransparency` | pages/api/utils.ts:138-153 | a proxy's summary equals its implementation's summary |
| `Home.ValidateAddress` | pages/index.tsx:54-56 | `/^0x[0-9a-fA-F]{40}$/.test`; see `ValidateAddressMeaning`, `ValidateAddressRejects` and `ValidateAddressIgnoresLetterCase` |
| `Home.ValidateAddressMeaning` | pages/index.tsx:54-56 | valid iff 42 characters, a lower-case "0x" prefix, and forty hex digits of either case |
| `Home.ValidateAddressRejects` | pages/index.tsx:55 | an upper-case "0X" prefix, lengths 41 and 43, and white space at either end are rejected |
| `Home.ValidateAddressIgnoresLetterCase` | pages/index.tsx:55 | replacing any digit with a hex digit of either case keeps an address valid: there is no checksum check |
| `Home.TrimStart` | pages/index.tsx:159 | the result is the longest suffix that does not start with ECMAScript white space; everything dropped is white space |
| `Home.TrimEnd` | pages/index.tsx:159 | the result is the longest prefix that does not end with white space; everything dropped is white space |
| `Home.Trim` | pages/index.tsx:159 | `trim()` as `TrimEnd` after `TrimStart`; see `TrimPadded` |
| `Home.TrimPadded` | pages/index.tsx:159 | `trim` removes exactly the white space around a text whose ends are not white space |
| `Home.ToLowerCase` | pages/index.tsx:159 | same length; each ASCII capital becomes the small letter at the same place in the alphabet, every other character is kept, and no capital is left |
| `Home.NormalizeAddress` | pages/index.tsx:158-160 | the value `handleAddressChange` stores, `trim()` then `toLowerCase()`; see `NormalizedValidAddress` |
| `Home.NormalizedValidAddress` | pages/index.tsx:158-160 | a valid address stays valid once stored, has no upper-case hex, and is only lower-cased |
| `Home.LowerCaseKeepsValid` | pages/index.tsx:159 | lower-casing a 42-character "0x" address of hex digits keeps it valid |
| `Home.IsValidInput` | pages/index.tsx:135 | a network is chosen and the address is valid; see `AnswerGatedLikeFetch` |
| `Home.Answer` | pages/index.tsx:58-117 | the ladder of checks, first match wins; see `AnswerPriority`, `AnswerForValidInput` and `AnswerGatedLikeFetch` |
| `Home.AnswerPriority` | pages/index.tsx:69-80 | no network and no address gives TryIt; else no network gives ChooseNetwork; else "" gives PasteAddress; else an invalid address gives InvalidAddress |
| `Home.AnswerForValidInput` | pages/index.tsx:81-90 | with valid input, loading gives Loading before the result is looked at; then no result gives NoData, an error shows exactly its message, and data is shown |
| `Home.AnswerGatedLikeFetch` | pages/index.tsx:135-155 | the answer shows lookup state exactly when `isValidInput` holds and a lookup is started; otherwise it is one of the four input prompts, whatever `loading` and `result` are |

## Left out

- The HTTP request is an abstract `Explorer` function. URL text, the `module`/`action` query constants, the 5000 ms timeout and the `console.log` diagnostics are not modelled. A timeout is one of the ways the explorer call yields `Throws`.
- `process.env` is an `Environment` map. Nothing else about process configuration is modelled.
- `JSON.parse` and `Object.entries(obj.sources)` are an abstract `Decoder`: it returns the ordered (name, content) entries, or None when the text is not JSON or has no `sources`. The JSON grammar and the key order are its business. An entry without a `content` string is not modelled: JavaScript would concatenate "undefined" for the first file and throw for a later one.
- `CodeResolver.Interpret` treats a success reply whose `result` is text, not a list, as "unknown error". The source would index the text's first character, read an undefined `Proxy`, and recurse with an undefined address. A success reply with an empty list is modelled exactly: reading `Proxy` of undefined throws and becomes "unknown error", as `TransportErrorIsOpaque` states.
- Explorer record fields that are missing or not strings are not modelled. Every record has five string fields.
- The unbounded proxy recursion is bounded by fuel. There is no cycle detection, as in the source. `SelfProxyNeverResolves` proves that a self-referential proxy is unresolved at every bound.
- `Home.ToLowerCase`: only ASCII capitals are lower-cased. JavaScript's `toLowerCase` also maps other Unicode letters. This does not affect the lemmas, which are about valid (ASCII) addresses.
- Strings are Dafny `char` sequences. JavaScript lengths and `substring` count UTF-16 code units, so text outside the Basic Multilingual Plane is not modelled.
- `pages/api/contract.ts` and `pages/api/code.ts` are request handlers and are not part of this model. The same goes for the bytecode existence check `isContract` that contract.ts imports from utils.ts; utils.ts does not define it, so it is not part of this model.
- The page's React state (`useState`, `useEffect`, `useRef`), the `fetchData` flow, and the markup are not modelled. The page fixes the network to `'ethereum'`, with the selector commented out. The model keeps the network optional, as `Answer`'s parameter type does.
- `Answer`'s data branch is `ShowData(data)`, and its badges and links are not modelled. The badge reads an `IsContract` field that `GetContractData` does not declare.
- Explorer replies are JSON, so a record list in `result` holds plain objects. A template renders such an array as one "[object Object]" per element, joined by ",", and `Render` does the same. Other shapes of `result`, such as numbers or nested arrays, are not modelled.
