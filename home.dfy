/** The pure parts of the page: the address validator, the normalisation of
    typed input, the gate that starts a lookup, and the order in which the
    answer area picks what to show. */
module Home {
  import opened Common
  import opened CodeResolver

  // ---------------------------------------------------------------------------
  // validateAddress: a lower-case "0x", forty hex digits, nothing else

  predicate IsHexDigit(c: char)
  {
    ('0' <= c <= '9') || ('a' <= c <= 'f') || ('A' <= c <= 'F')
  }

  /** `[0-9a-fA-F]{n}$`: exactly n hex digits and nothing after them. */
  predicate HexRun(s: string, n: nat)
    decreases n
  {
    if n == 0 then s == []
    else |s| > 0 && IsHexDigit(s[0]) && HexRun(s[1..], n - 1)
  }

  /** The pattern read left to right: "0x", then exactly forty hex digits. */
  predicate ValidateAddress(address: string)
  {
    StartsWith(address, "0x") && HexRun(address[2..], 40)
  }

  lemma {:induction false} HexRunMeaning(s: string, n: nat)
    ensures HexRun(s, n) <==> |s| == n && forall i :: 0 <= i < |s| ==> IsHexDigit(s[i])
    decreases n
  {
    if n > 0 && |s| > 0 {
      HexRunMeaning(s[1..], n - 1);
      assert forall i :: 1 <= i < |s| ==> s[i] == s[1..][i - 1];
    }
  }

  /** An address is valid exactly when it has 42 characters, starts with a
      lower-case "0x", and the other forty are hex digits of either case. */
  lemma ValidateAddressMeaning(address: string)
    ensures ValidateAddress(address) <==>
      |address| == 42 && address[..2] == "0x" &&
      forall i :: 2 <= i < 42 ==> IsHexDigit(address[i])
  {
    if |address| >= 2 {
      HexRunMeaning(address[2..], 40);
      assert forall i :: 2 <= i < |address| ==> address[i] == address[2..][i - 2];
    }
  }

  /** What the pattern rejects: an upper-case "0X" prefix, 41 or 43
      characters, and whitespace at either end. */
  lemma ValidateAddressRejects(address: string)
    ensures StartsWith(address, "0X") ==> !ValidateAddress(address)
    ensures |address| == 41 || |address| == 43 ==> !ValidateAddress(address)
    ensures |address| > 0 && IsWhitespace(address[0]) ==> !ValidateAddress(address)
    ensures |address| > 0 && IsWhitespace(address[|address| - 1]) ==> !ValidateAddress(address)
  {
    ValidateAddressMeaning(address);
  }

  /** No checksum is checked: switching the case of any hex letter keeps an
      address valid. */
  lemma ValidateAddressIgnoresLetterCase(address: string, i: nat, c: char)
    requires ValidateAddress(address)
    requires 2 <= i < |address| && IsHexDigit(c)
    ensures ValidateAddress(address[i := c])
  {
    ValidateAddressMeaning(address);
    ValidateAddressMeaning(address[i := c]);
  }

  // ---------------------------------------------------------------------------
  // handleAddressChange: value.trim().toLowerCase()

  /** ECMAScript white space and line terminators, the characters `trim` removes. */
  predicate IsWhitespace(c: char)
  {
    c == '\t' || c == '\n' || c == '\U{B}' || c == '\U{C}' || c == '\r' || c == ' ' ||
    c == '\U{A0}' || c == '\U{1680}' || ('\U{2000}' <= c <= '\U{200A}') ||
    c == '\U{2028}' || c == '\U{2029}' || c == '\U{202F}' || c == '\U{205F}' ||
    c == '\U{3000}' || c == '\U{FEFF}'
  }

  /** Drops the leading white space: the result is the longest suffix of `s`
      that does not start with white space. */
  function TrimStart(s: string): (r: string)
    ensures |r| <= |s| && r == s[|s| - |r|..]
    ensures forall k :: 0 <= k < |s| - |r| ==> IsWhitespace(s[k])
    ensures r == [] || !IsWhitespace(r[0])
  {
    if |s| > 0 && IsWhitespace(s[0]) then TrimStart(s[1..]) else s
  }

  /** Drops the trailing white space: the result is the longest prefix of `s`
      that does not end with white space. */
  function TrimEnd(s: string): (r: string)
    ensures |r| <= |s| && r == s[..|r|]
    ensures forall k :: |r| <= k < |s| ==> IsWhitespace(s[k])
    ensures r == [] || !IsWhitespace(r[|r| - 1])
  {
    if |s| > 0 && IsWhitespace(s[|s| - 1]) then TrimEnd(s[..|s| - 1]) else s
  }

  /** `s.trim()`. */
  function Trim(s: string): string
  {
    TrimEnd(TrimStart(s))
  }

  /** Lower-cases the ASCII capitals and keeps every other character. */
  function LowerChar(c: char): char
  {
    if 'A' <= c <= 'Z' then (c as int - 'A' as int + 'a' as int) as char else c
  }

  /** `s.toLowerCase()` on ASCII letters: each capital becomes the small
      letter at the same place in the alphabet, every other character is
      kept, and no capital is left. */
  function ToLowerCase(s: string): (r: string)
    ensures |r| == |s|
    ensures forall i :: 0 <= i < |s| && 'A' <= s[i] <= 'Z' ==>
      'a' <= r[i] <= 'z' && r[i] as int - 'a' as int == s[i] as int - 'A' as int
    ensures forall i :: 0 <= i < |s| && !('A' <= s[i] <= 'Z') ==> r[i] == s[i]
    ensures forall i :: 0 <= i < |r| ==> !('A' <= r[i] <= 'Z')
  {
    seq(|s|, i requires 0 <= i < |s| => LowerChar(s[i]))
  }

  /** The value `handleAddressChange` stores for a typed input. */
  function NormalizeAddress(input: string): string
  {
    ToLowerCase(Trim(input))
  }

  /** A valid address stays valid once stored: trimming leaves it alone and
      lower-casing turns it into the same address with no upper-case hex. */
  lemma NormalizedValidAddress(address: string)
    requires ValidateAddress(address)
    ensures NormalizeAddress(address) == ToLowerCase(address)
    ensures ValidateAddress(NormalizeAddress(address))
    ensures forall i :: 0 <= i < |address| ==> !('A' <= NormalizeAddress(address)[i] <= 'Z')
  {
    ValidateAddressMeaning(address);
    assert !IsWhitespace(address[0]) && !IsWhitespace(address[41]);
    assert TrimStart(address) == address;
    assert TrimEnd(address) == address;
    LowerCaseKeepsValid(address);
  }

  lemma LowerCaseKeepsValid(address: string)
    requires |address| == 42 && address[..2] == "0x"
    requires forall i :: 2 <= i < 42 ==> IsHexDigit(address[i])
    ensures ValidateAddress(ToLowerCase(address))
  {
    var n := ToLowerCase(address);
    assert n[0] == address[0] && n[1] == address[1];
    assert n[..2] == "0x";
    forall i | 2 <= i < 42 ensures IsHexDigit(n[i]) {
      assert IsHexDigit(address[i]);
    }
    ValidateAddressMeaning(n);
  }

  /** Trimming removes exactly the white space around a text whose ends are
      not white space. */
  lemma TrimPadded(pad: string, text: string, pad': string)
    requires forall i :: 0 <= i < |pad| ==> IsWhitespace(pad[i])
    requires forall i :: 0 <= i < |pad'| ==> IsWhitespace(pad'[i])
    requires |text| > 0 && !IsWhitespace(text[0]) && !IsWhitespace(text[|text| - 1])
    ensures Trim(pad + text + pad') == text
  {
    var rest := text + pad';
    assert rest[0] == text[0];
    TrimStartPadding(pad, rest);
    assert pad + text + pad' == pad + rest;
    TrimEndPadding(text, pad');
  }

  lemma {:induction false} TrimStartPadding(pad: string, rest: string)
    requires forall i :: 0 <= i < |pad| ==> IsWhitespace(pad[i])
    requires |rest| > 0 && !IsWhitespace(rest[0])
    ensures TrimStart(pad + rest) == rest
  {
    if |pad| > 0 {
      assert (pad + rest)[1..] == pad[1..] + rest;
      TrimStartPadding(pad[1..], rest);
    } else {
      assert pad + rest == rest;
    }
  }

  lemma {:induction false} TrimEndPadding(rest: string, pad: string)
    requires forall i :: 0 <= i < |pad| ==> IsWhitespace(pad[i])
    requires |rest| > 0 && !IsWhitespace(rest[|rest| - 1])
    ensures TrimEnd(rest + pad) == rest
  {
    if |pad| > 0 {
      var pad0 := pad[..|pad| - 1];
      assert (rest + pad)[..|rest + pad| - 1] == rest + pad0;
      TrimEndPadding(rest, pad0);
    } else {
      assert rest + pad == rest;
    }
  }

  // ---------------------------------------------------------------------------
  // isValidInput and Answer

  /** `isValidInput`: a lookup is started only for a chosen network and a
      valid address. */
  predicate IsValidInput(network: Option<Network>, address: string)
  {
    network.Some? && ValidateAddress(address)
  }

  /** What the answer area shows. */
  datatype View =
    | TryIt
    | ChooseNetwork
    | PasteAddress
    | InvalidAddress
    | Loading
    | NoData
    | ErrorMessage(message: string)
    | ShowData(data: ContractData)

  /** The `Answer` component's ladder of checks, first match wins. */
  function Answer(loading: bool, network: Option<Network>, address: string,
                  result: Option<Result<ContractData>>): View
  {
    if network.None? && address == "" then TryIt
    else if network.None? then ChooseNetwork
    else if address == "" then PasteAddress
    else if !ValidateAddress(address) then InvalidAddress
    else if loading then Loading
    else match result
      case None => NoData
      case Some(Error(message)) => ErrorMessage(message)
      case Some(Data(d)) => ShowData(d)
  }

  /** The input checks come first, in this order. */
  lemma AnswerPriority(loading: bool, network: Option<Network>, address: string,
                       result: Option<Result<ContractData>>)
    ensures network.None? && address == "" ==> Answer(loading, network, address, result) == TryIt
    ensures network.None? && address != "" ==> Answer(loading, network, address, result) == ChooseNetwork
    ensures network.Some? && address == "" ==> Answer(loading, network, address, result) == PasteAddress
    ensures network.Some? && address != "" && !ValidateAddress(address) ==>
      Answer(loading, network, address, result) == InvalidAddress
  {
  }

  /** With a network and a valid address, loading wins over the result; then a
      missing result, an error's exact message, or the data is shown. */
  lemma AnswerForValidInput(loading: bool, network: Option<Network>, address: string,
                            result: Option<Result<ContractData>>)
    requires IsValidInput(network, address)
    ensures loading ==> Answer(loading, network, address, result) == Loading
    ensures !loading && result.None? ==> Answer(loading, network, address, result) == NoData
    ensures !loading && result.Some? && result.value.Error? ==>
      Answer(loading, network, address, result) == ErrorMessage(result.value.message)
    ensures !loading && result.Some? && result.value.Data? ==>
      Answer(loading, network, address, result) == ShowData(result.value.data)
  {
    assert address != "";
  }

  /** The answer depends on `loading` and `result` exactly when a lookup would
      be started: otherwise it is one of the four input prompts, whatever the
      state of the lookup. */
  lemma AnswerGatedLikeFetch(loading: bool, network: Option<Network>, address: string,
                             result: Option<Result<ContractData>>)
    ensures !IsValidInput(network, address) <==>
      Answer(loading, network, address, result) in {TryIt, ChooseNetwork, PasteAddress, InvalidAddress}
    ensures IsValidInput(network, address) ==>
      Answer(loading, network, address, result) == Answer(loading, Some(Ethereum), address, result)
  {
    if IsValidInput(network, address) {
      assert address != "";
    }
  }
}
