/**
 What the executor takes from a tool's arguments (clawmes/delegation/executor.py): an action for the chain, nothing,
 or an exception of an encoder, which nobody catches.
 */
module Extractors {
  import opened Bytes
  import opened HexIntegers
  import opened Encoding
  import opened Calldata
  import Decimals
  import opened FillDelegator

  // ---- `_is_addr`: 42 characters, of which `int(text, 16)` takes the last forty ---------------

  predicate IsAddr(s: string) {
    |s| == 42 && s[0] == '0' && s[1] == 'x' && ReadsAsHex(s[2..])
  }

  /** Forty hexadecimal digits are such a text, and of such texts the encoders take no other. */
  lemma AddressesEncode(s: string)
    ensures IsAddressText(s) ==> IsAddr(s)
    ensures IsAddr(s) ==> (AddrBytes(s).Ok? <==> IsAddressText(s))
  {
    if IsAddr(s) { FromHexDefined(s[2..]); }
    if IsAddressText(s) {
      var t := s[2..];
      assert DigitValue(t[0]).Some? && DigitValue(t[1]).Some? && DigitValue(t[|t| - 1]).Some?;
      assert Unprefixed(Unsigned(Stripped(t))) == t;
      assert forall i | 0 <= i < |t| :: DigitValue(t[i]).Some? && t[i] != '_';
    }
  }

  // ---- the extractors ---------------------------------------------------------------------------

  /** A tool's arguments as text, empty where one is missing; the token id as an integer, if it reads as one. */
  datatype Args = Args(
    action: string, to: string, amount: string, token: string, spender: string, contract: string, tokenId: Option<int>)

  datatype Action = Action(target: string, value: nat, callData: string)

  datatype Extraction = Nothing | Raises(error: Error) | Found(action: Action)

  /** An action with the calldata an encoder gave, or its exception. */
  function Calling(target: string, encoded: Result<string>): Extraction {
    match encoded
    case Err(error) => Raises(error)
    case Ok(callData) => Found(Action(target, 0, callData))
  }

  /** `_parse_amount`: base units above zero. */
  function ParseAmount(amount: string, decimals: nat): (r: Option<nat>)
    ensures forall n :: r == Some(n) <==> n > 0 && Decimals.ToBaseUnits(amount, decimals, Decimals.PRECISION) == Decimals.Value(n)
  {
    match Decimals.ToBaseUnits(amount, decimals, Decimals.PRECISION)
    case Raised(_) => None
    case Value(n) => if n > 0 then Some(n) else None
  }

  predicate NamesNative(token: string) {
    token == "" || Lower(token) == "eth" || Lower(token) == "native"
  }

  /** `_extract_transfer`, with the cached decimals of the token. */
  function ExtractTransfer(a: Args, decimals: Option<nat>): Extraction {
    if a.action != "send" || !IsAddr(a.to) then Nothing
    else if IsAddr(a.token) then
      if decimals.None? then Nothing
      else match ParseAmount(a.amount, decimals.value)
        case None => Nothing
        case Some(base) => Calling(a.token, EncodeErc20Transfer(a.to, base))
    else if NamesNative(a.token) then
      match ParseAmount(a.amount, 18)
      case None => Nothing
      case Some(wei) => Found(Action(a.to, wei, "0x"))
    else Nothing
  }

  /** `_extract_approvals`: only a revocation, an approval of zero. */
  function ExtractApprovals(a: Args): Extraction {
    if a.action != "revoke" || !IsAddr(a.token) || !IsAddr(a.spender) then Nothing
    else Calling(a.token, EncodeErc20Approve(a.spender, 0))
  }

  /** `_extract_nft`: the sender is a placeholder. */
  function ExtractNft(a: Args): Extraction {
    if a.action != "transfer" || !IsAddr(a.contract) || !IsAddr(a.to) || a.tokenId.None? then Nothing
    else Calling(a.contract, EncodeErc721TransferFrom(ZERO_ADDRESS, a.to, a.tokenId.value))
  }

  predicate HasExtractor(tool: string) {
    tool == "transfer" || tool == "approvals" || tool == "nft"
  }

  function Extract(tool: string, a: Args, decimals: Option<nat>): Extraction
    requires HasExtractor(tool)
  {
    if tool == "transfer" then ExtractTransfer(a, decimals)
    else if tool == "approvals" then ExtractApprovals(a)
    else ExtractNft(a)
  }

  // ---- when an extractor raises --------------------------------------------------------------------

  predicate IsUint256(n: int) {
    0 <= n < UINT256_LIMIT
  }

  predicate SendsToken(a: Args, decimals: Option<nat>) {
    a.action == "send" && IsAddr(a.to) && IsAddr(a.token) && decimals.Some? && ParseAmount(a.amount, decimals.value).Some?
  }

  predicate SendsNative(a: Args) {
    && a.action == "send" && IsAddr(a.to) && ParseAmount(a.amount, 18).Some?
    && (a.token == "" || Lower(a.token) == "eth" || Lower(a.token) == "native")
  }

  predicate RevokesApproval(a: Args) {
    a.action == "revoke" && IsAddr(a.token) && IsAddr(a.spender)
  }

  predicate MovesNft(a: Args) {
    a.action == "transfer" && IsAddr(a.contract) && IsAddr(a.to) && a.tokenId.Some?
  }

  /** What the encoders refuse: an address text with other than digits in it, or a number out of range. */
  predicate EncoderRefuses(tool: string, a: Args, decimals: Option<nat>) {
    if tool == "transfer" then
      SendsToken(a, decimals) && !(IsAddressText(a.to) && IsUint256(ParseAmount(a.amount, decimals.value).value))
    else if tool == "approvals" then RevokesApproval(a) && !IsAddressText(a.spender)
    else MovesNft(a) && !(IsAddressText(a.to) && IsUint256(a.tokenId.value))
  }

  lemma TransferRaisesIff(a: Args, decimals: Option<nat>)
    ensures ExtractTransfer(a, decimals).Raises? <==> EncoderRefuses("transfer", a, decimals)
  {
    if SendsToken(a, decimals) {
      AddressesEncode(a.to);
      EncodersAgree(a.to, ParseAmount(a.amount, decimals.value).value);
    }
  }

  /** An extractor raises exactly when the encoder refuses the addresses or the number it extracted. */
  lemma RaisesIff(tool: string, a: Args, decimals: Option<nat>)
    requires HasExtractor(tool)
    ensures Extract(tool, a, decimals).Raises? <==> EncoderRefuses(tool, a, decimals)
  {
    if tool == "transfer" {
      TransferRaisesIff(a, decimals);
    } else if tool == "approvals" {
      AddressesEncode(a.spender);
      EncodersAgree(a.spender, 0);
    } else {
      AddressesEncode(a.to);
      ZeroAddressWord();
    }
  }

  /**
   The call an action makes, its calldata read back: who gets how much of which token, whose allowance goes,
   which token id moves where; or a plain transfer of the parsed amount.
   */
  ghost predicate MakesCall(tool: string, a: Args, decimals: Option<nat>, x: Action) {
    var data := WireBytes(x.callData);
    if tool == "transfer" && !IsAddr(a.token) then
      SendsNative(a) && x.target == a.to && Some(x.value) == ParseAmount(a.amount, 18) && data == []
    else if tool == "transfer" then
      && x.target == a.token && x.value == 0 && SendsToken(a, decimals) && AddrBytes(a.to).Ok?
      && ReadAddressAmount(TRANSFER_BYTES, data) == Some((AddrBytes(a.to).value, ParseAmount(a.amount, decimals.value).value))
    else if tool == "approvals" then
      && x.target == a.token && x.value == 0 && RevokesApproval(a) && AddrBytes(a.spender).Ok?
      && ReadAddressAmount(APPROVE_BYTES, data) == Some((AddrBytes(a.spender).value, 0))
    else
      && x.target == a.contract && x.value == 0 && MovesNft(a) && AddrBytes(a.to).Ok? && AddrBytes(ZERO_ADDRESS).Ok?
      && ReadTransferFrom(data) == Some((AddrBytes(ZERO_ADDRESS).value, AddrBytes(a.to).value, a.tokenId.value))
  }

  /** An action is the call its arguments ask for, read from the bytes. */
  lemma FoundMakesCall(tool: string, a: Args, decimals: Option<nat>)
    requires HasExtractor(tool) && Extract(tool, a, decimals).Found?
    ensures MakesCall(tool, a, decimals, Extract(tool, a, decimals).action)
  {
    if tool == "transfer" && IsAddr(a.token) {
      TransferRoundTrip(a.to, ParseAmount(a.amount, decimals.value).value);
    } else if tool == "approvals" {
      EncodersAgree(a.spender, 0);
      TransferRoundTrip(a.spender, 0);
    } else if tool == "nft" {
      TransferFromRoundTrip(ZERO_ADDRESS, a.to, a.tokenId.value);
    }
  }

  // ---- when there is an action -----------------------------------------------------------------------------

  /** A send of ether, or a call that the encoder accepts. */
  predicate Extractable(tool: string, a: Args, decimals: Option<nat>) {
    match tool
    case "transfer" =>
      || SendsNative(a)
      || (SendsToken(a, decimals) && IsAddressText(a.to) && IsUint256(ParseAmount(a.amount, decimals.value).value))
    case "approvals" => RevokesApproval(a) && IsAddressText(a.spender)
    case "nft" => MovesNft(a) && IsAddressText(a.to) && IsUint256(a.tokenId.value)
    case _ => false
  }

  /** An extractor finds an action exactly for these arguments; with what it raises on, all others give nothing. */
  lemma FoundIff(tool: string, a: Args, decimals: Option<nat>)
    requires HasExtractor(tool)
    ensures Extract(tool, a, decimals).Found? <==> Extractable(tool, a, decimals)
    ensures Extract(tool, a, decimals).Nothing? <==> !Extractable(tool, a, decimals) && !EncoderRefuses(tool, a, decimals)
  {
    RaisesIff(tool, a, decimals);
    if tool == "transfer" { TransferFoundIff(a, decimals); }
  }

  lemma TransferFoundIff(a: Args, decimals: Option<nat>)
    ensures ExtractTransfer(a, decimals).Found? <==> Extractable("transfer", a, decimals)
  {
    TransferRaisesIff(a, decimals);
    if IsAddr(a.token) { assert !SendsNative(a); }
  }

  /** Ether leaves only for a send to an address whose token is empty or names it, in any case of letters. */
  lemma EtherOnlyWhenNamed(tool: string, a: Args, decimals: Option<nat>)
    requires HasExtractor(tool) && Extract(tool, a, decimals).Found? && Extract(tool, a, decimals).action.value > 0
    ensures tool == "transfer" && a.action == "send" && IsAddr(a.to)
    ensures a.token == "" || Lower(a.token) == "eth" || Lower(a.token) == "native"
  {
    FoundMakesCall(tool, a, decimals);
  }

  /** Any other token that is no address gives nothing. */
  lemma OtherTokenGivesNothing(a: Args, decimals: Option<nat>)
    requires !IsAddr(a.token) && a.token != "" && Lower(a.token) != "eth" && Lower(a.token) != "native"
    ensures Extract("transfer", a, decimals).Nothing?
  {
    FoundIff("transfer", a, decimals);
  }

  // ---- two ways to raise --------------------------------------------------------------------------------

  /** A token id below zero, or too large, raises wherever it is sent. */
  lemma TokenIdRaises(a: Args, decimals: Option<nat>)
    requires MovesNft(a) && !IsUint256(a.tokenId.value)
    ensures Extract("nft", a, decimals).Raises?
  {
    RaisesIff("nft", a, decimals);
  }

  /** An underscore between the digits: an address to the extractor, none to the encoder. */
  lemma UnderscoreRaises(s: string)
    requires |s| == 42 && s[0] == '0' && s[1] == 'x' && s[20] == '_'
    requires forall i | 2 <= i < 42 && i != 20 :: DigitValue(s[i]).Some?
    ensures IsAddr(s) && AddrBytes(s).Err?
  {
    var t := s[2..];
    assert forall i | 0 <= i < 40 && i != 18 :: t[i] == s[i + 2] && DigitValue(t[i]).Some?;
    assert t[18] == '_';
    assert !IsSpace(t[0]) && !IsSpace(t[39]) && t[1] != 'x' && t[1] != 'X';
    assert Unprefixed(Unsigned(Stripped(t))) == t;
    assert DigitGroups(t);
    assert !IsHexText(t);
    FromHexDefined(t);
  }
}
