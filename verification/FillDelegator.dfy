/** The zero placeholder in calldata (clawmes/delegation/executor.py): what substituting the delegator does to it. */
module FillDelegator {
  import opened Bytes
  import opened Encoding
  import opened Calldata
  import Digits

  const WORD := 64

  /** The 64 digits from position `i` are all zero. */
  predicate RunAt(s: string, i: nat) {
    i + WORD <= |s| && forall k | i <= k < i + WORD :: s[k] == '0'
  }

  predicate HasRun(s: string) {
    exists i: nat :: i < |s| && RunAt(s, i)
  }

  /** `str.replace` of a zero word: leftmost runs first, going on behind each replaced one. */
  function ReplaceRuns(s: string, word: string): string {
    if |s| == 0 then ""
    else if RunAt(s, 0) then word + ReplaceRuns(s[WORD..], word)
    else [s[0]] + ReplaceRuns(s[1..], word)
  }

  function PaddedDelegator(delegator: string): string {
    RightJustify(Lower(if |delegator| >= 2 then delegator[2..] else ""), WORD)
  }

  /** `_fill_delegator`. */
  function Fill(callData: string, delegator: string): string {
    if HasRun(callData) then ReplaceRuns(callData, PaddedDelegator(delegator)) else callData
  }

  // ---- runs ----------------------------------------------------------------------------------

  lemma RunShift(s: string, n: nat, i: nat)
    requires n <= |s|
    ensures RunAt(s[n..], i) == RunAt(s, n + i)
  {
    if n + i + WORD <= |s| {
      assert forall k | i <= k < i + WORD :: s[n..][k] == s[n + k];
      assert forall k | n + i <= k < n + i + WORD :: s[k] == s[n..][k - n];
    }
  }

  lemma HasRunStep(s: string)
    requires |s| > 0 && !RunAt(s, 0)
    ensures HasRun(s) == HasRun(s[1..])
  {
    if HasRun(s) {
      var i: nat :| i < |s| && RunAt(s, i);
      RunShift(s, 1, i - 1);
    }
    if HasRun(s[1..]) {
      var i: nat :| i < |s[1..]| && RunAt(s[1..], i);
      RunShift(s, 1, i);
      assert RunAt(s, i + 1);
    }
  }

  lemma {:induction false} ReplaceLength(s: string, word: string)
    requires |word| == WORD
    ensures |ReplaceRuns(s, word)| == |s|
    decreases |s|
  {
    if |s| > 0 { ReplaceLength(if RunAt(s, 0) then s[WORD..] else s[1..], word); }
  }

  lemma {:induction false} NothingToReplace(s: string, word: string)
    requires !HasRun(s)
    ensures ReplaceRuns(s, word) == s
    decreases |s|
  {
    if |s| > 0 {
      assert !RunAt(s, 0);
      HasRunStep(s);
      NothingToReplace(s[1..], word);
    }
  }

  /** Replacing a run by a word that is not zero changes the text. */
  lemma {:induction false} ReplaceChanges(s: string, word: string)
    requires HasRun(s) && |word| == WORD && exists k :: 0 <= k < WORD && word[k] != '0'
    ensures ReplaceRuns(s, word) != s
    decreases |s|
  {
    ReplaceLength(s, word);
    if RunAt(s, 0) {
      var k :| 0 <= k < WORD && word[k] != '0';
      assert ReplaceRuns(s, word)[k] == word[k];
    } else {
      HasRunStep(s);
      ReplaceChanges(s[1..], word);
      assert ReplaceRuns(s, word)[1..] == ReplaceRuns(s[1..], word);
    }
  }

  // ---- what filling does --------------------------------------------------------------------------

  /** A 20-byte address in text, and not the zero address. */
  predicate IsDelegator(delegator: string) {
    HasHexPrefix(delegator) && AddrBytes(delegator).Ok? && AddrBytes(delegator).value != Zeros(20)
  }

  lemma DelegatorWord(delegator: string)
    requires IsDelegator(delegator)
    ensures |delegator| == 42 && |PaddedDelegator(delegator)| == WORD
    ensures PaddedDelegator(delegator) == ToHex(AddressWord(AddrBytes(delegator).value))
    ensures exists k :: 0 <= k < WORD && PaddedDelegator(delegator)[k] != '0'
  {
    AddressPrints(delegator);
    var a: Address := AddrBytes(delegator).value;
    var i :| 0 <= i < 20 && a[i] != 0;
    WordDigits(AddressWord(a), 12 + i);
  }

  /** A byte that is not zero prints a digit that is not zero. */
  lemma {:induction false} WordDigits(b: seq<Byte>, i: nat)
    requires i < |b|
    ensures |ToHex(b)| == 2 * |b|
    ensures b[i] != 0 ==> ToHex(b)[2 * i] != '0' || ToHex(b)[2 * i + 1] != '0'
  {
    if i > 0 {
      WordDigits(b[1..], i - 1);
      assert ToHex(b)[2..] == ToHex(b[1..]);
    }
  }

  /** Filling never changes the length, and changes nothing exactly when there is no run of 64 zero digits. */
  lemma FillKeepsLength(callData: string, delegator: string)
    requires IsDelegator(delegator)
    ensures |Fill(callData, delegator)| == |callData|
    ensures Fill(callData, delegator) == callData <==> !HasRun(callData)
  {
    DelegatorWord(delegator);
    if HasRun(callData) {
      ReplaceLength(callData, PaddedDelegator(delegator));
      ReplaceChanges(callData, PaddedDelegator(delegator));
    }
  }

  /** Text that cannot start a run is passed over. */
  lemma {:induction false} ReplaceBehind(head: string, rest: string, word: string)
    requires |head| > 0 && head[|head| - 1] != '0' && |head| <= WORD
    ensures ReplaceRuns(head + rest, word) == head + ReplaceRuns(rest, word)
    decreases |head|
  {
    var s := head + rest;
    assert s[|head| - 1] == head[|head| - 1];
    assert !RunAt(s, 0);
    if |head| == 1 {
      assert s[1..] == rest;
    } else {
      assert s[1..] == head[1..] + rest;
      ReplaceBehind(head[1..], rest, word);
    }
  }

  lemma ReplaceFirst(zeros: string, rest: string, word: string)
    requires |zeros| == WORD && forall i | 0 <= i < WORD :: zeros[i] == '0'
    ensures ReplaceRuns(zeros + rest, word) == word + ReplaceRuns(rest, word)
  {
    assert RunAt(zeros + rest, 0) && (zeros + rest)[WORD..] == rest;
  }

  const ZERO_ADDRESS: string := "0x" + Digits.ZeroDigits(40)

  lemma ZeroAddressWord()
    ensures AddrBytes(ZERO_ADDRESS) == Ok(Zeros(20)) && ToHex(AddressWord(Zeros(20))) == seq(WORD, _ => '0')
  {
    ToHexZeros(20);
    HexRoundTrip(Zeros(20));
    assert ZERO_ADDRESS[2..] == seq(40, _ => '0');
    ToHexZeros(32);
    assert AddressWord(Zeros(20)) == Zeros(32);
  }

  /** What follows the sender: the receiver's word and the token id, 128 digits. */
  function TransferTail(to: string, tokenId: int): string
    requires AddrBytes(to).Ok? && Uint256(tokenId).Ok?
  {
    ToHex(AddressWord(AddrBytes(to).value)) + ToHex(Uint256(tokenId).value)
  }

  lemma TransferFromParts(from: string, to: string, tokenId: int)
    requires AddrBytes(from).Ok? && AddrBytes(to).Ok? && Uint256(tokenId).Ok?
    ensures EncodeErc721TransferFrom(from, to, tokenId)
      == Ok(SELECTOR_TRANSFER_FROM + (ToHex(AddressWord(AddrBytes(from).value)) + TransferTail(to, tokenId)))
  {
    var f, t, n := ToHex(AddressWord(AddrBytes(from).value)), ToHex(AddressWord(AddrBytes(to).value)), ToHex(Uint256(tokenId).value);
    Associate(SELECTOR_TRANSFER_FROM, f, t);
    Associate(SELECTOR_TRANSFER_FROM, f + t, n);
    Associate(f, t, n);
  }

  /** Behind a selector: the zero word is replaced, and then the tail on its own. */
  lemma FillSender(sel: string, tail: string, delegator: string)
    requires IsDelegator(delegator) && 0 < |sel| <= WORD && sel[|sel| - 1] != '0'
    ensures Fill(sel + (seq(WORD, _ => '0') + tail), delegator)
      == sel + (PaddedDelegator(delegator) + ReplaceRuns(tail, PaddedDelegator(delegator)))
  {
    var zeros, word := seq(WORD, _ => '0'), PaddedDelegator(delegator);
    DelegatorWord(delegator);
    ReplaceBehind(sel, zeros + tail, word);
    ReplaceFirst(zeros, tail, word);
    var text := sel + (zeros + tail);
    assert RunAt(text, |sel|) by {
      assert forall k | |sel| <= k < |sel| + WORD :: text[k] == zeros[k - |sel|];
    }
  }

  lemma SameBehind(a: string, b: string, x: string, y: string)
    ensures a + (b + x) == a + (b + y) <==> x == y
  {
    assert (a + (b + x))[|a| + |b|..] == x && (a + (b + y))[|a| + |b|..] == y;
  }

  /**
   Filling transferFrom(0, to, id) gives transferFrom(delegator, to, id) exactly when the last 128
   digits, the receiver and the token id, contain no run of 64 zeros.
   */
  lemma FillsTransferFrom(delegator: string, to: string, tokenId: int)
    requires IsDelegator(delegator) && AddrBytes(to).Ok? && Uint256(tokenId).Ok?
    ensures EncodeErc721TransferFrom(ZERO_ADDRESS, to, tokenId).Ok? && EncodeErc721TransferFrom(delegator, to, tokenId).Ok?
    ensures var filled := Fill(EncodeErc721TransferFrom(ZERO_ADDRESS, to, tokenId).value, delegator);
      filled == EncodeErc721TransferFrom(delegator, to, tokenId).value <==> !HasRun(TransferTail(to, tokenId))
  {
    var tail, word := TransferTail(to, tokenId), PaddedDelegator(delegator);
    ZeroAddressWord();
    TransferFromParts(ZERO_ADDRESS, to, tokenId);
    TransferFromParts(delegator, to, tokenId);
    DelegatorWord(delegator);
    FillSender(SELECTOR_TRANSFER_FROM, tail, delegator);
    SameBehind(SELECTOR_TRANSFER_FROM, word, ReplaceRuns(tail, word), tail);
    if HasRun(tail) { ReplaceChanges(tail, word); } else { NothingToReplace(tail, word); }
  }

  /** Revoking an allowance is not spared: the zero amount is a run of its own. */
  lemma ZeroAllowanceIsFilled(delegator: string, spender: string)
    requires IsDelegator(delegator) && AddrBytes(spender).Ok?
    ensures EncodeErc20Approve(spender, 0).Ok?
    ensures Fill(EncodeErc20Approve(spender, 0).value, delegator) != EncodeErc20Approve(spender, 0).value
  {
    var head := SELECTOR_APPROVE + ToHex(AddressWord(AddrBytes(spender).value));
    Uint256Zero();
    var text := head + seq(WORD, _ => '0');
    assert RunAt(text, |head|) by { assert forall k | |head| <= k < |head| + WORD :: text[k] == '0'; }
    FillKeepsLength(text, delegator);
  }

  lemma Uint256Zero()
    ensures Uint256(0).Ok? && ToHex(Uint256(0).value) == seq(WORD, _ => '0')
  {
    ZeroBytes(32);
    ToHexZeros(32);
  }

  lemma {:induction false} ZeroBytes(n: nat)
    ensures ToBytes(0, n) == Zeros(n)
  {
    if n > 0 {
      ZeroBytes(n - 1);
      assert Zeros(n) == Zeros(n - 1) + [0];
    }
  }
}
