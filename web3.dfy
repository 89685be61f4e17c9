/**
 * Chain-facing constants and helpers: the registration constants, the
 * length-tiered fee schedule in USDC base units, address syntax, address
 * shortening for display, and block-explorer links.
 */
module Web3 {
  import opened JsString
  import Validation

  // ---------------------------------------------------------------------------
  // Constants
  // ---------------------------------------------------------------------------

  const MinYears: int := 1
  const MaxYears: int := 60
  const MinNameLength: int := 1
  const MaxNameLength: int := 63
  const MaxBatchSize: int := 10

  /** The suffix under which every name is registered. */
  const DefaultTld: string := ".pepu"

  /** The block explorer of the chain. */
  const ExplorerUrl: string := "https://pepuscan.com"

  /** One USDC in base units (USDC has 6 decimals). */
  const Usdc: nat := 1_000_000

  /**
   * The fee table, per year, in USDC base units. The original stores the
   * amounts as decimal strings and converts them with `BigInt`; here they
   * are the integers those strings denote.
   */
  function FeeStructure(tier: int): nat
    requires 1 <= tier <= 5
  {
    if tier == 1 then 1_000_000_000      // $1000
    else if tier == 2 then 500_000_000   // $500
    else if tier == 3 then 100_000_000   // $100
    else if tier == 4 then 50_000_000    // $50
    else 10_000_000                      // $10, five characters and more
  }

  // ---------------------------------------------------------------------------
  // Fee schedule
  // ---------------------------------------------------------------------------

  /** The per-year fee chosen by the character count. */
  function FeePerYear(charCount: nat): (fee: nat)
    ensures fee > 0
  {
    if charCount == 1 then FeeStructure(1)
    else if charCount == 2 then FeeStructure(2)
    else if charCount == 3 then FeeStructure(3)
    else if charCount == 4 then FeeStructure(4)
    else FeeStructure(5)
  }

  /**
   * `calculateRegistrationFee(domainName, years)`: per-year fee times years,
   * in exact integer arithmetic. `years` is not range-checked.
   */
  function CalculateRegistrationFee(domainName: string, years: int): (fee: int)
    ensures years >= 0 ==> 10 * Usdc * years <= fee <= 1000 * Usdc * years
    ensures years == 0 <==> fee == 0
  {
    FeePerYear(|domainName|) * years
  }

  /** A JavaScript number argument that may have been left out. */
  datatype JsNumber = Undefined | Num(value: int)

  /**
   * The same call as JavaScript evaluates it when the `years` argument may
   * be missing: `BigInt(undefined)` throws a TypeError, given here as `None`.
   */
  function CalculateRegistrationFeeJs(domainName: string, years: JsNumber): (fee: Option<int>)
    ensures years.Undefined? <==> fee.None?
    ensures years.Num? ==> fee == Some(CalculateRegistrationFee(domainName, years.value))
  {
    match years
    case Undefined => None
    case Num(y) => Some(CalculateRegistrationFee(domainName, y))
  }

  /** The tiers: 1000, 500, 100, 50 USDC for one to four characters and 10 USDC otherwise, including the empty name. */
  lemma FeeTiers(name: string)
    ensures |name| == 1 ==> CalculateRegistrationFee(name, 1) == 1000 * Usdc
    ensures |name| == 2 ==> CalculateRegistrationFee(name, 1) == 500 * Usdc
    ensures |name| == 3 ==> CalculateRegistrationFee(name, 1) == 100 * Usdc
    ensures |name| == 4 ==> CalculateRegistrationFee(name, 1) == 50 * Usdc
    ensures (|name| == 0 || |name| >= 5) ==> CalculateRegistrationFee(name, 1) == 10 * Usdc
  {
  }

  /** The total is the one-year fee times the years: linear in the years, zero for zero years. */
  lemma FeeLinearInYears(name: string, years: int, more: int)
    ensures CalculateRegistrationFee(name, years) == CalculateRegistrationFee(name, 1) * years
    ensures CalculateRegistrationFee(name, 0) == 0
    ensures CalculateRegistrationFee(name, years + more) ==
              CalculateRegistrationFee(name, years) + CalculateRegistrationFee(name, more)
  {
  }

  /** The fee looks only at the length of the name, never at its characters, and is flat from five characters on. */
  lemma FeeDependsOnlyOnLength(a: string, b: string, years: int)
    ensures |a| == |b| ==> CalculateRegistrationFee(a, years) == CalculateRegistrationFee(b, years)
    ensures |a| >= 5 && |b| >= 5 ==> CalculateRegistrationFee(a, years) == CalculateRegistrationFee(b, years)
  {
  }

  /** Longer names never cost more per year, among non-empty names; the empty name falls to the cheapest tier. */
  lemma FeeNonIncreasing(shorter: nat, longer: nat)
    requires 1 <= shorter <= longer
    ensures FeePerYear(longer) <= FeePerYear(shorter)
    ensures FeePerYear(0) < FeePerYear(shorter) || shorter >= 5
  {
  }

  /**
   * Over the protocol's year range every total lies between 10 and 60000
   * USDC, well inside the integers a JavaScript number holds exactly.
   */
  lemma FeeBounds(name: string, years: int)
    requires MinYears <= years <= MaxYears
    ensures 10 * Usdc <= CalculateRegistrationFee(name, years) <= 60_000 * Usdc
    ensures CalculateRegistrationFee(name, years) < 0x20_0000_0000_0000
  {
    var f := FeePerYear(|name|);
    assert 10 * Usdc <= f <= 1000 * Usdc;
    assert f * 1 <= f * years <= f * MaxYears;
  }

  /** Every name the policy accepts lies within the registration constants' length bounds. */
  lemma AcceptedNameLengthInRange(name: string)
    requires Validation.ValidateDomainName(name).Valid?
    ensures MinNameLength <= |name| <= MaxNameLength
  {
  }

  // ---------------------------------------------------------------------------
  // Addresses
  // ---------------------------------------------------------------------------

  /** `/^0x[a-fA-F0-9]{40}$/`: a lower-case "0x" followed by exactly forty hex digits of either case. */
  predicate IsValidAddress(address: string): (valid: bool)
    ensures valid ==> forall i :: 0 <= i < |address| ==> IsAsciiAlnum(address[i])
  {
    && |address| == 42
    && StartsWith(address, "0x")
    && forall i :: 2 <= i < 42 ==> IsHexDigit(address[i])
  }

  /** The test accepts the case of the hex digits freely, but not an upper-case "0X". */
  lemma AddressCase(address: string)
    ensures IsValidAddress(address) ==> IsValidAddress(Lower(address))
    ensures |address| == 42 && address[0] == '0' && address[1] == 'X' ==> !IsValidAddress(address)
    ensures IsValidAddress(Lower(address)) && address[1] == 'x' ==> IsValidAddress(address)
  {
    var l := Lower(address);
    if IsValidAddress(address) {
      assert address[..2] == "0x";
      assert l[..2] == [LowerChar(address[0]), LowerChar(address[1])];
    }
    if |address| == 42 && address[0] == '0' && address[1] == 'X' {
      assert address[..2][1] == 'X';
    }
    if IsValidAddress(l) && address[1] == 'x' {
      assert l[..2] == "0x";
      assert l[0] == LowerChar(address[0]);
      assert address[..2] == [address[0], address[1]];
    }
  }

  /**
   * `formatAddress`: "" stays ""; otherwise the first six code units, an
   * ellipsis and the last four, with `slice`'s clamping for short input.
   */
  function FormatAddress(address: string): (r: string)
    ensures address == "" <==> r == ""
  {
    if address == "" then "" else JsSlice(address, 0, 6) + "..." + JsSliceFrom(address, -4)
  }

  /** A shortened address keeps the head and the tail of the input around "...", and is thirteen long from ten code units on. */
  lemma FormatAddressShape(address: string)
    requires address != ""
    ensures var head := if |address| < 6 then |address| else 6;
            var tail := if |address| < 4 then |address| else 4;
            FormatAddress(address) == address[..head] + "..." + address[|address| - tail..]
    ensures |address| >= 10 ==> |FormatAddress(address)| == 13
  {
  }

  /** A valid address is shown as "0x" and four hex digits, "...", and its last four hex digits. */
  lemma FormatValidAddress(address: string)
    requires IsValidAddress(address)
    ensures FormatAddress(address) == address[..6] + "..." + address[38..]
    ensures |FormatAddress(address)| == 13
    ensures StartsWith(FormatAddress(address), "0x")
  {
    assert address[..6][..2] == address[..2];
  }

  // ---------------------------------------------------------------------------
  // Explorer links
  // ---------------------------------------------------------------------------

  /** What an explorer link points at; `Tx` is the default. */
  datatype ExplorerKind = Tx | Address

  function KindPath(kind: ExplorerKind): string {
    match kind
    case Tx => "tx"
    case Address => "address"
  }

  /** `getExplorerUrl(hash, type = 'tx')` */
  function GetExplorerUrl(hash: string, kind: ExplorerKind := Tx): (url: string)
    ensures StartsWith(url, ExplorerUrl + "/")
    ensures |hash| < |url| && url[|url| - |hash|..] == hash
  {
    ExplorerUrl + "/" + KindPath(kind) + "/" + hash
  }

  /** The part of a link before the hash. */
  function ExplorerPrefix(kind: ExplorerKind): string {
    ExplorerUrl + "/" + KindPath(kind) + "/"
  }

  /** Reads the hash back out of a link of the given kind. */
  function HashOfUrl(url: string, kind: ExplorerKind): (hash: Option<string>)
    ensures hash.Some? ==> |hash.value| <= |url|
  {
    var prefix := ExplorerPrefix(kind);
    if StartsWith(url, prefix) then Some(url[|prefix|..]) else None
  }

  /** A link gives back the hash it was built from, and a link of the other kind gives nothing. */
  lemma ExplorerUrlRoundTrip(hash: string, kind: ExplorerKind)
    ensures HashOfUrl(GetExplorerUrl(hash, kind), kind) == Some(hash)
    ensures HashOfUrl(GetExplorerUrl(hash, kind), if kind == Tx then Address else Tx) == None
    ensures GetExplorerUrl(hash) == GetExplorerUrl(hash, Tx)
  {
    var url := GetExplorerUrl(hash, kind);
    var prefix := ExplorerPrefix(kind);
    assert url == prefix + hash;
    assert url[..|prefix|] == prefix;
    var other := ExplorerPrefix(if kind == Tx then Address else Tx);
    assert url[21] == prefix[21] != other[21];
  }

  /** Different hashes or kinds never share a link. */
  lemma ExplorerUrlInjective(h1: string, k1: ExplorerKind, h2: string, k2: ExplorerKind)
    requires GetExplorerUrl(h1, k1) == GetExplorerUrl(h2, k2)
    ensures h1 == h2 && k1 == k2
  {
    ExplorerUrlRoundTrip(h1, k1);
    ExplorerUrlRoundTrip(h2, k2);
  }
}
