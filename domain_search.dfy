/**
 * The availability search: the input is lower-cased as typed; a check of a
 * term clears the result for blank input, answers locally when the name
 * policy rejects the term, and otherwise asks the registry and records its
 * answer, or a failure, as a result record; the status line is derived from
 * the loading flag and that record.
 *
 * The registry's answer is a parameter: `contract.checkAvailability`
 * either answers or throws.
 */
module DomainSearch {
  import opened JsString
  import Validation
  import Web3

  /** The `searchResult` record; `error` is `None` when the property is absent. */
  datatype SearchResult = SearchResult(
    name: string,
    tld: string,
    isAvailable: bool,
    isReserved: bool,
    fee: int,
    error: Option<string>)

  /** What `contract.checkAvailability(domain, DEFAULT_TLD)` does. */
  datatype Availability = Answered(isAvailable: bool) | Threw

  const ReservedMessage: string := "This domain name is reserved and cannot be registered"
  const TakenMessage: string := "Domain is already registered"
  const FailedMessage: string := "Failed to check domain availability"

  /** The record for a name refused locally. */
  function Refused(domain: string, error: string): SearchResult {
    SearchResult(domain, Web3.DefaultTld, false, true, 0, Some(error))
  }

  /** The record the `catch` block writes. */
  function CheckFailed(domain: string): SearchResult {
    SearchResult(domain, Web3.DefaultTld, false, false, 0, Some(FailedMessage))
  }

  /**
   * What `checkDomain(domain)` leaves in `searchResult`, given the registry's
   * behaviour and the years argument the fee is computed with.
   */
  function CheckOutcome(domain: string, availability: Availability, feeYears: Web3.JsNumber): (result: Option<SearchResult>)
    ensures result.None? <==> IsBlank(domain)
    ensures result.Some? ==> result.value.name == domain && result.value.tld == Web3.DefaultTld
    ensures result.Some? && result.value.isAvailable ==> AsksRegistry(domain) && availability == Answered(true)
  {
    if IsBlank(domain) then None
    else
      var verdict := Validation.ValidateDomainName(domain);
      if verdict.Invalid? then Some(Refused(domain, verdict.Error()))
      else if Validation.IsDomainBanned(domain) then Some(Refused(domain, ReservedMessage))
      else if availability.Threw? then Some(CheckFailed(domain))
      else
        match Web3.CalculateRegistrationFeeJs(domain, feeYears)
        case None => Some(CheckFailed(domain))
        case Some(fee) =>
          var ok := availability.isAvailable;
          Some(SearchResult(domain, Web3.DefaultTld, ok, false, fee, if ok then None else Some(TakenMessage)))
  }

  /** The registry is asked only about a non-blank term that passes the name policy. */
  predicate AsksRegistry(domain: string) {
    !IsBlank(domain) && Validation.ValidateDomainName(domain).Valid? && !Validation.IsDomainBanned(domain)
  }

  /** The invariants of every result record. */
  predicate WellFormedResult(r: SearchResult) {
    && r.tld == Web3.DefaultTld
    && (r.isReserved ==> !r.isAvailable && r.fee == 0 && r.error.Some?)
    && (r.isAvailable <==> r.error.None?)
    && (r.error.Some? ==> r.error.value != "")
    && (r.error.Some? && !r.isReserved ==> r.error.value in {TakenMessage, FailedMessage})
  }

  // ---------------------------------------------------------------------------
  // Properties of a check
  // ---------------------------------------------------------------------------

  /** Blank input, and only blank input, clears the result. Every other check records a well-formed result for the term. */
  lemma CheckOutcomeWellFormed(domain: string, availability: Availability, feeYears: Web3.JsNumber)
    ensures CheckOutcome(domain, availability, feeYears).None? <==> IsBlank(domain)
    ensures var r := CheckOutcome(domain, availability, feeYears);
            r.Some? ==> WellFormedResult(r.value) && r.value.name == domain
  {
  }

  /**
   * A term the policy rejects gets a reserved record carrying the policy's
   * message, whatever the registry would have said, and the registry is not asked.
   */
  lemma PolicyRejectionIsLocal(domain: string, a1: Availability, a2: Availability, feeYears: Web3.JsNumber)
    requires !IsBlank(domain) && Validation.ValidateDomainName(domain).Invalid?
    ensures CheckOutcome(domain, a1, feeYears) == CheckOutcome(domain, a2, feeYears)
    ensures CheckOutcome(domain, a1, feeYears) == Some(Refused(domain, Validation.Message(Validation.ValidateDomainName(domain).reason)))
    ensures !AsksRegistry(domain)
  {
  }

  /** Once the policy accepts a term, the separate reserved-word branch cannot fire: every accepted term reaches the registry. */
  lemma BannedBranchUnreachable(domain: string)
    requires !IsBlank(domain) && Validation.ValidateDomainName(domain).Valid?
    ensures !Validation.IsDomainBanned(domain)
    ensures AsksRegistry(domain)
  {
    Validation.BannedNeverValid(domain);
  }

  /**
   * A registry answer for an accepted term gives an unreserved record whose
   * availability is the answer, with an error exactly when the name is
   * taken, and the one-year fee of the name.
   */
  lemma AnsweredResult(domain: string, isAvailable: bool)
    requires AsksRegistry(domain)
    ensures var r := CheckOutcome(domain, Answered(isAvailable), Web3.Num(1));
            && r.Some? && !r.value.isReserved
            && r.value.isAvailable == isAvailable
            && (r.value.error.Some? <==> !isAvailable)
            && r.value.fee == Web3.FeePerYear(|domain|)
  {
    assert Validation.ValidateDomainName(domain).Valid? && !Validation.IsDomainBanned(domain);
    assert Web3.CalculateRegistrationFeeJs(domain, Web3.Num(1)) == Some(Web3.FeePerYear(|domain|));
  }

  /** A registry that throws gives the failure record, whatever the fee would have been. */
  lemma ThrownResult(domain: string, feeYears: Web3.JsNumber)
    requires AsksRegistry(domain)
    ensures CheckOutcome(domain, Threw, feeYears) == Some(CheckFailed(domain))
    ensures !CheckFailed(domain).isAvailable && !CheckFailed(domain).isReserved && CheckFailed(domain).fee == 0
  {
  }

  /**
   * As written, the fee is computed with no years argument, which throws;
   * so every answered check ends in the failure record and no name is ever
   * reported available.
   */
  lemma AsWrittenNeverAvailable(domain: string, availability: Availability)
    ensures var r := CheckOutcome(domain, availability, Web3.Undefined);
            r.Some? ==> !r.value.isAvailable
    ensures AsksRegistry(domain) ==> CheckOutcome(domain, availability, Web3.Undefined) == Some(CheckFailed(domain))
  {
  }

  /**
   * The search box lower-cases what is typed, so a typed Kelvin sign is
   * searched as "k" and reaches the registry, although the sign itself would
   * be refused by the policy.
   */
  lemma KelvinSignTypedAsK()
    ensures Lower([KelvinSign]) == "k"
    ensures AsksRegistry(Lower([KelvinSign]))
    ensures !AsksRegistry([KelvinSign])
  {
    Validation.KelvinSignAlone();
    BannedBranchUnreachable("k");
  }

  // ---------------------------------------------------------------------------
  // Status line
  // ---------------------------------------------------------------------------

  datatype StatusIcon = Clock | Cross | Check

  /** `searchResult?.error` is truthy. */
  predicate HasError(result: Option<SearchResult>) {
    result.Some? && result.value.error.Some? && result.value.error.value != ""
  }

  /** `searchResult?.isAvailable` is truthy. */
  predicate ShowsAvailable(result: Option<SearchResult>) {
    result.Some? && result.value.isAvailable
  }

  function StatusText(isLoading: bool, result: Option<SearchResult>): (text: string)
    ensures text != ""
  {
    if isLoading then "Searching..."
    else if HasError(result) then result.value.error.value
    else if ShowsAvailable(result) then "Available"
    else "Not Available"
  }

  function StatusClass(isLoading: bool, result: Option<SearchResult>): (style: string)
    ensures style == "text-gray-500" <==> isLoading
    ensures !isLoading ==> style == "text-green-600" || style == "text-red-600"
  {
    if isLoading then "text-gray-500"
    else if HasError(result) then "text-red-600"
    else if ShowsAvailable(result) then "text-green-600"
    else "text-red-600"
  }

  function StatusIconOf(isLoading: bool, result: Option<SearchResult>): (icon: StatusIcon)
    ensures icon == Clock <==> isLoading
    ensures icon == Check ==> ShowsAvailable(result)
  {
    if isLoading then Clock
    else if HasError(result) then Cross
    else if ShowsAvailable(result) then Check
    else Cross
  }

  /**
   * Text, colour and icon agree: loading shows the clock in grey; the green
   * check appears exactly with the green colour; an error shows its message
   * in red, before availability is looked at.
   */
  lemma StatusAgrees(isLoading: bool, result: Option<SearchResult>)
    ensures isLoading ==> StatusText(isLoading, result) == "Searching..." && StatusClass(isLoading, result) == "text-gray-500"
                          && StatusIconOf(isLoading, result) == Clock
    ensures StatusClass(isLoading, result) == "text-green-600" <==> StatusIconOf(isLoading, result) == Check
    ensures StatusIconOf(isLoading, result) == Check <==> !isLoading && !HasError(result) && ShowsAvailable(result)
    ensures !isLoading && HasError(result) ==>
              StatusText(isLoading, result) == result.value.error.value && StatusClass(isLoading, result) == "text-red-600"
  {
  }

  /**
   * After a completed check, the line reads "Available", in green with the
   * check mark, exactly when the registry said the name is free; otherwise
   * it shows the record's error.
   */
  lemma StatusAfterCheck(domain: string, availability: Availability)
    requires !IsBlank(domain)
    ensures var result := CheckOutcome(domain, availability, Web3.Num(1));
            && (StatusText(false, result) == "Available" <==> result.value.isAvailable)
            && (StatusIconOf(false, result) == Check <==> result.value.isAvailable)
            && (!result.value.isAvailable ==> StatusText(false, result) == result.value.error.value)
  {
    CheckOutcomeWellFormed(domain, availability, Web3.Num(1));
    var result := CheckOutcome(domain, availability, Web3.Num(1));
    var verdict := Validation.ValidateDomainName(domain);
    if verdict.Invalid? {
      assert result.value.error.value == Validation.Message(verdict.reason);
      match verdict.reason
      case Required =>
      case TooLong =>
      case ReservedExact =>
      case ReservedSubstring =>
      case InvalidCharacters =>
      case HyphenAtEnds =>
      case DoubleHyphen =>
    }
  }

  // ---------------------------------------------------------------------------
  // The search component
  // ---------------------------------------------------------------------------

  class DomainSearch {
    var searchTerm: string
    var isSearching: bool
    var searchResult: Option<SearchResult>

    constructor()
      ensures searchTerm == "" && !isSearching && searchResult == None
    {
      searchTerm := "";
      isSearching := false;
      searchResult := None;
    }

    /** The input's `onChange`: the term is stored lower-cased, so it holds no upper-case ASCII letter. */
    method OnInput(value: string)
      modifies this
      ensures searchTerm == Lower(value)
      ensures forall i :: 0 <= i < |searchTerm| ==> !IsAsciiUpper(searchTerm[i])
      ensures isSearching == old(isSearching) && searchResult == old(searchResult)
    {
      searchTerm := Lower(value);
    }

    /**
     * `checkDomain(domain)`, with the fee computed for one year. `asked`
     * tells whether the registry was asked.
     */
    method CheckDomain(domain: string, availability: Availability) returns (asked: bool)
      modifies this
      ensures asked <==> AsksRegistry(domain)
      ensures searchResult == CheckOutcome(domain, availability, Web3.Num(1))
      ensures isSearching == (if IsBlank(domain) then old(isSearching) else false)
      ensures searchTerm == old(searchTerm)
    {
      asked := false;
      if IsBlank(domain) {
        searchResult := None;
        return;
      }
      isSearching := true;
      searchResult := None;
      var verdict := Validation.ValidateDomainName(domain);
      if verdict.Invalid? {
        searchResult := Some(Refused(domain, verdict.Error()));
      } else if Validation.IsDomainBanned(domain) {
        searchResult := Some(Refused(domain, ReservedMessage));
      } else {
        asked := true;
        match availability {
          case Threw =>
            searchResult := Some(CheckFailed(domain));
          case Answered(isAvailable) =>
            var fee := Web3.CalculateRegistrationFee(domain, 1);
            var error := if isAvailable then None else Some(TakenMessage);
            searchResult := Some(SearchResult(domain, Web3.DefaultTld, isAvailable, false, fee, error));
        }
      }
      isSearching := false;
    }
  }
}
