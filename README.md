# Pepu Domains client — a verified model

Pepu Domains is a web client for a `.pepu` name registry on the Pepe
Unchained chain. A user searches for a name, and the client checks it locally
against a naming policy before asking the registry whether the name is free.
The user then registers it for 1 to 10 years. Registration takes two
transactions: an approval of the USDC fee, then the registration. The user
can also manage the names they own: see their expiry, change the wallet a
name resolves to, and renew it.

This project models the client's core logic in Dafny and proves what that
logic guarantees.

- `js_string.dfy` (`JsString`): the JavaScript string operations the client
  relies on, over UTF-16 code units. These are ASCII `toLowerCase`,
  `includes`, `startsWith`/`endsWith`, `slice`, `trim`'s notion of blank, and
  how template literals print whole numbers.
- `validation.dfy` (`Validation`): the name policy. It holds the reserved
  word list and the ordered chain of checks in `validateDomainName`. The
  chain is stated for any reserved list, and `isDomainBanned` is defined
  against the same list.
- `web3.dfy` (`Web3`): the registration constants and the length-tiered fee
  schedule in USDC base units. It also covers address syntax, address
  shortening, and block-explorer links.
- `registration_form.dfy` (`RegistrationForm`): the registration form as a
  class. It holds the years clamp, the total fee, the schema, and the
  two-phase submission.
  - The submission is specified by `SubmitTrace`, the sequence of every
    state change and outward action it performs.
  - `Replay` derives the form's new state from that trace.
- `domain_search.dfy` (`DomainSearch`): the availability search as a class,
  with the lower-cased input and `checkDomain`. It includes the result
  record's invariants and the status line.
- `domains_page.dfy` (`DomainsPage`): the "my domains" page. It projects a
  registry record into a `DomainInfo` with an expiry flag and the remaining
  days. It also covers the search and status filters, the tab counts, and
  the loading effect.
- `domain_card.dfy` (`DomainCard`): one domain's card. It covers the expiry
  badge, the ownership test, the wallet editor and the renewal panel.

Some parts of the client depend on the outside world, and those become
parameters:

- **Time** is an integer number of milliseconds since the epoch, passed in as
  `nowMs`. Registry timestamps are whole seconds.
- **Contract calls** are values of a datatype describing what the wallet and
  the chain did. The approval, the registration, the availability query, the
  wallet update and the renewal each either return a result or throw.

## Model

| member | source | states |
|---|---|---|
| JsString.Lower | src/lib/validation.ts:24 | `toLowerCase` maps every code unit on its own, A–Z to a–z and the Kelvin sign to "k", and leaves no upper-case ASCII letter; the model keeps the length, which JavaScript does not for U+0130 |
| JsString.IsBlank | src/components/DomainSearch.tsx:31 | the empty string is blank, and a blank string holds no ASCII letter or digit |
| JsString.LowerIdempotent | src/lib/validation.ts:58 | lower-casing twice is lower-casing once |
| JsString.IncludesIsContains | src/lib/validation.ts:30-32 | the scan `includes` returns true exactly when the word occurs at some position of the string |
| JsString.Includes | src/lib/validation.ts:31 | the empty word is always found, and a word is found only in a string at least as long |
| JsString.JsSlice | src/lib/web3.ts:120 | `slice` never lengthens its input and, for in-range indices, is the plain sub-sequence |
| JsString.JsSliceFrom | src/lib/web3.ts:120 | `slice(-n)` never lengthens its input, is the last n code units when there are that many, and the whole string when there are fewer |
| JsString.DecimalRoundTrip | src/components/DomainCard.tsx:86 | the digits printed for a whole number read back as that number |
| Validation.Message | src/lib/validation.ts:14-53 | every rejection carries a non-empty error text |
| Validation.ValidateDomainName | src/lib/validation.ts:14-54 | the empty name is rejected as required; an accepted name has 1..63 code units, matches the label pattern and holds no `--` |
| Validation.IsDomainBanned | src/lib/validation.ts:57-61 | only a name of at least three code units can be banned, since every reserved word has three or more |
| Validation.ValidateAgainst | src/lib/validation.ts:14-53 | the empty name is rejected as required; every accepted name has 1..63 code units and matches the label pattern |
| Validation.SomeBannedInIsContains | src/lib/validation.ts:30-32 | the `some` scan over the reserved list holds exactly when some reserved word, lower-cased, occurs in the lower-case name |
| Validation.ExactIsSubstring | src/lib/validation.ts:24-36 | an exact reserved match is also a substring match, since a word occurs in itself |
| Validation.BannedAgainstSpec | src/lib/validation.ts:57-61 | for any reserved list, the reserved test holds exactly when a reserved word occurs in the lower-case name |
| Validation.FirstFailureAgainst | src/lib/validation.ts:14-53 | for any reserved list, the verdict names exactly the first failing check in the order empty, length, exact, substring, pattern, hyphen ends, double hyphen; `Valid` exactly when no check fails |
| Validation.WellFormedAgainst | src/lib/validation.ts:14-53 | for any reserved list, acceptance equals the order-free description: length 1..63, no reserved word, only letters, digits and hyphens, alphanumeric ends, no `--` |
| Validation.HyphenAtEndsUnreachableAgainst | src/lib/validation.ts:38-47 | for any reserved list, the start/end-hyphen rejection is never the verdict |
| Validation.IgnoresCaseAgainst | src/lib/validation.ts:14-53 | for any reserved list, lower-casing a name without the Kelvin sign first does not change its verdict |
| Validation.IsDomainBannedSpec | src/lib/validation.ts:57-61 | `isDomainBanned(n)` holds exactly when some word of `BANNED_WORDS` occurs in the lower-case `n` |
| Validation.ValidateReportsFirstFailure | src/lib/validation.ts:14-53 | `validateDomainName` reports exactly the first failing check of the chain, and accepts exactly when none fails |
| Validation.ValidIffWellFormed | src/lib/validation.ts:14-53 | the accepted names are exactly the well-formed ones: 1..63 code units, no reserved word in the lower-case name, only `[a-zA-Z0-9-]`, alphanumeric ends, no `--` |
| Validation.HyphenAtEndsUnreachable | src/lib/validation.ts:38-47 | the start/end-hyphen check never fires, because the pattern check before it rejects those names |
| Validation.BannedNeverValid | src/lib/validation.ts:14-61 | a banned name is never accepted, and for names of legal length it is banned exactly when rejected by one of the two reserved-word checks |
| Validation.ValidateIgnoresCase | src/lib/validation.ts:14-53 | for a name without the Kelvin sign, the verdict equals the verdict of its lower-case form |
| Validation.KelvinSignAlone | src/lib/validation.ts:24-42 | the lone Kelvin sign is rejected for its characters although its lower case "k" is accepted, so the verdict does not ignore case for it |
| Validation.KelvinSignReserved | src/lib/validation.ts:24-27 | "pepu-to" + Kelvin sign + "en" is banned and rejected as exactly the reserved "pepu-token" |
| Validation.BannedWordsAtLeastThree | src/lib/validation.ts:2-11 | every reserved word has at least three code units |
| Validation.RejectedForSubstring | src/lib/validation.ts:29-36 | a name of legal length that is not itself reserved but contains a reserved word is banned and rejected for containing reserved words |
| Validation.MyWalletxRejected | src/lib/validation.ts:29-36 | "mywalletx" is banned and rejected for containing "wallet" |
| Validation.HappyRejected | src/lib/validation.ts:29-36 | "happy" is banned and rejected for containing "app" |
| Validation.ShortAlnumAcceptedAgainst | src/lib/validation.ts:14-53 | a non-empty alphanumeric name shorter than every reserved word is accepted |
| Validation.ShortAlnumAccepted | src/lib/validation.ts:14-53 | every alphanumeric name of one or two code units is accepted |
| Validation.AbAccepted | src/lib/validation.ts:14-53 | "ab" passes every check |
| Web3.FeePerYear | src/lib/web3.ts:83-96 | the per-year fee is positive for every length |
| Web3.CalculateRegistrationFee | src/lib/web3.ts:82-99 | for a non-negative year count the total lies between 10 and 1000 USDC per year, and it is zero exactly for zero years |
| Web3.FeeTiers | src/lib/web3.ts:73-96 | one year costs 1000, 500, 100 or 50 USDC for one to four code units, and 10 USDC otherwise, the empty name included |
| Web3.FeeLinearInYears | src/lib/web3.ts:98 | the total is the one-year fee times the years: zero for zero years and additive in the years |
| Web3.FeeDependsOnlyOnLength | src/lib/web3.ts:83-96 | names of equal length cost the same, and all names of five or more code units cost the same |
| Web3.FeeNonIncreasing | src/lib/web3.ts:74-96 | among non-empty names a longer name never costs more per year; the empty name is charged the cheapest tier |
| Web3.FeeBounds | src/lib/web3.ts:64-98 | within the protocol's 1..60 years every total lies between 10 and 60000 USDC, below 2^53 |
| Web3.AcceptedNameLengthInRange | src/lib/web3.ts:64-70 | every name the policy accepts lies within `MIN_NAME_LENGTH`..`MAX_NAME_LENGTH` |
| Web3.CalculateRegistrationFeeJs | src/lib/web3.ts:82-99 | with `years` missing the call throws (no fee); with a number it is the schedule's total |
| Web3.IsValidAddress | src/lib/web3.ts:124-126 | a valid address is made only of ASCII letters and digits |
| Web3.AddressCase | src/lib/web3.ts:124-126 | a valid address stays valid when lower-cased; "0X" is never accepted; a lower-cased valid address with an "x" prefix was valid |
| Web3.FormatAddress | src/lib/web3.ts:118-121 | the shortened form is empty exactly when the address is empty |
| Web3.FormatAddressShape | src/lib/web3.ts:118-121 | a non-empty address shows its first six and last four code units (fewer when shorter) around "...", thirteen long from ten code units on |
| Web3.FormatValidAddress | src/lib/web3.ts:118-126 | a valid address is shown as its first six and last four code units around "...", thirteen long, starting with "0x" |
| Web3.GetExplorerUrl | src/lib/web3.ts:112-115 | a link starts with the explorer's base URL and a "/", and ends with the hash |
| Web3.ExplorerUrlRoundTrip | src/lib/web3.ts:112-115 | the hash is read back from its link; a link of the other kind gives no hash; the kind defaults to a transaction |
| Web3.ExplorerUrlInjective | src/lib/web3.ts:112-115 | two links are equal only for the same hash and the same kind |
| RegistrationForm.ClampYears | src/components/DomainRegistrationForm.tsx:81-84 | the clamped year count is always 1..10, unchanged within 1..10, 1 below and 10 above |
| RegistrationForm.ClampYearsIdempotent | src/components/DomainRegistrationForm.tsx:81-84 | clamping twice is clamping once, and the result lies in the protocol's 1..60 years |
| RegistrationForm.TotalFee | src/components/DomainRegistrationForm.tsx:66-67 | one year costs the base fee, and more years never cost less than one |
| RegistrationForm.SchemaAccepts | src/components/DomainRegistrationForm.tsx:21-24 | an accepted form has a 42-code-unit wallet address and a year count within the protocol's 1..60 |
| RegistrationForm.TotalFeeMatchesSchedule | src/components/DomainRegistrationForm.tsx:66-67 | with the one-year fee as the base, the form's total is the fee schedule's total for the years, at most 10000 USDC |
| RegistrationForm.ToastText | src/components/DomainRegistrationForm.tsx:131 | the error toast shows the error's message, or "Registration failed" when it has none, and is never empty |
| RegistrationForm.PhaseErrorNamesCause | src/components/DomainRegistrationForm.tsx:99-119 | a failed phase reports the call's own error, the phase's fallback text when the call gave none, or the rejected confirmation's reason |
| RegistrationForm.SubmitTrace | src/components/DomainRegistrationForm.tsx:86-136 | a submission of an available name first sets the form busy and last clears it, whatever fails in between; an unavailable name never sets it busy |
| RegistrationForm.ReplayAppend | src/components/DomainRegistrationForm.tsx:86-136 | performing two pieces of a trace in turn is performing their concatenation |
| RegistrationForm.SelectionsAppend | src/components/DomainRegistrationForm.tsx:86-136 | the steps entered, the calls made, the errors shown and whether success was announced are read piece by piece from a trace |
| RegistrationForm.UnavailableRefused | src/components/DomainRegistrationForm.tsx:87-90 | an unavailable name makes no call, shows "Domain is not available" and changes no state |
| RegistrationForm.CallsMade | src/components/DomainRegistrationForm.tsx:92-114 | the approval of the total fee is always the first call; the registration with the form's values follows only a passed approval; nothing is retried |
| RegistrationForm.RegisteredYears | src/components/DomainRegistrationForm.tsx:111 | the registration call asks for exactly the form's year count |
| RegistrationForm.StepsTaken | src/components/DomainRegistrationForm.tsx:92-132 | the steps are approve, then register only after a passed approval, then success only after a passed registration; any failure returns to the form |
| RegistrationForm.OutcomeReported | src/components/DomainRegistrationForm.tsx:92-132 | success is announced exactly when both phases pass; otherwise exactly one error is shown, naming the failed phase's cause |
| RegistrationForm.SubmitFinalView | src/components/DomainRegistrationForm.tsx:92-135 | afterwards the form is not busy, is on the success step exactly when both phases passed (else the form step), and shows the registration's hash exactly when the registration call itself succeeded |
| RegistrationForm.RegistrationForm.constructor | src/components/DomainRegistrationForm.tsx:43-62 | the form starts on its first step, not busy, with no hash, one year, and the connected address in the field |
| RegistrationForm.RegistrationForm.OnAddressChange | src/components/DomainRegistrationForm.tsx:70-74 | a connected address replaces the address field; no address leaves it alone |
| RegistrationForm.RegistrationForm.EditWalletAddress | src/components/DomainRegistrationForm.tsx:269-270 | typing replaces the address field and nothing else |
| RegistrationForm.RegistrationForm.HandleYearsChange | src/components/DomainRegistrationForm.tsx:77-84 | the year counter becomes the clamped value and stays within 1..10 |
| RegistrationForm.RegistrationForm.OnSubmit | src/components/DomainRegistrationForm.tsx:86-136 | a submission performs exactly the specified trace for the form's current request, its new state is that trace replayed over the old one, and any registration asks for 1..10 years |
| RegistrationForm.RegistrationForm.HandleSubmit | src/components/DomainRegistrationForm.tsx:314-323 | nothing happens unless the form is shown, the wallet connected, the schema satisfied and no submission running; otherwise it is a submission, and any registration asks for 1..10 years |
| DomainSearch.CheckOutcomeWellFormed | src/components/DomainSearch.tsx:30-93 | blank input, and only blank input, clears the result; every other check records a result for the term with the default suffix, reserved ⇒ unavailable with zero fee and an error, available ⇔ no error |
| DomainSearch.CheckOutcome | src/components/DomainSearch.tsx:30-93 | no result exactly for blank input; every result is for the term with the default suffix; "available" only for a term the registry was asked about and answered free |
| DomainSearch.PolicyRejectionIsLocal | src/components/DomainSearch.tsx:41-52 | a name the policy rejects gets a reserved record with the policy's message, whatever the registry would say, and the registry is not asked |
| DomainSearch.BannedBranchUnreachable | src/components/DomainSearch.tsx:55-65 | once the policy accepts a name the separate reserved branch cannot fire, so every accepted name reaches the registry |
| DomainSearch.AnsweredResult | src/components/DomainSearch.tsx:68-78 | a registry answer gives an unreserved record whose availability is the answer, with an error exactly when taken, and the one-year fee |
| DomainSearch.ThrownResult | src/components/DomainSearch.tsx:80-89 | a registry that throws gives the failure record: unavailable, unreserved, zero fee, "Failed to check domain availability" |
| DomainSearch.AsWrittenNeverAvailable | src/components/DomainSearch.tsx:68-89 | with the fee computed without years, no name is ever reported available and every accepted name ends in the failure record |
| DomainSearch.StatusIconOf | src/components/DomainSearch.tsx:101-115 | the clock shows exactly while loading, and the check mark only for a result reported available |
| DomainSearch.StatusText | src/components/DomainSearch.tsx:117-122 | the status line is never empty |
| DomainSearch.StatusClass | src/components/DomainSearch.tsx:124-129 | grey exactly while loading, otherwise green or red |
| DomainSearch.StatusAgrees | src/components/DomainSearch.tsx:101-129 | text, colour and icon follow one priority: loading, then an error in red, then "Available" in green with the check mark, then "Not Available" |
| DomainSearch.StatusAfterCheck | src/components/DomainSearch.tsx:101-129 | after a check the line reads "Available" with the check mark exactly when the record says available, and otherwise shows its error |
| DomainSearch.DomainSearch.constructor | src/components/DomainSearch.tsx:16-25 | the search starts with an empty term, not searching, with no result |
| DomainSearch.DomainSearch.OnInput | src/components/DomainSearch.tsx:141 | the stored term is the lower-cased input and holds no upper-case ASCII letter |
| DomainSearch.KelvinSignTypedAsK | src/components/DomainSearch.tsx:141 | a typed Kelvin sign is stored as "k", which the registry is asked about, while the Kelvin sign itself would be rejected locally |
| DomainSearch.DomainSearch.CheckDomain | src/components/DomainSearch.tsx:30-93 | the registry is asked exactly for non-blank terms the policy accepts; the result is the specified outcome; a non-blank check ends not searching |
| DomainsPage.RemainingDays | src/app/domains/page.tsx:57 | the remaining days are never negative |
| DomainsPage.Project | src/app/domains/page.tsx:46-58 | the projection copies the record, scales the timestamps to milliseconds, is expired exactly when now is strictly past expiry, and has non-negative remaining days |
| DomainsPage.RemainingDaysBounds | src/app/domains/page.tsx:57 | the remaining days are the whole days left, rounded down, and zero with less than a day left or after expiry |
| DomainsPage.ExpiredHasNoDaysLeft | src/app/domains/page.tsx:56-57 | an expired domain has zero remaining days |
| DomainsPage.ExactlyOneStatus | src/app/domains/page.tsx:85-94 | every domain is exactly one of active, expiring and expired |
| DomainsPage.SearchIsCaseInsensitiveSubstring | src/app/domains/page.tsx:80-82 | the search keeps a domain exactly when the term is empty or occurs in the name ignoring case, and lower-casing the term changes nothing |
| DomainsPage.FilteredDomains | src/app/domains/page.tsx:78-95 | the shown list is no longer than the full list, and every shown domain passes both the search and the status filter |
| DomainsPage.FilteredMembers | src/app/domains/page.tsx:78-95 | a domain is shown exactly when it is in the list and both the search and the status filter keep it |
| DomainsPage.FilteredIsSubsequence | src/app/domains/page.tsx:78-95 | the shown list is the full list with some domains left out, in the same order |
| DomainsPage.NoSearchAllShowsEverything | src/app/domains/page.tsx:78-95 | with no search term and the `all` tab every domain is shown, in order |
| DomainsPage.CountsPartition | src/app/domains/page.tsx:97-104 | the active, expiring and expired counts add up to the `all` count |
| DomainsPage.GetFilterCounts | src/app/domains/page.tsx:97-104 | the `all` count is the number of domains, and each status count is at most that |
| DomainsPage.CountsMatchTabs | src/app/domains/page.tsx:78-104 | each tab's count is the length of the list that tab shows while the search box is empty |
| DomainsPage.DomainsPage.constructor | src/app/domains/page.tsx:17-20 | the page starts with no domains, loading |
| DomainsPage.DomainsPage.FetchDomains | src/app/domains/page.tsx:28-71 | disconnected, no address or no registered name gives the empty list; a registry record gives the one projected domain; otherwise the list is kept; loading ends |
| DomainCard.IsExpired | src/components/DomainCard.tsx:44 | an expired card has a day count of at most zero, and a card not expired a count of at least zero |
| DomainCard.DaysUntilExpiry | src/components/DomainCard.tsx:45 | before expiry the count is non-negative and at most the time left in days; after expiry it is non-positive and at most the time past |
| DomainCard.IsExpiringSoon | src/components/DomainCard.tsx:46 | an expiring card is not expired and has at least one and under thirty-one days of time left |
| DomainCard.DaysUntilExpiryBounds | src/components/DomainCard.tsx:45 | the day count is the time left in whole days, rounded toward zero on both sides of expiry |
| DomainCard.ExpiringSoonWindow | src/components/DomainCard.tsx:45-46 | a card is expiring soon exactly when at least one and under thirty-one days remain |
| DomainCard.ExpiredNeverExpiringSoon | src/components/DomainCard.tsx:44-46 | an expired card is never expiring soon |
| DomainCard.IntString | src/components/DomainCard.tsx:86 | a non-negative day count is printed as its decimal digits |
| DomainCard.StatusColor | src/components/DomainCard.tsx:78-82 | the colour is green exactly for a card neither expired nor expiring soon |
| DomainCard.StatusText | src/components/DomainCard.tsx:84-88 | the badge text is never empty, and an expiring card reads "Expires in N days" with N in decimal |
| DomainCard.StatusIcon | src/components/DomainCard.tsx:90-94 | the warning triangle shows exactly for an expired card, the check circle exactly for an active one |
| DomainCard.StatusHelpersAgree | src/components/DomainCard.tsx:78-94 | text, colour and icon follow one priority: expired, then expiring soon, then active |
| DomainCard.BadgeOfCard | src/components/DomainCard.tsx:44-94 | an expired card reads "Expired"; an expiring card reads "Expires in N days" with N between 1 and 30; any other reads "Active" |
| DomainCard.ExpiryBoundary | src/components/DomainCard.tsx:44 | the card and the page disagree on expiry only at the expiry millisecond itself, where the card says expired |
| DomainCard.DaysAgreeWithPage | src/components/DomainCard.tsx:45 | while the card is not expired its day count equals the page's remaining days |
| DomainCard.LastDayShownActive | src/components/DomainCard.tsx:46 | with less than a day left the page lists the domain as expiring but the card shows it "Active" |
| DomainCard.IntendedStatusMatchesPage | src/components/DomainCard.tsx:44-46 | with the last day counted as expiring, the card's badge and the page's tabs classify every domain alike, away from the expiry millisecond |
| DomainCard.IsOwner | src/components/DomainCard.tsx:47 | the owner needs a connected address of the owner's length |
| DomainCard.OwnerIgnoresCase | src/components/DomainCard.tsx:47 | no connected address is never the owner; ownership ignores letter case on both sides; the owner's own address is the owner |
| DomainCard.OwnerNeedsSameAddress | src/components/DomainCard.tsx:47 | an address differing from the owner at some position other than in letter case is not the owner |
| DomainCard.OwnerNeedsSameLength | src/components/DomainCard.tsx:47 | an address of another length is never the owner |
| DomainCard.DomainCard.constructor | src/components/DomainCard.tsx:36-39 | a card starts with the editor and the renewal panel closed, the current wallet in the field and one renewal year |
| DomainCard.DomainCard.ToggleEditing | src/components/DomainCard.tsx:113 | the pencil button, shown only to the owner, opens or closes the editor and changes nothing else |
| DomainCard.DomainCard.EditNewWalletAddress | src/components/DomainCard.tsx:139-140 | typing replaces the new wallet field and nothing else |
| DomainCard.DomainCard.CancelEditing | src/components/DomainCard.tsx:151-154 | Cancel closes the editor and restores the current wallet |
| DomainCard.DomainCard.HandleUpdateWallet | src/components/DomainCard.tsx:49-63 | an empty or unchanged address only closes the editor, with no call; otherwise the wallet is written, and only a submitted write closes the editor and notifies the page |
| DomainCard.DomainCard.ToggleRenewing | src/components/DomainCard.tsx:120 | the renew button, shown only to the owner, shows or hides the renewal panel and changes nothing else |
| DomainCard.DomainCard.SelectRenewalYears | src/components/DomainCard.tsx:205-214 | for the owner, choosing one of the offered periods sets the renewal years within 1..10 |
| DomainCard.DomainCard.HandleRenewal | src/components/DomainCard.tsx:65-76 | the owner's renewal asks for the chosen 1..10 years, notifies the page exactly when submitted, and always ends not renewing |

## Left out

- Lower-casing covers A–Z and the Kelvin sign (U+212A, which becomes "k"). JavaScript's `toLowerCase` also maps other scripts, and maps U+0130 to two code units. Those mappings are not modelled, so `Lower` keeps the length. Strings are UTF-16 code units, one `char` each, so `|s|` is `.length`.
- Validation.ValidateIgnoresCase and Validation.IgnoresCaseAgainst hold only for names without the Kelvin sign: the reserved-word checks see its lower case while the pattern check sees the name itself (Validation.KelvinSignAlone, Validation.KelvinSignReserved).
- The regular expressions are stated as character predicates, not run by a regex engine.
- `formatUSDC` and `parseUSDC` (src/lib/web3.ts:102-109) are not modelled. The same goes for every `Number(x) / 1e6` display and the `parseFloat` multiples in the search hints. All of these are floating point.
- `BigInt(years)` throws for a non-integer `years`. Years here are integers, and the only missing-argument case modelled is `CalculateRegistrationFeeJs`.
- The fee schedule does not check the year range: `MIN_YEARS` and `MAX_YEARS` are never consulted by `calculateRegistrationFee`. The model keeps it unchecked and only proves bounds within the range.
- The contract hook (src/hooks/useContract.ts) is not part of this model. The approval, the registration, the availability query and the two card writes are parameters describing what each call did.
  - `usePepuDomainsContract`, the hook the form and the search call, defines neither `approveUSDC` nor `checkAvailability`, and its `registerDomain` takes three arguments, not four. `approveUSDC` is defined by `useUSDCContract` (src/hooks/useContract.ts:216).
- Toasts are recorded only as the error texts the form shows (`Alert`). Loading and success toasts, the console logging and the search's toasts are not modelled.
- The card's toasts and the text of its errors are not modelled. A failed card write is only a `Failed` outcome.
- `await result.wait?.()`: a result without `wait` proceeds as if confirmed, as in the code.
- `RegistrationForm.RegistrationForm.OnSubmit` does not model the submission's interleaving with other events. That includes a second press while the first is awaiting; only the disabled button (`HandleSubmit`) guards against one. Concurrency and re-entrancy are left out.
- The search's debounce is not modelled, and neither is the absence of a stale-response guard. `CheckDomain` runs on the term it is given.
- `DomainSearch.DomainSearch.CheckDomain` models the corrected fee call, for one year (see Findings). `DomainSearch.AsWrittenNeverAvailable` states what the code as written does.
- The search result's fee is shown in raw base units at src/components/DomainSearch.tsx:169. The hard-coded price hints (src/components/DomainSearch.tsx:228-231, src/app/page.tsx, src/app/register/page.tsx) disagree with `FEE_STRUCTURE`. Both are display text and are not modelled.
- The clock is a parameter. src/app/domains/page.tsx reads it twice, in `new Date()` and `Date.now()`, and the model uses one instant for both.
- `differenceInDays` is taken as whole 24-hour periods, truncated toward zero. Calendar and daylight-saving effects are not modelled. `Math.floor` of a floating-point quotient is modelled as exact integer division.
- `DomainsPage.DomainsPage.FetchDomains` takes the wallet's registered name and the registry record as parameters. A failed or empty registry read is `None`, and the page's refetch after an update is not modelled.
- The card's formatted dates, the form's "Expires" estimate and the expiry warning panel's colours are not modelled. The card's expiry instant is the page's `expiryTimestamp * 1000`.
- `DomainCard.DomainCard.HandleRenewal` is modelled as one step. `isRenewing` also controls the panel's visibility: it is set true at the start and false at the end, and only the final value is observable.
- `REGISTRATION_CONSTANTS.MAX_BATCH_SIZE` is kept as a constant. No batch operation exists in the core.
- Wallet connection, network switching, layout, pages and configuration are not part of this model.

## Findings

| source | as written | input that shows it | evidently intended | confidence | as-written member | corrected member |
|---|---|---|---|---|---|---|
| src/components/DomainSearch.tsx:69 | `calculateRegistrationFee(domain)` passes no `years`, so `BigInt(undefined)` throws and every answered check falls into the `catch` | the name "ab", answered as available: the result is "Failed to check domain availability", never "Available" | the fee for one year, and the registry's answer shown | high (not executed) | DomainSearch.AsWrittenNeverAvailable | DomainSearch.AnsweredResult |
| src/components/DomainCard.tsx:46 | `daysUntilExpiry > 0` leaves out the last day: with under 24 hours left the badge reads "Active" with a green check | expiry 43,200,000 ms after now: the page (src/app/domains/page.tsx:89) files it under "Expiring", the card shows "Active" | any non-expired domain with at most 30 days left is expiring soon, as the page and its help text (src/app/domains/page.tsx:284) say | medium (not executed) | DomainCard.LastDayShownActive | DomainCard.IntendedStatusMatchesPage |
