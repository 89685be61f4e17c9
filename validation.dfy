/**
 * The client-side name policy: an ordered chain of checks on a candidate
 * name, each of which rejects with its own message, and the quick
 * "is this name reserved" test beside it.
 */
module Validation {
  import opened JsString

  /**
   * The reserved words, one row per line of the original list. A name whose
   * lower-case form contains one of them is rejected.
   */
  const BannedWords: seq<string> :=
    ["pepeunchained", "pepeunchainedairdrop", "pepeunchained-airdrop", "pepeunchainedfree", "pepeunchained-mint"] +
    ["pepeunchainedmint", "pepeunchained-mintnow", "pepeunchainedclaim", "pepeunchained-claim", "pepeunchainedpresale"] +
    ["pepeunchained-sale", "pepeunchainedbuy", "pepeunchainedapp", "pepeunchainedlogin", "pepeunchainedwallet"] +
    ["pepeunchainedportal", "pepeunchainedsupport", "pepeunchained-support", "pepeunchainedadmin", "pepeunchained-team"] +
    ["pepeunchainedofficial", "pepeunchainedmod", "officialpepeunchained", "pepu-token", "pepe-token", "pepe-token-claim"] +
    ["pepu-token-airdrop", "realpepeunchained", "realpepu", "buy-pepeunchained", "buy-pepu", "pepeunchained-nft"] +
    ["pepewallet", "pepuwallet", "admin", "official", "support", "test", "app", "pepuns", "pns", "pepuname", "pepunames"] +
    ["pepunameservice", "wallet", "pens", "ramp", "onramp", "offramp", "buy"]

  /** The checks of the chain, in the order they run. */
  datatype Reason =
    | Required
    | TooLong
    | ReservedExact
    | ReservedSubstring
    | InvalidCharacters
    | HyphenAtEnds
    | DoubleHyphen

  /** The `error` text the client shows for each failed check. */
  function Message(r: Reason): (text: string)
    ensures text != ""
  {
    match r
    case Required => "Domain name is required"
    case TooLong => "Domain name too long (max 63 characters)"
    case ReservedExact => "This domain name is reserved and cannot be registered"
    case ReservedSubstring => "Domain name contains reserved words and cannot be registered"
    case InvalidCharacters => "Invalid characters in domain name. Use only letters, numbers, and hyphens (not at start/end)"
    case HyphenAtEnds => "Domain name cannot start or end with a hyphen"
    case DoubleHyphen => "Domain name cannot contain consecutive hyphens"
  }

  /** `{ isValid: true }` or `{ isValid: false, error }`. */
  datatype Verdict = Valid | Invalid(reason: Reason) {
    function Error(): string
      requires Invalid?
    {
      Message(reason)
    }
  }

  const MaxNameLength: nat := 63

  /** A code unit of `[a-zA-Z0-9-]`. */
  predicate IsLabelChar(c: char) {
    IsAsciiAlnum(c) || c == '-'
  }

  /**
   * The pattern `^[a-zA-Z0-9]([a-zA-Z0-9-]*[a-zA-Z0-9])?$`: a non-empty run
   * of letters, digits and hyphens whose first and last code units are
   * letters or digits.
   */
  predicate MatchesPattern(s: string) {
    && |s| >= 1
    && IsAsciiAlnum(s[0])
    && IsAsciiAlnum(s[|s| - 1])
    && forall i :: 0 <= i < |s| ==> IsLabelChar(s[i])
  }

  /** `words.some(w => lowerName.includes(w.toLowerCase()))` */
  function SomeBannedIn(words: seq<string>, lowerName: string): bool {
    |words| > 0 && (Includes(lowerName, Lower(words[0])) || SomeBannedIn(words[1..], lowerName))
  }

  /**
   * The chain of checks of `validateDomainName`, against a given list of
   * reserved words: the first failing check decides the verdict.
   */
  function ValidateAgainst(banned: seq<string>, name: string): (v: Verdict)
    ensures |name| == 0 ==> v == Invalid(Required)
    ensures v.Valid? ==> 1 <= |name| <= MaxNameLength && MatchesPattern(name)
  {
    if |name| == 0 then Invalid(Required)
    else if |name| > MaxNameLength then Invalid(TooLong)
    else
      var lowerName := Lower(name);
      if lowerName in banned then Invalid(ReservedExact)
      else if SomeBannedIn(banned, lowerName) then Invalid(ReservedSubstring)
      else if !MatchesPattern(name) then Invalid(InvalidCharacters)
      else if StartsWith(name, "-") || EndsWith(name, "-") then Invalid(HyphenAtEnds)
      else if Includes(name, "--") then Invalid(DoubleHyphen)
      else Valid
  }

  /** `validateDomainName` */
  function ValidateDomainName(name: string): (v: Verdict)
    ensures |name| == 0 ==> v == Invalid(Required)
    ensures v.Valid? ==> 1 <= |name| <= MaxNameLength && MatchesPattern(name) && !Includes(name, "--")
  {
    ValidateAgainst(BannedWords, name)
  }

  /** The test of `isDomainBanned`, against a given list of reserved words. */
  function IsBannedAgainst(banned: seq<string>, name: string): bool {
    var lowerName := Lower(name);
    lowerName in banned || SomeBannedIn(banned, lowerName)
  }

  /** `isDomainBanned`: an exact or a substring match of a reserved word, case-insensitively. */
  function IsDomainBanned(name: string): (banned: bool)
    ensures banned ==> 3 <= |name|
  {
    BannedWordsAtLeastThree();
    BannedAgainstSpec(BannedWords, name);
    IsBannedAgainst(BannedWords, name)
  }

  // ---------------------------------------------------------------------------
  // Reference definitions
  // ---------------------------------------------------------------------------

  /** Some word of `banned` occurs in `lowerName` (compared in lower case). */
  ghost predicate ContainsBannedWord(banned: seq<string>, lowerName: string) {
    exists w :: w in banned && Contains(lowerName, Lower(w))
  }

  /** What an acceptable name looks like, stated without the order of the checks. */
  ghost predicate WellFormed(banned: seq<string>, name: string) {
    && 1 <= |name| <= MaxNameLength
    && !ContainsBannedWord(banned, Lower(name))
    && (forall i :: 0 <= i < |name| ==> IsLabelChar(name[i]))
    && IsAsciiAlnum(name[0])
    && IsAsciiAlnum(name[|name| - 1])
    && !Contains(name, "--")
  }

  /** Whether the check for `r` fails on `name`, judged on its own. */
  ghost predicate Fails(banned: seq<string>, name: string, r: Reason) {
    match r
    case Required => |name| == 0
    case TooLong => |name| > MaxNameLength
    case ReservedExact => Lower(name) in banned
    case ReservedSubstring => ContainsBannedWord(banned, Lower(name))
    case InvalidCharacters => !MatchesPattern(name)
    case HyphenAtEnds => StartsWith(name, "-") || EndsWith(name, "-")
    case DoubleHyphen => Contains(name, "--")
  }

  /** The position of each check in the chain. */
  function Rank(r: Reason): nat {
    match r
    case Required => 0
    case TooLong => 1
    case ReservedExact => 2
    case ReservedSubstring => 3
    case InvalidCharacters => 4
    case HyphenAtEnds => 5
    case DoubleHyphen => 6
  }

  // ---------------------------------------------------------------------------
  // Properties of the chain, for any reserved list
  // ---------------------------------------------------------------------------

  /** The `some` scan over a word list agrees with "some word of the list occurs". */
  lemma {:induction false} SomeBannedInIsContains(words: seq<string>, lowerName: string)
    ensures SomeBannedIn(words, lowerName) <==> ContainsBannedWord(words, lowerName)
  {
    if |words| > 0 {
      IncludesIsContains(lowerName, Lower(words[0]));
      SomeBannedInIsContains(words[1..], lowerName);
      forall w | w in words && Contains(lowerName, Lower(w)) && w != words[0]
        ensures w in words[1..]
      {
        var k :| 0 <= k < |words| && words[k] == w;
        assert words[1..][k - 1] == w;
      }
    }
  }

  /** An exact match is a special case of a substring match. */
  lemma ExactIsSubstring(banned: seq<string>, name: string)
    requires Lower(name) in banned
    ensures ContainsBannedWord(banned, Lower(name))
  {
    var l := Lower(name);
    LowerIdempotent(name);
    ContainsSelf(l);
    assert Contains(l, Lower(l));
  }

  /** The reserved test holds exactly when a reserved word occurs in the lower-case name. */
  lemma BannedAgainstSpec(banned: seq<string>, name: string)
    ensures IsBannedAgainst(banned, name) <==> ContainsBannedWord(banned, Lower(name))
  {
    SomeBannedInIsContains(banned, Lower(name));
    if Lower(name) in banned {
      ExactIsSubstring(banned, name);
    }
  }

  lemma FirstFailureAgainst(banned: seq<string>, name: string, r: Reason)
    ensures ValidateAgainst(banned, name) == Invalid(r) <==>
              Fails(banned, name, r) && forall q :: Rank(q) < Rank(r) ==> !Fails(banned, name, q)
    ensures ValidateAgainst(banned, name) == Valid <==> forall q :: !Fails(banned, name, q)
  {
    SomeBannedInIsContains(banned, Lower(name));
    IncludesIsContains(name, "--");
    assert Rank(Required) == 0 && Rank(TooLong) == 1 && Rank(ReservedExact) == 2;
    assert Rank(ReservedSubstring) == 3 && Rank(InvalidCharacters) == 4;
    assert Rank(HyphenAtEnds) == 5 && Rank(DoubleHyphen) == 6;
    var v := ValidateAgainst(banned, name);
    if v == Valid {
      forall q ensures !Fails(banned, name, q) {
      }
    } else {
      assert Fails(banned, name, v.reason);
    }
  }

  lemma WellFormedAgainst(banned: seq<string>, name: string)
    ensures ValidateAgainst(banned, name).Valid? <==> WellFormed(banned, name)
  {
    SomeBannedInIsContains(banned, Lower(name));
    IncludesIsContains(name, "--");
    if 1 <= |name| && Lower(name) in banned {
      ExactIsSubstring(banned, name);
    }
  }

  lemma HyphenAtEndsUnreachableAgainst(banned: seq<string>, name: string)
    ensures ValidateAgainst(banned, name) != Invalid(HyphenAtEnds)
  {
    if 1 <= |name| <= MaxNameLength && MatchesPattern(name) {
      assert name[..1] == [name[0]];
      assert name[|name| - 1..] == [name[|name| - 1]];
    }
  }

  lemma IgnoresCaseAgainst(banned: seq<string>, name: string)
    requires NoKelvinSign(name)
    ensures ValidateAgainst(banned, Lower(name)) == ValidateAgainst(banned, name)
  {
    var l := Lower(name);
    LowerIdempotent(name);
    assert MatchesPattern(l) <==> MatchesPattern(name) by {
      if |name| >= 1 {
        assert IsAsciiAlnum(l[0]) <==> IsAsciiAlnum(name[0]);
        assert IsAsciiAlnum(l[|l| - 1]) <==> IsAsciiAlnum(name[|name| - 1]);
        assert (forall i :: 0 <= i < |l| ==> IsLabelChar(l[i])) <==> (forall i :: 0 <= i < |name| ==> IsLabelChar(name[i]));
      }
    }
    if |name| >= 1 {
      assert l[..1] == [l[0]] && name[..1] == [name[0]];
      assert l[|l| - 1..] == [l[|l| - 1]] && name[|name| - 1..] == [name[|name| - 1]];
    }
    IncludesIsContains(l, "--");
    IncludesIsContains(name, "--");
    ContainsUnderLower(name, "--");
  }

  // ---------------------------------------------------------------------------
  // Properties of `validateDomainName` and `isDomainBanned`
  // ---------------------------------------------------------------------------

  /** `isDomainBanned(n)` holds exactly when a reserved word occurs in the lower-case form of `n`. */
  lemma IsDomainBannedSpec(name: string)
    ensures IsDomainBanned(name) <==> ContainsBannedWord(BannedWords, Lower(name))
  {
    BannedAgainstSpec(BannedWords, name);
  }

  /** The verdict is `Invalid(r)` exactly for the first check `r` that fails, and `Valid` when none does. */
  lemma ValidateReportsFirstFailure(name: string, r: Reason)
    ensures ValidateDomainName(name) == Invalid(r) <==>
              Fails(BannedWords, name, r) && forall q :: Rank(q) < Rank(r) ==> !Fails(BannedWords, name, q)
    ensures ValidateDomainName(name) == Valid <==> forall q :: !Fails(BannedWords, name, q)
  {
    FirstFailureAgainst(BannedWords, name, r);
  }

  /** Accepted names are exactly the well-formed ones. */
  lemma ValidIffWellFormed(name: string)
    ensures ValidateDomainName(name).Valid? <==> WellFormed(BannedWords, name)
  {
    WellFormedAgainst(BannedWords, name);
  }

  /** The start/end-hyphen check never fires: the pattern check before it already rejects such names. */
  lemma HyphenAtEndsUnreachable(name: string)
    ensures ValidateDomainName(name) != Invalid(HyphenAtEnds)
  {
    HyphenAtEndsUnreachableAgainst(BannedWords, name);
  }

  /**
   * A reserved name is never accepted; a name within the length limits is
   * rejected for reserved words exactly when it is reserved.
   */
  lemma BannedNeverValid(name: string)
    ensures IsDomainBanned(name) ==> !ValidateDomainName(name).Valid?
    ensures 1 <= |name| <= MaxNameLength ==>
              (IsDomainBanned(name) <==> ValidateDomainName(name).Invalid? && ValidateDomainName(name).reason in {ReservedExact, ReservedSubstring})
  {
  }

  /**
   * The policy does not depend on ASCII letter case: for a name without the
   * Kelvin sign, lower-casing it first changes nothing.
   */
  lemma ValidateIgnoresCase(name: string)
    requires NoKelvinSign(name)
    ensures ValidateDomainName(Lower(name)) == ValidateDomainName(name)
  {
    IgnoresCaseAgainst(BannedWords, name);
  }

  /**
   * Two names with the same lower case meet the reserved-word checks alike;
   * so if one is accepted and the other fails the pattern, the other is
   * rejected for its characters.
   */
  lemma SameLowerCaseAgainst(banned: seq<string>, accepted: string, other: string)
    requires Lower(accepted) == Lower(other)
    requires ValidateAgainst(banned, accepted) == Valid
    requires !MatchesPattern(other)
    ensures ValidateAgainst(banned, other) == Invalid(InvalidCharacters)
  {
  }

  /** A name of legal length whose lower case is a reserved word is rejected as exactly reserved, and is banned. */
  lemma ExactlyReservedAgainst(banned: seq<string>, name: string)
    requires 1 <= |name| <= MaxNameLength
    requires Lower(name) in banned
    ensures ValidateAgainst(banned, name) == Invalid(ReservedExact)
    ensures IsBannedAgainst(banned, name)
  {
  }

  /**
   * The Kelvin sign is the exception to case-insensitivity: the reserved-word
   * checks see it as "k" while the pattern check sees the name itself. Alone
   * it is rejected for its characters although its lower case "k" is
   * accepted.
   */
  lemma KelvinSignAlone()
    ensures ValidateDomainName([KelvinSign]) == Invalid(InvalidCharacters)
    ensures Lower([KelvinSign]) == "k" && ValidateDomainName("k") == Valid
  {
    assert Lower([KelvinSign]) == "k";
    assert Lower("k") == "k";
    ShortAlnumAccepted("k");
    SameLowerCaseAgainst(BannedWords, "k", [KelvinSign]);
  }

  /** Inside "pepu-to\u212Aen" the Kelvin sign makes the name exactly the reserved "pepu-token". */
  lemma KelvinSignReserved()
    ensures IsDomainBanned("pepu-to" + [KelvinSign] + "en")
    ensures ValidateDomainName("pepu-to" + [KelvinSign] + "en") == Invalid(ReservedExact)
  {
    var name := "pepu-to" + [KelvinSign] + "en";
    assert Lower(name) == "pepu-token";
    assert BannedWords[23] == "pepu-token";
    ExactlyReservedAgainst(BannedWords, name);
  }

  /** Every reserved word has at least three code units. */
  lemma BannedWordsAtLeastThree()
    ensures forall w :: w in BannedWords ==> 3 <= |w|
  {
  }

  /** A name within the length limit that is not itself reserved but contains a reserved word fails the substring check. */
  lemma RejectedForSubstring(name: string, w: string, at: nat)
    requires 1 <= |name| <= MaxNameLength
    requires Lower(name) !in BannedWords
    requires w in BannedWords && OccursAt(Lower(name), Lower(w), at)
    ensures IsDomainBanned(name)
    ensures ValidateDomainName(name) == Invalid(ReservedSubstring)
  {
    assert Fails(BannedWords, name, ReservedSubstring);
    forall q | Rank(q) < Rank(ReservedSubstring) ensures !Fails(BannedWords, name, q) {
    }
    ValidateReportsFirstFailure(name, ReservedSubstring);
    IsDomainBannedSpec(name);
  }

  /** "mywalletx" is rejected because it contains "wallet". */
  lemma MyWalletxRejected()
    ensures IsDomainBanned("mywalletx")
    ensures ValidateDomainName("mywalletx") == Invalid(ReservedSubstring)
  {
    assert Lower("mywalletx") == "mywalletx";
    assert Lower("wallet") == "wallet";
    RejectedForSubstring("mywalletx", "wallet", 2);
  }

  /** "happy" is rejected because it contains "app". */
  lemma HappyRejected()
    ensures IsDomainBanned("happy")
    ensures ValidateDomainName("happy") == Invalid(ReservedSubstring)
  {
    assert Lower("happy") == "happy";
    assert Lower("app") == "app";
    RejectedForSubstring("happy", "app", 1);
  }

  lemma ShortAlnumAcceptedAgainst(banned: seq<string>, name: string)
    requires 1 <= |name| <= MaxNameLength
    requires forall i :: 0 <= i < |name| ==> IsAsciiAlnum(name[i])
    requires forall w :: w in banned ==> |name| < |w|
    ensures ValidateAgainst(banned, name) == Valid
  {
    forall w | w in banned ensures !Contains(Lower(name), Lower(w)) {
      if Contains(Lower(name), Lower(w)) {
        ContainsLength(Lower(name), Lower(w));
      }
    }
    if Contains(name, "--") {
      var i :| OccursAt(name, "--", i);
      assert name[i..i + 2][0] == '-';
    }
    WellFormedAgainst(banned, name);
  }

  /**
   * Every name of one or two letters and digits is accepted: each reserved
   * word is longer, so none can occur in it.
   */
  lemma ShortAlnumAccepted(name: string)
    requires 1 <= |name| <= 2
    requires forall i :: 0 <= i < |name| ==> IsAsciiAlnum(name[i])
    ensures ValidateDomainName(name) == Valid
  {
    BannedWordsAtLeastThree();
    ShortAlnumAcceptedAgainst(BannedWords, name);
  }

  /** "ab" passes every check. */
  lemma AbAccepted()
    ensures ValidateDomainName("ab") == Valid
  {
    ShortAlnumAccepted("ab");
  }
}
