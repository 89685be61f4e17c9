/**
 * One domain's card: expiry status derived from the expiry instant and the
 * current time, the ownership test, the wallet editor and the renewal panel.
 *
 * Time is integer milliseconds since the epoch. `differenceInDays` is taken
 * as the number of whole 24-hour periods between the two instants,
 * truncated toward zero. The two registry writes are parameters: each either
 * is submitted or throws.
 */
module DomainCard {
  import opened JsString
  import DomainsPage

  // ---------------------------------------------------------------------------
  // Expiry status
  // ---------------------------------------------------------------------------

  /** `!isAfter(expiryDate, now)`: expired from the expiry instant itself on. */
  predicate IsExpired(expiryMs: int, nowMs: int): (expired: bool)
    ensures expired ==> DaysUntilExpiry(expiryMs, nowMs) <= 0
    ensures !expired ==> DaysUntilExpiry(expiryMs, nowMs) >= 0
  {
    !(expiryMs > nowMs)
  }

  /** `differenceInDays(expiryDate, now)`: whole days between the instants, truncated toward zero. */
  function DaysUntilExpiry(expiryMs: int, nowMs: int): (days: int)
    ensures expiryMs >= nowMs ==> 0 <= days && days * DomainsPage.MsPerDay <= expiryMs - nowMs
    ensures expiryMs <= nowMs ==> days <= 0 && -days * DomainsPage.MsPerDay <= nowMs - expiryMs
  {
    var diff := expiryMs - nowMs;
    if diff >= 0 then diff / DomainsPage.MsPerDay else -((-diff) / DomainsPage.MsPerDay)
  }

  /** `daysUntilExpiry <= 30 && daysUntilExpiry > 0` */
  predicate IsExpiringSoon(expiryMs: int, nowMs: int): (soon: bool)
    ensures soon ==> !IsExpired(expiryMs, nowMs)
    ensures soon ==> DomainsPage.MsPerDay <= expiryMs - nowMs < 31 * DomainsPage.MsPerDay
  {
    var days := DaysUntilExpiry(expiryMs, nowMs);
    days <= 30 && days > 0
  }

  /** The day count is the time left, in whole days, rounded toward zero on both sides of expiry. */
  lemma DaysUntilExpiryBounds(expiryMs: int, nowMs: int)
    ensures var diff, days := expiryMs - nowMs, DaysUntilExpiry(expiryMs, nowMs);
            && (diff >= 0 ==> days >= 0 && days * DomainsPage.MsPerDay <= diff < (days + 1) * DomainsPage.MsPerDay)
            && (diff < 0 ==> days <= 0 && -days * DomainsPage.MsPerDay <= -diff < (-days + 1) * DomainsPage.MsPerDay)
  {
    var diff := expiryMs - nowMs;
    if diff >= 0 {
      assert diff == diff / DomainsPage.MsPerDay * DomainsPage.MsPerDay + diff % DomainsPage.MsPerDay;
    } else {
      assert -diff == (-diff) / DomainsPage.MsPerDay * DomainsPage.MsPerDay + (-diff) % DomainsPage.MsPerDay;
    }
  }

  /** A card is expiring soon exactly when between one and thirty-one days (exclusive) remain. */
  lemma ExpiringSoonWindow(expiryMs: int, nowMs: int)
    ensures IsExpiringSoon(expiryMs, nowMs) <==>
              DomainsPage.MsPerDay <= expiryMs - nowMs < 31 * DomainsPage.MsPerDay
  {
    DaysUntilExpiryBounds(expiryMs, nowMs);
  }

  /** An expired card is never expiring soon. */
  lemma ExpiredNeverExpiringSoon(expiryMs: int, nowMs: int)
    ensures IsExpired(expiryMs, nowMs) ==> !IsExpiringSoon(expiryMs, nowMs)
  {
    DaysUntilExpiryBounds(expiryMs, nowMs);
  }

  // ---------------------------------------------------------------------------
  // Status badge
  // ---------------------------------------------------------------------------

  /** The three states of the badge, in priority order. */
  datatype Status = Expired | ExpiringSoon | Active

  /** The priority the three badge helpers share. */
  function StatusOf(isExpired: bool, isExpiringSoon: bool): Status {
    if isExpired then Expired else if isExpiringSoon then ExpiringSoon else Active
  }

  datatype Icon = WarningTriangle | Clock | CheckCircle

  function StatusColor(isExpired: bool, isExpiringSoon: bool): (color: string)
    ensures color == "text-green-600 bg-green-50 border-green-200" <==> !isExpired && !isExpiringSoon
  {
    if isExpired then "text-red-600 bg-red-50 border-red-200"
    else if isExpiringSoon then "text-yellow-600 bg-yellow-50 border-yellow-200"
    else "text-green-600 bg-green-50 border-green-200"
  }

  function StatusText(isExpired: bool, isExpiringSoon: bool, daysUntilExpiry: int): (text: string)
    ensures text != ""
    ensures !isExpired && isExpiringSoon && 0 <= daysUntilExpiry ==>
              text == "Expires in " + DecimalString(daysUntilExpiry) + " days"
  {
    if isExpired then "Expired"
    else if isExpiringSoon then "Expires in " + IntString(daysUntilExpiry) + " days"
    else "Active"
  }

  function StatusIcon(isExpired: bool, isExpiringSoon: bool): (icon: Icon)
    ensures icon == CheckCircle <==> !isExpired && !isExpiringSoon
    ensures icon == WarningTriangle <==> isExpired
  {
    if isExpired then WarningTriangle else if isExpiringSoon then Clock else CheckCircle
  }

  /** An integer as template interpolation writes it. */
  function IntString(n: int): (s: string)
    ensures n >= 0 ==> s == DecimalString(n)
  {
    if n >= 0 then DecimalString(n) else "-" + DecimalString(-n)
  }

  /** Text, colour and icon all follow one priority: expired, then expiring soon, then active. */
  lemma StatusHelpersAgree(isExpired: bool, isExpiringSoon: bool, daysUntilExpiry: int)
    ensures var status := StatusOf(isExpired, isExpiringSoon);
            var text := StatusText(isExpired, isExpiringSoon, daysUntilExpiry);
            var color := StatusColor(isExpired, isExpiringSoon);
            var icon := StatusIcon(isExpired, isExpiringSoon);
            && (status == Expired <==> text == "Expired") && (status == Expired <==> icon == WarningTriangle)
            && (status == Expired <==> color == "text-red-600 bg-red-50 border-red-200")
            && (status == Active <==> text == "Active") && (status == Active <==> icon == CheckCircle)
            && (status == Active <==> color == "text-green-600 bg-green-50 border-green-200")
            && (status == ExpiringSoon <==> StartsWith(text, "Expires in ")) && (status == ExpiringSoon <==> icon == Clock)
  {
    var text := StatusText(isExpired, isExpiringSoon, daysUntilExpiry);
    if !isExpired && isExpiringSoon {
      assert text[6] == 's';
      assert text[..11] == "Expires in ";
    }
  }

  /** The badge of a card: for an expiring card, its whole number of days left, between 1 and 30. */
  lemma BadgeOfCard(expiryMs: int, nowMs: int)
    ensures var days := DaysUntilExpiry(expiryMs, nowMs);
            var text := StatusText(IsExpired(expiryMs, nowMs), IsExpiringSoon(expiryMs, nowMs), days);
            && (IsExpired(expiryMs, nowMs) ==> text == "Expired")
            && (IsExpiringSoon(expiryMs, nowMs) ==> 1 <= days <= 30 && text == "Expires in " + DecimalString(days) + " days")
            && (!IsExpired(expiryMs, nowMs) && !IsExpiringSoon(expiryMs, nowMs) ==> text == "Active")
  {
    ExpiredNeverExpiringSoon(expiryMs, nowMs);
  }

  // ---------------------------------------------------------------------------
  // Agreement with the domains page
  // ---------------------------------------------------------------------------

  /**
   * The card and the page decide expiry with different boundaries: at the
   * expiry millisecond itself the card says expired and the page does not;
   * at every other instant they agree.
   */
  lemma ExpiryBoundary(record: DomainsPage.ChainRecord, nowMs: int)
    ensures var d := DomainsPage.Project("", "", record, nowMs);
            && (nowMs == d.expiryMs ==> IsExpired(d.expiryMs, nowMs) && !d.isExpired)
            && (nowMs != d.expiryMs ==> (IsExpired(d.expiryMs, nowMs) <==> d.isExpired))
  {
  }

  /** While the card is not expired, its day count is the page's remaining days. */
  lemma DaysAgreeWithPage(name: string, tld: string, record: DomainsPage.ChainRecord, nowMs: int)
    ensures var d := DomainsPage.Project(name, tld, record, nowMs);
            !IsExpired(d.expiryMs, nowMs) ==> DaysUntilExpiry(d.expiryMs, nowMs) == d.remainingDays
  {
  }

  /**
   * As written, a domain in its last day (less than 24 hours left) gets the
   * "Active" badge with the green check, while the page files the same
   * domain under "Expiring".
   */
  lemma LastDayShownActive(name: string, tld: string, record: DomainsPage.ChainRecord, nowMs: int)
    requires nowMs < record.expiryTimestamp * 1000 < nowMs + DomainsPage.MsPerDay
    ensures var d := DomainsPage.Project(name, tld, record, nowMs);
            && DomainsPage.IsExpiring(d)
            && !IsExpiringSoon(d.expiryMs, nowMs)
            && StatusOf(IsExpired(d.expiryMs, nowMs), IsExpiringSoon(d.expiryMs, nowMs)) == Active
  {
    DomainsPage.RemainingDaysBounds(record.expiryTimestamp * 1000, nowMs);
  }

  /** Expiring soon as the page and its help text use it: not expired, and at most thirty whole days left. */
  predicate IsExpiringSoonIntended(expiryMs: int, nowMs: int) {
    !IsExpired(expiryMs, nowMs) && DaysUntilExpiry(expiryMs, nowMs) <= 30
  }

  /**
   * With the intended test, the card's badge and the page's tabs sort every
   * domain alike, away from the expiry millisecond.
   */
  lemma IntendedStatusMatchesPage(name: string, tld: string, record: DomainsPage.ChainRecord, nowMs: int)
    requires nowMs != record.expiryTimestamp * 1000
    ensures var d := DomainsPage.Project(name, tld, record, nowMs);
            var status := StatusOf(IsExpired(d.expiryMs, nowMs), IsExpiringSoonIntended(d.expiryMs, nowMs));
            && (status == Expired <==> d.isExpired)
            && (status == ExpiringSoon <==> DomainsPage.IsExpiring(d))
            && (status == Active <==> DomainsPage.IsActive(d))
  {
  }

  // ---------------------------------------------------------------------------
  // Ownership
  // ---------------------------------------------------------------------------

  /** `address?.toLowerCase() === owner.toLowerCase()` */
  predicate IsOwner(address: Option<string>, owner: string): (isOwner: bool)
    ensures isOwner ==> address.Some? && |address.value| == |owner|
  {
    address.Some? && Lower(address.value) == Lower(owner)
  }

  /** Ownership ignores letter case on both sides and needs a connected address. */
  lemma OwnerIgnoresCase(address: Option<string>, owner: string)
    ensures address.None? ==> !IsOwner(address, owner)
    ensures address.Some? ==> (IsOwner(address, owner) <==> IsOwner(Some(Lower(address.value)), Lower(owner)))
    ensures address.Some? && address.value == owner ==> IsOwner(address, owner)
  {
    if address.Some? {
      LowerIdempotent(address.value);
      LowerIdempotent(owner);
    }
  }

  /** A character that differs other than in letter case rules out the owner. */
  lemma OwnerNeedsSameAddress(address: string, owner: string, i: nat)
    requires i < |address| && i < |owner| && LowerChar(address[i]) != LowerChar(owner[i])
    ensures !IsOwner(Some(address), owner)
  {
    assert Lower(address)[i] != Lower(owner)[i];
  }

  /** An address of a different length is never the owner. */
  lemma OwnerNeedsSameLength(address: string, owner: string)
    ensures |address| != |owner| ==> !IsOwner(Some(address), owner)
  {
  }

  // ---------------------------------------------------------------------------
  // The card component
  // ---------------------------------------------------------------------------

  /** What a registry write does: it is submitted, or it throws with a message. */
  datatype WriteOutcome = Submitted | Failed(message: string)

  /** The registry writes a card makes. */
  datatype CardCall =
    | SetDomainWallet(name: string, tld: string, newWallet: string)
    | RenewDomain(name: string, tld: string, years: int)

  class DomainCard {
    const name: string
    const tld: string
    const walletAddress: string
    const owner: string
    const expiryMs: int

    var isEditing: bool
    var newWalletAddress: string
    /** Both the renewal panel's visibility and the renewal in progress. */
    var isRenewing: bool
    var renewalYears: int

    ghost predicate Valid()
      reads this
    {
      1 <= renewalYears <= 10
    }

    constructor(name: string, tld: string, walletAddress: string, owner: string, expiryMs: int)
      ensures Valid()
      ensures this.name == name && this.tld == tld && this.walletAddress == walletAddress
      ensures this.owner == owner && this.expiryMs == expiryMs
      ensures !isEditing && newWalletAddress == walletAddress && !isRenewing && renewalYears == 1
    {
      this.name := name;
      this.tld := tld;
      this.walletAddress := walletAddress;
      this.owner := owner;
      this.expiryMs := expiryMs;
      isEditing := false;
      newWalletAddress := walletAddress;
      isRenewing := false;
      renewalYears := 1;
    }

    /** The pencil button, shown only to the owner (`address` is the connected wallet's). */
    method ToggleEditing(address: Option<string>)
      requires IsOwner(address, owner)
      modifies this
      ensures isEditing == !old(isEditing)
      ensures newWalletAddress == old(newWalletAddress) && isRenewing == old(isRenewing) && renewalYears == old(renewalYears)
    {
      isEditing := !isEditing;
    }

    /** Typing in the wallet field. */
    method EditNewWalletAddress(text: string)
      modifies this
      ensures newWalletAddress == text
      ensures isEditing == old(isEditing) && isRenewing == old(isRenewing) && renewalYears == old(renewalYears)
    {
      newWalletAddress := text;
    }

    /** The editor's Cancel button: closes it and restores the current wallet. */
    method CancelEditing()
      modifies this
      ensures !isEditing && newWalletAddress == walletAddress
      ensures isRenewing == old(isRenewing) && renewalYears == old(renewalYears)
    {
      isEditing := false;
      newWalletAddress := walletAddress;
    }

    /**
     * `handleUpdateWallet`: an empty or unchanged address only closes the
     * editor; otherwise the wallet is written, and only a submitted write
     * closes the editor and notifies the page (`updated`).
     */
    method HandleUpdateWallet(outcome: WriteOutcome) returns (call: Option<CardCall>, updated: bool)
      modifies this
      ensures newWalletAddress == "" || newWalletAddress == walletAddress ==> call == None && !updated && !isEditing
      ensures newWalletAddress != "" && newWalletAddress != walletAddress ==>
                call == Some(SetDomainWallet(name, tld, newWalletAddress))
                && updated == outcome.Submitted?
                && isEditing == (if outcome.Submitted? then false else old(isEditing))
      ensures newWalletAddress == old(newWalletAddress) && isRenewing == old(isRenewing) && renewalYears == old(renewalYears)
    {
      if newWalletAddress == "" || newWalletAddress == walletAddress {
        isEditing := false;
        return None, false;
      }
      call := Some(SetDomainWallet(name, tld, newWalletAddress));
      updated := false;
      match outcome {
        case Submitted =>
          isEditing := false;
          updated := true;
        case Failed(_) =>
      }
    }

    /** The renew button on the header, shown only to the owner: shows or hides the renewal panel. */
    method ToggleRenewing(address: Option<string>)
      requires IsOwner(address, owner)
      modifies this
      ensures isRenewing == !old(isRenewing)
      ensures isEditing == old(isEditing) && newWalletAddress == old(newWalletAddress) && renewalYears == old(renewalYears)
    {
      isRenewing := !isRenewing;
    }

    /** Choosing a period in the renewal panel, shown only to the owner, whose options are 1 to 10 years. */
    method SelectRenewalYears(address: Option<string>, years: int)
      requires IsOwner(address, owner)
      requires 1 <= years <= 10
      modifies this
      ensures Valid() && renewalYears == years
      ensures isEditing == old(isEditing) && newWalletAddress == old(newWalletAddress) && isRenewing == old(isRenewing)
    {
      renewalYears := years;
    }

    /**
     * `handleRenewal`, from the owner's renewal panel: renews for the chosen period; a submitted renewal
     * notifies the page; either way `isRenewing` ends false, which also
     * closes the panel.
     */
    method HandleRenewal(address: Option<string>, outcome: WriteOutcome) returns (call: CardCall, updated: bool)
      requires IsOwner(address, owner)
      requires Valid()
      modifies this
      ensures Valid()
      ensures call == RenewDomain(name, tld, renewalYears) && 1 <= call.years <= 10
      ensures updated <==> outcome.Submitted?
      ensures !isRenewing
      ensures isEditing == old(isEditing) && newWalletAddress == old(newWalletAddress) && renewalYears == old(renewalYears)
    {
      isRenewing := true;
      call := RenewDomain(name, tld, renewalYears);
      updated := outcome.Submitted?;
      isRenewing := false;
    }
  }
}
