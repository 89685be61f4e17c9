/**
 * The "my domains" page: the record read from the registry is projected
 * into a `DomainInfo` with an expiry flag and a whole number of remaining
 * days; the list is narrowed by a case-insensitive search and a status
 * filter, and the filter tabs show counts.
 *
 * Time is an integer number of milliseconds since the epoch, passed in as
 * `nowMs`; registry timestamps are whole seconds.
 */
module DomainsPage {
  import opened JsString

  /** `1000 * 60 * 60 * 24` */
  const MsPerDay: int := 86_400_000

  /** How many remaining days still count as expiring. */
  const ExpiringWindowDays: int := 30

  /** What `getDomainInfo` returns for a name: wallet, owner and the two timestamps in seconds. */
  datatype ChainRecord = ChainRecord(walletAddress: string, owner: string, registrationTimestamp: int, expiryTimestamp: int)

  datatype DomainInfo = DomainInfo(
    name: string,
    tld: string,
    walletAddress: string,
    owner: string,
    registrationMs: int,
    expiryMs: int,
    isExpired: bool,
    remainingDays: int)

  /** `Math.max(0, Math.floor((expiryMs - nowMs) / MsPerDay))`, in exact integer arithmetic. */
  function RemainingDays(expiryMs: int, nowMs: int): (days: int)
    ensures days >= 0
  {
    var floorDays := (expiryMs - nowMs) / MsPerDay;
    if floorDays < 0 then 0 else floorDays
  }

  /** The `DomainInfo` built from a registry record at time `nowMs`. */
  function Project(name: string, tld: string, record: ChainRecord, nowMs: int): (d: DomainInfo)
    ensures d.name == name && d.tld == tld && d.walletAddress == record.walletAddress && d.owner == record.owner
    ensures d.registrationMs == record.registrationTimestamp * 1000 && d.expiryMs == record.expiryTimestamp * 1000
    ensures d.isExpired <==> nowMs > d.expiryMs
    ensures d.remainingDays >= 0
  {
    var expiryMs := record.expiryTimestamp * 1000;
    DomainInfo(name, tld, record.walletAddress, record.owner, record.registrationTimestamp * 1000,
               expiryMs, nowMs > expiryMs, RemainingDays(expiryMs, nowMs))
  }

  /**
   * The remaining days are the whole days left before expiry, rounded down:
   * `days` full days fit into the time left and `days + 1` do not; with less
   * than a day left, or after expiry, they are zero.
   */
  lemma RemainingDaysBounds(expiryMs: int, nowMs: int)
    ensures var days := RemainingDays(expiryMs, nowMs);
            && (expiryMs - nowMs >= 0 ==> days * MsPerDay <= expiryMs - nowMs < (days + 1) * MsPerDay)
            && (expiryMs - nowMs < MsPerDay ==> days == 0)
  {
    var diff := expiryMs - nowMs;
    var q := diff / MsPerDay;
    assert diff == q * MsPerDay + diff % MsPerDay;
    if diff < MsPerDay {
      assert q < 1;
    }
  }

  /** An expired domain has no days left. */
  lemma ExpiredHasNoDaysLeft(name: string, tld: string, record: ChainRecord, nowMs: int)
    requires Project(name, tld, record, nowMs).isExpired
    ensures Project(name, tld, record, nowMs).remainingDays == 0
  {
    RemainingDaysBounds(record.expiryTimestamp * 1000, nowMs);
  }

  // ---------------------------------------------------------------------------
  // Status partition and filters
  // ---------------------------------------------------------------------------

  datatype Filter = All | Active | Expiring | Expired

  predicate IsActive(d: DomainInfo) {
    !d.isExpired && d.remainingDays > ExpiringWindowDays
  }

  predicate IsExpiring(d: DomainInfo) {
    !d.isExpired && d.remainingDays <= ExpiringWindowDays
  }

  predicate MatchesFilter(d: DomainInfo, filter: Filter) {
    match filter
    case Active => IsActive(d)
    case Expiring => IsExpiring(d)
    case Expired => d.isExpired
    case All => true
  }

  /** The search keeps a domain when the term is empty or found in the name, ignoring case. */
  predicate MatchesSearch(d: DomainInfo, searchTerm: string) {
    searchTerm == "" || Includes(Lower(d.name), Lower(searchTerm))
  }

  predicate Keeps(d: DomainInfo, searchTerm: string, filter: Filter) {
    MatchesSearch(d, searchTerm) && MatchesFilter(d, filter)
  }

  /** `filteredDomains` */
  function FilteredDomains(domains: seq<DomainInfo>, searchTerm: string, filter: Filter): (shown: seq<DomainInfo>)
    ensures |shown| <= |domains|
    ensures forall i :: 0 <= i < |shown| ==> Keeps(shown[i], searchTerm, filter)
  {
    if domains == [] then []
    else (if Keeps(domains[0], searchTerm, filter) then [domains[0]] else []) + FilteredDomains(domains[1..], searchTerm, filter)
  }

  /** Each domain is active, expiring or expired, and exactly one of the three. */
  lemma ExactlyOneStatus(d: DomainInfo)
    ensures IsActive(d) || IsExpiring(d) || d.isExpired
    ensures !(IsActive(d) && IsExpiring(d)) && !(IsActive(d) && d.isExpired) && !(IsExpiring(d) && d.isExpired)
  {
  }

  /** The search is a case-insensitive substring test. */
  lemma SearchIsCaseInsensitiveSubstring(d: DomainInfo, searchTerm: string)
    ensures MatchesSearch(d, searchTerm) <==> searchTerm == "" || Contains(Lower(d.name), Lower(searchTerm))
    ensures MatchesSearch(d, searchTerm) <==> MatchesSearch(d, Lower(searchTerm))
  {
    IncludesIsContains(Lower(d.name), Lower(searchTerm));
    LowerIdempotent(searchTerm);
    if Lower(searchTerm) == "" {
      assert |searchTerm| == 0;
    }
  }

  /** The filtered list holds exactly the domains of the list that the search and the filter keep. */
  lemma {:induction false} FilteredMembers(domains: seq<DomainInfo>, searchTerm: string, filter: Filter, d: DomainInfo)
    ensures d in FilteredDomains(domains, searchTerm, filter) <==> d in domains && Keeps(d, searchTerm, filter)
  {
    if domains != [] {
      FilteredMembers(domains[1..], searchTerm, filter, d);
      assert domains == [domains[0]] + domains[1..];
    }
  }

  /** `sub` is `full` with some elements left out, order kept. */
  ghost predicate IsSubsequence(sub: seq<DomainInfo>, full: seq<DomainInfo>)
    decreases |full|
  {
    || sub == []
    || (full != [] && ((sub[0] == full[0] && IsSubsequence(sub[1..], full[1..])) || IsSubsequence(sub, full[1..])))
  }

  /** Filtering keeps the order of the list and adds nothing. */
  lemma {:induction false} FilteredIsSubsequence(domains: seq<DomainInfo>, searchTerm: string, filter: Filter)
    ensures IsSubsequence(FilteredDomains(domains, searchTerm, filter), domains)
    ensures |FilteredDomains(domains, searchTerm, filter)| <= |domains|
  {
    if domains != [] {
      var rest := FilteredDomains(domains[1..], searchTerm, filter);
      FilteredIsSubsequence(domains[1..], searchTerm, filter);
      var sub := FilteredDomains(domains, searchTerm, filter);
      if Keeps(domains[0], searchTerm, filter) {
        assert sub == [domains[0]] + rest;
        assert sub[0] == domains[0] && sub[1..] == rest;
      } else {
        assert sub == rest;
      }
    }
  }

  /** With no search term and the `all` tab, every domain is shown, in order. */
  lemma {:induction false} NoSearchAllShowsEverything(domains: seq<DomainInfo>)
    ensures FilteredDomains(domains, "", All) == domains
  {
    if domains != [] {
      NoSearchAllShowsEverything(domains[1..]);
      assert domains == [domains[0]] + domains[1..];
    }
  }

  // ---------------------------------------------------------------------------
  // Filter counts
  // ---------------------------------------------------------------------------

  datatype FilterCounts = FilterCounts(all: nat, active: nat, expiring: nat, expired: nat)

  /** `getFilterCounts`: the tab counts, each the length of the list under that filter with no search. */
  function GetFilterCounts(domains: seq<DomainInfo>): (c: FilterCounts)
    ensures c.all == |domains|
    ensures c.active <= c.all && c.expiring <= c.all && c.expired <= c.all
  {
    FilterCounts(
      |domains|,
      |FilteredDomains(domains, "", Active)|,
      |FilteredDomains(domains, "", Expiring)|,
      |FilteredDomains(domains, "", Expired)|)
  }

  /** The three status tabs split the list: their counts add up to the `all` count. */
  lemma {:induction false} CountsPartition(domains: seq<DomainInfo>)
    ensures var c := GetFilterCounts(domains);
            c.active + c.expiring + c.expired == c.all
  {
    if domains != [] {
      CountsPartition(domains[1..]);
      ExactlyOneStatus(domains[0]);
    }
  }

  /** Each tab's count is the length of the list that tab shows while the search box is empty. */
  lemma CountsMatchTabs(domains: seq<DomainInfo>, filter: Filter)
    ensures var c := GetFilterCounts(domains);
            |FilteredDomains(domains, "", filter)| ==
              match filter
              case All => c.all
              case Active => c.active
              case Expiring => c.expiring
              case Expired => c.expired
  {
    NoSearchAllShowsEverything(domains);
  }

  // ---------------------------------------------------------------------------
  // Loading the list
  // ---------------------------------------------------------------------------

  class DomainsPage {
    var domains: seq<DomainInfo>
    var isLoading: bool

    constructor()
      ensures domains == [] && isLoading
    {
      domains := [];
      isLoading := true;
    }

    /**
     * The `fetchDomains` effect. `userDomain` is the (name, tld) pair the
     * registry holds for the wallet, if any; `record` is what the registry
     * returns for that name, `None` when it returns no data or the read fails.
     */
    method FetchDomains(isConnected: bool, address: string, userDomain: Option<(string, string)>,
                        record: Option<ChainRecord>, nowMs: int)
      modifies this
      ensures !isLoading
      ensures !isConnected || address == "" || userDomain.None? ==> domains == []
      ensures isConnected && address != "" && userDomain.Some? ==>
                var (name, tld) := userDomain.value;
                domains == if name != "" && tld != "" && record.Some? then [Project(name, tld, record.value, nowMs)]
                           else old(domains)
    {
      if !isConnected || address == "" || userDomain.None? {
        domains := [];
        isLoading := false;
        return;
      }
      isLoading := true;
      var (name, tld) := userDomain.value;
      if name != "" && tld != "" {
        if record.Some? {
          domains := [Project(name, tld, record.value, nowMs)];
        }
      }
      isLoading := false;
    }
  }
}
