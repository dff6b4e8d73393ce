/** Who may read what: service-token grants, the visibility rule of list responses, and
    the coarser filters that discovery pushes into SQL. */
module Governance {
  import opened Collections

  datatype Scope = Read | Publish | Review | Admin | Telemetry
  type Role = s: Scope | s != Telemetry witness Read
  datatype Lifecycle = Published | Deprecated | Archived
  datatype TrustTier = Untrusted | Internal | Verified
  datatype ReviewState = PendingReview | Approved | Rejected
  datatype Channel = Dev | Staging | Prod
  datatype ChannelGrant = AnyChannel | Only(channel: Channel)

  const DEFAULT_NAMESPACE: string := "public"
  const GLOBAL_NAMESPACE: string := "*"
  const ALL_REVIEW_STATES: set<ReviewState> := {PendingReview, Approved, Rejected}
  const ALL_NAMESPACE_ROLES: set<Scope> := {Read, Publish, Review, Admin}

  datatype NamespaceGrant = NamespaceGrant(namespace: string, roles: set<Scope>, channels: set<ChannelGrant>) {
    predicate Names(ns: string) {
      namespace == GLOBAL_NAMESPACE || namespace == ns
    }

    predicate Carries(role: Role) {
      Admin in roles || role in roles
    }

    predicate Opens(channel: Option<Channel>) {
      channel.None? || AnyChannel in channels || Only(channel.value) in channels
    }

    predicate Matches(ns: string, role: Role, channel: Option<Channel>) {
      Names(ns) && Carries(role) && Opens(channel)
    }
  }

  datatype Caller = Caller(tokenId: string, scopes: set<Scope>, grants: seq<NamespaceGrant>) {
    predicate HasScope(scope: Scope) {
      Admin in scopes || scope in scopes
    }

    predicate HasNamespaceGrant(ns: string, role: Role, channel: Option<Channel>) {
      if grants == [] then
        Admin in scopes || (ns == DEFAULT_NAMESPACE && HasScope(role) && (channel.None? || channel.value == Prod))
      else
        exists g | g in grants :: g.Matches(ns, role, channel)
    }

    /** Namespaces to filter by, or `None` for no filter. */
    function AllowedNamespaces(role: Role): Option<set<string>> {
      if grants == [] then
        if Admin in scopes then None else Some(if HasScope(role) then {DEFAULT_NAMESPACE} else {})
      else
        var names := set g | g in grants && (g.namespace == GLOBAL_NAMESPACE || g.Carries(role)) :: g.namespace;
        if GLOBAL_NAMESPACE in names then None else Some(names)
    }

    /** Channels to filter by, or `None` for no filter. */
    function AllowedChannels(role: Role): Option<set<Channel>> {
      if grants == [] then
        if Admin in scopes then None else Some(if HasScope(role) then {Prod} else {})
      else if exists g | g in grants :: g.Carries(role) && AnyChannel in g.channels then
        None
      else
        Some(set g, c | g in grants && g.Carries(role) && c in g.channels && c.Only? :: c.channel)
    }
  }

  /** `allowed_promotion_channels` as the source runs it: one pass over the grants that
      stops at the first wildcard. */
  method CollectAllowedChannels(caller: Caller, role: Role) returns (r: Option<set<Channel>>)
    ensures r == caller.AllowedChannels(role)
  {
    if caller.grants == [] && Admin in caller.scopes {
      return None;
    }
    if caller.grants == [] {
      return Some(if caller.HasScope(role) then {Prod} else {});
    }
    var channels: set<Channel> := {};
    var i := 0;
    while i < |caller.grants|
      invariant 0 <= i <= |caller.grants|
      invariant forall j | 0 <= j < i :: !(caller.grants[j].Carries(role) && AnyChannel in caller.grants[j].channels)
      invariant forall c :: c in channels <==>
        exists j | 0 <= j < i :: caller.grants[j].Carries(role) && Only(c) in caller.grants[j].channels
    {
      var grant := caller.grants[i];
      assert grant in caller.grants;
      if grant.Carries(role) {
        if AnyChannel in grant.channels {
          return None;
        }
        channels := channels + set c | c in grant.channels && c.Only? :: c.channel;
      }
      i := i + 1;
    }
    var allowed := caller.AllowedChannels(role).value;
    forall c ensures c in channels <==> c in allowed {
      assert Only(c).channel == c;
    }
    assert channels == allowed;
    r := Some(channels);
  }

  datatype PolicyPack = PolicyPack(
    slug: string,
    restricted: bool,
    requiresVerifiedPublisher: bool,
    allowedTokenIds: set<string>,
    allowedNamespaces: set<string>)

  /** The governed attributes of one stored version. */
  datatype Attributes = Attributes(
    lifecycle: Lifecycle,
    namespace: string,
    reviewState: ReviewState,
    channel: Channel,
    trustTier: TrustTier,
    pack: Option<PolicyPack>)

  datatype Verdict = Allowed | NamespaceForbidden | ReviewStateForbidden | PolicyPackForbidden | ExactReadForbidden

  datatype Profile = Profile(
    transitions: map<Lifecycle, set<Lifecycle>>,
    discoveryDefault: set<Lifecycle>,
    discoveryRead: set<Lifecycle>,
    discoveryAdmin: set<Lifecycle>,
    exactRead: set<Lifecycle>)

  const DEFAULT_PROFILE: Profile := Profile(
    map[Published := {Deprecated, Archived}, Deprecated := {Published, Archived}, Archived := {}],
    {Published}, {Published, Deprecated}, {Published, Deprecated, Archived}, {Published, Deprecated})

  predicate PackAllows(caller: Caller, a: Attributes) {
    a.pack.None? ||
    (var p := a.pack.value;
     && (p.requiresVerifiedPublisher ==> a.trustTier == Verified)
     && (p.restricted ==> caller.tokenId in p.allowedTokenIds || a.namespace in p.allowedNamespaces))
  }

  function EnsureExactReadAllowed(profile: Profile, caller: Caller, a: Attributes): Verdict {
    if a.lifecycle in profile.exactRead && caller.HasScope(Read) then
      if !caller.HasNamespaceGrant(a.namespace, Read, None) then NamespaceForbidden
      else if a.reviewState != Approved && !caller.HasNamespaceGrant(a.namespace, Review, None)
        then ReviewStateForbidden
      else if !caller.HasNamespaceGrant(a.namespace, Read, Some(a.channel)) then NamespaceForbidden
      else if !PackAllows(caller, a) then PolicyPackForbidden
      else Allowed
    else if a.lifecycle == Archived && caller.HasScope(Admin) then Allowed
    else ExactReadForbidden
  }

  predicate VisibleInList(profile: Profile, caller: Caller, a: Attributes) {
    EnsureExactReadAllowed(profile, caller, a).Allowed?
  }

  // --- The rule in grants and columns -------------------------------------------------------------

  predicate HoldsScope(caller: Caller, scope: Scope) {
    Admin in caller.scopes || scope in caller.scopes
  }

  /** Some grant names the namespace, carries the role and, where a channel is asked for, opens it. A token
      without grants acts on the public namespace, in production, by its scopes; an administrator anywhere. */
  ghost predicate MayAct(caller: Caller, ns: string, role: Role, channel: Option<Channel>) {
    if caller.grants == [] then
      Admin in caller.scopes
      || (ns == "public" && role in caller.scopes && (channel.None? || channel == Some(Prod)))
    else
      exists g | g in caller.grants ::
        && (g.namespace == "*" || g.namespace == ns)
        && (Admin in g.roles || role in g.roles)
        && (channel.None? || AnyChannel in g.channels || Only(channel.value) in g.channels)
  }

  lemma GrantIff(caller: Caller, ns: string, role: Role, channel: Option<Channel>)
    ensures caller.HasNamespaceGrant(ns, role, channel) <==> MayAct(caller, ns, role, channel)
  {
    if caller.grants != [] {
      if caller.HasNamespaceGrant(ns, role, channel) {
        var g :| g in caller.grants && g.Matches(ns, role, channel);
      }
      if MayAct(caller, ns, role, channel) {
        var g :| g in caller.grants && (g.namespace == "*" || g.namespace == ns)
          && (Admin in g.roles || role in g.roles)
          && (channel.None? || AnyChannel in g.channels || Only(channel.value) in g.channels);
        assert g.Matches(ns, role, channel);
      }
    }
  }

  predicate Unsealed(caller: Caller, a: Attributes) {
    a.pack.Some? ==>
      && (a.pack.value.requiresVerifiedPublisher ==> a.trustTier == Verified)
      && (a.pack.value.restricted ==>
            caller.tokenId in a.pack.value.allowedTokenIds || a.namespace in a.pack.value.allowedNamespaces)
  }

  /** The verdict on one version, in the order of the checks: its status, the namespace, the review state,
      the channel, the policy pack. Administrators read archived versions whatever their grants say. */
  lemma VerdictIff(profile: Profile, caller: Caller, a: Attributes)
    ensures var verdict := EnsureExactReadAllowed(profile, caller, a);
      var open := a.lifecycle in profile.exactRead && HoldsScope(caller, Read);
      var canRead, reviews := MayAct(caller, a.namespace, Read, None), MayAct(caller, a.namespace, Review, None);
      var opens := MayAct(caller, a.namespace, Read, Some(a.channel));
      && (verdict.ExactReadForbidden? <==> !open && !(a.lifecycle == Archived && HoldsScope(caller, Admin)))
      && (verdict.NamespaceForbidden? <==> open && (!canRead || ((a.reviewState == Approved || reviews) && !opens)))
      && (verdict.ReviewStateForbidden? <==> open && canRead && a.reviewState != Approved && !reviews)
      && (verdict.PolicyPackForbidden? <==>
            open && canRead && (a.reviewState == Approved || reviews) && opens && !Unsealed(caller, a))
      && (verdict.Allowed? <==>
            || (open && canRead && (a.reviewState == Approved || reviews) && opens && Unsealed(caller, a))
            || (!open && a.lifecycle == Archived && HoldsScope(caller, Admin)))
  {
    GrantIff(caller, a.namespace, Read, None);
    GrantIff(caller, a.namespace, Review, None);
    GrantIff(caller, a.namespace, Read, Some(a.channel));
    hide MayAct, Caller.HasNamespaceGrant;
  }

  /** What a list response shows: the versions whose verdict is to allow. */
  lemma VisibleIff(profile: Profile, caller: Caller, a: Attributes)
    ensures VisibleInList(profile, caller, a) <==>
      || (&& a.lifecycle in profile.exactRead && HoldsScope(caller, Read)
          && MayAct(caller, a.namespace, Read, None)
          && (a.reviewState == Approved || MayAct(caller, a.namespace, Review, None))
          && MayAct(caller, a.namespace, Read, Some(a.channel)) && Unsealed(caller, a))
      || (&& a.lifecycle == Archived && HoldsScope(caller, Admin)
          && !(a.lifecycle in profile.exactRead && HoldsScope(caller, Read)))
  {
    VerdictIff(profile, caller, a);
    hide MayAct, EnsureExactReadAllowed;
  }

  /** Under the default profile published and deprecated versions are shown to whom the grants, the review
      state and the policy pack admit, archived ones to administrators alone. */
  lemma DefaultVisibleIff(caller: Caller, a: Attributes)
    ensures VisibleInList(DEFAULT_PROFILE, caller, a) <==>
      if a.lifecycle == Archived then Admin in caller.scopes
      else
        && (Admin in caller.scopes || Read in caller.scopes)
        && MayAct(caller, a.namespace, Read, None)
        && (a.reviewState == Approved || MayAct(caller, a.namespace, Review, None))
        && MayAct(caller, a.namespace, Read, Some(a.channel)) && Unsealed(caller, a)
  {
    VisibleIff(DEFAULT_PROFILE, caller, a);
    hide VisibleInList, MayAct, Unsealed;
  }

  // --- Statuses of a search -------------------------------------------------------------------------

  /** `resolve_discovery_statuses`; `None` is the refusal. */
  function ResolveDiscoveryStatuses(profile: Profile, caller: Caller,
      requested: seq<Lifecycle>): Option<set<Lifecycle>> {
    if requested == [] then Some(profile.discoveryDefault)
    else
      var allowed := if caller.HasScope(Admin) then profile.discoveryAdmin else profile.discoveryRead;
      if forall l | l in requested :: l in allowed then Some(set l | l in requested) else None
  }

  /** Under the default profile a search without statuses looks at published versions; others are searched
      exactly as asked for, except that only an administrator may ask for archived ones. */
  lemma DiscoveryStatusesAre(caller: Caller, requested: seq<Lifecycle>, l: Lifecycle)
    ensures var r := ResolveDiscoveryStatuses(DEFAULT_PROFILE, caller, requested);
      && (r.None? <==> Archived in requested && Admin !in caller.scopes)
      && (r.Some? ==> (l in r.value <==> if requested == [] then l == Published else l in requested))
  {
    assert forall x :: x in requested ==> x == Published || x == Deprecated || x == Archived;
  }

  // --- Filters pushed into SQL -------------------------------------------------------------

  datatype Filters = Filters(namespaces: Option<set<string>>, channels: Option<set<Channel>>,
      reviewStates: set<ReviewState>)

  function PushedDown(caller: Caller): Filters {
    Filters(
      caller.AllowedNamespaces(Read),
      caller.AllowedChannels(Read),
      if caller.HasScope(Review) then ALL_REVIEW_STATES else {Approved})
  }

  predicate Passes(f: Filters, a: Attributes) {
    && (f.namespaces.None? || a.namespace in f.namespaces.value)
    && (f.channels.None? || a.channel in f.channels.value)
    && a.reviewState in f.reviewStates
  }

  predicate Readable(g: NamespaceGrant) {
    Admin in g.roles || Read in g.roles
  }

  predicate OpensTo(g: NamespaceGrant, channel: Channel) {
    AnyChannel in g.channels || Only(channel) in g.channels
  }

  lemma NamespacePassesIff(caller: Caller, ns: string)
    requires caller.grants != []
    ensures caller.AllowedNamespaces(Read).None? || ns in caller.AllowedNamespaces(Read).value
      <==> exists g | g in caller.grants :: g.namespace == "*" || (g.namespace == ns && Readable(g))
  {
    if g :| g in caller.grants && (g.namespace == "*" || (g.namespace == ns && Readable(g))) {
      assert g.Carries(Read) <==> Readable(g);
    }
  }

  lemma ChannelPassesIff(caller: Caller, channel: Channel)
    requires caller.grants != []
    ensures caller.AllowedChannels(Read).None? || channel in caller.AllowedChannels(Read).value
      <==> exists g | g in caller.grants :: Readable(g) && OpensTo(g, channel)
  {
    assert Only(channel).channel == channel;
    if g :| g in caller.grants && Readable(g) && OpensTo(g, channel) {
      assert g.Carries(Read);
    }
  }

  /** What the filters of a caller let through, column by column. */
  lemma PassesIff(caller: Caller, a: Attributes)
    ensures Passes(PushedDown(caller), a) <==>
      && (a.reviewState == Approved || HoldsScope(caller, Review))
      && (if caller.grants == [] then
            Admin in caller.scopes || (Read in caller.scopes && a.namespace == "public" && a.channel == Prod)
          else
            && (exists g | g in caller.grants :: g.namespace == "*" || (g.namespace == a.namespace && Readable(g)))
            && (exists g | g in caller.grants :: Readable(g) && OpensTo(g, a.channel)))
  {
    assert a.reviewState == PendingReview || a.reviewState == Approved || a.reviewState == Rejected;
    if caller.grants != [] {
      NamespacePassesIff(caller, a.namespace);
      ChannelPassesIff(caller, a.channel);
    }
  }

  /** The caller holds a grant to review a namespace it can also read, without the review scope. */
  predicate UnbackedReviewer(caller: Caller) {
    && caller.HasScope(Read)
    && !caller.HasScope(Review)
    && exists g, h | g in caller.grants && h in caller.grants ::
         && g.Carries(Read) && g.channels != {} && h.Carries(Review)
         && (g.namespace == GLOBAL_NAMESPACE || h.namespace == GLOBAL_NAMESPACE || g.namespace == h.namespace)
  }

  /** Whether pushing the filters down can hide a version that the list rule would show. */
  ghost predicate NeverHides(profile: Profile, caller: Caller) {
    forall a: Attributes | a.lifecycle in profile.exactRead && VisibleInList(profile, caller, a) ::
      Passes(PushedDown(caller), a)
  }

  lemma NamespaceAndChannelPass(caller: Caller, a: Attributes)
    requires caller.HasNamespaceGrant(a.namespace, Read, Some(a.channel))
    ensures var f := PushedDown(caller);
      && (f.namespaces.None? || a.namespace in f.namespaces.value)
      && (f.channels.None? || a.channel in f.channels.value)
  {
    if caller.grants != [] {
      var g :| g in caller.grants && g.Matches(a.namespace, Read, Some(a.channel));
      assert g.Carries(Read);
      if AnyChannel !in g.channels { assert Only(a.channel) in g.channels && Only(a.channel).channel == a.channel; }
    }
  }

  lemma ReviewerIsUnbacked(caller: Caller, a: Attributes)
    requires caller.HasScope(Read) && !caller.HasScope(Review)
    requires caller.HasNamespaceGrant(a.namespace, Read, Some(a.channel))
    requires caller.HasNamespaceGrant(a.namespace, Review, None)
    ensures UnbackedReviewer(caller)
  {
    var g :| g in caller.grants && g.Matches(a.namespace, Read, Some(a.channel));
    var h :| h in caller.grants && h.Matches(a.namespace, Review, None);
    assert g.channels != {};
  }

  /** Pushing down the filters is safe for exactly those callers whose review grants on readable
      namespaces are backed by the review (or admin) scope. */
  lemma PushDownIsSafeIff(profile: Profile, caller: Caller)
    requires profile.exactRead != {}
    ensures NeverHides(profile, caller) <==> !UnbackedReviewer(caller)
  {
    if UnbackedReviewer(caller) {
      var g, h :| && g in caller.grants && h in caller.grants
                  && g.Carries(Read) && g.channels != {} && h.Carries(Review)
                  && (g.namespace == GLOBAL_NAMESPACE || h.namespace == GLOBAL_NAMESPACE || g.namespace == h.namespace);
      var life :| life in profile.exactRead;
      var slot :| slot in g.channels;
      var channel := if slot.Only? then slot.channel else Prod;
      var ns := if g.namespace == GLOBAL_NAMESPACE then h.namespace else g.namespace;
      var a := Attributes(life, ns, PendingReview, channel, Untrusted, None);
      assert g.Matches(ns, Read, Some(channel)) && g.Matches(ns, Read, None) && h.Matches(ns, Review, None);
      assert VisibleInList(profile, caller, a);
      assert !Passes(PushedDown(caller), a);
    } else {
      forall a: Attributes | a.lifecycle in profile.exactRead && VisibleInList(profile, caller, a)
        ensures Passes(PushedDown(caller), a)
      {
        NamespaceAndChannelPass(caller, a);
        if a.reviewState != Approved && !caller.HasScope(Review) {
          ReviewerIsUnbacked(caller, a);
        }
      }
    }
  }

  function Keep<T>(s: seq<T>, p: T -> bool): seq<T> {
    if s == [] then [] else (if p(s[0]) then [s[0]] else []) + Keep(s[1..], p)
  }

  lemma {:induction false} KeepTwice<T(!new)>(s: seq<T>, p: T -> bool, q: T -> bool)
    requires forall x | x in s && q(x) :: p(x)
    ensures Keep(Keep(s, p), q) == Keep(s, q)
  {
    if s != [] {
      KeepTwice(s[1..], p, q);
      var rest := Keep(s[1..], p);
      assert ([s[0]] + rest)[1..] == rest;
      assert [] + rest == rest;
    }
  }

  /** Over a whole catalogue of exact-read versions, filtering in SQL and then checking each
      row gives the same list as checking every row. */
  lemma FilterThenCheckIsCheck(profile: Profile, caller: Caller, catalogue: seq<Attributes>)
    requires !UnbackedReviewer(caller)
    requires forall a | a in catalogue :: a.lifecycle in profile.exactRead
    ensures Keep(Keep(catalogue, a => Passes(PushedDown(caller), a)), a => VisibleInList(profile, caller, a))
         == Keep(catalogue, a => VisibleInList(profile, caller, a))
  {
    if catalogue != [] {
      assert catalogue[0].lifecycle in profile.exactRead;
      PushDownIsSafeIff(profile, caller);
    }
    KeepTwice(catalogue, a => Passes(PushedDown(caller), a), a => VisibleInList(profile, caller, a));
  }

  /** The namespace and the channel pass their filters, each on its own. */
  predicate ColumnsPass(caller: Caller, ns: string, channel: Channel) {
    var f := PushedDown(caller);
    (f.namespaces.None? || ns in f.namespaces.value) && (f.channels.None? || channel in f.channels.value)
  }

  /** The filters say exactly what the grants say about reading. */
  ghost predicate FiltersAreGrants(caller: Caller) {
    forall ns, channel :: ColumnsPass(caller, ns, channel) <==> caller.HasNamespaceGrant(ns, Read, Some(channel))
  }

  predicate ReadsWhere(caller: Caller, ns: string, channel: Channel) {
    exists k | k in caller.grants :: k.Carries(Read) && k.Opens(Some(channel)) && k.Names(ns)
  }

  /** Every namespace that some grant lets pass is readable on every channel that some read grant
      opens. */
  ghost predicate Rectangular(caller: Caller) {
    forall g, h, c | g in caller.grants && h in caller.grants && (g.namespace == GLOBAL_NAMESPACE || g.Carries(Read))
      && h.Carries(Read) && h.Opens(Some(c)) :: ReadsWhere(caller, g.namespace, c)
  }

  /** What passing the two filters amounts to for a caller with grants. */
  lemma ColumnsPassMeaning(caller: Caller, ns: string, channel: Channel)
    requires caller.grants != []
    ensures ColumnsPass(caller, ns, channel) <==>
      && (exists g | g in caller.grants :: g.namespace == GLOBAL_NAMESPACE || (g.Carries(Read) && g.namespace == ns))
      && (exists h | h in caller.grants :: h.Carries(Read) && h.Opens(Some(channel)))
  {
    var f := PushedDown(caller);
    var names := set g | g in caller.grants && (g.namespace == GLOBAL_NAMESPACE || g.Carries(Read)) :: g.namespace;
    assert GLOBAL_NAMESPACE in names <==> exists g | g in caller.grants :: g.namespace == GLOBAL_NAMESPACE;
    if h :| h in caller.grants && h.Carries(Read) && h.Opens(Some(channel)) && f.channels.Some? {
      assert Only(channel) in h.channels && Only(channel).channel == channel;
    }
    if f.channels.Some? && channel in f.channels.value {
      var g, c :| g in caller.grants && g.Carries(Read) && c in g.channels && c.Only? && c.channel == channel;
      assert c == Only(channel) && g.Opens(Some(channel));
    }
    if f.channels.None? {
      var g :| g in caller.grants && g.Carries(Read) && AnyChannel in g.channels;
      assert g.Opens(Some(channel));
    }
  }

  lemma GrantedPair(caller: Caller, g: NamespaceGrant, h: NamespaceGrant, channel: Channel)
    requires FiltersAreGrants(caller) && g in caller.grants && h in caller.grants
    requires (g.namespace == GLOBAL_NAMESPACE || g.Carries(Read)) && h.Carries(Read) && h.Opens(Some(channel))
    ensures ReadsWhere(caller, g.namespace, channel)
  {
    hide ColumnsPass, PushedDown, Caller.AllowedNamespaces, Caller.AllowedChannels;
    ColumnsPassMeaning(caller, g.namespace, channel);
    assert caller.HasNamespaceGrant(g.namespace, Read, Some(channel));
    var k :| k in caller.grants && k.Matches(g.namespace, Read, Some(channel));
  }

  lemma SameReach(g: NamespaceGrant, k: NamespaceGrant, ns: string)
    requires (g.namespace == GLOBAL_NAMESPACE || g.namespace == ns) && k.Names(g.namespace)
    ensures k.Names(ns)
  {
  }

  lemma ReadableEverywhereNamed(caller: Caller, ns: string, channel: Channel, g: NamespaceGrant)
    requires ReadsWhere(caller, g.namespace, channel) && (g.namespace == GLOBAL_NAMESPACE || g.namespace == ns)
    ensures exists k | k in caller.grants :: k.Matches(ns, Read, Some(channel))
  {
    hide NamespaceGrant.Carries, NamespaceGrant.Opens;
    var k :| k in caller.grants && k.Carries(Read) && k.Opens(Some(channel)) && k.Names(g.namespace);
    SameReach(g, k, ns);
    hide NamespaceGrant.Names;
    assert k.Matches(ns, Read, Some(channel));
  }

  lemma RectangleAt(caller: Caller, g: NamespaceGrant, h: NamespaceGrant, channel: Channel)
    requires Rectangular(caller) && g in caller.grants && h in caller.grants
      && (g.namespace == GLOBAL_NAMESPACE || g.Carries(Read))
    requires h.Carries(Read) && h.Opens(Some(channel))
    ensures ReadsWhere(caller, g.namespace, channel)
  {
    hide NamespaceGrant.Carries, NamespaceGrant.Opens, ReadsWhere;
  }

  lemma RectanglePasses(caller: Caller, ns: string, channel: Channel)
    requires Rectangular(caller) && caller.grants != []
    ensures ColumnsPass(caller, ns, channel) <==> caller.HasNamespaceGrant(ns, Read, Some(channel))
  {
    hide Rectangular, PushedDown, Caller.AllowedNamespaces, Caller.AllowedChannels;
    if caller.HasNamespaceGrant(ns, Read, Some(channel)) {
      NamespaceAndChannelPass(caller, Attributes(Published, ns, Approved, channel, Untrusted, None));
    }
    ColumnsPassMeaning(caller, ns, channel);
    if ColumnsPass(caller, ns, channel) {
      var g :| g in caller.grants && (g.namespace == GLOBAL_NAMESPACE || (g.Carries(Read) && g.namespace == ns));
      var h :| h in caller.grants && h.Carries(Read) && h.Opens(Some(channel));
      assert ReadsWhere(caller, g.namespace, channel) by { RectangleAt(caller, g, h, channel); }
      ReadableEverywhereNamed(caller, ns, channel, g);
    }
  }

  /** The two column filters lose nothing of the grants if and only if the grants are rectangular;
      otherwise some namespace and channel pass without a grant for the pair. */
  lemma FiltersAreGrantsIff(caller: Caller)
    ensures FiltersAreGrants(caller) <==> Rectangular(caller)
  {
    if caller.grants != [] {
      if Rectangular(caller) {
        forall ns, channel
          ensures ColumnsPass(caller, ns, channel) <==> caller.HasNamespaceGrant(ns, Read, Some(channel))
        {
          RectanglePasses(caller, ns, channel);
        }
      }
      if FiltersAreGrants(caller) {
        forall g, h, c: Channel | g in caller.grants && h in caller.grants
          && (g.namespace == GLOBAL_NAMESPACE || g.Carries(Read))
            && h.Carries(Read) && h.Opens(Some(c))
          ensures ReadsWhere(caller, g.namespace, c)
        {
          GrantedPair(caller, g, h, c);
        }
      }
    }
  }

  /** With a single grant, whatever it is, the two column filters say exactly what the grant says. */
  lemma OneGrantLosesNothing(caller: Caller)
    requires |caller.grants| <= 1
    ensures FiltersAreGrants(caller)
  {
    FiltersAreGrantsIff(caller);
    forall g, h | g in caller.grants && h in caller.grants ensures g == h {
      assert g == caller.grants[0] && h == caller.grants[0];
    }
  }

  lemma LostPair(caller: Caller, ns: string, channel: Channel)
    requires ColumnsPass(caller, ns, channel) && !caller.HasNamespaceGrant(ns, Read, Some(channel))
    ensures !Rectangular(caller)
  {
    hide ColumnsPass, Rectangular, Caller.HasNamespaceGrant;
    FiltersAreGrantsIff(caller);
  }

  /** With two grants the pairing of namespace and channel is lost: a version can pass both
      filters and still be invisible. */
  lemma PairingIsLost(profile: Profile, tokenId: string)
    requires Published in profile.exactRead
    ensures var caller := Caller(tokenId, {Read}, [
              NamespaceGrant("team-a", {Read}, {Only(Dev)}), NamespaceGrant("team-b", {Read}, {Only(Prod)})]);
            var a := Attributes(Published, "team-a", Approved, Prod, Untrusted, None);
            !Rectangular(caller) && Passes(PushedDown(caller), a) && !VisibleInList(profile, caller, a)
  {
    var ga, gb := NamespaceGrant("team-a", {Read}, {Only(Dev)}), NamespaceGrant("team-b", {Read}, {Only(Prod)});
    var caller := Caller(tokenId, {Read}, [ga, gb]);
    assert caller.grants[0] == ga && caller.grants[1] == gb;
    assert forall g | g in caller.grants :: g == ga || g == gb;
    assert ga.namespace == "team-a" && gb.namespace == "team-b";
    assert "team-a"[5] != "team-b"[5];
    assert "team-a"[0] != GLOBAL_NAMESPACE[0] && "team-b"[0] != GLOBAL_NAMESPACE[0];
    assert Only(Prod).channel == Prod;
    LostPair(caller, "team-a", Prod);
  }

  ghost predicate NeverHidesArchived(profile: Profile, caller: Caller) {
    forall a: Attributes | a.lifecycle == Archived && VisibleInList(profile, caller, a) :: Passes(PushedDown(caller), a)
  }

  const ALL_CHANNELS: set<Channel> := {Dev, Staging, Prod}

  lemma {:induction false} LongerThanAll(names: set<string>) returns (ns: string)
    ensures forall n | n in names :: |n| < |ns|
  {
    if names == {} {
      ns := "x";
    } else {
      var n :| n in names;
      var rest := LongerThanAll(names - {n});
      ns := rest + n + ['x'];
      assert forall m | m in names :: m == n || m in names - {n};
    }
  }

  /** Where archived versions are not exact-read, the filters never hide one that the list rule
      shows if and only if the caller is no administrator or is filtered by neither namespace nor
      channel. */
  lemma ArchivedIsNeverHiddenIff(profile: Profile, caller: Caller)
    requires Archived !in profile.exactRead
    ensures NeverHidesArchived(profile, caller) <==>
      (caller.HasScope(Admin) ==>
        && caller.AllowedNamespaces(Read).None?
        && (caller.AllowedChannels(Read).None? || caller.AllowedChannels(Read).value == ALL_CHANNELS))
  {
    var f := PushedDown(caller);
    forall c: Channel ensures c in ALL_CHANNELS {
      assert c == Dev || c == Staging || c == Prod;
    }
    if caller.HasScope(Admin) {
      if f.namespaces.Some? {
        var ns := LongerThanAll(f.namespaces.value);
        var a := Attributes(Archived, ns, Approved, Prod, Untrusted, None);
        assert VisibleInList(profile, caller, a) && !Passes(f, a);
      } else if f.channels.Some? && f.channels.value != ALL_CHANNELS {
        var channel :| channel in ALL_CHANNELS - f.channels.value;
        var a := Attributes(Archived, DEFAULT_NAMESPACE, Approved, channel, Untrusted, None);
        assert VisibleInList(profile, caller, a) && !Passes(f, a);
      } else {
        forall a: Attributes ensures a.reviewState in f.reviewStates {
          assert a.reviewState == PendingReview || a.reviewState == Approved || a.reviewState == Rejected;
        }
      }
    }
  }

  /** Under the default profile it happens: an administrator reads archived versions in every
      namespace, while the namespace filter hides those outside the token's grants. */
  lemma ArchivedCanBeHidden(tokenId: string)
    ensures var caller := Caller(tokenId, {Admin}, [NamespaceGrant("team-a", {Admin}, {AnyChannel})]);
            var a := Attributes(Archived, "team-b", Approved, Prod, Untrusted, None);
            VisibleInList(DEFAULT_PROFILE, caller, a) && !Passes(PushedDown(caller), a)
  {
    var ga := NamespaceGrant("team-a", {Admin}, {AnyChannel});
    var caller := Caller(tokenId, {Admin}, [ga]);
    assert forall g | g in caller.grants :: g == ga;
    assert "team-a"[5] != "team-b"[5];
    assert "team-a"[0] != GLOBAL_NAMESPACE[0];
  }

  // --- Tokens configured without grants ----------------------------------------------------

  function DefaultNamespaceGrants(scopes: set<Scope>): seq<NamespaceGrant> {
    if Admin in scopes then [NamespaceGrant(GLOBAL_NAMESPACE, ALL_NAMESPACE_ROLES, {AnyChannel})]
    else
      var roles := set s | s in scopes && s in ALL_NAMESPACE_ROLES;
      if roles == {} then [] else [NamespaceGrant(DEFAULT_NAMESPACE, roles, {Only(Prod)})]
  }

  /** A grant is written exactly for records with a scope that is a role, and never more than one. */
  lemma DefaultGrantIsWrittenIff(scopes: set<Scope>)
    ensures DefaultNamespaceGrants(scopes) != [] <==> exists s :: s in scopes && s in ALL_NAMESPACE_ROLES
    ensures forall g | g in DefaultNamespaceGrants(scopes) :: DefaultNamespaceGrants(scopes) == [g] && g.roles != {}
  {
    assert Admin in ALL_NAMESPACE_ROLES;
    var roles := set s | s in scopes && s in ALL_NAMESPACE_ROLES;
    if s :| s in scopes && s in ALL_NAMESPACE_ROLES {
      assert s in roles;
    }
  }

  /** The grants written into a token record answer every question as the record without
      grants does. */
  lemma DefaultGrantsAgreeWithNoGrants(tokenId: string, scopes: set<Scope>, ns: string, role: Role,
      channel: Option<Channel>)
    ensures var bare, explicit := Caller(tokenId, scopes, []), Caller(tokenId, scopes, DefaultNamespaceGrants(scopes));
      && bare.HasNamespaceGrant(ns, role, channel) == explicit.HasNamespaceGrant(ns, role, channel)
      && bare.AllowedNamespaces(role) == explicit.AllowedNamespaces(role)
      && bare.AllowedChannels(role) == explicit.AllowedChannels(role)
  {
    var bare, explicit := Caller(tokenId, scopes, []), Caller(tokenId, scopes, DefaultNamespaceGrants(scopes));
    if explicit.grants != [] {
      var g := explicit.grants[0];
      assert g in explicit.grants && forall x | x in explicit.grants :: x == g;
      assert role in ALL_NAMESPACE_ROLES;
      if Admin in scopes {
        assert g.Matches(ns, role, channel);
        assert g.Carries(role) && AnyChannel in g.channels;
      } else {
        assert g.Carries(role) <==> role in scopes;
        assert DEFAULT_NAMESPACE[0] != GLOBAL_NAMESPACE[0];
        assert Only(Prod) in g.channels && Only(Prod).channel == Prod;
        assert forall c | c in g.channels :: c == Only(Prod);
        assert explicit.HasNamespaceGrant(ns, role, channel) <==> g.Matches(ns, role, channel);
        assert explicit.AllowedNamespaces(role).value == if role in scopes then {DEFAULT_NAMESPACE} else {};
        var channels := explicit.AllowedChannels(role).value;
        assert channels == if role in scopes then {Prod} else {};
      }
    } else {
      assert Admin !in scopes;
      assert role in ALL_NAMESPACE_ROLES;
    }
  }
}
