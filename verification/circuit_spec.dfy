/**
 * Declarative vocabulary for the circuit-breaker rules: what a list of message
 * type URLs must satisfy for a trip or a reset to go through, and what the
 * disabled set becomes. The message handlers are proved against these.
 */
module CircuitSpec {
  import opened CircuitTypes
  import opened CircuitKeeper

  /** No listed URL is currently disabled. */
  predicate NoneDisabled(k: Keeper, urls: seq<Url>) {
    forall i | 0 <= i < |urls| :: IsAllowed(k, urls[i])
  }

  /** No URL is listed twice. */
  predicate Distinct(urls: seq<Url>) {
    forall i, j | 0 <= i < j < |urls| :: urls[i] != urls[j]
  }

  /** Every listed URL equals every entry of `limits`. */
  predicate AllMatch(urls: seq<Url>, limits: seq<Url>) {
    forall i, j | 0 <= i < |urls| && 0 <= j < |limits| :: limits[j] == urls[i]
  }

  /** Every listed URL occurs in `limits`. */
  predicate AllIn(urls: seq<Url>, limits: seq<Url>) {
    forall i | 0 <= i < |urls| :: urls[i] in limits
  }

  /** The URLs a list names. */
  function Listed(urls: seq<Url>): set<Url> {
    set i | 0 <= i < |urls| :: urls[i]
  }

  /** Entry `i` is the first that is disabled already or repeats an earlier entry. */
  predicate FirstBlocked(k: Keeper, urls: seq<Url>, i: int)
    requires 0 <= i < |urls|
  {
    && (!IsAllowed(k, urls[i]) || urls[i] in urls[..i])
    && forall j | 0 <= j < i :: IsAllowed(k, urls[j]) && urls[j] !in urls[..j]
  }

  /** Under SOME_MSGS, entry `j` gets through both checks of the trip loop: it is
      allowed at that point (earlier entries are disabled by then when the limit
      list is non-empty) and it equals every limit entry. */
  predicate LimitedPasses(k: Keeper, urls: seq<Url>, limits: seq<Url>, j: int)
    requires 0 <= j < |urls|
  {
    && IsAllowed(k, urls[j])
    && (|limits| == 0 || urls[j] !in urls[..j])
    && forall m | 0 <= m < |limits| :: limits[m] == urls[j]
  }

  /** Entry `i` is the first that fails a SOME_MSGS trip. */
  predicate LimitedFirstFailure(k: Keeper, urls: seq<Url>, limits: seq<Url>, i: int)
    requires 0 <= i < |urls|
  {
    !LimitedPasses(k, urls, limits, i) && forall j | 0 <= j < i :: LimitedPasses(k, urls, limits, j)
  }

  /** The error a SOME_MSGS trip reports for its first failing entry: the disabled
      check comes before the comparison with the limit entries. */
  function LimitedError(k: Keeper, urls: seq<Url>, limits: seq<Url>, i: int): Error
    requires 0 <= i < |urls|
  {
    if !IsAllowed(k, urls[i]) || (|limits| > 0 && urls[i] in urls[..i]) then AlreadyDisabled(urls[i])
    else NoTripPermissionFor(urls[i])
  }

  /** The caller trips with unrestricted power: SUPER_ADMIN level, the module authority, or ALL_MSGS level. */
  predicate TripsUnrestricted(k: Keeper, addr: Addr, perms: Permissions) {
    perms.level == LevelSuperAdmin || addr == k.authority || perms.level == LevelAllMsgs
  }

  /** The caller trips under SOME_MSGS rules (and is not the authority). */
  predicate TripsLimited(k: Keeper, addr: Addr, perms: Permissions) {
    !TripsUnrestricted(k, addr, perms) && perms.level == LevelSomeMsgs
  }

  /** Whether a trip of `urls` by the caller at `addr` holding `perms` succeeds. */
  predicate TripAdmissible(k: Keeper, addr: Addr, perms: Permissions, urls: seq<Url>) {
    if TripsUnrestricted(k, addr, perms) then
      NoneDisabled(k, urls) && Distinct(urls)
    else if TripsLimited(k, addr, perms) then
      NoneDisabled(k, urls)
      && (|perms.limitTypeUrls| == 0 || (Distinct(urls) && AllMatch(urls, perms.limitTypeUrls)))
    else
      false
  }

  /** The URLs a successful trip adds to the disabled set. */
  function TripDisables(k: Keeper, addr: Addr, perms: Permissions, urls: seq<Url>): set<Url> {
    if TripsLimited(k, addr, perms) && |perms.limitTypeUrls| == 0 then {} else Listed(urls)
  }

  /** The error a rejected trip carries: the first disabled or repeated URL for an
      unrestricted caller, the first failing entry under SOME_MSGS, and "no
      permission to trip" for every other caller. */
  predicate TripFailsWith(k: Keeper, addr: Addr, perms: Permissions, urls: seq<Url>, e: Error) {
    if TripsUnrestricted(k, addr, perms) then
      exists i | 0 <= i < |urls| :: FirstBlocked(k, urls, i) && e == AlreadyDisabled(urls[i])
    else if TripsLimited(k, addr, perms) then
      exists i | 0 <= i < |urls| ::
        LimitedFirstFailure(k, urls, perms.limitTypeUrls, i) && e == LimitedError(k, urls, perms.limitTypeUrls, i)
    else
      e == NoTripPermission
  }

  /** Whether a reset of `urls` by a caller holding `perms` succeeds. */
  predicate ResetAdmissible(k: Keeper, perms: Permissions, urls: seq<Url>) {
    if perms.level == LevelSomeMsgs then AllIn(urls, perms.limitTypeUrls)
    else if perms.level == LevelAllMsgs then NoneDisabled(k, urls)
    else false
  }

  /** The URLs a successful reset removes from the disabled set. */
  function ResetEnables(perms: Permissions, urls: seq<Url>): set<Url> {
    if perms.level == LevelSomeMsgs then Listed(urls) else {}
  }

  /** The error a rejected reset carries: under SOME_MSGS the first URL outside the
      limit list, under ALL_MSGS the first disabled URL, and "no permission to
      reset" for every other level. */
  predicate ResetFailsWith(k: Keeper, perms: Permissions, urls: seq<Url>, e: Error) {
    if perms.level == LevelSomeMsgs then
      exists i | 0 <= i < |urls| ::
        e == NoResetPermissionFor(urls[i]) && urls[i] !in perms.limitTypeUrls && AllIn(urls[..i], perms.limitTypeUrls)
    else if perms.level == LevelAllMsgs then
      exists i | 0 <= i < |urls| ::
        e == NotDisabled(urls[i]) && !IsAllowed(k, urls[i]) && NoneDisabled(k, urls[..i])
    else
      e == NoResetPermission
  }

  /** Permission to authorize: the authority itself, or an account whose stored level is SUPER_ADMIN. */
  predicate MayAuthorize(k: Keeper, granter: Addr) {
    granter == k.authority
    || (GetPermissions(k, granter).Success? && GetPermissions(k, granter).value.level == LevelSuperAdmin)
  }
}

module CircuitSpecLemmas {
  import opened CircuitTypes
  import opened CircuitKeeper
  import opened CircuitSpec

  lemma DistinctCons(urls: seq<Url>)
    requires |urls| > 0
    ensures Distinct(urls) <==> Distinct(urls[1..]) && urls[0] !in urls[1..]
  {
    var rest := urls[1..];
    if Distinct(rest) && urls[0] !in rest {
      forall i, j | 0 <= i < j < |urls| ensures urls[i] != urls[j] {
        if i == 0 {
          assert urls[j] == rest[j - 1];
        } else {
          assert rest[i - 1] != rest[j - 1];
        }
      }
    }
    if Distinct(urls) {
      forall i, j | 0 <= i < j < |rest| ensures rest[i] != rest[j] {
        assert urls[i + 1] != urls[j + 1];
      }
    }
  }

  lemma NoneDisabledCons(k: Keeper, urls: seq<Url>)
    requires |urls| > 0
    ensures NoneDisabled(k, urls) <==> IsAllowed(k, urls[0]) && NoneDisabled(k, urls[1..])
  {
    if IsAllowed(k, urls[0]) && NoneDisabled(k, urls[1..]) {
      forall i | 0 <= i < |urls| ensures IsAllowed(k, urls[i]) {
        if i > 0 { assert urls[1..][i - 1] == urls[i]; }
      }
    }
  }

  lemma AllInCons(urls: seq<Url>, limits: seq<Url>)
    requires |urls| > 0
    ensures AllIn(urls, limits) <==> urls[0] in limits && AllIn(urls[1..], limits)
  {
    if urls[0] in limits && AllIn(urls[1..], limits) {
      forall i | 0 <= i < |urls| ensures urls[i] in limits {
        if i > 0 { assert urls[1..][i - 1] == urls[i]; }
      }
    }
  }

  lemma AllMatchCons(urls: seq<Url>, limits: seq<Url>)
    requires |urls| > 0
    ensures AllMatch(urls, limits) <==>
              (forall j | 0 <= j < |limits| :: limits[j] == urls[0]) && AllMatch(urls[1..], limits)
  {
    if (forall j | 0 <= j < |limits| :: limits[j] == urls[0]) && AllMatch(urls[1..], limits) {
      forall i, j | 0 <= i < |urls| && 0 <= j < |limits| ensures limits[j] == urls[i] {
        if i > 0 { assert urls[1..][i - 1] == urls[i]; }
      }
    }
  }

  /** After disabling `u`, the rest is all allowed exactly when it was before and does not list `u`. */
  lemma NoneDisabledAfterDisable(k: Keeper, u: Url, rest: seq<Url>)
    ensures NoneDisabled(DisableMsg(k, u), rest) <==> NoneDisabled(k, rest) && u !in rest
  {
    if NoneDisabled(k, rest) && u !in rest {
      forall i | 0 <= i < |rest| ensures IsAllowed(DisableMsg(k, u), rest[i]) {
        assert rest[i] != u;
      }
    }
  }

  lemma ListedCons(urls: seq<Url>)
    requires |urls| > 0
    ensures Listed(urls) == {urls[0]} + Listed(urls[1..])
  {
    var rest := urls[1..];
    forall u | u in Listed(urls) ensures u in {urls[0]} + Listed(rest) {
      var i :| 0 <= i < |urls| && urls[i] == u;
      if i > 0 { assert rest[i - 1] == u; }
    }
    forall u | u in Listed(rest) ensures u in Listed(urls) {
      var i :| 0 <= i < |rest| && rest[i] == u;
      assert urls[i + 1] == u;
    }
  }

  /** A URL is named by a list exactly when it occurs in it. */
  lemma ListedIsMembership(urls: seq<Url>, u: Url)
    ensures u in Listed(urls) <==> u in urls
  {
    if u in urls {
      var i :| 0 <= i < |urls| && urls[i] == u;
    }
  }
}
