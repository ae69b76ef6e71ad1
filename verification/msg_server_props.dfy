/**
 * Properties of the circuit-breaker message handlers, one lemma per rule:
 * who may authorize, trip and reset, what each does to the disabled set, and
 * what each leaves alone.
 */
module MsgServerProps {
  import opened Wrappers
  import opened CircuitTypes
  import opened CircuitKeeper
  import opened CircuitSpec
  import opened CircuitSpecLemmas
  import opened MsgServer

  // ---------------------------------------------------------------- Authorize

  /** A successful authorization gives the grantee exactly the requested
      permissions and changes nothing else: no other address's permissions,
      not the disabled set, not the authority. */
  lemma AuthorizeSetsOnlyGrantee(k: Keeper, codec: AddressCodec, msg: MsgAuthorizeCircuitBreaker, b: Addr)
    requires AuthorizeCircuitBreaker(k, codec, msg).Success?
    ensures var h := AuthorizeCircuitBreaker(k, codec, msg).value;
            && h.success
            && GetPermissions(h.keeper, codec(msg.grantee).value) == Success(msg.permissions)
            && (b != codec(msg.grantee).value ==> GetPermissions(h.keeper, b) == GetPermissions(k, b))
            && h.keeper.disabled == k.disabled
            && h.keeper.authority == k.authority
  {
    var grantee := codec(msg.grantee).value;
    GetAfterSet(k, grantee, msg.permissions);
    if b != grantee {
      SetLeavesOthers(k, grantee, msg.permissions, b);
    }
  }

  /** The authority may authorize whatever it stores for itself, even when its
      own entry is missing or does not decode. */
  lemma AuthorityMayAlwaysAuthorize(k: Keeper, codec: AddressCodec, msg: MsgAuthorizeCircuitBreaker)
    requires codec(msg.granter) == Some(k.authority)
    requires codec(msg.grantee).Some?
    ensures AuthorizeCircuitBreaker(k, codec, msg).Success?
  {
  }

  /** A granter other than the authority whose stored level is not SUPER_ADMIN is
      refused, with "only super admins can authorize users". */
  lemma AuthorizeNeedsSuperAdmin(k: Keeper, codec: AddressCodec, msg: MsgAuthorizeCircuitBreaker, p: Permissions)
    requires codec(msg.granter).Some? && codec(msg.granter).value != k.authority
    requires GetPermissions(k, codec(msg.granter).value) == Success(p)
    requires p.level != LevelSuperAdmin
    ensures AuthorizeCircuitBreaker(k, codec, msg) == Failure(NotSuperAdmin)
  {
  }

  // --------------------------------------------------------------------- Trip

  /** A trip by the authority, a SUPER_ADMIN or an ALL_MSGS account disables every
      listed URL; it fails if some listed URL is disabled already or is listed twice. */
  lemma TripUnrestricted(k: Keeper, codec: AddressCodec, msg: MsgTripCircuitBreaker, addr: Addr, p: Permissions)
    requires codec(msg.authority) == Some(addr) && GetPermissions(k, addr) == Success(p)
    requires p.level == LevelSuperAdmin || addr == k.authority || p.level == LevelAllMsgs
    ensures var r := TripCircuitBreaker(k, codec, msg);
            && (r.Success? <==> NoneDisabled(k, msg.msgTypeUrls) && Distinct(msg.msgTypeUrls))
            && (r.Success? ==> forall u :: !IsAllowed(r.value.keeper, u) <==> !IsAllowed(k, u) || u in msg.msgTypeUrls)
  {
    var r := TripCircuitBreaker(k, codec, msg);
    if r.Success? {
      forall u ensures !IsAllowed(r.value.keeper, u) <==> !IsAllowed(k, u) || u in msg.msgTypeUrls {
        ListedIsMembership(msg.msgTypeUrls, u);
      }
    }
  }

  /** A SOME_MSGS account with an empty limit list trips "successfully" whenever
      no listed URL is disabled, and disables nothing. */
  lemma TripLimitedWithoutLimitsDisablesNothing(
    k: Keeper, codec: AddressCodec, msg: MsgTripCircuitBreaker, addr: Addr, p: Permissions)
    requires codec(msg.authority) == Some(addr) && GetPermissions(k, addr) == Success(p)
    requires p.level == LevelSomeMsgs && addr != k.authority && p.limitTypeUrls == []
    ensures var r := TripCircuitBreaker(k, codec, msg);
            && (r.Success? <==> NoneDisabled(k, msg.msgTypeUrls))
            && (r.Success? ==> r.value == Handled(k, true))
  {
    var r := TripCircuitBreaker(k, codec, msg);
    if r.Success? {
      assert r.value.keeper == k.(disabled := k.disabled + {});
    }
  }

  /** Under SOME_MSGS with a non-empty limit list, each listed URL is compared with
      every limit entry, so a trip succeeds only if it lists at most one URL and
      every limit entry equals that URL. */
  lemma {:induction false} TripLimitedAtMostOneUrl(
    k: Keeper, codec: AddressCodec, msg: MsgTripCircuitBreaker, addr: Addr, p: Permissions)
    requires codec(msg.authority) == Some(addr) && GetPermissions(k, addr) == Success(p)
    requires p.level == LevelSomeMsgs && addr != k.authority && |p.limitTypeUrls| > 0
    requires TripCircuitBreaker(k, codec, msg).Success?
    ensures |msg.msgTypeUrls| <= 1
    ensures |msg.msgTypeUrls| == 1 ==> forall j | 0 <= j < |p.limitTypeUrls| :: p.limitTypeUrls[j] == msg.msgTypeUrls[0]
  {
    var urls := msg.msgTypeUrls;
    assert Distinct(urls) && AllMatch(urls, p.limitTypeUrls);
    if |urls| > 1 {
      MatchingUrlsAgree(urls, p.limitTypeUrls, 0, 1);
      assert false;
    }
  }

  /** Two URLs that both equal every (and at least one) limit entry are equal. */
  lemma MatchingUrlsAgree(urls: seq<Url>, limits: seq<Url>, i: int, j: int)
    requires |limits| > 0 && AllMatch(urls, limits)
    requires 0 <= i < |urls| && 0 <= j < |urls|
    ensures urls[i] == urls[j]
  {
    assert limits[0] == urls[i];
  }

  /** A caller below SOME_MSGS (or at an unknown level) that is not the authority
      cannot trip anything, not even an empty list. */
  lemma TripOtherLevelRejected(k: Keeper, codec: AddressCodec, msg: MsgTripCircuitBreaker, addr: Addr, p: Permissions)
    requires codec(msg.authority) == Some(addr) && GetPermissions(k, addr) == Success(p)
    requires addr != k.authority
    requires p.level != LevelSuperAdmin && p.level != LevelAllMsgs && p.level != LevelSomeMsgs
    ensures TripCircuitBreaker(k, codec, msg) == Failure(NoTripPermission)
  {
  }

  /** The permissions lookup runs before the authority check: an undecodable
      entry for the authority's own address makes its trip fail. */
  lemma TripLookupErrorRejectsAuthority(k: Keeper, codec: AddressCodec, msg: MsgTripCircuitBreaker)
    requires codec(msg.authority) == Some(k.authority)
    requires k.authority in k.permissions && k.permissions[k.authority] == Corrupt
    ensures TripCircuitBreaker(k, codec, msg) == Failure(UndecodablePermissions(k.authority))
  {
  }

  /** A trip only adds listed URLs to the disabled set and touches nothing else. */
  lemma TripOnlyDisablesListed(k: Keeper, codec: AddressCodec, msg: MsgTripCircuitBreaker)
    requires TripCircuitBreaker(k, codec, msg).Success?
    ensures var k' := TripCircuitBreaker(k, codec, msg).value.keeper;
            && k.disabled <= k'.disabled
            && (forall u | u in k'.disabled - k.disabled :: u in msg.msgTypeUrls)
            && k'.permissions == k.permissions
            && k'.authority == k.authority
  {
    var k' := TripCircuitBreaker(k, codec, msg).value.keeper;
    forall u | u in k'.disabled - k.disabled
      ensures u in msg.msgTypeUrls
    {
      ListedIsMembership(msg.msgTypeUrls, u);
    }
  }

  // -------------------------------------------------------------------- Reset

  /** Only ALL_MSGS and SOME_MSGS accounts may reset: a SUPER_ADMIN is refused. */
  lemma SuperAdminCannotReset(k: Keeper, codec: AddressCodec, msg: MsgResetCircuitBreaker, addr: Addr, p: Permissions)
    requires codec(msg.authority) == Some(addr) && GetPermissions(k, addr) == Success(p)
    requires p.level == LevelSuperAdmin
    ensures ResetCircuitBreaker(k, codec, msg) == Failure(NoResetPermission)
  {
  }

  /** Being the module authority gives no right to reset: its stored level decides. */
  lemma AuthorityCannotResetWithoutLevel(k: Keeper, codec: AddressCodec, msg: MsgResetCircuitBreaker)
    requires codec(msg.authority) == Some(k.authority) && k.authority !in k.permissions
    ensures ResetCircuitBreaker(k, codec, msg) == Failure(NoResetPermission)
  {
  }

  /** A SOME_MSGS reset succeeds exactly when every listed URL is in the caller's
      limit list, and then enables every listed URL. */
  lemma ResetLimited(k: Keeper, codec: AddressCodec, msg: MsgResetCircuitBreaker, addr: Addr, p: Permissions)
    requires codec(msg.authority) == Some(addr) && GetPermissions(k, addr) == Success(p)
    requires p.level == LevelSomeMsgs
    ensures var r := ResetCircuitBreaker(k, codec, msg);
            && (r.Success? <==> forall i | 0 <= i < |msg.msgTypeUrls| :: StringInSlice(msg.msgTypeUrls[i], p.limitTypeUrls))
            && (r.Success? ==> forall u :: IsAllowed(r.value.keeper, u) <==> IsAllowed(k, u) || u in msg.msgTypeUrls)
  {
    var r := ResetCircuitBreaker(k, codec, msg);
    if r.Success? {
      forall u ensures IsAllowed(r.value.keeper, u) <==> IsAllowed(k, u) || u in msg.msgTypeUrls {
        ListedIsMembership(msg.msgTypeUrls, u);
      }
    }
  }

  /** An ALL_MSGS reset fails on any listed URL that is disabled, so when it
      succeeds every listed URL was allowed already and the state is unchanged. */
  lemma ResetAllMsgsChangesNothing(k: Keeper, codec: AddressCodec, msg: MsgResetCircuitBreaker, addr: Addr, p: Permissions)
    requires codec(msg.authority) == Some(addr) && GetPermissions(k, addr) == Success(p)
    requires p.level == LevelAllMsgs
    ensures var r := ResetCircuitBreaker(k, codec, msg);
            && (r.Success? <==> NoneDisabled(k, msg.msgTypeUrls))
            && (r.Success? ==> r.value == Handled(k, true))
  {
    var r := ResetCircuitBreaker(k, codec, msg);
    if r.Success? {
      assert r.value.keeper == k.(disabled := k.disabled - {});
    }
  }

  /** A reset only removes listed URLs from the disabled set and touches nothing else. */
  lemma ResetOnlyEnablesListed(k: Keeper, codec: AddressCodec, msg: MsgResetCircuitBreaker)
    requires ResetCircuitBreaker(k, codec, msg).Success?
    ensures var k' := ResetCircuitBreaker(k, codec, msg).value.keeper;
            && k'.disabled <= k.disabled
            && (forall u | u in k.disabled - k'.disabled :: u in msg.msgTypeUrls)
            && k'.permissions == k.permissions
            && k'.authority == k.authority
  {
    var k' := ResetCircuitBreaker(k, codec, msg).value.keeper;
    forall u | u in k.disabled - k'.disabled
      ensures u in msg.msgTypeUrls
    {
      ListedIsMembership(msg.msgTypeUrls, u);
    }
  }

  // --------------------------------------------------------- trip then reset

  /** A SOME_MSGS account limited to one URL can trip that URL and reset it
      again, which restores the state it started from. */
  lemma TripThenLimitedResetRestores(k: Keeper, codec: AddressCodec, s: string, addr: Addr, u: Url)
    requires codec(s) == Some(addr) && addr != k.authority
    requires GetPermissions(k, addr) == Success(Permissions(LevelSomeMsgs, [u]))
    requires IsAllowed(k, u)
    ensures TripCircuitBreaker(k, codec, MsgTripCircuitBreaker(s, [u])).Success?
    ensures var k1 := TripCircuitBreaker(k, codec, MsgTripCircuitBreaker(s, [u])).value.keeper;
            ResetCircuitBreaker(k1, codec, MsgResetCircuitBreaker(s, [u])) == Success(Handled(k, true))
  {
    var p := Permissions(LevelSomeMsgs, [u]);
    ListedCons([u]);
    assert Listed([u][1..]) == {};
    assert TripAdmissible(k, addr, p, [u]);
    var k1 := TripCircuitBreaker(k, codec, MsgTripCircuitBreaker(s, [u])).value.keeper;
    assert k1 == k.(disabled := k.disabled + {u});
    assert GetPermissions(k1, addr) == Success(p);
    assert ResetAdmissible(k1, p, [u]);
    assert k1.(disabled := k1.disabled - {u}) == k;
  }

  /** An ALL_MSGS account can never undo a trip: once a URL has been tripped, an
      ALL_MSGS reset listing it fails with "not disabled". */
  lemma AllMsgsResetCannotUndoTrip(
    k: Keeper, codec: AddressCodec, trip: MsgTripCircuitBreaker, reset: MsgResetCircuitBreaker, addr: Addr, i: int)
    requires TripCircuitBreaker(k, codec, trip).Success?
    requires 0 <= i < |trip.msgTypeUrls|
    requires var k1 := TripCircuitBreaker(k, codec, trip).value.keeper;
             codec(reset.authority) == Some(addr) && GetPermissions(k1, addr).Success?
             && GetPermissions(k1, addr).value.level == LevelAllMsgs
    requires trip.msgTypeUrls[i] in reset.msgTypeUrls
    requires TripCircuitBreaker(k, codec, trip).value.keeper.disabled != k.disabled
    ensures ResetCircuitBreaker(TripCircuitBreaker(k, codec, trip).value.keeper, codec, reset).Failure?
  {
    var k1 := TripCircuitBreaker(k, codec, trip).value.keeper;
    TripOnlyDisablesListed(k, codec, trip);
    var addrT := codec(trip.authority).value;
    var pT := GetPermissions(k, addrT).value;
    assert TripDisables(k, addrT, pT, trip.msgTypeUrls) == Listed(trip.msgTypeUrls);
    assert !IsAllowed(k1, trip.msgTypeUrls[i]);
    var j :| 0 <= j < |reset.msgTypeUrls| && reset.msgTypeUrls[j] == trip.msgTypeUrls[i];
    assert !NoneDisabled(k1, reset.msgTypeUrls);
  }
}
