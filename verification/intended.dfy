/**
 * The handler branches whose behaviour contradicts their own error messages and
 * comments, next to the evident intent:
 *  - an ALL_MSGS reset fails exactly on the URLs it should re-enable
 *    ("msgTypeURL %s is not disabled" is returned for a disabled URL);
 *  - a SUPER_ADMIN may trip anything but never reset, and being the authority
 *    gives no right to reset either: only the stored level decides;
 *  - a SOME_MSGS trip compares the URL with every limit entry instead of testing membership.
 * The lemmas named ...AsWritten exhibit each discrepancy on the handlers as
 * written; the ...Intended functions correct them and carry the round trip the
 * module's design promises: what was tripped can be reset.
 */
module Intended {
  import opened Wrappers
  import opened CircuitTypes
  import opened CircuitKeeper
  import opened CircuitSpec
  import opened CircuitSpecLemmas
  import opened MsgServer

  // ------------------------------------------------------- corrected trip

  /** Corrected SOME_MSGS trip loop: each listed URL must be allowed and be in the limit list. */
  function DisableEachPermitted(k: Keeper, urls: seq<Url>, limits: seq<Url>): (r: Result<Keeper, Error>)
    ensures r.Success? <==> NoneDisabled(k, urls) && Distinct(urls) && AllIn(urls, limits)
    ensures r.Success? ==> r.value == k.(disabled := k.disabled + Listed(urls))
    decreases |urls|
  {
    if |urls| == 0 then Success(k)
    else if !IsAllowed(k, urls[0]) then
      NoneDisabledCons(k, urls);
      Failure(AlreadyDisabled(urls[0]))
    else if !StringInSlice(urls[0], limits) then
      AllInCons(urls, limits);
      Failure(NoTripPermissionFor(urls[0]))
    else
      var r := DisableEachPermitted(DisableMsg(k, urls[0]), urls[1..], limits);
      NoneDisabledCons(k, urls);
      DistinctCons(urls);
      AllInCons(urls, limits);
      NoneDisabledAfterDisable(k, urls[0], urls[1..]);
      ListedCons(urls);
      r
  }

  /** The level switch of a trip with the SOME_MSGS branch corrected. */
  function TripAsIntended(k: Keeper, addr: Addr, perms: Permissions, urls: seq<Url>): (r: Result<Keeper, Error>)
    ensures r.Success? <==>
              if TripsUnrestricted(k, addr, perms) then NoneDisabled(k, urls) && Distinct(urls)
              else if TripsLimited(k, addr, perms) then
                NoneDisabled(k, urls) && Distinct(urls) && AllIn(urls, perms.limitTypeUrls)
              else false
    ensures r.Success? ==> r.value == k.(disabled := k.disabled + Listed(urls))
  {
    if perms.level == LevelSuperAdmin || addr == GetAuthority(k) || perms.level == LevelAllMsgs then
      DisableEach(k, urls)
    else if perms.level == LevelSomeMsgs then
      DisableEachPermitted(k, urls, perms.limitTypeUrls)
    else
      Failure(NoTripPermission)
  }

  /** The trip handler with the SOME_MSGS branch corrected. */
  function TripCircuitBreakerIntended(k: Keeper, codec: AddressCodec, msg: MsgTripCircuitBreaker)
    : (r: Result<Handled, Error>)
    ensures codec(msg.authority).None? ==> r == Failure(InvalidAddress(msg.authority))
    ensures codec(msg.authority).Some? && GetPermissions(k, codec(msg.authority).value).Failure? ==>
              r == Failure(UndecodablePermissions(codec(msg.authority).value))
    ensures codec(msg.authority).Some? && GetPermissions(k, codec(msg.authority).value).Success? ==>
              var addr := codec(msg.authority).value;
              var perms := GetPermissions(k, addr).value;
              && (r.Success? <==>
                    if TripsUnrestricted(k, addr, perms) then NoneDisabled(k, msg.msgTypeUrls) && Distinct(msg.msgTypeUrls)
                    else if TripsLimited(k, addr, perms) then
                      NoneDisabled(k, msg.msgTypeUrls) && Distinct(msg.msgTypeUrls)
                      && AllIn(msg.msgTypeUrls, perms.limitTypeUrls)
                    else false)
              && (!TripsUnrestricted(k, addr, perms) && !TripsLimited(k, addr, perms) ==> r == Failure(NoTripPermission))
    ensures r.Success? ==> r.value == Handled(k.(disabled := k.disabled + Listed(msg.msgTypeUrls)), true)
  {
    var addr :- DecodeAddress(codec, msg.authority);
    var perms :- GetPermissions(k, addr);
    var k' :- TripAsIntended(k, addr, perms, msg.msgTypeUrls);
    Success(Handled(k', true))
  }

  // ------------------------------------------------------ corrected reset

  /** No listed URL is currently allowed. */
  predicate AllDisabled(k: Keeper, urls: seq<Url>) {
    forall i | 0 <= i < |urls| :: !IsAllowed(k, urls[i])
  }

  /** Corrected unrestricted reset loop: each listed URL must be disabled at that point; it is then enabled. */
  function EnableEachDisabled(k: Keeper, urls: seq<Url>): (r: Result<Keeper, Error>)
    ensures r.Success? <==> AllDisabled(k, urls) && Distinct(urls)
    ensures r.Success? ==> r.value == k.(disabled := k.disabled - Listed(urls))
    decreases |urls|
  {
    if |urls| == 0 then Success(k)
    else if IsAllowed(k, urls[0]) then Failure(NotDisabled(urls[0]))
    else
      var r := EnableEachDisabled(EnableMsg(k, urls[0]), urls[1..]);
      AllDisabledAfterEnable(k, urls);
      DistinctCons(urls);
      ListedCons(urls);
      r
  }

  lemma AllDisabledAfterEnable(k: Keeper, urls: seq<Url>)
    requires |urls| > 0 && !IsAllowed(k, urls[0])
    ensures AllDisabled(EnableMsg(k, urls[0]), urls[1..]) && urls[0] !in urls[1..]
            <==> AllDisabled(k, urls) && urls[0] !in urls[1..]
  {
    var rest := urls[1..];
    if AllDisabled(k, urls) && urls[0] !in rest {
      forall i | 0 <= i < |rest| ensures !IsAllowed(EnableMsg(k, urls[0]), rest[i]) {
        assert rest[i] == urls[i + 1] && rest[i] != urls[0];
      }
    }
    if AllDisabled(EnableMsg(k, urls[0]), rest) && urls[0] !in rest {
      forall i | 0 <= i < |urls| ensures !IsAllowed(k, urls[i]) {
        if i > 0 { assert urls[i] == rest[i - 1]; }
      }
    }
  }

  /** Reset with both findings corrected: whoever may trip without restriction
      may also reset without restriction, and that reset requires each listed URL
      to be disabled. The SOME_MSGS branch is unchanged. */
  function ResetCircuitBreakerIntended(k: Keeper, codec: AddressCodec, msg: MsgResetCircuitBreaker)
    : (r: Result<Handled, Error>)
    ensures codec(msg.authority).None? ==> r == Failure(InvalidAddress(msg.authority))
    ensures codec(msg.authority).Some? && GetPermissions(k, codec(msg.authority).value).Failure? ==>
              r == Failure(UndecodablePermissions(codec(msg.authority).value))
    ensures codec(msg.authority).Some? && GetPermissions(k, codec(msg.authority).value).Success? ==>
              var addr := codec(msg.authority).value;
              var perms := GetPermissions(k, addr).value;
              && (r.Success? <==>
                    if TripsUnrestricted(k, addr, perms) then AllDisabled(k, msg.msgTypeUrls) && Distinct(msg.msgTypeUrls)
                    else if perms.level == LevelSomeMsgs then AllIn(msg.msgTypeUrls, perms.limitTypeUrls)
                    else false)
              && (!TripsUnrestricted(k, addr, perms) && perms.level != LevelSomeMsgs ==> r == Failure(NoResetPermission))
    ensures r.Success? ==> r.value == Handled(k.(disabled := k.disabled - Listed(msg.msgTypeUrls)), true)
  {
    var addr :- DecodeAddress(codec, msg.authority);
    var perms :- GetPermissions(k, addr);
    if TripsUnrestricted(k, addr, perms) then
      var k' :- EnableEachDisabled(k, msg.msgTypeUrls);
      Success(Handled(k', true))
    else if perms.level == LevelSomeMsgs then
      var k' :- EnableEachLimited(k, msg.msgTypeUrls, perms.limitTypeUrls);
      Success(Handled(k', true))
    else
      Failure(NoResetPermission)
  }

  /** With the corrections, an unrestricted caller can undo its own trip: tripping
      a list and resetting the same list restores the starting state. */
  lemma TripThenResetRestores(k: Keeper, codec: AddressCodec, s: string, urls: seq<Url>, addr: Addr, p: Permissions)
    requires codec(s) == Some(addr) && GetPermissions(k, addr) == Success(p)
    requires TripsUnrestricted(k, addr, p)
    requires TripCircuitBreakerIntended(k, codec, MsgTripCircuitBreaker(s, urls)).Success?
    ensures var k1 := TripCircuitBreakerIntended(k, codec, MsgTripCircuitBreaker(s, urls)).value.keeper;
            ResetCircuitBreakerIntended(k1, codec, MsgResetCircuitBreaker(s, urls)) == Success(Handled(k, true))
  {
    var k1 := TripCircuitBreakerIntended(k, codec, MsgTripCircuitBreaker(s, urls)).value.keeper;
    assert GetPermissions(k1, addr) == Success(p);
    assert TripsUnrestricted(k1, addr, p);
    forall i | 0 <= i < |urls| ensures !IsAllowed(k1, urls[i]) {
      assert urls[i] in Listed(urls);
    }
    var k2 := EnableEachDisabled(k1, urls).value;
    assert k2.disabled == k.disabled by {
      forall u | u in Listed(urls) ensures u !in k.disabled {
        var i :| 0 <= i < |urls| && urls[i] == u;
        assert IsAllowed(k, urls[i]);
      }
    }
    assert k2 == k;
  }

  /** With the corrections, a SOME_MSGS caller can undo its own trip as well:
      every URL it could trip is in its limits, so the reset of the same list
      restores the starting state. */
  lemma LimitedTripThenResetRestores(
    k: Keeper, codec: AddressCodec, s: string, urls: seq<Url>, addr: Addr, p: Permissions)
    requires codec(s) == Some(addr) && GetPermissions(k, addr) == Success(p)
    requires TripsLimited(k, addr, p)
    requires TripCircuitBreakerIntended(k, codec, MsgTripCircuitBreaker(s, urls)).Success?
    ensures var k1 := TripCircuitBreakerIntended(k, codec, MsgTripCircuitBreaker(s, urls)).value.keeper;
            ResetCircuitBreakerIntended(k1, codec, MsgResetCircuitBreaker(s, urls)) == Success(Handled(k, true))
  {
    var k1 := TripCircuitBreakerIntended(k, codec, MsgTripCircuitBreaker(s, urls)).value.keeper;
    assert GetPermissions(k1, addr) == Success(p);
    assert TripsLimited(k1, addr, p);
    var k2 := EnableEachLimited(k1, urls, p.limitTypeUrls).value;
    assert k2.disabled == k.disabled by {
      forall u | u in Listed(urls) ensures u !in k.disabled {
        var i :| 0 <= i < |urls| && urls[i] == u;
        assert IsAllowed(k, urls[i]);
      }
    }
    assert k2 == k;
  }

  /** With the corrections, a SOME_MSGS trip succeeds exactly when every listed URL
      is in the caller's limits, allowed, and listed once. */
  lemma LimitedTripIntended(k: Keeper, codec: AddressCodec, msg: MsgTripCircuitBreaker, addr: Addr, p: Permissions)
    requires codec(msg.authority) == Some(addr) && GetPermissions(k, addr) == Success(p)
    requires p.level == LevelSomeMsgs && addr != k.authority
    ensures TripCircuitBreakerIntended(k, codec, msg).Success? <==>
              NoneDisabled(k, msg.msgTypeUrls) && Distinct(msg.msgTypeUrls) && AllIn(msg.msgTypeUrls, p.limitTypeUrls)
  {
  }

  // ------------------------------------------ the discrepancies, as written

  /** As written, an ALL_MSGS account resetting a disabled URL is told the URL
      "is not disabled" and nothing is re-enabled; the corrected reset enables it. */
  lemma AllMsgsResetAsWritten(k: Keeper, codec: AddressCodec, s: string, addr: Addr, u: Url)
    requires codec(s) == Some(addr) && addr != k.authority
    requires GetPermissions(k, addr) == Success(Permissions(LevelAllMsgs, []))
    requires u in k.disabled
    ensures ResetCircuitBreaker(k, codec, MsgResetCircuitBreaker(s, [u])) == Failure(NotDisabled(u))
    ensures ResetCircuitBreakerIntended(k, codec, MsgResetCircuitBreaker(s, [u]))
              == Success(Handled(k.(disabled := k.disabled - {u}), true))
  {
    assert Listed([u]) == {u} by {
      ListedCons([u]);
    }
  }

  /** As written, a SUPER_ADMIN that tripped a URL cannot reset it; the corrected reset lets it. */
  lemma SuperAdminResetAsWritten(k: Keeper, codec: AddressCodec, s: string, addr: Addr, u: Url)
    requires codec(s) == Some(addr)
    requires GetPermissions(k, addr) == Success(Permissions(LevelSuperAdmin, []))
    requires u in k.disabled
    ensures ResetCircuitBreaker(k, codec, MsgResetCircuitBreaker(s, [u])) == Failure(NoResetPermission)
    ensures ResetCircuitBreakerIntended(k, codec, MsgResetCircuitBreaker(s, [u]))
              == Success(Handled(k.(disabled := k.disabled - {u}), true))
  {
    assert Listed([u]) == {u} by {
      ListedCons([u]);
    }
  }

  /** As written, a SOME_MSGS account limited to two URLs cannot trip either of
      them; the corrected trip disables it. */
  lemma LimitedTripAsWritten(k: Keeper, codec: AddressCodec, s: string, addr: Addr, u: Url, v: Url)
    requires codec(s) == Some(addr) && addr != k.authority
    requires GetPermissions(k, addr) == Success(Permissions(LevelSomeMsgs, [u, v]))
    requires u != v && IsAllowed(k, u)
    ensures TripCircuitBreaker(k, codec, MsgTripCircuitBreaker(s, [u])) == Failure(NoTripPermissionFor(u))
    ensures TripCircuitBreakerIntended(k, codec, MsgTripCircuitBreaker(s, [u]))
              == Success(Handled(k.(disabled := k.disabled + {u}), true))
  {
    assert Listed([u]) == {u} by {
      ListedCons([u]);
    }
    assert DisableIfEveryLimitMatches(k, u, [u, v]).Failure?;
  }
}
