/**
 * The circuit module's message handlers: AuthorizeCircuitBreaker,
 * TripCircuitBreaker and ResetCircuitBreaker. Each maps a keeper state and a
 * message to an error or to the new keeper state and a response with
 * `success = true`. A handler that fails returns no state: the runtime discards
 * the writes of a failed message, so the store writes the loops make before
 * reaching a failing URL never become visible.
 */
module MsgServer {
  import opened Wrappers
  import opened CircuitTypes
  import opened CircuitKeeper
  import opened CircuitSpec
  import opened CircuitSpecLemmas

  datatype MsgAuthorizeCircuitBreaker = MsgAuthorizeCircuitBreaker(
    granter: string, grantee: string, permissions: Permissions)

  datatype MsgTripCircuitBreaker = MsgTripCircuitBreaker(authority: string, msgTypeUrls: seq<Url>)

  datatype MsgResetCircuitBreaker = MsgResetCircuitBreaker(authority: string, msgTypeUrls: seq<Url>)

  /** The state after a handled message, with the response's `success` flag. */
  datatype Handled = Handled(keeper: Keeper, success: bool)

  /** Plain membership test over a list of URLs, scanning from the front. */
  function StringInSlice(a: Url, list: seq<Url>): (r: bool)
    ensures r <==> a in list
    decreases |list|
  {
    if |list| == 0 then false
    else if list[0] == a then true
    else StringInSlice(a, list[1..])
  }

  // ---------------------------------------------------------------- Authorize

  /** Grants `msg.permissions` to the grantee. The authority may always do so;
      anyone else needs stored SUPER_ADMIN permissions. */
  function AuthorizeCircuitBreaker(k: Keeper, codec: AddressCodec, msg: MsgAuthorizeCircuitBreaker)
    : (r: Result<Handled, Error>)
    ensures r.Success? <==>
              codec(msg.granter).Some? && MayAuthorize(k, codec(msg.granter).value) && codec(msg.grantee).Some?
    ensures r.Success? ==>
              r.value == Handled(SetPermissions(k, codec(msg.grantee).value, msg.permissions), true)
    ensures codec(msg.granter).None? ==> r == Failure(InvalidAddress(msg.granter))
    ensures codec(msg.granter).Some? && !MayAuthorize(k, codec(msg.granter).value) ==>
              r == Failure(if GetPermissions(k, codec(msg.granter).value).Failure?
                           then UndecodablePermissions(codec(msg.granter).value) else NotSuperAdmin)
    ensures codec(msg.granter).Some? && MayAuthorize(k, codec(msg.granter).value) && codec(msg.grantee).None? ==>
              r == Failure(InvalidAddress(msg.grantee))
  {
    var granter :- DecodeAddress(codec, msg.granter);
    var _ :- CheckSuperAdmin(k, granter);
    var grantee :- DecodeAddress(codec, msg.grantee);
    Success(Handled(SetPermissions(k, grantee, msg.permissions), true))
  }

  /** The authority skips the permission check; anyone else must hold SUPER_ADMIN. */
  function CheckSuperAdmin(k: Keeper, granter: Addr): (r: Result<(), Error>)
    ensures r.Success? <==> MayAuthorize(k, granter)
    ensures r.Failure? && GetPermissions(k, granter).Success? ==> r.error == NotSuperAdmin
    ensures r.Failure? && GetPermissions(k, granter).Failure? ==> r.error == UndecodablePermissions(granter)
  {
    if granter == GetAuthority(k) then Success(())
    else
      var perms :- GetPermissions(k, granter);
      if perms.level != LevelSuperAdmin then Failure(NotSuperAdmin) else Success(())
  }

  // --------------------------------------------------------------------- Trip

  /** Disables every listed URL in turn, failing on the first one that is not
      allowed at that point: disabled before the call, or listed earlier. */
  function DisableEach(k: Keeper, urls: seq<Url>): (r: Result<Keeper, Error>)
    ensures r.Success? <==> NoneDisabled(k, urls) && Distinct(urls)
    ensures r.Success? ==> r.value == k.(disabled := k.disabled + Listed(urls))
    ensures r.Failure? ==>
              exists i | 0 <= i < |urls| :: FirstBlocked(k, urls, i) && r.error == AlreadyDisabled(urls[i])
    decreases |urls|
  {
    if |urls| == 0 then Success(k)
    else if !IsAllowed(k, urls[0]) then Failure(AlreadyDisabled(urls[0]))
    else
      var r := DisableEach(DisableMsg(k, urls[0]), urls[1..]);
      DisableEachStep(k, urls, r);
      r
  }

  lemma DisableEachStep(k: Keeper, urls: seq<Url>, r: Result<Keeper, Error>)
    requires |urls| > 0 && IsAllowed(k, urls[0])
    requires r.Success? <==> NoneDisabled(DisableMsg(k, urls[0]), urls[1..]) && Distinct(urls[1..])
    requires r.Success? ==> r.value == DisableMsg(k, urls[0]).(disabled := DisableMsg(k, urls[0]).disabled + Listed(urls[1..]))
    requires r.Failure? ==>
               exists i | 0 <= i < |urls[1..]| ::
                 FirstBlocked(DisableMsg(k, urls[0]), urls[1..], i) && r.error == AlreadyDisabled(urls[1..][i])
    ensures r.Success? <==> NoneDisabled(k, urls) && Distinct(urls)
    ensures r.Success? ==> r.value == k.(disabled := k.disabled + Listed(urls))
    ensures r.Failure? ==>
              exists i | 0 <= i < |urls| :: FirstBlocked(k, urls, i) && r.error == AlreadyDisabled(urls[i])
  {
    var k1 := DisableMsg(k, urls[0]);
    var rest := urls[1..];
    ListedCons(urls);
    NoneDisabledCons(k, urls);
    DistinctCons(urls);
    NoneDisabledAfterDisable(k, urls[0], rest);
    if r.Failure? {
      var i :| 0 <= i < |rest| && FirstBlocked(k1, rest, i) && r.error == AlreadyDisabled(rest[i]);
      FirstBlockedShift(k, urls, i);
    }
  }

  /** Blocking in the tail, after the head has been disabled, is blocking one position later in the whole list. */
  lemma FirstBlockedShift(k: Keeper, urls: seq<Url>, i: int)
    requires |urls| > 0 && IsAllowed(k, urls[0])
    requires 0 <= i < |urls| - 1
    requires FirstBlocked(DisableMsg(k, urls[0]), urls[1..], i)
    ensures FirstBlocked(k, urls, i + 1)
  {
    var k1 := DisableMsg(k, urls[0]);
    var rest := urls[1..];
    assert urls[..i + 1] == [urls[0]] + rest[..i];
    assert rest[i] == urls[i + 1];
    forall j | 0 <= j < i + 1
      ensures IsAllowed(k, urls[j]) && urls[j] !in urls[..j]
    {
      if j > 0 {
        assert rest[j - 1] == urls[j];
        assert IsAllowed(k1, rest[j - 1]) && rest[j - 1] !in rest[..j - 1];
        assert urls[..j] == [urls[0]] + rest[..j - 1];
      }
    }
  }

  /** The SOME_MSGS inner loop: for each entry of `limits`, disable `url` if the
      entry equals it, otherwise fail. */
  function DisableIfEveryLimitMatches(k: Keeper, url: Url, limits: seq<Url>): (r: Result<Keeper, Error>)
    ensures r.Success? <==> forall j | 0 <= j < |limits| :: limits[j] == url
    ensures r.Success? ==> r.value == if |limits| == 0 then k else DisableMsg(k, url)
    ensures r.Failure? ==> r.error == NoTripPermissionFor(url)
    decreases |limits|
  {
    if |limits| == 0 then Success(k)
    else if url == limits[0] then
      var r := DisableIfEveryLimitMatches(DisableMsg(k, url), url, limits[1..]);
      assert (forall j | 0 <= j < |limits| :: limits[j] == url)
         <==> (forall j | 0 <= j < |limits[1..]| :: limits[1..][j] == url);
      r
    else Failure(NoTripPermissionFor(url))
  }

  /** The SOME_MSGS outer loop: each listed URL must be allowed and then pass the inner loop. */
  function DisableEachLimited(k: Keeper, urls: seq<Url>, limits: seq<Url>): (r: Result<Keeper, Error>)
    ensures r.Success? <==> NoneDisabled(k, urls) && (|limits| == 0 || (Distinct(urls) && AllMatch(urls, limits)))
    ensures r.Success? ==> r.value == if |limits| == 0 then k else k.(disabled := k.disabled + Listed(urls))
    ensures r.Failure? ==>
              exists i | 0 <= i < |urls| ::
                LimitedFirstFailure(k, urls, limits, i) && r.error == LimitedError(k, urls, limits, i)
    decreases |urls|
  {
    if |urls| == 0 then Success(k)
    else if !IsAllowed(k, urls[0]) then
      assert LimitedFirstFailure(k, urls, limits, 0);
      Failure(AlreadyDisabled(urls[0]))
    else match DisableIfEveryLimitMatches(k, urls[0], limits)
      case Failure(e) =>
        assert urls[..0] == [];
        assert LimitedFirstFailure(k, urls, limits, 0) && e == LimitedError(k, urls, limits, 0);
        Failure(e)
      case Success(k1) =>
        var r := DisableEachLimited(k1, urls[1..], limits);
        DisableEachLimitedStep(k, urls, limits, k1, r);
        r
  }

  lemma DisableEachLimitedStep(k: Keeper, urls: seq<Url>, limits: seq<Url>, k1: Keeper, r: Result<Keeper, Error>)
    requires |urls| > 0 && IsAllowed(k, urls[0])
    requires forall j | 0 <= j < |limits| :: limits[j] == urls[0]
    requires k1 == if |limits| == 0 then k else DisableMsg(k, urls[0])
    requires r.Success? <==> NoneDisabled(k1, urls[1..]) && (|limits| == 0 || (Distinct(urls[1..]) && AllMatch(urls[1..], limits)))
    requires r.Success? ==> r.value == if |limits| == 0 then k1 else k1.(disabled := k1.disabled + Listed(urls[1..]))
    requires r.Failure? ==>
               exists i | 0 <= i < |urls[1..]| ::
                 LimitedFirstFailure(k1, urls[1..], limits, i) && r.error == LimitedError(k1, urls[1..], limits, i)
    ensures r.Success? <==> NoneDisabled(k, urls) && (|limits| == 0 || (Distinct(urls) && AllMatch(urls, limits)))
    ensures r.Success? ==> r.value == if |limits| == 0 then k else k.(disabled := k.disabled + Listed(urls))
    ensures r.Failure? ==>
              exists i | 0 <= i < |urls| ::
                LimitedFirstFailure(k, urls, limits, i) && r.error == LimitedError(k, urls, limits, i)
  {
    var rest := urls[1..];
    ListedCons(urls);
    NoneDisabledCons(k, urls);
    if |limits| > 0 {
      DistinctCons(urls);
      AllMatchCons(urls, limits);
      NoneDisabledAfterDisable(k, urls[0], rest);
    }
    if r.Failure? {
      var i :| 0 <= i < |rest| && LimitedFirstFailure(k1, rest, limits, i) && r.error == LimitedError(k1, rest, limits, i);
      assert urls[..0] == [];
      assert LimitedPasses(k, urls, limits, 0);
      LimitedShift(k, urls, limits, k1, i);
      forall j | 0 <= j < i + 1
        ensures LimitedPasses(k, urls, limits, j)
      {
        if j > 0 {
          LimitedShift(k, urls, limits, k1, j - 1);
        }
      }
      assert LimitedFirstFailure(k, urls, limits, i + 1);
    }
  }

  /** After the head has passed, entry `j` of the tail behaves under the updated
      state as entry `j + 1` of the whole list under the original one. */
  lemma LimitedShift(k: Keeper, urls: seq<Url>, limits: seq<Url>, k1: Keeper, j: int)
    requires |urls| > 0 && 0 <= j < |urls| - 1
    requires IsAllowed(k, urls[0]) && forall m | 0 <= m < |limits| :: limits[m] == urls[0]
    requires k1 == if |limits| == 0 then k else DisableMsg(k, urls[0])
    ensures LimitedPasses(k1, urls[1..], limits, j) <==> LimitedPasses(k, urls, limits, j + 1)
    ensures LimitedError(k1, urls[1..], limits, j) == LimitedError(k, urls, limits, j + 1)
  {
    var rest := urls[1..];
    assert rest[j] == urls[j + 1];
    assert urls[..j + 1] == [urls[0]] + rest[..j];
  }

  /** The level switch of a trip, once the caller's address and permissions are known. */
  function TripAs(k: Keeper, addr: Addr, perms: Permissions, urls: seq<Url>): (r: Result<Keeper, Error>)
    ensures r.Success? <==> TripAdmissible(k, addr, perms, urls)
    ensures r.Success? ==> r.value == k.(disabled := k.disabled + TripDisables(k, addr, perms, urls))
    ensures r.Failure? ==> TripFailsWith(k, addr, perms, urls, r.error)
    ensures !TripsUnrestricted(k, addr, perms) && !TripsLimited(k, addr, perms) ==> r == Failure(NoTripPermission)
  {
    if perms.level == LevelSuperAdmin || addr == GetAuthority(k) then
      DisableEach(k, urls)
    else if perms.level == LevelAllMsgs then
      DisableEach(k, urls)
    else if perms.level == LevelSomeMsgs then
      DisableEachLimited(k, urls, perms.limitTypeUrls)
    else
      Failure(NoTripPermission)
  }

  /** Disables the listed message type URLs, within what the caller's level allows.
      The permissions lookup happens before the authority is recognised, so a
      lookup error rejects even the authority. */
  function TripCircuitBreaker(k: Keeper, codec: AddressCodec, msg: MsgTripCircuitBreaker)
    : (r: Result<Handled, Error>)
    ensures codec(msg.authority).None? ==> r == Failure(InvalidAddress(msg.authority))
    ensures codec(msg.authority).Some? && GetPermissions(k, codec(msg.authority).value).Failure? ==>
              r == Failure(UndecodablePermissions(codec(msg.authority).value))
    ensures codec(msg.authority).Some? && GetPermissions(k, codec(msg.authority).value).Success? ==>
              var addr := codec(msg.authority).value;
              var perms := GetPermissions(k, addr).value;
              && (r.Success? <==> TripAdmissible(k, addr, perms, msg.msgTypeUrls))
              && (r.Success? ==> r.value == Handled(
                    k.(disabled := k.disabled + TripDisables(k, addr, perms, msg.msgTypeUrls)), true))
              && (r.Failure? ==> TripFailsWith(k, addr, perms, msg.msgTypeUrls, r.error))
  {
    var addr :- DecodeAddress(codec, msg.authority);
    var perms :- GetPermissions(k, addr);
    var k' :- TripAs(k, addr, perms, msg.msgTypeUrls);
    Success(Handled(k', true))
  }

  // -------------------------------------------------------------------- Reset

  /** The SOME_MSGS reset loop: each listed URL must be in the caller's limits; it is then enabled. */
  function EnableEachLimited(k: Keeper, urls: seq<Url>, limits: seq<Url>): (r: Result<Keeper, Error>)
    ensures r.Success? <==> AllIn(urls, limits)
    ensures r.Success? ==> r.value == k.(disabled := k.disabled - Listed(urls))
    ensures r.Failure? ==>
              exists i | 0 <= i < |urls| ::
                && r.error == NoResetPermissionFor(urls[i])
                && urls[i] !in limits
                && AllIn(urls[..i], limits)
    decreases |urls|
  {
    if |urls| == 0 then Success(k)
    else if !StringInSlice(urls[0], limits) then Failure(NoResetPermissionFor(urls[0]))
    else
      var r := EnableEachLimited(EnableMsg(k, urls[0]), urls[1..], limits);
      ListedCons(urls);
      assert AllIn(urls, limits) <==> AllIn(urls[1..], limits) by {
        if AllIn(urls[1..], limits) {
          forall i | 0 <= i < |urls| ensures urls[i] in limits {
            if i > 0 { assert urls[1..][i - 1] == urls[i]; }
          }
        }
      }
      if r.Failure? then
        var i :| 0 <= i < |urls[1..]| && r.error == NoResetPermissionFor(urls[1..][i])
                 && urls[1..][i] !in limits && AllIn(urls[1..][..i], limits);
        assert urls[1..][i] == urls[i + 1] && urls[..i + 1] == [urls[0]] + urls[1..][..i];
        r
      else r
  }

  /** The ALL_MSGS reset loop as written: it fails on a listed URL that is NOT
      allowed (that is, disabled), and enables the allowed ones, which changes nothing. */
  function EnableEachAllowed(k: Keeper, urls: seq<Url>): (r: Result<Keeper, Error>)
    ensures r.Success? <==> NoneDisabled(k, urls)
    ensures r.Success? ==> r.value == k
    ensures r.Failure? ==>
              exists i | 0 <= i < |urls| ::
                r.error == NotDisabled(urls[i]) && !IsAllowed(k, urls[i]) && NoneDisabled(k, urls[..i])
    decreases |urls|
  {
    if |urls| == 0 then Success(k)
    else if !IsAllowed(k, urls[0]) then Failure(NotDisabled(urls[0]))
    else
      assert EnableMsg(k, urls[0]) == k;
      var r := EnableEachAllowed(EnableMsg(k, urls[0]), urls[1..]);
      assert NoneDisabled(k, urls) <==> NoneDisabled(k, urls[1..]) by {
        if NoneDisabled(k, urls[1..]) {
          forall i | 0 <= i < |urls| ensures IsAllowed(k, urls[i]) {
            if i > 0 { assert urls[1..][i - 1] == urls[i]; }
          }
        }
      }
      if r.Failure? then
        var i :| 0 <= i < |urls[1..]| && r.error == NotDisabled(urls[1..][i])
                 && !IsAllowed(k, urls[1..][i]) && NoneDisabled(k, urls[1..][..i]);
        assert urls[1..][i] == urls[i + 1] && urls[..i + 1] == [urls[0]] + urls[1..][..i];
        r
      else r
  }

  /** Re-enables the listed message type URLs. Only a stored level of ALL_MSGS or
      SOME_MSGS permits a reset: SUPER_ADMIN is refused, and being the authority
      gives no right to reset, since only the stored level decides. */
  function ResetCircuitBreaker(k: Keeper, codec: AddressCodec, msg: MsgResetCircuitBreaker)
    : (r: Result<Handled, Error>)
    ensures codec(msg.authority).None? ==> r == Failure(InvalidAddress(msg.authority))
    ensures codec(msg.authority).Some? && GetPermissions(k, codec(msg.authority).value).Failure? ==>
              r == Failure(UndecodablePermissions(codec(msg.authority).value))
    ensures codec(msg.authority).Some? && GetPermissions(k, codec(msg.authority).value).Success? ==>
              var perms := GetPermissions(k, codec(msg.authority).value).value;
              && (perms.level != LevelAllMsgs && perms.level != LevelSomeMsgs ==> r == Failure(NoResetPermission))
              && (r.Success? <==> ResetAdmissible(k, perms, msg.msgTypeUrls))
              && (r.Success? ==> r.value == Handled(
                    k.(disabled := k.disabled - ResetEnables(perms, msg.msgTypeUrls)), true))
              && (r.Failure? ==> ResetFailsWith(k, perms, msg.msgTypeUrls, r.error))
  {
    var addr :- DecodeAddress(codec, msg.authority);
    var perms :- GetPermissions(k, addr);
    if perms.level != LevelAllMsgs && perms.level != LevelSomeMsgs then
      Failure(NoResetPermission)
    else
      var k' :- if perms.level == LevelSomeMsgs
                then EnableEachLimited(k, msg.msgTypeUrls, perms.limitTypeUrls)
                else EnableEachAllowed(k, msg.msgTypeUrls);
      assert k'.disabled == k.disabled - ResetEnables(perms, msg.msgTypeUrls);
      Success(Handled(k', true))
  }

  // ------------------------------------------------------- event attribute

  /** The `msg_url` event attribute of a trip or reset: empty when at most one
      URL is listed (a single URL is not reported), otherwise every URL, each
      preceded by ", ". */
  method MsgUrlsAttribute(urls: seq<Url>) returns (s: string)
    ensures |urls| <= 1 ==> s == ""
    ensures |urls| > 1 ==> s == CommaPrefixed(urls)
  {
    s := "";
    if |urls| > 1 {
      var i := 0;
      while i < |urls|
        invariant 0 <= i <= |urls|
        invariant s == CommaPrefixed(urls[..i])
      {
        assert urls[..i + 1] == urls[..i] + [urls[i]];
        CommaPrefixedSnoc(urls[..i], urls[i]);
        s := s + ", " + urls[i];
        i := i + 1;
      }
      assert urls[..i] == urls;
    }
  }

  /** Every URL preceded by ", ", concatenated in list order. */
  function CommaPrefixed(urls: seq<Url>): string
    decreases |urls|
  {
    if |urls| == 0 then "" else ", " + urls[0] + CommaPrefixed(urls[1..])
  }

  /** Appending one URL to the list appends ", " and that URL to the text. */
  lemma {:induction false} CommaPrefixedSnoc(urls: seq<Url>, u: Url)
    ensures CommaPrefixed(urls + [u]) == CommaPrefixed(urls) + ", " + u
    decreases |urls|
  {
    if |urls| > 0 {
      assert (urls + [u])[1..] == urls[1..] + [u];
      CommaPrefixedSnoc(urls[1..], u);
    }
  }

  /** The URL contains no comma; message type URLs never do. */
  predicate CommaFree(u: Url) {
    forall i | 0 <= i < |u| :: u[i] != ','
  }

  /** The length of the longest comma-free prefix of `s`. */
  function UpToComma(s: string): (n: nat)
    ensures n <= |s|
    ensures CommaFree(s[..n])
    ensures n < |s| ==> s[n] == ','
    decreases |s|
  {
    if |s| == 0 || s[0] == ',' then 0 else 1 + UpToComma(s[1..])
  }

  /** Reads a `msg_url` attribute back into the list of URLs it names. */
  function ParseCommaPrefixed(s: string): seq<Url>
    decreases |s|
  {
    if |s| < 2 || s[..2] != ", " then []
    else
      var body := s[2..];
      var n := UpToComma(body);
      [body[..n]] + ParseCommaPrefixed(body[n..])
  }

  /** The attribute text determines the URL list, as long as no URL contains a comma. */
  lemma {:induction false} ParseCommaPrefixedInverts(urls: seq<Url>)
    requires forall i | 0 <= i < |urls| :: CommaFree(urls[i])
    ensures ParseCommaPrefixed(CommaPrefixed(urls)) == urls
    decreases |urls|
  {
    if |urls| > 0 {
      var tail := CommaPrefixed(urls[1..]);
      assert CommaPrefixed(urls) == ", " + urls[0] + tail;
      ParseOne(urls[0], tail);
      ParseCommaPrefixedInverts(urls[1..]);
      assert urls == [urls[0]] + urls[1..];
    }
  }

  /** Parsing reads one comma-free URL and continues at the next comma. */
  lemma ParseOne(u: Url, tail: string)
    requires CommaFree(u)
    requires tail == "" || tail[0] == ','
    ensures ParseCommaPrefixed(", " + u + tail) == [u] + ParseCommaPrefixed(tail)
  {
    var s := ", " + u + tail;
    assert s[..2] == ", ";
    assert s[2..] == u + tail;
    UpToCommaStopsAtComma(u, tail);
    assert (u + tail)[..|u|] == u;
    assert (u + tail)[|u|..] == tail;
  }

  lemma {:induction false} UpToCommaStopsAtComma(u: Url, t: string)
    requires CommaFree(u)
    requires t == "" || t[0] == ','
    ensures UpToComma(u + t) == |u|
    decreases |u|
  {
    if |u| > 0 {
      assert (u + t)[1..] == u[1..] + t;
      UpToCommaStopsAtComma(u[1..], t);
    } else {
      assert u + t == t;
    }
  }
}
