/**
 * The circuit keeper's state and the store operations the message handlers rely
 * on: the permissions table (address -> Permissions), the set of disabled
 * message type URLs, and the module authority fixed at construction.
 */
module CircuitKeeper {
  import opened Wrappers
  import opened CircuitTypes
  import opened ByteOrder

  /** What the key-value store holds under an account's key: encoded permissions,
      or bytes that do not decode as permissions. */
  datatype StoredPermissions = Encoded(perms: Permissions) | Corrupt

  /** The keeper state. A message type URL is disabled exactly when it is in `disabled`. */
  datatype Keeper = Keeper(
    authority: Addr,
    permissions: map<Addr, StoredPermissions>,
    disabled: set<Url>)

  /** A keeper over an empty store. */
  function NewKeeper(authority: Addr): (k: Keeper)
    ensures k.permissions == map[] && k.disabled == {}
  {
    Keeper(authority, map[], {})
  }

  function GetAuthority(k: Keeper): Addr {
    k.authority
  }

  /** No store write changes the authority a keeper reports. */
  lemma WritesKeepAuthority(k: Keeper, a: Addr, p: Permissions, u: Url)
    ensures GetAuthority(SetPermissions(k, a, p)) == GetAuthority(k)
    ensures GetAuthority(DisableMsg(k, u)) == GetAuthority(k)
    ensures GetAuthority(EnableMsg(k, u)) == GetAuthority(k)
  {
  }

  /** A fresh keeper allows every message type URL; disabling one URL blocks
      exactly that URL, and enabling it allows it again. */
  lemma AllowedAcrossWrites(authority: Addr, k: Keeper, u: Url, v: Url)
    ensures IsAllowed(NewKeeper(authority), v)
    ensures IsAllowed(DisableMsg(k, u), v) <==> IsAllowed(k, v) && v != u
    ensures IsAllowed(EnableMsg(k, u), v) <==> IsAllowed(k, v) || v == u
  {
  }

  /** The authority a keeper reports is the one it was created with. */
  lemma GetAuthorityOfNewKeeper(authority: Addr)
    ensures GetAuthority(NewKeeper(authority)) == authority
  {
  }

  /** Reads the permissions of `a`. An address with no entry has the zero
      permissions (empty bytes decode to the zero message); an entry that does
      not decode is an error. */
  function GetPermissions(k: Keeper, a: Addr): (r: Result<Permissions, Error>)
    ensures r.Failure? <==> a in k.permissions && k.permissions[a].Corrupt?
    ensures r.Failure? ==> r.error == UndecodablePermissions(a)
    ensures r.Success? && a !in k.permissions ==> r.value == ZeroPermissions
    ensures r.Success? && a in k.permissions ==> k.permissions[a] == Encoded(r.value)
  {
    if a !in k.permissions then Success(ZeroPermissions)
    else match k.permissions[a]
      case Encoded(p) => Success(p)
      case Corrupt => Failure(UndecodablePermissions(a))
  }

  /** Stores `p` as the permissions of `a`, replacing any previous entry. */
  function SetPermissions(k: Keeper, a: Addr, p: Permissions): (k': Keeper)
    ensures k'.authority == k.authority && k'.disabled == k.disabled
    ensures k'.permissions.Keys == k.permissions.Keys + {a}
  {
    k.(permissions := k.permissions[a := Encoded(p)])
  }

  /** Reading back what was just written returns it, without error. */
  lemma GetAfterSet(k: Keeper, a: Addr, p: Permissions)
    ensures GetPermissions(SetPermissions(k, a, p), a) == Success(p)
  {
  }

  /** Writing one address's permissions leaves every other address's permissions as they were. */
  lemma SetLeavesOthers(k: Keeper, a: Addr, p: Permissions, b: Addr)
    requires b != a
    ensures GetPermissions(SetPermissions(k, a, p), b) == GetPermissions(k, b)
  {
  }

  /** A message type URL may be executed when it is not in the disabled set. */
  predicate IsAllowed(k: Keeper, url: Url) {
    url !in k.disabled
  }

  /** Marks `url` disabled (the store write under the disable prefix). */
  function DisableMsg(k: Keeper, url: Url): (k': Keeper)
    ensures !IsAllowed(k', url)
    ensures forall u :: u != url ==> (IsAllowed(k', u) <==> IsAllowed(k, u))
    ensures k'.authority == k.authority && k'.permissions == k.permissions
  {
    k.(disabled := k.disabled + {url})
  }

  /** Removes `url` from the disabled set. */
  function EnableMsg(k: Keeper, url: Url): (k': Keeper)
    ensures IsAllowed(k', url)
    ensures forall u :: u != url ==> (IsAllowed(k', u) <==> IsAllowed(k, u))
    ensures k'.authority == k.authority && k'.permissions == k.permissions
  {
    k.(disabled := k.disabled - {url})
  }

  /** Enabling a URL that was just disabled restores the state, if it was allowed before. */
  lemma EnableUndoesDisable(k: Keeper, url: Url)
    requires IsAllowed(k, url)
    ensures EnableMsg(DisableMsg(k, url), url) == k
  {
    assert EnableMsg(DisableMsg(k, url), url).disabled == k.disabled;
  }

  /** The addresses of a finite set, in ascending byte order. */
  method SortedAddresses(keys: set<Addr>) returns (xs: seq<Addr>)
    ensures StrictlyAscending(xs)
    ensures forall a :: a in xs <==> a in keys
  {
    xs := [];
    var rest := keys;
    while rest != {}
      invariant rest <= keys
      invariant StrictlyAscending(xs)
      invariant forall a :: a in xs <==> a in keys && a !in rest
      decreases rest
    {
      var a :| a in rest;
      xs := InsertSorted(xs, a);
      rest := rest - {a};
    }
  }

  /**
   * Walks the permissions table in ascending address order, handing each entry to
   * `stop`; the walk ends after the first entry for which `stop` answers true.
   * Returns the entries the callback saw, in order. Decoding a stored entry is
   * mandatory, so a corrupt entry met on the way is an error.
   */
  method IteratePermissions(k: Keeper, stop: (Addr, Permissions) -> bool)
    returns (r: Result<seq<(Addr, Permissions)>, Error>)
    ensures r.Success? ==> StrictlyAscending(Addresses(r.value))
    ensures r.Success? ==> forall i | 0 <= i < |r.value| ::
              r.value[i].0 in k.permissions && k.permissions[r.value[i].0] == Encoded(r.value[i].1)
    ensures r.Success? ==> forall i | 0 <= i < |r.value| - 1 :: !stop(r.value[i].0, r.value[i].1)
    ensures r.Success? && |r.value| < |k.permissions| ==>
              |r.value| > 0 && stop(r.value[|r.value| - 1].0, r.value[|r.value| - 1].1)
    ensures r.Success? && |r.value| > 0 ==>
              forall a | a in k.permissions && LexLess(a, r.value[|r.value| - 1].0) :: a in Addresses(r.value)
    ensures r.Success? && (forall a, p :: !stop(a, p)) ==>
              forall a :: a in k.permissions <==> a in Addresses(r.value)
    ensures r.Failure? ==>
              exists a | a in k.permissions && k.permissions[a].Corrupt? ::
                && r.error == UndecodablePermissions(a)
                && forall b | b in k.permissions && LexLess(b, a) ::
                     k.permissions[b].Encoded? && !stop(b, k.permissions[b].perms)
  {
    var keys := SortedAddresses(k.permissions.Keys);
    DistinctSize(keys, k.permissions.Keys);
    var seen: seq<(Addr, Permissions)> := [];
    var i := 0;
    while i < |keys|
      invariant 0 <= i <= |keys|
      invariant Addresses(seen) == keys[..i]
      invariant |seen| == i
      invariant forall j | 0 <= j < i :: seen[j].0 in k.permissions && k.permissions[seen[j].0] == Encoded(seen[j].1)
      invariant forall j | 0 <= j < i :: !stop(seen[j].0, seen[j].1)
    {
      var a := keys[i];
      match k.permissions[a]
      case Corrupt =>
        AllBelowVisited(k, stop, keys, seen, i);
        return Failure(UndecodablePermissions(a));
      case Encoded(p) =>
        seen := seen + [(a, p)];
        assert Addresses(seen) == keys[..i + 1];
        if stop(a, p) {
          PrefixAscending(keys, i + 1);
          PrefixHoldsAllBelow(keys, k.permissions.Keys, seen, i + 1);
          return Success(seen);
        }
        i := i + 1;
    }
    assert keys[..i] == keys;
    if 0 < i {
      PrefixHoldsAllBelow(keys, k.permissions.Keys, seen, i);
    }
    return Success(seen);
  }

  /** The addresses of a list of entries, in the same order. */
  function Addresses(entries: seq<(Addr, Permissions)>): seq<Addr> {
    seq(|entries|, i requires 0 <= i < |entries| => entries[i].0)
  }

  /** Entries visited along an ascending listing of a set, up to its `n`-th
      element, include every member of the set that sorts before the last one. */
  lemma PrefixHoldsAllBelow(xs: seq<Addr>, s: set<Addr>, seen: seq<(Addr, Permissions)>, n: int)
    requires StrictlyAscending(xs)
    requires forall a :: a in xs <==> a in s
    requires 0 < n <= |xs| && Addresses(seen) == xs[..n]
    ensures |seen| > 0
    ensures forall a | a in s && LexLess(a, seen[|seen| - 1].0) :: a in Addresses(seen)
  {
    assert Addresses(seen)[n - 1] == xs[n - 1];
    forall a | a in s && LexLess(a, xs[n - 1])
      ensures a in xs[..n]
    {
      var m :| 0 <= m < |xs| && xs[m] == a;
      AscendingIndexOrder(xs, m, n - 1);
      assert xs[..n][m] == a;
    }
  }

  /** Iteration reaches the `i`-th key only after every stored address below it
      has decoded and been passed by the callback. */
  lemma AllBelowVisited(
    k: Keeper, stop: (Addr, Permissions) -> bool, keys: seq<Addr>, seen: seq<(Addr, Permissions)>, i: int)
    requires StrictlyAscending(keys)
    requires forall a :: a in keys <==> a in k.permissions
    requires 0 <= i < |keys| && |seen| == i && Addresses(seen) == keys[..i]
    requires forall j | 0 <= j < i :: seen[j].0 in k.permissions && k.permissions[seen[j].0] == Encoded(seen[j].1)
    requires forall j | 0 <= j < i :: !stop(seen[j].0, seen[j].1)
    ensures forall b | b in k.permissions && LexLess(b, keys[i]) ::
              k.permissions[b].Encoded? && !stop(b, k.permissions[b].perms)
  {
    forall b | b in k.permissions && LexLess(b, keys[i])
      ensures k.permissions[b].Encoded? && !stop(b, k.permissions[b].perms)
    {
      var m :| 0 <= m < |keys| && keys[m] == b;
      AscendingIndexOrder(keys, m, i);
      assert Addresses(seen)[m] == b;
    }
  }

  lemma PrefixAscending(xs: seq<Addr>, n: int)
    requires StrictlyAscending(xs) && 0 <= n <= |xs|
    ensures StrictlyAscending(xs[..n])
  {
  }

  /** A duplicate-free listing of a set has the set's size. */
  lemma {:induction false} DistinctSize(xs: seq<Addr>, s: set<Addr>)
    requires StrictlyAscending(xs)
    requires forall a :: a in xs <==> a in s
    ensures |xs| == |s|
    decreases |xs|
  {
    if |xs| > 0 {
      var last := xs[|xs| - 1];
      var init := xs[..|xs| - 1];
      forall a | a in init
        ensures a != last
      {
        var j :| 0 <= j < |init| && init[j] == a;
        AscendingIsDistinct(xs, j, |xs| - 1);
      }
      assert StrictlyAscending(init);
      forall a
        ensures a in init <==> a in s - {last}
      {
        if a in xs && a != last {
          var j :| 0 <= j < |xs| && xs[j] == a;
          assert j < |xs| - 1;
          assert init[j] == a;
        }
      }
      DistinctSize(init, s - {last});
    }
  }
}
