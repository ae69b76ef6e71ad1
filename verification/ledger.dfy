/**
 * Messages executed one after another against the keeper, with the runtime's
 * rule that a failed message's writes are discarded: the state after a failed
 * message is the state before it.
 */
module CircuitLedger {
  import opened Wrappers
  import opened CircuitTypes
  import opened CircuitKeeper
  import opened CircuitSpecLemmas
  import opened MsgServer

  datatype Msg =
    | Authorize(authorize: MsgAuthorizeCircuitBreaker)
    | Trip(trip: MsgTripCircuitBreaker)
    | Reset(reset: MsgResetCircuitBreaker)

  /** Routes a message to its handler. */
  function Handle(k: Keeper, codec: AddressCodec, m: Msg): Result<Handled, Error> {
    match m
    case Authorize(a) => AuthorizeCircuitBreaker(k, codec, a)
    case Trip(t) => TripCircuitBreaker(k, codec, t)
    case Reset(r) => ResetCircuitBreaker(k, codec, r)
  }

  /** The state after one message: the handler's state on success, the old state on error. */
  function Apply(k: Keeper, codec: AddressCodec, m: Msg): (k': Keeper)
    ensures Handle(k, codec, m).Failure? ==> k' == k
    ensures Handle(k, codec, m).Success? ==> k' == Handle(k, codec, m).value.keeper
    ensures k'.authority == k.authority
    ensures !m.Authorize? ==> k'.permissions == k.permissions
    ensures !m.Trip? && !m.Reset? ==> k'.disabled == k.disabled
    ensures m.Trip? ==> k.disabled <= k'.disabled && forall u | u in k'.disabled - k.disabled :: u in m.trip.msgTypeUrls
    ensures m.Reset? ==> k'.disabled <= k.disabled && forall u | u in k.disabled - k'.disabled :: u in m.reset.msgTypeUrls
  {
    match Handle(k, codec, m)
    case Failure(_) => k
    case Success(h) =>
      if m.Trip? then
        forall u | u in h.keeper.disabled - k.disabled ensures u in m.trip.msgTypeUrls {
          ListedIsMembership(m.trip.msgTypeUrls, u);
        }
        h.keeper
      else if m.Reset? then
        forall u | u in k.disabled - h.keeper.disabled ensures u in m.reset.msgTypeUrls {
          ListedIsMembership(m.reset.msgTypeUrls, u);
        }
        h.keeper
      else h.keeper
  }

  /** The state after a sequence of messages, executed in order. */
  function Run(k: Keeper, codec: AddressCodec, msgs: seq<Msg>): Keeper
    decreases |msgs|
  {
    if |msgs| == 0 then k else Run(Apply(k, codec, msgs[0]), codec, msgs[1..])
  }

  /** No message sequence changes the module authority. */
  lemma {:induction false} RunKeepsAuthority(k: Keeper, codec: AddressCodec, msgs: seq<Msg>)
    ensures Run(k, codec, msgs).authority == k.authority
    decreases |msgs|
  {
    if |msgs| > 0 {
      RunKeepsAuthority(Apply(k, codec, msgs[0]), codec, msgs[1..]);
    }
  }

  /** Without an Authorize message the permissions table stays as it was. */
  lemma {:induction false} RunWithoutAuthorizeKeepsPermissions(k: Keeper, codec: AddressCodec, msgs: seq<Msg>)
    requires forall i | 0 <= i < |msgs| :: !msgs[i].Authorize?
    ensures Run(k, codec, msgs).permissions == k.permissions
    decreases |msgs|
  {
    if |msgs| > 0 {
      RunWithoutAuthorizeKeepsPermissions(Apply(k, codec, msgs[0]), codec, msgs[1..]);
    }
  }

  /** A URL that ends up disabled but was not disabled at the start was listed by some Trip message. */
  lemma {:induction false} RunDisablesOnlyThroughTrip(k: Keeper, codec: AddressCodec, msgs: seq<Msg>, u: Url)
    requires u in Run(k, codec, msgs).disabled && u !in k.disabled
    ensures exists i | 0 <= i < |msgs| :: msgs[i].Trip? && u in msgs[i].trip.msgTypeUrls
    decreases |msgs|
  {
    var k1 := Apply(k, codec, msgs[0]);
    if u in k1.disabled {
      assert msgs[0].Trip? && u in msgs[0].trip.msgTypeUrls;
    } else {
      RunDisablesOnlyThroughTrip(k1, codec, msgs[1..], u);
      var i :| 0 <= i < |msgs[1..]| && msgs[1..][i].Trip? && u in msgs[1..][i].trip.msgTypeUrls;
      assert msgs[i + 1] == msgs[1..][i];
    }
  }

  /** A URL that was disabled at the start but is no longer was listed by some Reset message. */
  lemma {:induction false} RunEnablesOnlyThroughReset(k: Keeper, codec: AddressCodec, msgs: seq<Msg>, u: Url)
    requires u in k.disabled && u !in Run(k, codec, msgs).disabled
    ensures exists i | 0 <= i < |msgs| :: msgs[i].Reset? && u in msgs[i].reset.msgTypeUrls
    decreases |msgs|
  {
    var k1 := Apply(k, codec, msgs[0]);
    if u !in k1.disabled {
      assert msgs[0].Reset? && u in msgs[0].reset.msgTypeUrls;
    } else {
      RunEnablesOnlyThroughReset(k1, codec, msgs[1..], u);
      var i :| 0 <= i < |msgs[1..]| && msgs[1..][i].Reset? && u in msgs[1..][i].reset.msgTypeUrls;
      assert msgs[i + 1] == msgs[1..][i];
    }
  }
}
