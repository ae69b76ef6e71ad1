/**
 * Data model of the circuit-breaker module: addresses, message type URLs,
 * permission levels, permissions records, the address codec and the errors the
 * message handlers return.
 */
module CircuitTypes {
  import opened Wrappers

  /** One byte of an account address. */
  newtype Byte = b: int | 0 <= b < 256

  /** An account address in its decoded (byte) form. */
  type Addr = seq<Byte>

  /** A fully qualified message type URL, such as "/cosmos.bank.v1beta1.MsgSend". */
  type Url = string

  /** The permission level is a protobuf enum, carried on the wire as an int32;
      codes other than the four named ones can occur and fall into "any other level". */
  newtype Level = x: int | -0x8000_0000 <= x < 0x8000_0000

  const LevelNoneUnspecified: Level := 0
  const LevelSomeMsgs: Level := 1
  const LevelAllMsgs: Level := 2
  const LevelSuperAdmin: Level := 3

  /** The permissions granted to one account. `limitTypeUrls` is only consulted
      at level SOME_MSGS. */
  datatype Permissions = Permissions(level: Level, limitTypeUrls: seq<Url>)

  /** The value the permission store yields for an address it holds nothing for:
      the zero value of the protobuf message. */
  const ZeroPermissions := Permissions(LevelNoneUnspecified, [])

  /** The bech32 address codec: it turns the string form of an address into bytes
      or rejects it. Its internals are not modelled; it is any partial function. */
  type AddressCodec = string -> Option<Addr>

  /** The errors the keeper and the message handlers return. */
  datatype Error =
    | InvalidAddress(input: string)           // the address codec rejected the string
    | UndecodablePermissions(addr: Addr)      // the stored permissions bytes do not decode
    | NotSuperAdmin                           // "only super admins can authorize users"
    | AlreadyDisabled(url: Url)               // "message %s is already disabled"
    | NoTripPermissionFor(url: Url)           // "account does not have permission to trip circuit breaker for message %s"
    | NoTripPermission                        // "account does not have permission to trip circuit breaker"
    | NoResetPermission                       // "account does not have permission to reset the circuit breaker"
    | NoResetPermissionFor(url: Url)          // "account does not have permission to reset the specific msgTypeURL %s"
    | NotDisabled(url: Url)                   // "msgTypeURL %s is not disabled"

  /** Converts the codec's answer into the handlers' error convention. */
  function DecodeAddress(codec: AddressCodec, s: string): (r: Result<Addr, Error>)
    ensures r.Success? <==> codec(s).Some?
    ensures r.Success? ==> r.value == codec(s).value
    ensures r.Failure? ==> r.error == InvalidAddress(s)
  {
    match codec(s)
    case Some(a) => Success(a)
    case None => Failure(InvalidAddress(s))
  }
}
