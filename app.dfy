/**
 * The start-up route: `ValveControl` only when a non-empty device list and
 * a last-device id are stored and a single connection attempt to that
 * device succeeds; `Settings` in every other case.
 */
module App {
  import opened Wrappers
  import SettingsScreen

  datatype Route = Settings | ValveControl

  /** The storage keys the start-up reads. */
  const DevicesKey := "connectedDevices"
  const LastDeviceKey := "lastConnectedDevice"

  /** What `JSON.parse` makes of the stored list, as far as the check looks at it. */
  datatype ListParse =
    /** The text is not JSON. */
    | Throws
    /** The text is `null`: reading its length throws. */
    | NullList
    /** Any other value; `lengthIsZero` says whether its `length` is strictly equal to 0. */
    | Value(lengthIsZero: bool)

  /** A storage read as the code sees it: `None` for a missing or empty entry. */
  function Read(store: map<string, string>, key: string): (r: Option<string>)
    ensures r.Some? <==> key in store && store[key] != ""
    ensures r.Some? ==> r.value == store[key]
  {
    if key in store && store[key] != "" then Some(store[key]) else None
  }

  /**
   * `connectToDevice`: one lookup, one connect, one discovery, no retry.
   * `lookup` is the number of devices the manager finds, `None` if the
   * lookup rejects. Returns whether a device comes back.
   */
  function ConnectToDevice(lookup: Option<nat>, connectOk: bool, discoverOk: bool): (connected: bool)
    ensures connected <==> lookup.Some? && lookup.value > 0 && connectOk && discoverOk
  {
    match lookup
    case Some(n) => n > 0 && connectOk && discoverOk
    case None => false
  }

  /**
   * `checkStoredDevices`. `savedDevices` and `lastDeviceId` are the two
   * reads (`None` also when the read rejects); `parsed` is what the list
   * text parses to; the last three describe the connection attempt.
   */
  function CheckStoredDevices(savedDevices: Option<string>, parsed: ListParse, lastDeviceId: Option<string>,
                              lookup: Option<nat>, connectOk: bool, discoverOk: bool): (route: Route)
    ensures savedDevices.None? ==> route == Settings
    ensures parsed == Throws || parsed == NullList || parsed == Value(true) ==> route == Settings
    ensures lastDeviceId.None? ==> route == Settings
    ensures !ConnectToDevice(lookup, connectOk, discoverOk) ==> route == Settings
  {
    if savedDevices.None? then Settings
    else match parsed
      case Throws => Settings
      case NullList => Settings
      case Value(lengthIsZero) =>
        if lengthIsZero then Settings
        else if lastDeviceId.None? then Settings
        else if ConnectToDevice(lookup, connectOk, discoverOk) then ValveControl
        else Settings
  }

  /** `ValveControl` needs every step to pass, and every step passing gives it. */
  lemma ValveControlExactly(savedDevices: Option<string>, parsed: ListParse, lastDeviceId: Option<string>,
                            lookup: Option<nat>, connectOk: bool, discoverOk: bool)
    ensures CheckStoredDevices(savedDevices, parsed, lastDeviceId, lookup, connectOk, discoverOk) == ValveControl
        <==> savedDevices.Some? && parsed == Value(false) && lastDeviceId.Some?
             && lookup.Some? && lookup.value > 0 && connectOk && discoverOk
  {
  }

  /**
   * The settings screen stores its list under a different key, and nothing
   * stores a last-device id, so a store written only by the settings screen
   * always starts on `Settings`.
   */
  lemma SettingsStoreStartsOnSettings(store: map<string, string>, parsed: ListParse,
                                      lookup: Option<nat>, connectOk: bool, discoverOk: bool)
    requires forall k | k in store :: k == SettingsScreen.DevicesKey || k == SettingsScreen.DebugModeKey
    ensures CheckStoredDevices(Read(store, DevicesKey), parsed, Read(store, LastDeviceKey), lookup, connectOk, discoverOk)
         == Settings
  {
  }

  /** The root component: the route is chosen once, and only then is it ready. */
  class App {
    var initialRoute: Route
    var isReady: bool

    constructor()
      ensures initialRoute == Settings && !isReady
    {
      initialRoute := Settings;
      isReady := false;
    }

    method Initialize(savedDevices: Option<string>, parsed: ListParse, lastDeviceId: Option<string>,
                      lookup: Option<nat>, connectOk: bool, discoverOk: bool)
      modifies this
      ensures initialRoute == CheckStoredDevices(savedDevices, parsed, lastDeviceId, lookup, connectOk, discoverOk)
      ensures isReady
    {
      initialRoute := CheckStoredDevices(savedDevices, parsed, lastDeviceId, lookup, connectOk, discoverOk);
      isReady := true;
    }
  }
}
