# AquaFlush valve controller: a Dafny model

AquaFlush is a React Native app that drives a multi-valve irrigation controller
over Bluetooth Low Energy. This project models the parts of the app that hold
logic rather than layout, and proves properties of them:

- **The in-memory GATT mock** (`MockBLE`, `SetupMockBLE`, `BLEManager`). A device is
  a dictionary of services, and a service is a dictionary of characteristics. Each
  characteristic holds a string value that can be read, overwritten and notified.
  - Adding under a key that is already there replaces the old entry with a fresh
    object.
  - The setup routine fills one service with four valve characteristics and an
    admin-mode characteristic.
  - The driver runs the setup and then looks the service up. The lookup goes to a
    *different* device instance from the one the setup filled, so from a clean
    start it never finds the service (`BLEManager.ConnectAtStartup`).
- **The simulated ESP32 peripheral** (`MockDevice`). It has a connected flag, an
  MTU and a fixed tree of one service with four characteristics.
  - Reads always answer `Mock Value`. Writes echo their argument and leave the tree
    alone.
  - `handleValveControl` base64-decodes, UTF-8-decodes and re-encodes a value into
    the valve-control slot.
  - The configuration and timer payloads are fixed JSON texts, base64-encoded.
- **Codecs the peripheral and the screens rely on**:
  - `Base64`: the lenient `Buffer.from(s, 'base64')` of the `buffer` package that
    `MockDevice.ts` imports, and the padded encoding of RFC 4648 section 4.
  - `Utf8`: that package's UTF-8 decoding, which replaces each byte that does not
    start a well-formed sequence by one U+FFFD, and UTF-8 encoding.
  - `Decimal`: integer text.
  - `JsonText`: `JSON.stringify` of the fixed payload shapes, with readers for
    those shapes.
- **Valve logic.**
  - The valve list `Array.from` builds from the configuration's `VALVES` count
    (`ValveControlScreen`).
  - The per-id list updates (`ValveListComponent`).
  - The sequence command built from the active valves, with the
    empty-selection guard (`ValveControlScreen`).
  - The ON/OFF command texts and the running/duration state of one valve row
    (`ValveComponent`).
  - The stand-alone valve card's countdown (`Valve`).
- **Device bookkeeping and routing.**
  - The known-device list and the scan acceptance rule (`SettingsScreen`).
  - The start-up route (`App`).
  - One device row's connected flag (`DeviceItemComponent`).

Awaited calls and callbacks become success/failure inputs or returned effect
values. State that a screen updates in place becomes a `class`, with fields and
`modifies` clauses. List computations and decision chains stay functions.

The model follows the code where its behaviour is easy to mistake:

- Registering a service or characteristic under an existing key silently
  replaces it. It does not fail with a duplicate error.
- When the countdown reaches zero, `isRunning` stays set. The branch at
  `src/components/Valve.tsx:38` tests an interval variable that is always null
  there.
- A timer notification only updates the shown duration. It never clears the
  running flag. It also parses the raw characteristic value as JSON, with no
  base64 step.
- The sequence write lists the active valves in list order. It does not sort them
  by id.
- A configuration without a usable `VALVES` member gives an empty valve list.
  It is not rejected.
- The settings screen stores its list under `previousConnectedDevices`, but
  start-up reads `connectedDevices` and `lastConnectedDevice`. So a store written
  only by the settings screen always starts on `Settings`
  (`App.SettingsStoreStartsOnSettings`).

## Model

| member | source | states |
|---|---|---|
| MockBLE.Characteristic.constructor | src/utils/ble/MockBLE.ts:5-8 | the new characteristic holds the given uuid and initial value |
| MockBLE.Characteristic.Read | src/utils/ble/MockBLE.ts:10-12 | returns the current value: the last one written, or the initial value |
| MockBLE.Characteristic.Write | src/utils/ble/MockBLE.ts:14-16 | the value becomes the argument; the uuid is unchanged and nothing else may change |
| MockBLE.Characteristic.Notify | src/utils/ble/MockBLE.ts:18-20 | neither the value nor the uuid changes |
| MockBLE.Service.constructor | src/utils/ble/MockBLE.ts:26-28 | a new service has no characteristics |
| MockBLE.Service.AddCharacteristic | src/utils/ble/MockBLE.ts:30-32 | a fresh characteristic is registered under the uuid and replaces any earlier one; the other entries stay; the contents change at that uuid only; the lookup then finds that uuid and value; uuid consistency is kept |
| MockBLE.Service.GetCharacteristic | src/utils/ble/MockBLE.ts:34-36 | null exactly when the uuid is unregistered, otherwise the registered entry |
| MockBLE.Device.constructor | src/utils/ble/MockBLE.ts:42-44 | a new device has no services |
| MockBLE.Device.AddService | src/utils/ble/MockBLE.ts:46-50 | returns a fresh, empty service registered under the uuid, replacing any earlier one; the device contents change at that uuid only |
| MockBLE.Device.GetService | src/utils/ble/MockBLE.ts:52-54 | null exactly when the uuid is unregistered, otherwise the registered service |
| SetupMockBLE.SetupContents | src/utils/ble/setupMockBLE.ts:11-18 | the filled service holds exactly Valve1_UUID..Valve4_UUID set to `Valve Default Config`, plus Admin_Mode_UUID set to `DISABLED` |
| SetupMockBLE.AddCharacteristics | src/utils/ble/setupMockBLE.ts:11-18 | the loop over i = 0..3 registers `Valve{i+1}_UUID`, then the admin entry; it ends with SetupContents, all entries fresh and registered under their own uuids |
| SetupMockBLE.SetupMockBLE | src/utils/ble/setupMockBLE.ts:6-19 | a fresh service holding SetupContents is registered under AquaFlush_Service_UUID; every other service of the device is unchanged |
| SetupMockBLE.SetupIdempotent | src/utils/ble/setupMockBLE.ts:8 | running the setup twice leaves the device contents as running it once |
| BLEManager.BleModules.constructor | src/utils/ble/MockBLE.ts:57 | the exported instance and the one declared at setupMockBLE.ts line 4 are two distinct, fresh devices, both with no services |
| BLEManager.UseService | src/utils/ble/BLEManager.ts:10-22 | reports the Valve1 value when present; sets the admin-mode characteristic, when present, to `ENABLE`; may change nothing else |
| BLEManager.LookUp | src/utils/ble/BLEManager.ts:8-25 | a missing service gives "not found" and no change; a present one gives UseService's outcome and writes `ENABLE` only to its admin-mode characteristic |
| BLEManager.ConnectToBLEService | src/utils/ble/BLEManager.ts:4-29 | outside development nothing is touched; in development the setup fills only its own instance, and the lookup on the exported instance finds the service only if it was registered there before |
| BLEManager.ConnectAtStartup | src/utils/ble/BLEManager.ts:5-8 | from a clean start the development path never finds a service, whatever the uuid |
| Base64.Encode | src/utils/mock-ble/MockDevice.ts:399 | the padded text has 4 characters per started 3-byte group |
| Base64.Decode | src/utils/mock-ble/MockDevice.ts:394 | `Buffer.from(s, 'base64')`: packs the 6-bit values of the accepted characters before the first `=`; DecodeEncode and ReencodeIffCanonical fix its meaning |
| Base64.DecodeLength | src/utils/mock-ble/MockDevice.ts:394 | decoding yields at most three bytes per four characters |
| Base64.DecodeEncode | src/utils/mock-ble/MockDevice.ts:394-399 | decoding the encoding of any bytes gives them back |
| Base64.ReencodeIffCanonical | src/utils/mock-ble/MockDevice.ts:394-399 | re-encoding the decoding gives a text back exactly when the text is the encoding of some bytes |
| Utf8.StepChar | src/utils/mock-ble/MockDevice.ts:394 | a byte that does not start a complete well-formed sequence decodes to U+FFFD |
| Utf8.StepLen | src/utils/mock-ble/MockDevice.ts:394 | a decoding step consumes the whole sequence when it is well-formed, and exactly one byte otherwise |
| Utf8.SliceAgrees | src/utils/mock-ble/MockDevice.ts:394 | the `buffer` package's lead-byte lengths, continuation tests and code-point range tests accept exactly the well-formed sequences, with the same length |
| Utf8.TruncatedSequence | src/utils/mock-ble/MockDevice.ts:394 | the bytes E2 82 41 decode to two U+FFFD and then `A` |
| Utf8.Decode | src/utils/mock-ble/MockDevice.ts:394 | decoding never produces more characters than bytes |
| Utf8.Encode | src/utils/mock-ble/MockDevice.ts:399 | `Buffer.from(str)`: the UTF-8 bytes of each character in turn, at least one byte per character |
| Utf8.DecodeEncode | src/utils/mock-ble/MockDevice.ts:399 | encoding any text gives well-formed UTF-8 that decodes back to it |
| Utf8.EncodeDecode | src/utils/mock-ble/MockDevice.ts:394-399 | well-formed UTF-8 survives decoding and re-encoding unchanged |
| Utf8.RoundTripOnlyIfValid | src/utils/mock-ble/MockDevice.ts:394-399 | bytes that survive decoding and re-encoding are well-formed UTF-8 |
| Utf8.RoundTripIffValid | src/utils/mock-ble/MockDevice.ts:394-399 | bytes survive decoding and re-encoding exactly when they are well-formed UTF-8 |
| Decimal.NatToString | src/components/Valve/ValveComponent.tsx:89-93 | numbers are written as digits with no leading zero |
| Decimal.DigitsValueOfNatToString | src/components/Valve/ValveComponent.tsx:89-93 | the digits written for a number have that number as their value |
| Decimal.ParseNatToString | src/components/Valve/ValveComponent.tsx:89-93 | reading back a written natural number, followed by a non-digit or nothing, gives it and the rest of the text |
| Decimal.ParseIntToString | src/components/Valve/ValveComponent.tsx:89-93 | reading back a written integer, negative ones included, gives it and the rest of the text |
| JsonText.CommandText | src/components/Valve/ValveComponent.tsx:89-93 | `JSON.stringify` of a command: `valve`, `action`, then `duration` only when there is one; ParseCommandText reads it back |
| JsonText.SequenceText | src/screens/ValveControlScreen.tsx:123 | `JSON.stringify({valves: commands})`; ParseSequenceText reads it back |
| JsonText.ConfigText | src/utils/mock-ble/MockDevice.ts:403-407 | `JSON.stringify` of the configuration object; ParseConfigText reads it back |
| JsonText.TimerText | src/utils/mock-ble/MockDevice.ts:411-417 | `JSON.stringify` of the timer object, entries in list order (the stringify order when the ids ascend strictly); ParseTimersText reads it back |
| JsonText.ParseCommandText | src/components/Valve/ValveComponent.tsx:89-93 | a command text, with or without its duration member, reads back as the same command |
| JsonText.ParseCommandsText | src/screens/ValveControlScreen.tsx:114-123 | a non-empty comma-separated command list reads back as the same commands in order |
| JsonText.ParseSequenceText | src/screens/ValveControlScreen.tsx:123 | the `{"valves":[...]}` text reads back as the same command list |
| JsonText.ParseConfigText | src/utils/mock-ble/MockDevice.ts:402-407 | the `{"VALVES":n,"PINS":[...]}` text reads back as the same configuration |
| JsonText.ParseNatsText | src/utils/mock-ble/MockDevice.ts:404-406 | a non-empty comma-separated pin list reads back as the same numbers in order |
| JsonText.ParseTimersText | src/utils/mock-ble/MockDevice.ts:410-417 | the `{"TIMERS":{...}}` text reads back as the same entries |
| JsonText.ParseEntriesText | src/utils/mock-ble/MockDevice.ts:412-415 | non-empty `"id":duration` entries read back as the same pairs in order |
| MockDevice.EncodeText | src/utils/mock-ble/MockDevice.ts:397-399 | `Buffer.from(t).toString('base64')`: base64 of the UTF-8 bytes; DecodeEncodeText is its inverse |
| MockDevice.DecodeText | src/utils/mock-ble/MockDevice.ts:394 | `Buffer.from(v, 'base64').toString('utf8')`: UTF-8 decoding of the base64 decoding |
| MockDevice.CreateConfigData | src/utils/mock-ble/MockDevice.ts:402-408 | the encoding of `{"VALVES":4,"PINS":[2,4,5,16]}`; ConfigDataReadsBack reads it back |
| MockDevice.CreateTimerData | src/utils/mock-ble/MockDevice.ts:410-418 | the encoding of `{"TIMERS":{"1":3000,"2":2000}}`; TimerDataReadsBack reads it back |
| MockDevice.DecodeEncodeText | src/utils/mock-ble/MockDevice.ts:394-399 | decoding the base64 of a text's UTF-8 gives the text back |
| MockDevice.ReencodeIffTextEncoding | src/utils/mock-ble/MockDevice.ts:394-399 | a value survives decode and re-encode exactly when it is the encoding of some text |
| MockDevice.TextEncodingIffValidUtf8 | src/utils/mock-ble/MockDevice.ts:394-399 | the values that survive are exactly the RFC 4648 section 4 encodings of well-formed UTF-8 |
| MockDevice.EncodedUtf8IsTextEncoding | src/utils/mock-ble/MockDevice.ts:397-399 | the base64 of any well-formed UTF-8 is the encoding of some text |
| MockDevice.ReencodeIdempotent | src/utils/mock-ble/MockDevice.ts:393-400 | a second re-encoding changes nothing the first did not |
| MockDevice.ConfigDataReadsBack | src/utils/mock-ble/MockDevice.ts:402-408 | the configuration data decodes and reads as four valves on pins 2, 4, 5 and 16 |
| MockDevice.TimerDataReadsBack | src/utils/mock-ble/MockDevice.ts:410-418 | the timer data decodes and reads as valve 1 at 3000 and valve 2 at 2000 |
| MockDevice.ValveService | src/utils/mock-ble/MockDevice.ts:52-72 | the service holds exactly the four characteristics; valve control is read/write with a write handler, the others are read/notify without one |
| MockDevice.InitialServices | src/utils/mock-ble/MockDevice.ts:51-73 | the tree has exactly one service, with those four characteristics and properties |
| MockDevice.InitialValues | src/utils/mock-ble/MockDevice.ts:55-68 | the initial values decode as `OFF`, the configuration, the timer data and `No alert` |
| MockDevice.WithValveControl | src/utils/mock-ble/MockDevice.ts:397-399 | only the valve-control text changes; every key, every other node and its properties stay |
| MockDevice.MockDevice.constructor | src/utils/mock-ble/MockDevice.ts:36-74 | every field's initial value (not connected, MTU 23, RSSI -50, connectable, one service uuid, localName null for an empty name) and the initial tree |
| MockDevice.MockDevice.Connect | src/utils/mock-ble/MockDevice.ts:76-80 | sets the connected flag and answers with the device itself |
| MockDevice.MockDevice.DiscoverAllServicesAndCharacteristics | src/utils/mock-ble/MockDevice.ts:82-85 | changes nothing and answers with the device |
| MockDevice.MockDevice.CancelConnection | src/utils/mock-ble/MockDevice.ts:87-91 | clears the connected flag and answers with the device |
| MockDevice.MockDevice.ReadRSSI | src/utils/mock-ble/MockDevice.ts:93-96 | changes nothing and answers with the device |
| MockDevice.MockDevice.RequestMTU | src/utils/mock-ble/MockDevice.ts:98-102 | the MTU becomes the requested value; nothing else changes |
| MockDevice.MockDevice.IsConnected | src/utils/mock-ble/MockDevice.ts:104-106 | reports the connected flag |
| MockDevice.MockDevice.RequestConnectionPriority | src/utils/mock-ble/MockDevice.ts:108-111 | changes nothing and answers with the device |
| MockDevice.MockDevice.ReadCharacteristicForService | src/utils/mock-ble/MockDevice.ts:144-210 | the answer echoes the uuids and the device id, and its value is always the base64 of `Mock Value` (so it decodes to `Mock Value`), whatever the tree holds |
| MockDevice.MockDevice.WriteCharacteristicWithResponseForService | src/utils/mock-ble/MockDevice.ts:213-280 | the answer echoes the uuids, the device id and the written value; no state changes and no write handler runs |
| MockDevice.MockDevice.WriteCharacteristicWithoutResponseForService | src/utils/mock-ble/MockDevice.ts:283-350 | as the write with response |
| MockDevice.MockDevice.MonitorCharacteristicForService | src/utils/mock-ble/MockDevice.ts:352-366 | the listener gets no error and no characteristic |
| MockDevice.MockDevice.HandleValveControl | src/utils/mock-ble/MockDevice.ts:393-400 | only the valve-control value changes, to the re-encoded decoding of the argument; it equals the argument exactly when the argument encodes some text |
| ValveListComponent.HandleNameChange | src/components/Valve/ValveListComponent.tsx:18-24 | same length and order; entries with the id get the new name, and every other field and entry is unchanged |
| ValveListComponent.HandleDurationChange | src/components/Valve/ValveListComponent.tsx:26-32 | same length and order; entries with the id get the new duration, and everything else is unchanged |
| ValveListComponent.HandleToggleActive | src/components/Valve/ValveListComponent.tsx:34-40 | same length and order; entries with the id have `isActive` negated, and everything else is unchanged |
| ValveListComponent.HandlersKeepIds | src/components/Valve/ValveListComponent.tsx:18-40 | no handler changes any entry's id |
| ValveListComponent.ToggleTwice | src/components/Valve/ValveListComponent.tsx:34-40 | toggling the same id twice gives the original list |
| ValveListComponent.AbsentId | src/components/Valve/ValveListComponent.tsx:18-40 | an id no entry has leaves the list equal to the input, for every handler |
| ValveListComponent.ChangesIdempotent | src/components/Valve/ValveListComponent.tsx:18-32 | setting the same name or duration twice is setting it once |
| ValveListComponent.NameAndDurationCommute | src/components/Valve/ValveListComponent.tsx:18-32 | a name change and a duration change give the same list in either order |
| ValveComponent.PlayCommand | src/components/Valve/ValveComponent.tsx:89-93 | the ON text reads back as exactly `{valve: id, action: ON, duration}` and nothing more |
| ValveComponent.StopCommand | src/components/Valve/ValveComponent.tsx:111-114 | the OFF text reads back as `{valve: id, action: OFF}` with no duration |
| ValveComponent.EventOf | src/components/Valve/ValveComponent.tsx:50-56 | an error wins; otherwise a parsed value reaches the handler exactly when there is a characteristic and its value parses |
| ValveComponent.AfterTimerEvent | src/components/Valve/ValveComponent.tsx:50-59 | the duration becomes the integer member named by the valve id when the parsed object has one; otherwise, and on an error, a null characteristic or a parse failure, it stays |
| ValveComponent.ValveComponent.constructor | src/components/Valve/ValveComponent.tsx:36-37 | not running; the duration shown is the valve's |
| ValveComponent.ValveComponent.HandlePlay | src/components/Valve/ValveComponent.tsx:85-105 | writes PlayCommand with the shown duration; running becomes true only if the write resolved, and is unchanged otherwise |
| ValveComponent.ValveComponent.PressPlay | src/components/Valve/ValveComponent.tsx:141 | while running the button writes nothing and changes nothing; otherwise it acts as HandlePlay |
| ValveComponent.ValveComponent.HandleStop | src/components/Valve/ValveComponent.tsx:107-126 | writes StopCommand; running becomes false only if the write resolved |
| ValveComponent.ValveComponent.OnTimerEvent | src/components/Valve/ValveComponent.tsx:50-59 | the shown duration becomes AfterTimerEvent of the event |
| ValveComponent.ValveComponent.Subscribe | src/components/Valve/ValveComponent.tsx:39-68 | with the mock peripheral, the shown duration ends as the valve's duration |
| ValveControlScreen.ValvesFromCount | src/screens/ValveControlScreen.tsx:73-80 | n entries (none for n < 0); entry i has id i+1, name `Valve {i+1}`, duration 0 and is inactive |
| ValveControlScreen.BuiltListShape | src/screens/ValveControlScreen.tsx:74-79 | ids of a built list strictly ascend, and no entry is active or has a duration |
| ValveControlScreen.FetchConfiguration | src/screens/ValveControlScreen.tsx:61-91 | a failed read, empty value, JSON error or null parse leaves the list; no `VALVES` gives []; a count above 2^32-1 (RangeError) leaves the list; otherwise the list is ValvesFromCount |
| ValveControlScreen.TrimStart | src/screens/ValveControlScreen.tsx:70 | drops exactly the leading JSON whitespace |
| ValveControlScreen.ReadingOfValue | src/screens/ValveControlScreen.tsx:61-70 | an empty value reads as "no value"; a text that cannot start a JSON value reads as a JSON error; a configuration object reads as its `VALVES` count |
| ValveControlScreen.ConfigStartsLikeJson | src/screens/ValveControlScreen.tsx:70 | every configuration text starts like a JSON value |
| ValveControlScreen.ConfigValueReading | src/screens/ValveControlScreen.tsx:61-80 | a value whose decoding parses as a configuration reads as its valve count |
| ValveControlScreen.ConfigReadsAsCount | src/screens/ValveControlScreen.tsx:61-80 | the encoding of any configuration reads as its valve count |
| ValveControlScreen.PinsIgnored | src/screens/ValveControlScreen.tsx:72-80 | two configurations with the same `VALVES` read the same, whatever their `PINS` |
| ValveControlScreen.ConfigDataReading | src/screens/ValveControlScreen.tsx:61-70 | the peripheral's configuration data reads as four valves |
| ValveControlScreen.ConfigDataGivesFourValves | src/screens/ValveControlScreen.tsx:61-80 | fetching the peripheral's configuration data builds the four-valve list |
| ValveControlScreen.MockValueUnparsable | src/screens/ValveControlScreen.tsx:68-87 | a value decoding to `Mock Value` reads as a JSON error |
| ValveControlScreen.FetchFromMock | src/screens/ValveControlScreen.tsx:56-91 | fetching from the mock peripheral leaves the valve list as it was |
| ValveControlScreen.Actives | src/screens/ValveControlScreen.tsx:104 | keeps exactly the active entries of the list |
| ValveControlScreen.ActivesAppend | src/screens/ValveControlScreen.tsx:104 | the filter distributes over concatenation, so list order is kept |
| ValveControlScreen.NoActives | src/screens/ValveControlScreen.tsx:104-105 | a list with no active entry filters to nothing |
| ValveControlScreen.Commands | src/screens/ValveControlScreen.tsx:114-118 | one ON command per valve, in order, carrying the valve's id and duration |
| ValveControlScreen.RunSequence | src/screens/ValveControlScreen.tsx:101-129 | nothing happens exactly without a device; no write exactly when no valve is active; otherwise one write that reads back as the commands of the active valves in list order |
| ValveControlScreen.SequenceNamesActives | src/screens/ValveControlScreen.tsx:104-124 | every command written comes from an active valve, and every active valve has its command |
| ValveControlScreen.FreshListNoneSelected | src/screens/ValveControlScreen.tsx:104-108 | running a freshly built list writes nothing |
| ValveControlScreen.ToggledActives | src/screens/ValveControlScreen.tsx:104 | after toggling entry k of a fresh list, that entry is the only active one |
| ValveControlScreen.SelectOneAndRun | src/screens/ValveControlScreen.tsx:101-129 | toggling valve k of a fresh list and running writes exactly one command: valve k, ON, duration 0 |
| Valve.Decrement | src/components/Valve.tsx:36 | the interval's update never goes negative, takes one off a positive value and maps the rest to 0 |
| Valve.Ticks | src/components/Valve.tsx:34-37 | the countdown after k one-second ticks: k applications of Decrement; TicksValue gives its closed form |
| Valve.TicksValue | src/components/Valve.tsx:34-37 | k ticks from t >= 0 leave max(t - k, 0) |
| Valve.TicksBounded | src/components/Valve.tsx:34-37 | the countdown never increases and never goes negative |
| Valve.TickStep | src/components/Valve.tsx:34-37 | one more tick is one more decrement |
| Valve.Valve.constructor | src/components/Valve.tsx:22-26 | name `Valve {index+1}`, latching, duration 0, nothing remaining, not running |
| Valve.Valve.HandleStart | src/components/Valve.tsx:50-56 | loads the duration and runs only in momentary mode with a positive duration, otherwise changes nothing; always reports the index; keeps remaining time within the duration |
| Valve.Valve.HandleStop | src/components/Valve.tsx:58-62 | stops, clears the remaining time, reports the index |
| Valve.Valve.Tick | src/components/Valve.tsx:31-48 | decrements only while running with time left; reaching zero leaves the valve running |
| Valve.StartAfterMount | src/components/Valve.tsx:22-56 | with nothing setting mode or duration, a start on a fresh card loads no countdown |
| Valve.RunFor | src/components/Valve.tsx:31-52 | a started momentary countdown holds Ticks(duration, k) after k ticks and stays running |
| SettingsScreen.Without | src/screens/SettingsScreen.tsx:54 | keeps exactly the entries whose id differs |
| SettingsScreen.WithoutAppend | src/screens/SettingsScreen.tsx:54 | removal distributes over concatenation, so order is kept |
| SettingsScreen.WithoutAbsent | src/screens/SettingsScreen.tsx:54 | removing an id no entry has leaves the list unchanged |
| SettingsScreen.WithoutIdempotent | src/screens/SettingsScreen.tsx:52-63 | removing twice is removing once |
| SettingsScreen.SaveThenRemove | src/screens/SettingsScreen.tsx:39-63 | saving a device and then removing it is removing its id from the old list |
| SettingsScreen.Accepts | src/screens/SettingsScreen.tsx:128 | a scan result is taken when it exists, has a non-empty name and an id not yet in the list |
| SettingsScreen.SettingsScreen.constructor | src/screens/SettingsScreen.tsx:12-16 | no devices; the manager matches the debug default |
| SettingsScreen.SettingsScreen.LoadSavedDevices | src/screens/SettingsScreen.tsx:26-37 | the list is replaced only when a stored value exists |
| SettingsScreen.SettingsScreen.SaveDevice | src/screens/SettingsScreen.tsx:39-50 | appends at the end, without de-duplication |
| SettingsScreen.SettingsScreen.RemoveDevice | src/screens/SettingsScreen.tsx:52-63 | the list becomes Without of the device's id |
| SettingsScreen.SettingsScreen.ConnectToDevice | src/screens/SettingsScreen.tsx:65-90 | saves exactly when connect and discovery both resolve; otherwise the list is unchanged |
| SettingsScreen.SettingsScreen.ConnectToMock | src/screens/SettingsScreen.tsx:74-84 | the mock peripheral ends connected and is saved |
| SettingsScreen.SettingsScreen.AddNewDevice | src/screens/SettingsScreen.tsx:101-136 | real mode starts a scan; in debug mode: with the real manager or no offered device nothing is added, a known id adds nothing, an unknown one is connected and saved |
| SettingsScreen.SettingsScreen.OnScanResult | src/screens/SettingsScreen.tsx:122-132 | the scan stops exactly for an error-free, non-null result with a non-empty name and an unknown id; it is saved only when its connection succeeds |
| SettingsScreen.SettingsScreen.ToggleDebugMode | src/screens/SettingsScreen.tsx:138-145 | negates the switch and stores `true`/`false`; the manager follows the switch only if the store resolved, and stays as it was otherwise |
| SettingsScreen.FailedToggleHidesMock | src/screens/SettingsScreen.tsx:101-145 | after a toggle to debug mode whose store is rejected, the real manager stays, and the add button finds no mock device and adds nothing |
| SettingsScreen.AddMockTwice | src/screens/SettingsScreen.tsx:101-120 | the mock manager's device is added by the first press and refused by the second, so the list grows by one |
| App.Read | src/screens/App.tsx:30-33 | a missing or empty entry counts as absent |
| App.ConnectToDevice | src/screens/App.tsx:71-84 | a device comes back exactly when the single lookup finds one and connect and discovery resolve |
| App.CheckStoredDevices | src/screens/App.tsx:27-69 | no list, an unparsable or null list, an empty list, no last id or a failed connection each give `Settings` |
| App.ValveControlExactly | src/screens/App.tsx:56-64 | `ValveControl` exactly when every step passes |
| App.SettingsStoreStartsOnSettings | src/screens/App.tsx:30-53 | a store written only under the settings screen's keys always starts on `Settings` |
| App.App.constructor | src/screens/App.tsx:14-17 | starts on `Settings`, not ready |
| App.App.Initialize | src/screens/App.tsx:19-25 | the route is CheckStoredDevices' choice, and only then is the app ready |
| DeviceItemComponent.DeviceItem.constructor | src/components/DeviceItemComponent.tsx:24 | not connected |
| DeviceItemComponent.DeviceItem.CheckConnection | src/components/DeviceItemComponent.tsx:26-32 | the flag takes the device's answer |
| DeviceItemComponent.DeviceItem.HandleConnectDisconnect | src/components/DeviceItemComponent.tsx:34-47 | disconnects when connected, else connects and navigates on success; the flag flips only if the callback resolved |
| DeviceItemComponent.DeviceItem.HandlePress | src/components/DeviceItemComponent.tsx:49-60 | never changes the flag; connects only when not connected; navigates when connected or the connect resolved |
| DeviceItemComponent.DeviceItem.HandleRemove | src/components/DeviceItemComponent.tsx:62-75 | removal by id happens exactly on the confirming button |
| DeviceItemComponent.ConnectThenDisconnect | src/components/DeviceItemComponent.tsx:34-47 | a resolved connect and then a resolved disconnect end disconnected: one connect, one navigation, one disconnect |

## Left out

- Rendering, styles, navigation containers, `ValveSettingsScreen` and the pass-through list and add-device components are UI only.
- AsyncStorage, `Alert` and `console` are I/O. Reads become `Option` inputs, writes become returned texts, and alerts and logs are dropped.
- Timers are scheduling: the one-second interval in `Valve.tsx`, the ten-second scan timeout, the simulated scan callback of the mock manager and `MockDevice.onDisconnected`. The tick is an explicit step (`Valve.Valve.Tick`), and the scan result an explicit call (`SettingsScreen.SettingsScreen.OnScanResult`).
- `MockSubscription`, `characteristicsForService`, `descriptorsForService`, `readDescriptorForService` and `writeDescriptorForService` only log and return empty values. The function members of answered characteristic records only throw.
- The real `react-native-ble-plx` manager is a foreign library. This covers the device lookup at `ValveControlScreen.tsx` lines 23-46 and the manager's `devices` call at `App.tsx` line 73. Their outcomes are inputs.
- `disconnectFromDevice` in the settings screen only awaits `cancelConnection` and alerts. The flag it changes is modelled by `MockDevice.MockDevice.CancelConnection`.
- Floating point is not modelled: `Number(text)` in `ValveComponent.tsx` and the progress arithmetic of the valve card. Durations and ids are integers.
- Object-prototype keys are not modelled: a lookup of a key such as `constructor` in the mock's plain-object dictionaries would find an inherited member. Lookups here see only registered keys.
- Lone UTF-16 surrogates are not representable: Dafny strings hold Unicode scalar values.
- Utf8.Decode: `ValveControlScreen.tsx` line 63 uses a global `Buffer` it does not import. The model takes it to be the same `buffer` package that `MockDevice.ts` imports. A runtime whose global `Buffer` is Node's own would decode ill-formed bytes differently, with one U+FFFD per maximal ill-formed subpart.
- SettingsScreen.SettingsScreen.ToggleDebugMode: the unhandled promise rejection of a failed store is not modelled beyond its effect: the manager is not swapped.
- ValveControlScreen.ReadingOfValue: `JSON.parse` is modelled only for empty values, texts that cannot start a JSON value, and the configuration shape. Any other JSON text gives `None`, and `FetchConfiguration` takes the reading as an input.
- ValveComponent.EventOf: what `JSON.parse` makes of a notified timer value is an input, not computed from the text.
- ValveComponent.AfterTimerEvent: only integer members of a parsed object are modelled. Lines 56-58 of `ValveComponent.tsx` assign any member that is not `undefined`: for valve 1, `{"1":"fast"}` sets the duration to the string `"fast"`, `{"1":null}` sets it to `null`, and a parsed string such as `"abc"` sets it to its character `"b"`. The model keeps the old duration in all these cases, because durations are integers here. It also does not model where a throw goes. With the mock peripheral the listener runs inside `monitorCharacteristicForService`, so a throw from a null characteristic is caught by the `try` at lines 43-64. With a real device the listener runs after `subscribeToTimer` has returned, so a parse failure or `null[id]` escapes that `try` as an uncaught error in the callback. In both cases the duration stays, as modelled.
- App.CheckStoredDevices: what `JSON.parse` makes of the stored list is an input (`ListParse`), not computed from the text.
- MockDevice.MockDevice.HandleValveControl: requires the valve-control node to exist. The constructor creates it and nothing removes it. The source would throw otherwise.
- MockDevice.Entry: a tree node stores the text whose base64 is its value rather than the value itself. Every value the tree ever holds is such an encoding, since `handleValveControl` stores a re-encoding.
- SettingsScreen.SettingsScreen.SaveDevice: the stale `devices` closure seen by a save that follows a state update in the same render is not modelled. Each call sees the current list. A failed storage write after the list update keeps the update, as in the source.
- SettingsScreen.SettingsScreen.AddNewDevice: the debug branch's alerts are dropped. `offered` stands for the mock manager's list, which holds the one device `ESP32_MOCK_DEVICE` / `ESP32_Simulator`.
- ValveComponent.ValveComponent.Subscribe: the listener's `TypeError` on a null characteristic is caught by the surrounding `try`, so it is modelled as "duration unchanged". The subscription handle is not modelled.
- Valve.Valve.HandleStart: the `onStart` and `onStop` callbacks are modelled as the returned index. `handleSettingsPress` is navigation only.
- ValveListComponent.HandleNameChange: each handler's single `onUpdate` call is modelled as the function's returned list.
