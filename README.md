# Nest thermostat control, modelled in Dafny

A model of the thermostat client behind a Stream Deck plugin that drives Nest
thermostats through the Smart Device Management (SDM) API. The model covers three parts:

- `NestClient` keeps an OAuth access token fresh. It fetches and mirrors the
  device listing, merges push updates from the Pub/Sub subscription into that
  mirror, and sends mode and set-point commands.
- The "temperature up" key picks its action from the thermostat's mode. A
  ticker keeps the key's title on the current set point.
- The "thermostat info" key caches one thermostat view and keeps its
  `OnUpdate` handler attached to that view only. A ticker shows the mode,
  the set point and the temperature.

Layout:

- `wrappers.dfy`: `Option`, where `None` stands for C# `null`.
- `text.dfy`: `string.IsNullOrWhiteSpace`, `ToLower`, and `Split`/`Join` on one separator character.
- `devices.dfy`: the device listing as values, including the trait
  categories, the category-by-category merge and the local change after an
  accepted command. It also holds the `ThermostatDevice` view as a class.
- `nest_client.dfy`: the client state as a value (`Session`) plus one pure
  step function per state-changing operation, followed by the `NestClient`
  class. Every state-changing method except `GetAccountLinkUrl` is proved to
  do exactly what its step function describes: the same result, the same new
  state, and the same remote calls appended to a ghost trace. The read-only
  `GetThermostat` and `GetThermostats`, `GetAccountLinkUrl` and the helper
  `CopyCategories` state their results directly. No method changes the
  remembered redirect address except `GetAccountLinkUrl`. The lemmas are
  about the step functions.
- `temperature_up.dfy` and `thermostat_info.dfy`: the two key actions, as classes.

Remote calls and the clock are inputs. A `Remote` value holds the following:

- the current time in whole seconds;
- the refresh response (`None` is a null response);
- the device listing (`None` when the fetch failed);
- whether the command endpoint accepted the command.

Exceptions become `Outcome.Threw(fault)`. `decimal` is `real`, and time is
whole seconds from `DateTime.MinValue` (0).

Points of the code's behaviour that the model keeps as written:

- The `Lock` semaphore is declared but never acquired, so every token check
  that finds the token expired sends its own refresh request.
- A push update can throw. `SingleOrDefault` throws when two devices share
  the name (`AmbiguousDevice`), and a push that arrives while the listing is
  null throws a null reference. `DeviceUpdatedStep` models both.
- A refresh replaces only the access token and its expiry; the refresh token
  stays as it was (`TokenCheckContract`).
- A push update carries a whole device, and each trait category present in
  it is copied over the stored one (`MergeTraits`).
- The 10-second safety margin is subtracted when the expiry is stored, not
  when it is compared (`RefreshedTokenLifetime` states the resulting
  threshold).

## Model

| member | source | states |
|---|---|---|
| Text.ToLower | Tech.Aerove.StreamDeck.NestControl/Tech.Aerove.Tools/Nest/NestClient.cs:156 | the lower-cased name has the same length; each character is the lower-case form of the one at that position; no upper-case ASCII letter is left |
| Text.EqualsIgnoreCaseLetterwise | Tech.Aerove.StreamDeck.NestControl/Tech.Aerove.Tools/Nest/NestClient.cs:156 | two names match ignoring case exactly when they have the same length and match character by character after lower-casing |
| Text.Split | Tech.Aerove.StreamDeck.NestControl/Tech.Aerove.Tools/Nest/NestClient.cs:52 | splitting on the separator gives at least one part and no part contains the separator |
| Text.JoinSplit | Tech.Aerove.StreamDeck.NestControl/Tech.Aerove.Tools/Nest/NestClient.cs:52 | joining the parts of a split scope string with a space gives the string back |
| Text.SplitJoin | Tech.Aerove.StreamDeck.NestControl/Tech.Aerove.Tools/Nest/NestClient.cs:143 | splitting a joined list of scopes, none containing a space, gives the list back |
| Devices.MergeTraits | Tech.Aerove.StreamDeck.NestControl/Tech.Aerove.Tools/Nest/NestClient.cs:68-116 | each of the ten trait categories becomes the incoming payload when the update carries it, and stays as it was otherwise |
| Devices.MergeTraitsIdempotent | Tech.Aerove.StreamDeck.NestControl/Tech.Aerove.Tools/Nest/NestClient.cs:68-116 | copying the same update in a second time changes nothing more |
| Devices.MergeTraitsCompose | Tech.Aerove.StreamDeck.NestControl/Tech.Aerove.Tools/Nest/NestClient.cs:68-116 | two updates copied in one after the other act as one update, the second laid over the first |
| Devices.MergeTraitsExtremes | Tech.Aerove.StreamDeck.NestControl/Tech.Aerove.Tools/Nest/NestClient.cs:68-116 | an update with no category leaves the traits unchanged; one with all ten categories replaces them all |
| Devices.MergeDevice | Tech.Aerove.StreamDeck.NestControl/Tech.Aerove.Tools/Nest/NestClient.cs:61-116 | the merged device keeps its own name and type, and its traits are the category merge |
| Devices.ApplyChange | Tech.Aerove.StreamDeck.NestControl/Tech.Aerove.Tools/Nest/NestClient.cs:205-241 | after an accepted command the local device carries the new mode, with the available modes kept, or the sent Celsius value in the heat field (HEAT) or the cool field (COOL), with the other field kept; name, type and every other trait are unchanged |
| Nest.TokenCheckContract | Tech.Aerove.StreamDeck.NestControl/Tech.Aerove.Tools/Nest/NestClient.cs:180-194 | with an unexpired token nothing is sent and nothing changes; otherwise exactly one refresh request is sent; a null response throws with the state unchanged; a good one stores its token with expiry now + expiresIn - 10, then starts the subscription (one more call, and only then); the refresh token, scopes and listing are never changed |
| Nest.RefreshedTokenLifetime | Tech.Aerove.StreamDeck.NestControl/Tech.Aerove.Tools/Nest/NestClient.cs:183-191 | after a refresh at time now, a later check sends no refresh request exactly when it is before now + expiresIn - 10 |
| Nest.RestoredClientRefreshesFirst | Tech.Aerove.StreamDeck.NestControl/Tech.Aerove.Tools/Nest/NestClient.cs:46-56 | a restored client starts at the minimum expiry, so its first token check refreshes with the stored refresh token |
| Nest.GetAccessTokenIsCurrent | Tech.Aerove.StreamDeck.NestControl/Tech.Aerove.Tools/Nest/NestClient.cs:23-28 | a returned token is the stored one, and it expires after now unless the refresh itself granted no more than the 10-second margin |
| Nest.FirstMatch | Tech.Aerove.StreamDeck.NestControl/Tech.Aerove.Tools/Nest/NestClient.cs:156 | returns the index of the first device that satisfies the predicate; no earlier device satisfies it; None only when no device does |
| Nest.SingleNamed | Tech.Aerove.StreamDeck.NestControl/Tech.Aerove.Tools/Nest/NestClient.cs:63 | no match exactly when no device has the name; Single(i) when device i is the only one with it; Several when two devices have it |
| Nest.ThermostatNamesMembership | Tech.Aerove.StreamDeck.NestControl/Tech.Aerove.Tools/Nest/NestClient.cs:161-169 | a name is listed exactly when a device of type sdm.devices.types.THERMOSTAT has it |
| Nest.ThermostatNamesAppend | Tech.Aerove.StreamDeck.NestControl/Tech.Aerove.Tools/Nest/NestClient.cs:161-169 | the listing order is kept: the thermostats of a + b are those of a followed by those of b |
| Nest.ThermostatNamesBound | Tech.Aerove.StreamDeck.NestControl/Tech.Aerove.Tools/Nest/NestClient.cs:161-169 | there is at most one view per device |
| Nest.MergeUpdate | Tech.Aerove.StreamDeck.NestControl/Tech.Aerove.Tools/Nest/NestClient.cs:61-116 | an unknown name leaves the listing alone; two devices with the name make it ambiguous, exactly then; otherwise the one device with that name is merged, every other device is unchanged, and the length is kept |
| Nest.MergeUpdateIdempotent | Tech.Aerove.StreamDeck.NestControl/Tech.Aerove.Tools/Nest/NestClient.cs:61-116 | merging the same update into the merged listing gives that listing again |
| Nest.UnknownDeviceUpdateIsIgnored | Tech.Aerove.StreamDeck.NestControl/Tech.Aerove.Tools/Nest/NestClient.cs:63-67 | an update for a name the listing lacks changes nothing, sends nothing and throws nothing |
| Nest.KnownDeviceUpdateMerges | Tech.Aerove.StreamDeck.NestControl/Tech.Aerove.Tools/Nest/NestClient.cs:61-119 | an update for the one device with that name merges into it alone, then raises OnDevicesUpdated once with that name |
| Nest.DeviceUpdateIdempotent | Tech.Aerove.StreamDeck.NestControl/Tech.Aerove.Tools/Nest/NestClient.cs:61-119 | receiving the same push update twice leaves the client state as receiving it once |
| Nest.FailedFetchDropsListing | Tech.Aerove.StreamDeck.NestControl/Tech.Aerove.Tools/Nest/NestClient.cs:171-177 | the fetch returns false exactly when the token was good and the listing came back null; the listing is then null, so the next push update throws |
| Nest.FinishSetupUsesFirstToken | Tech.Aerove.StreamDeck.NestControl/Tech.Aerove.Tools/Nest/NestClient.cs:141-152 | when the first token outlives the 10-second margin, setup fetches the listing with that token and no refresh, stores expiry now + expiresIn - 10 and the split scopes, and returns the refresh token exactly when the fetch succeeded |
| Nest.FinishSetupRefused | Tech.Aerove.StreamDeck.NestControl/Tech.Aerove.Tools/Nest/NestClient.cs:143-145 | a null first-token response returns null; only the scopes have changed |
| Nest.ResumeRefreshesFirst | Tech.Aerove.StreamDeck.NestControl/Tech.Aerove.Tools/Nest/NestClient.cs:46-58 | the restoring constructor refreshes with the stored refresh token before any other call, and throws exactly when that refresh fails |
| Nest.SetTempRejectsOtherModes | Tech.Aerove.StreamDeck.NestControl/Tech.Aerove.Tools/Nest/NestClient.cs:213-223 | outside HEAT and COOL no command is sent and no device changes; the result is false unless the token check throws |
| Nest.SetTempSendsCelsius | Tech.Aerove.StreamDeck.NestControl/Tech.Aerove.Tools/Nest/NestClient.cs:213-236 | in HEAT or COOL with a good token, exactly one command is sent with the current token: SetCool in COOL, SetHeat in HEAT, carrying the value converted to Celsius when the scale is Fahrenheit |
| Nest.RefusedCommandChangesNoDevice | Tech.Aerove.StreamDeck.NestControl/Tech.Aerove.Tools/Nest/NestClient.cs:196-243 | a command the API refuses leaves the listing unchanged and never reports success, for both SetMode and SetTemp |
| Nest.AcceptedSetTempUpdatesDevice | Tech.Aerove.StreamDeck.NestControl/Tech.Aerove.Tools/Nest/NestClient.cs:236-242 | success means the API accepted and the mode is HEAT or COOL; the first device with that name, and no other, gets the sent Celsius value in the field the mode picks |
| Nest.AcceptedSetModeUpdatesDevice | Tech.Aerove.StreamDeck.NestControl/Tech.Aerove.Tools/Nest/NestClient.cs:204-210 | success means the API accepted; the first device with that name, and no other, gets the new mode; the listing keeps its length |
| Nest.StepsAreSymmetric | Tech.Aerove.StreamDeck.NestControl/Tech.Aerove.Tools/Nest/NestClient.cs:245-257 | stepping up by n is stepping down by -n; a step down from where a step up landed asks for the starting exact set point |
| Nest.NestClient.constructor | Tech.Aerove.StreamDeck.NestControl/Tech.Aerove.Tools/Nest/NestClient.cs:33-41 | a new client has no tokens, no scopes, expiry at the minimum time, an empty listing and no redirect address |
| Nest.NestClient.Restored | Tech.Aerove.StreamDeck.NestControl/Tech.Aerove.Tools/Nest/NestClient.cs:46-53 | a restored client holds the given refresh token and the space-split scopes, with expiry at the minimum time |
| Nest.NestClient.Resume | Tech.Aerove.StreamDeck.NestControl/Tech.Aerove.Tools/Nest/NestClient.cs:56-57 | state, result and remote calls are those of the restoring constructor: fetch the listing, then start the subscription |
| Nest.NestClient.CheckUpdateToken | Tech.Aerove.StreamDeck.NestControl/Tech.Aerove.Tools/Nest/NestClient.cs:180-194 | state, result and remote calls are those of the token check proved in TokenCheckContract |
| Nest.NestClient.GetAccessToken | Tech.Aerove.StreamDeck.NestControl/Tech.Aerove.Tools/Nest/NestClient.cs:23-28 | checks the token and returns the token held afterwards; a failed refresh propagates |
| Nest.NestClient.OnDeviceUpdated | Tech.Aerove.StreamDeck.NestControl/Tech.Aerove.Tools/Nest/NestClient.cs:61-119 | the listing becomes the push merge proved in MergeUpdate and the event is raised after it; an unknown name does nothing; a duplicate name or null listing throws |
| Nest.NestClient.CopyCategories | Tech.Aerove.StreamDeck.NestControl/Tech.Aerove.Tools/Nest/NestClient.cs:68-116 | the ten in-place category copies give exactly the trait merge: each category the update carries replaces the stored one, the rest stay |
| Nest.NestClient.GetAccountLinkUrl | Tech.Aerove.StreamDeck.NestControl/Tech.Aerove.Tools/Nest/NestClient.cs:129-133 | remembers the redirect address and returns the link; nothing else changes |
| Nest.NestClient.FinishSetup | Tech.Aerove.StreamDeck.NestControl/Tech.Aerove.Tools/Nest/NestClient.cs:141-152 | state, result and remote calls are those of the setup step proved in FinishSetupUsesFirstToken and FinishSetupRefused, with the remembered redirect address |
| Nest.NestClient.GetThermostat | Tech.Aerove.StreamDeck.NestControl/Tech.Aerove.Tools/Nest/NestClient.cs:154-159 | returns the name of the first device whose name matches ignoring case, with no earlier match; throws a null reference when none matches or there is no listing |
| Nest.NestClient.GetThermostats | Tech.Aerove.StreamDeck.NestControl/Tech.Aerove.Tools/Nest/NestClient.cs:161-169 | returns the thermostat names in listing order, the function whose properties ThermostatNamesMembership and ThermostatNamesAppend prove, and at most one name per device |
| Nest.NestClient.UpdateDevices | Tech.Aerove.StreamDeck.NestControl/Tech.Aerove.Tools/Nest/NestClient.cs:171-177 | checks the token, then stores the fetched listing and returns whether it is non-null |
| Nest.NestClient.ApplyLocally | Tech.Aerove.StreamDeck.NestControl/Tech.Aerove.Tools/Nest/NestClient.cs:207-208 | applies the change to the first device with the name; throws a null reference when there is none |
| Nest.NestClient.SetMode | Tech.Aerove.StreamDeck.NestControl/Tech.Aerove.Tools/Nest/NestClient.cs:196-211 | state, result and remote calls are those of the mode command step |
| Nest.NestClient.SetTemp | Tech.Aerove.StreamDeck.NestControl/Tech.Aerove.Tools/Nest/NestClient.cs:213-243 | state, result and remote calls are those of the set-point command step proved in SetTempRejectsOtherModes, SetTempSendsCelsius and AcceptedSetTempUpdatesDevice |
| Nest.NestClient.SetTempUp | Tech.Aerove.StreamDeck.NestControl/Tech.Aerove.Tools/Nest/NestClient.cs:245-250 | SetTemp with the exact set point plus the step |
| Nest.NestClient.SetTempDown | Tech.Aerove.StreamDeck.NestControl/Tech.Aerove.Tools/Nest/NestClient.cs:252-257 | SetTemp with the exact set point minus the step |
| TemperatureUpAction.AfterTicksIsLastEffective | Tech.Aerove.StreamDeck.NestControl/Actions/TemperatureUp.cs:32-51 | after a run of ticks, CurrentSetPoint is the value from the last tick with a non-blank name and no exception, or its old value when there was no such tick |
| TemperatureUpAction.TitlesOnlyOnChange | Tech.Aerove.StreamDeck.NestControl/Actions/TemperatureUp.cs:40-44 | a title is set only when the value changes: no two consecutive titles are equal, the first differs from the starting value, and the last is the current set point |
| TemperatureUpAction.SwitchToHeatSendsOnlySetMode | Tech.Aerove.StreamDeck.NestControl/Actions/TemperatureUp.cs:55-59 | a press in OFF sends SetMode(HEAT) as the one call after a good token check, and no command when the check throws |
| TemperatureUpAction.StepUpSendsOneSetPoint | Tech.Aerove.StreamDeck.NestControl/Actions/TemperatureUp.cs:60 | a press in HEAT or COOL sends the set-point command for the exact set point plus the step as the one call after a good token check, no command when the check throws, and on success that command is the last call made |
| TemperatureUpAction.TemperatureUp.constructor | Tech.Aerove.StreamDeck.NestControl/Actions/TemperatureUp.cs:22 | the key starts with CurrentSetPoint 0, no alerts and no titles |
| TemperatureUpAction.TemperatureUp.TickOnce | Tech.Aerove.StreamDeck.NestControl/Actions/TemperatureUp.cs:37-49 | a blank device name or a failed lookup changes nothing; otherwise CurrentSetPoint takes the reported value, and the title is set only when that value differs |
| TemperatureUpAction.TemperatureUp.Ticker | Tech.Aerove.StreamDeck.NestControl/Actions/TemperatureUp.cs:32-51 | after a finite run of ticks, CurrentSetPoint and the titles are the fold of TickOnce over the ticks |
| TemperatureUpAction.TemperatureUp.KeyDownAsync | Tech.Aerove.StreamDeck.NestControl/Actions/TemperatureUp.cs:52-64 | HEATCOOL alerts and sends nothing; OFF sends SetMode(HEAT) and ignores its result; HEAT or COOL steps up, alerting on false, and on success takes the new set point and sets the title |
| ThermostatInfoAction.ThermostatInfo.constructor | Tech.Aerove.StreamDeck.NestControl/Actions/ThermostatInfo.cs:21-32 | starts with no bound view and CurrentSetPoint 0 |
| ThermostatInfoAction.ThermostatInfo.GetThermostat | Tech.Aerove.StreamDeck.NestControl/Actions/ThermostatInfo.cs:33-46 | with no cached view, or a different name, detaches the handler from the old view and attaches it to the new one; otherwise keeps the cached view and changes no view; no other view's handlers change; the handler stays attached exactly once, to the current view only |
| ThermostatInfoAction.ThermostatInfo.OnUpdate | Tech.Aerove.StreamDeck.NestControl/Actions/ThermostatInfo.cs:47-50 | rebinds exactly as GetThermostat does, with the same handler moves and no other view changed; CurrentSetPoint becomes the set point of the resulting view |
| ThermostatInfoAction.ThermostatInfo.TickOnce | Tech.Aerove.StreamDeck.NestControl/Actions/ThermostatInfo.cs:56-70 | a blank name or a failed lookup changes nothing; otherwise rebinds as GetThermostat does, with the same handler moves and no other view changed, takes the set point, and sets the mode/set-point title then the temperature title |

## Left out

- HTTP and Pub/Sub: request bodies, JSON, the account-link URL format and the subscription transport are not modelled. Their results are inputs in `Remote`, and each call is an `Effect` entry in the ghost trace.
- Concurrency: the tickers, push updates and key presses run one at a time here. The `Lock` semaphore is declared in the code but never taken, so there is no locking to model.
- Time: `DateTime.Now` is one whole-second reading per operation. The code reads the clock twice in the token check. `DateTime` range overflow on `AddSeconds` is not modelled.
- `Task.Delay`, `SetTitleAsync` and `ShowAlertAsync` are not modelled. Titles and alerts are ghost counters and sequences.
- `ThermostatDevice`, `Device`, `ExampleService`, the `decimal.ToCelsius` extension and `Program.cs` are not part of this model. The view's getters (`Name`, `Mode`, `Scale`, `SetPoint`, `SetPointExact`, `CurrentTemperature`) are plain fields of the view class. `ToCelsius` is a function the client is built with. `Device.SetMode` and `Device.SetTemperatureSetPoint` are modelled as replacing the mode, or the heat or cool set point, in `Devices.ApplyChange`.
- Devices are values in a sequence, not shared objects. A `ThermostatDevice` view therefore does not see a change to the listing until it is read again.
- The restoring constructor is modelled as `Restored` followed by `Resume`. `Restored` sets the fields; `Resume` runs the listing fetch and the subscription start.
- `int.Parse` of the temperature step setting is not modelled; the step is an `int` parameter.
- Text.ToLower: maps ASCII letters only. .NET's culture-sensitive lower-casing of other letters is not modelled.
- Nest.NestClient.GetThermostat: returns the matched device's name, not a new `ThermostatDevice` object.
- Nest.NestClient.GetThermostats: returns the names of the views, not new `ThermostatDevice` objects.
- TemperatureUpAction.TemperatureUp.KeyDownAsync: the thermostat lookup, and the set point read after a step, are taken once per press and passed in. The code repeats the lookup on each `Thermostat` access. A lookup that throws is not modelled.
- TemperatureUpAction.TemperatureUp.Ticker: the endless loop is modelled as a finite run of ticks, with the lookup's result given per tick.
- ThermostatInfoAction.ThermostatInfo.TickOnce: the lookup is taken once per tick. An exception thrown between the two titles (the code looks the view up again after a delay) is not modelled.
- ThermostatInfoAction.ThermostatInfo.OnUpdate: invoking `OnUpdate` when the lookup returns null is not modelled; `OnUpdate` is not wrapped in a try.
- ThermostatInfoAction.ThermostatInfo: the ticker's endless loop is not modelled as a method; `TickOnce` is one pass of it.
- `ThermostatDevice.SetMode` and `ThermostatDevice.SetTempUp` are not part of this model. They are taken to call `NestClient.SetMode` and `NestClient.SetTempUp` with the view itself, so `KeyDownAsync` calls the client directly.
- `DevicesResponse` is not part of this model. A new `DevicesResponse` is taken to hold an empty `Devices` list, so a client starts with an empty listing rather than a null one. With a null list, a push arriving before the first fetch would throw instead of being ignored.
