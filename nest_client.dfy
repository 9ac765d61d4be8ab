/**
 * The thermostat client: the OAuth token it keeps fresh, the local copy of the
 * device listing, the merge of push updates into that copy, and the commands it
 * sends. Each operation is first defined as a step function over a `Session`
 * value (the client's fields), returning the outcome, the new session and the
 * remote calls and events it caused; the `NestClient` class then performs the
 * same operation on its fields and is proved to agree with the step function.
 */
module Nest {
  import opened Wrappers
  import opened Text
  import opened Devices

  /** Seconds taken off the lifetime the token endpoint reports. */
  const MarginSeconds: int := 10

  /** `DateTime.MinValue`; instants are whole seconds counted from it. */
  const MinTime: int := 0

  datatype TokenResponse = TokenResponse(accessToken: string, expiresIn: int)

  datatype FirstTokenResponse = FirstTokenResponse(accessToken: string, refreshToken: string, expiresIn: int)

  /**
   * What the outside world answers during one operation: the clock reading,
   * the token endpoint's refresh response (`None`: the call returned null), the
   * device listing (`None`: the fetch returned null) and whether a command was
   * accepted.
   */
  datatype Remote = Remote(
    now: nat, refreshed: Option<TokenResponse>, listing: Option<seq<Device>>, accepted: bool)

  /** The exceptions the client lets escape. */
  datatype Fault =
    | RefreshFailed    // "Failed to refresh token!"
    | NullReference    // a null listing, or no device of the looked-up name
    | AmbiguousDevice  // `SingleOrDefault` found two devices of one name

  datatype Outcome<+T> = Returned(value: T) | Threw(fault: Fault)

  datatype Command =
    | SetModeCommand(mode: ThermostatMode)
    | SetCoolCommand(coolCelsius: real)
    | SetHeatCommand(heatCelsius: real)

  /** The command names of the Smart Device Management API. */
  function CommandName(c: Command): string
  {
    match c
    case SetModeCommand(_) => "sdm.devices.commands.ThermostatMode.SetMode"
    case SetCoolCommand(_) => "sdm.devices.commands.ThermostatTemperatureSetpoint.SetCool"
    case SetHeatCommand(_) => "sdm.devices.commands.ThermostatTemperatureSetpoint.SetHeat"
  }

  /** A remote call made, or an event raised, in the order they happen. */
  datatype Effect =
    | RefreshCall(refreshToken: string)
    | FirstTokenCall(redirectUrl: string, code: string)
    | GetDevicesCall(accessToken: string)
    | ExecuteCall(deviceName: string, accessToken: string, command: Command)
    | PubSubStart(scopes: seq<string>)
    | DevicesUpdated(deviceName: string)

  /** The client's mutable fields; `store` is `DevicesResponse.Devices`, `None` when
      `DevicesResponse` is null. */
  datatype Session = Session(
    accessToken: string, refreshToken: string, expireTime: int,
    scopes: seq<string>, store: Option<seq<Device>>)

  datatype Step<+T> = Step(outcome: Outcome<T>, after: Session, effects: seq<Effect>)

  /** The client made by the constructor meant for first-time setup. */
  function FreshSession(): Session
  {
    Session("", "", MinTime, [], Some([]))
  }

  /** The client made by the constructor that restores a saved refresh token. */
  function RestoredSession(refreshToken: string, scopes: string): Session
  {
    Session("", refreshToken, MinTime, Split(scopes, ' '), Some([]))
  }

  function ExpiryAfter(now: int, expiresIn: int): int
  {
    now + expiresIn - MarginSeconds
  }

  // ---------------------------------------------------------------- token

  /** `CheckUpdateToken`. */
  function TokenCheckStep(s: Session, now: nat, refreshed: Option<TokenResponse>): Step<()>
  {
    if s.expireTime > now then Step(Returned(()), s, [])
    else match refreshed
      case None => Step(Threw(RefreshFailed), s, [RefreshCall(s.refreshToken)])
      case Some(r) =>
        Step(Returned(()),
             s.(expireTime := ExpiryAfter(now, r.expiresIn), accessToken := r.accessToken),
             [RefreshCall(s.refreshToken), PubSubStart(s.scopes)])
  }

  /** The refresh endpoint is called exactly when the stored expiry is not after
      `now`; a null response throws with nothing changed; a good one installs the
      new token with the margin taken off; the rest of the session is untouched. */
  lemma TokenCheckContract(s: Session, now: nat, refreshed: Option<TokenResponse>)
    ensures var r := TokenCheckStep(s, now, refreshed);
      && (r.effects == [] <==> s.expireTime > now)
      && (s.expireTime > now ==> r.after == s && r.outcome == Returned(()))
      && (s.expireTime <= now ==> |r.effects| == if refreshed.Some? then 2 else 1)
      && (r.effects != [] ==> r.effects[0] == RefreshCall(s.refreshToken))
      && (s.expireTime <= now && refreshed.Some? ==> r.effects[1] == PubSubStart(s.scopes))
      && (forall e :: e in r.effects ==> e.RefreshCall? || e.PubSubStart?)
      && (r.outcome.Threw? <==> s.expireTime <= now && refreshed.None?)
      && (r.outcome.Threw? ==> r.outcome.fault == RefreshFailed && r.after == s)
      && r.after.refreshToken == s.refreshToken && r.after.scopes == s.scopes
      && r.after.store == s.store
      && (s.expireTime <= now && refreshed.Some? ==>
            r.after.accessToken == refreshed.value.accessToken
            && r.after.expireTime == now + refreshed.value.expiresIn - MarginSeconds)
  {
  }

  /** A token refreshed at `now` for `expiresIn` seconds is used without another
      refresh at every instant before `now + expiresIn - 10`, and refreshed again
      from that instant on. */
  lemma RefreshedTokenLifetime(s: Session, now: nat, r: TokenResponse, later: nat, next: Option<TokenResponse>)
    requires s.expireTime <= now
    ensures var after := TokenCheckStep(s, now, Some(r)).after;
      (TokenCheckStep(after, later, next).effects == [] <==> later < now + r.expiresIn - MarginSeconds)
  {
  }

  /** A restored client starts at `DateTime.MinValue`, so its first check refreshes. */
  lemma RestoredClientRefreshesFirst(refreshToken: string, scopes: string, now: nat, refreshed: Option<TokenResponse>)
    ensures TokenCheckStep(RestoredSession(refreshToken, scopes), now, refreshed).effects[0]
         == RefreshCall(refreshToken)
  {
  }

  /** `GetAccessToken`: the token after the check. */
  function GetAccessTokenStep(s: Session, now: nat, refreshed: Option<TokenResponse>): Step<string>
  {
    var checked := TokenCheckStep(s, now, refreshed);
    if checked.outcome.Threw? then Step(Threw(checked.outcome.fault), checked.after, checked.effects)
    else Step(Returned(checked.after.accessToken), checked.after, checked.effects)
  }

  /** Handing out a token never hands out one past its (margin-reduced) expiry. */
  lemma GetAccessTokenIsCurrent(s: Session, now: nat, refreshed: Option<TokenResponse>)
    ensures var r := GetAccessTokenStep(s, now, refreshed);
      r.outcome.Returned? ==>
        r.outcome.value == r.after.accessToken
        && (r.after.expireTime > now
            || (refreshed.Some? && refreshed.value.expiresIn <= MarginSeconds
                && r.after.accessToken == refreshed.value.accessToken))
  {
  }

  // ---------------------------------------------------------------- lookups

  /** `FirstOrDefault`: the index of the first device satisfying `p`. */
  function FirstMatch(devices: seq<Device>, p: Device -> bool): (r: Option<nat>)
    ensures r.Some? ==> r.value < |devices| && p(devices[r.value])
    ensures r.Some? ==> forall j :: 0 <= j < r.value ==> !p(devices[j])
    ensures r.None? ==> forall j :: 0 <= j < |devices| ==> !p(devices[j])
  {
    if devices == [] then None
    else if p(devices[0]) then Some(0)
    else match FirstMatch(devices[1..], p)
      case None => None
      case Some(i) => Some(i + 1)
  }

  datatype SingleMatch = NoMatch | Single(index: nat) | Several

  /** `SingleOrDefault(x => x.Name == name)`. */
  function SingleNamed(devices: seq<Device>, name: string): (r: SingleMatch)
    ensures r.NoMatch? <==> forall j :: 0 <= j < |devices| ==> devices[j].name != name
    ensures r.Single? ==> r.index < |devices|
    ensures r.Single? ==> forall j :: 0 <= j < |devices| ==> (devices[j].name == name <==> j == r.index)
    ensures r.Several? ==>
      exists j, k :: 0 <= j < k < |devices| && devices[j].name == name && devices[k].name == name
  {
    match FirstMatch(devices, (d: Device) => d.name == name)
    case None => NoMatch
    case Some(i) =>
      var rest := FirstMatch(devices[i + 1..], (d: Device) => d.name == name);
      if rest.None? then
        assert forall j :: i < j < |devices| ==> devices[j] == devices[i + 1..][j - i - 1];
        Single(i)
      else
        assert devices[i + 1..][rest.value] == devices[i + 1 + rest.value];
        Several
  }

  /** `GetThermostats`: the names of the thermostats, in listing order. */
  function ThermostatNames(devices: seq<Device>): seq<string>
  {
    if devices == [] then []
    else
      var last := devices[|devices| - 1];
      ThermostatNames(devices[..|devices| - 1])
        + (if last.deviceType == ThermostatType then [last.name] else [])
  }

  /** A name is listed exactly when some thermostat of the listing has it. */
  lemma {:induction false} ThermostatNamesMembership(devices: seq<Device>, name: string)
    ensures name in ThermostatNames(devices) <==>
      exists d :: d in devices && d.deviceType == ThermostatType && d.name == name
  {
    if devices != [] {
      var init := devices[..|devices| - 1];
      ThermostatNamesMembership(init, name);
      assert devices == init + [devices[|devices| - 1]];
    }
  }

  /** The listing order is kept: the thermostats of two listings put together are
      those of the first followed by those of the second. */
  lemma {:induction false} ThermostatNamesAppend(a: seq<Device>, b: seq<Device>)
    ensures ThermostatNames(a + b) == ThermostatNames(a) + ThermostatNames(b)
  {
    if b == [] {
      assert a + b == a;
    } else {
      var init := b[..|b| - 1];
      ThermostatNamesAppend(a, init);
      assert (a + b)[..|a + b| - 1] == a + init;
      assert (a + b)[|a + b| - 1] == b[|b| - 1];
    }
  }

  /** There is at most one view per device. */
  lemma {:induction false} ThermostatNamesBound(devices: seq<Device>)
    ensures |ThermostatNames(devices)| <= |devices|
  {
    if devices != [] {
      ThermostatNamesBound(devices[..|devices| - 1]);
    }
  }

  // ---------------------------------------------------------------- push updates

  datatype MergeResult = UnknownDevice | Ambiguous | Merged(devices: seq<Device>)

  /** The listing after a push update for `update.name`. */
  function MergeUpdate(devices: seq<Device>, update: Device): (r: MergeResult)
    ensures r.UnknownDevice? <==> forall j :: 0 <= j < |devices| ==> devices[j].name != update.name
    ensures r.Ambiguous? <==>
      exists j, k :: 0 <= j < k < |devices| && devices[j].name == update.name && devices[k].name == update.name
    ensures r.Merged? ==> |r.devices| == |devices|
    ensures r.Merged? ==>
      exists i :: 0 <= i < |devices| && devices[i].name == update.name
        && r.devices[i] == MergeDevice(devices[i], update)
        && forall j :: 0 <= j < |devices| && j != i ==>
             devices[j].name != update.name && r.devices[j] == devices[j]
  {
    match SingleNamed(devices, update.name)
    case NoMatch => UnknownDevice
    case Several => Ambiguous
    case Single(i) => Merged(devices[i := MergeDevice(devices[i], update)])
  }

  /** Merging the same update into the merged listing gives that listing again. */
  lemma MergeUpdateIdempotent(devices: seq<Device>, update: Device)
    requires MergeUpdate(devices, update).Merged?
    ensures MergeUpdate(MergeUpdate(devices, update).devices, update)
         == MergeUpdate(devices, update)
  {
    var i := SingleNamed(devices, update.name).index;
    var merged := devices[i := MergeDevice(devices[i], update)];
    assert forall j :: 0 <= j < |merged| ==> merged[j].name == devices[j].name;
    assert merged[i].name == update.name;
    assert SingleNamed(merged, update.name) == Single(i);
    MergeTraitsIdempotent(devices[i].traits, update.traits);
    assert merged[i := MergeDevice(merged[i], update)] == merged;
  }

  /** `OnDeviceUpdated`. */
  function DeviceUpdatedStep(s: Session, update: Device): Step<()>
  {
    if s.store.None? then Step(Threw(NullReference), s, [])
    else match MergeUpdate(s.store.value, update)
      case UnknownDevice => Step(Returned(()), s, [])
      case Ambiguous => Step(Threw(AmbiguousDevice), s, [])
      case Merged(devices) => Step(Returned(()), s.(store := Some(devices)), [DevicesUpdated(update.name)])
  }

  /** An update for a name the listing lacks changes nothing and raises nothing. */
  lemma UnknownDeviceUpdateIsIgnored(s: Session, update: Device)
    requires s.store.Some?
    requires forall d :: d in s.store.value ==> d.name != update.name
    ensures DeviceUpdatedStep(s, update) == Step(Returned(()), s, [])
  {
  }

  /** An update for the one device of that name merges into it alone and raises
      `OnDevicesUpdated` once, with that name, after the merge. */
  lemma KnownDeviceUpdateMerges(s: Session, update: Device, i: nat)
    requires s.store.Some? && i < |s.store.value| && s.store.value[i].name == update.name
    requires forall j :: 0 <= j < |s.store.value| && j != i ==> s.store.value[j].name != update.name
    ensures var r := DeviceUpdatedStep(s, update);
      && r.outcome == Returned(())
      && r.effects == [DevicesUpdated(update.name)]
      && r.after == s.(store := Some(s.store.value[i := MergeDevice(s.store.value[i], update)]))
  {
    assert SingleNamed(s.store.value, update.name) == Single(i);
  }

  /** Receiving the same update twice leaves the session as receiving it once;
      only the event is raised again. */
  lemma DeviceUpdateIdempotent(s: Session, update: Device)
    ensures var once := DeviceUpdatedStep(s, update);
      DeviceUpdatedStep(once.after, update).after == once.after
  {
    if s.store.Some? && MergeUpdate(s.store.value, update).Merged? {
      MergeUpdateIdempotent(s.store.value, update);
    }
  }

  // ---------------------------------------------------------------- listing fetch

  /** `UpdateDevices`: the fetch result is stored before it is tested. */
  function UpdateDevicesStep(s: Session, remote: Remote): Step<bool>
  {
    var checked := TokenCheckStep(s, remote.now, remote.refreshed);
    if checked.outcome.Threw? then Step(Threw(checked.outcome.fault), checked.after, checked.effects)
    else Step(Returned(remote.listing.Some?), checked.after.(store := remote.listing),
              checked.effects + [GetDevicesCall(checked.after.accessToken)])
  }

  /** The fetch reports false exactly when it returned null, and then the client is
      left without a listing, so the next push update throws. */
  lemma FailedFetchDropsListing(s: Session, remote: Remote, update: Device)
    ensures var r := UpdateDevicesStep(s, remote);
      && (r.outcome == Returned(false) <==> TokenCheckStep(s, remote.now, remote.refreshed).outcome.Returned? && remote.listing.None?)
      && (r.outcome.Returned? ==> r.after.store == remote.listing)
      && (r.outcome == Returned(false) ==> DeviceUpdatedStep(r.after, update).outcome == Threw(NullReference))
  {
  }

  /** `GetAccountLinkUrl` only remembers the redirect address; `FinishSetup`. */
  function FinishSetupStep(s: Session, redirectUrl: string, code: string, scope: string,
                           first: Option<FirstTokenResponse>, remote: Remote): Step<Option<string>>
  {
    var scoped := s.(scopes := Split(scope, ' '));
    var asked := [FirstTokenCall(redirectUrl, code)];
    match first
    case None => Step(Returned(None), scoped, asked)
    case Some(f) =>
      var linked := scoped.(refreshToken := f.refreshToken, accessToken := f.accessToken,
                            expireTime := ExpiryAfter(remote.now, f.expiresIn));
      var fetched := UpdateDevicesStep(linked, remote);
      if fetched.outcome.Threw? then Step(Threw(fetched.outcome.fault), fetched.after, asked + fetched.effects)
      else if !fetched.outcome.value then Step(Returned(None), fetched.after, asked + fetched.effects)
      else Step(Returned(Some(fetched.after.refreshToken)), fetched.after,
                asked + fetched.effects + [PubSubStart(fetched.after.scopes)])
  }

  /** With a first token that outlives the margin, setup fetches the listing with
      that token and no refresh, stores the expiry with the same margin as a
      refresh, and hands back the refresh token exactly when the fetch worked. */
  lemma FinishSetupUsesFirstToken(s: Session, redirectUrl: string, code: string, scope: string,
                                  f: FirstTokenResponse, remote: Remote)
    requires f.expiresIn > MarginSeconds
    ensures var r := FinishSetupStep(s, redirectUrl, code, scope, Some(f), remote);
      && r.effects[..2] == [FirstTokenCall(redirectUrl, code), GetDevicesCall(f.accessToken)]
      && (forall e :: e in r.effects ==> !e.RefreshCall?)
      && r.after.expireTime == remote.now + f.expiresIn - MarginSeconds
      && r.after.scopes == Split(scope, ' ')
      && r.after.store == remote.listing
      && (r.outcome == Returned(Some(f.refreshToken)) <==> remote.listing.Some?)
      && (remote.listing.None? ==> r.outcome == Returned(None))
  {
    var linked := s.(scopes := Split(scope, ' '), refreshToken := f.refreshToken,
                     accessToken := f.accessToken, expireTime := ExpiryAfter(remote.now, f.expiresIn));
    assert TokenCheckStep(linked, remote.now, remote.refreshed).effects == [];
  }

  /** A refused authorisation code leaves everything but the scopes as it was. */
  lemma FinishSetupRefused(s: Session, redirectUrl: string, code: string, scope: string, remote: Remote)
    ensures FinishSetupStep(s, redirectUrl, code, scope, None, remote)
         == Step(Returned(None), s.(scopes := Split(scope, ' ')), [FirstTokenCall(redirectUrl, code)])
  {
  }

  /** The rest of the restoring constructor: fetch the listing, then start the
      push subscription whatever the fetch returned. */
  function ResumeStep(s: Session, remote: Remote): Step<()>
  {
    var fetched := UpdateDevicesStep(s, remote);
    if fetched.outcome.Threw? then Step(Threw(fetched.outcome.fault), fetched.after, fetched.effects)
    else Step(Returned(()), fetched.after, fetched.effects + [PubSubStart(fetched.after.scopes)])
  }

  /** A restored client refreshes its token before anything else and throws when
      the refresh fails. */
  lemma ResumeRefreshesFirst(refreshToken: string, scopes: string, remote: Remote)
    ensures var r := ResumeStep(RestoredSession(refreshToken, scopes), remote);
      && r.effects[0] == RefreshCall(refreshToken)
      && (r.outcome.Threw? <==> remote.refreshed.None?)
  {
  }

  // ---------------------------------------------------------------- commands

  /** `DevicesResponse.Devices.FirstOrDefault(x => x.Name == name)` followed by a
      call on the device found, which throws when there is none. */
  function LocalUpdateStep(s: Session, name: string, change: LocalChange, effects: seq<Effect>): Step<bool>
  {
    if s.store.None? then Step(Threw(NullReference), s, effects)
    else match FirstMatch(s.store.value, (d: Device) => d.name == name)
      case None => Step(Threw(NullReference), s, effects)
      case Some(i) =>
        Step(Returned(true), s.(store := Some(s.store.value[i := ApplyChange(s.store.value[i], change)])), effects)
  }

  /** `SetMode`. */
  function SetModeStep(s: Session, t: ThermostatReading, mode: ThermostatMode, remote: Remote): Step<bool>
  {
    var checked := TokenCheckStep(s, remote.now, remote.refreshed);
    if checked.outcome.Threw? then Step(Threw(checked.outcome.fault), checked.after, checked.effects)
    else
      var sent := checked.effects + [ExecuteCall(t.name, checked.after.accessToken, SetModeCommand(mode))];
      if remote.accepted then LocalUpdateStep(checked.after, t.name, ModeChange(mode), sent)
      else Step(Returned(false), checked.after, sent)
  }

  /** The value sent on the wire: the API takes Celsius whatever the display scale. */
  function CelsiusFor(t: ThermostatReading, value: real, toCelsius: real -> real): real
  {
    if t.scale == FAHRENHEIT then toCelsius(value) else value
  }

  /** `SetTemp`. */
  function SetTempStep(s: Session, t: ThermostatReading, value: real, remote: Remote,
                       toCelsius: real -> real): Step<bool>
  {
    var checked := TokenCheckStep(s, remote.now, remote.refreshed);
    if checked.outcome.Threw? then Step(Threw(checked.outcome.fault), checked.after, checked.effects)
    else if t.mode != HEAT && t.mode != COOL then Step(Returned(false), checked.after, checked.effects)
    else
      var celsius := CelsiusFor(t, value, toCelsius);
      var command := if t.mode == COOL then SetCoolCommand(celsius) else SetHeatCommand(celsius);
      var sent := checked.effects + [ExecuteCall(t.name, checked.after.accessToken, command)];
      if remote.accepted then LocalUpdateStep(checked.after, t.name, SetPointChange(t.mode, celsius), sent)
      else Step(Returned(false), checked.after, sent)
  }

  /** `SetTempUp`: one step above the exact (unrounded) set point. */
  function SetTempUpStep(s: Session, t: ThermostatReading, step: int, remote: Remote,
                         toCelsius: real -> real): Step<bool>
  {
    SetTempStep(s, t, t.setPointExact + step as real, remote, toCelsius)
  }

  /** `SetTempDown`: one step below the exact (unrounded) set point. */
  function SetTempDownStep(s: Session, t: ThermostatReading, step: int, remote: Remote,
                           toCelsius: real -> real): Step<bool>
  {
    SetTempStep(s, t, t.setPointExact - step as real, remote, toCelsius)
  }

  /** Outside HEAT and COOL, `SetTemp` sends no command, changes no device and
      reports false; the token check still runs first and may still throw. */
  lemma SetTempRejectsOtherModes(s: Session, t: ThermostatReading, value: real, remote: Remote,
                                 toCelsius: real -> real)
    requires t.mode != HEAT && t.mode != COOL
    ensures var r := SetTempStep(s, t, value, remote, toCelsius);
      var checked := TokenCheckStep(s, remote.now, remote.refreshed);
      && r.after == checked.after && r.effects == checked.effects
      && r.after.store == s.store
      && (forall e :: e in r.effects ==> !e.ExecuteCall?)
      && (r.outcome == Returned(false) || r.outcome == Threw(RefreshFailed))
  {
    TokenCheckContract(s, remote.now, remote.refreshed);
  }

  /** In HEAT or COOL, once the token is good, `SetTemp` sends exactly one command:
      SetCool with the Celsius value in COOL, SetHeat in HEAT, with the current token. */
  lemma SetTempSendsCelsius(s: Session, t: ThermostatReading, value: real, remote: Remote,
                            toCelsius: real -> real)
    requires t.mode == HEAT || t.mode == COOL
    requires TokenCheckStep(s, remote.now, remote.refreshed).outcome.Returned?
    ensures var r := SetTempStep(s, t, value, remote, toCelsius);
      var checked := TokenCheckStep(s, remote.now, remote.refreshed);
      var celsius := if t.scale == FAHRENHEIT then toCelsius(value) else value;
      && r.effects == checked.effects + [ExecuteCall(t.name, checked.after.accessToken,
           if t.mode == COOL then SetCoolCommand(celsius) else SetHeatCommand(celsius))]
      && CommandName(r.effects[|r.effects| - 1].command)
         == if t.mode == COOL then "sdm.devices.commands.ThermostatTemperatureSetpoint.SetCool"
            else "sdm.devices.commands.ThermostatTemperatureSetpoint.SetHeat"
  {
  }

  /** A refused command leaves the listing exactly as it was and reports false or
      the refresh failure. */
  lemma RefusedCommandChangesNoDevice(s: Session, t: ThermostatReading, value: real, mode: ThermostatMode,
                                      remote: Remote, toCelsius: real -> real)
    requires !remote.accepted
    ensures var r := SetTempStep(s, t, value, remote, toCelsius);
      r.after.store == s.store && r.outcome != Returned(true)
    ensures var r := SetModeStep(s, t, mode, remote);
      r.after.store == s.store && r.outcome != Returned(true)
  {
    TokenCheckContract(s, remote.now, remote.refreshed);
  }

  /** An accepted set-point command writes the Celsius value it sent into the
      first device of that name, under the mode's heat or cool field, and into no
      other device. */
  lemma AcceptedSetTempUpdatesDevice(s: Session, t: ThermostatReading, value: real, remote: Remote,
                                     toCelsius: real -> real)
    requires SetTempStep(s, t, value, remote, toCelsius).outcome == Returned(true)
    ensures var r := SetTempStep(s, t, value, remote, toCelsius);
      var celsius := CelsiusFor(t, value, toCelsius);
      && remote.accepted && (t.mode == HEAT || t.mode == COOL)
      && s.store.Some? && r.after.store.Some? && |r.after.store.value| == |s.store.value|
      && exists i :: 0 <= i < |s.store.value| && s.store.value[i].name == t.name
           && (forall j :: 0 <= j < i ==> s.store.value[j].name != t.name)
           && r.after.store.value == s.store.value[i := ApplyChange(s.store.value[i], SetPointChange(t.mode, celsius))]
           && CarriesSetPoint(r.after.store.value[i], t.mode, celsius)
  {
    TokenCheckContract(s, remote.now, remote.refreshed);
    var checked := TokenCheckStep(s, remote.now, remote.refreshed);
    var i := FirstMatch(checked.after.store.value, (d: Device) => d.name == t.name).value;
    assert s.store.value[i].name == t.name;
  }

  /** An accepted mode command writes the mode into the first device of that name. */
  lemma AcceptedSetModeUpdatesDevice(s: Session, t: ThermostatReading, mode: ThermostatMode, remote: Remote)
    requires SetModeStep(s, t, mode, remote).outcome == Returned(true)
    ensures var r := SetModeStep(s, t, mode, remote);
      && remote.accepted && s.store.Some? && r.after.store.Some? && |r.after.store.value| == |s.store.value|
      && exists i :: 0 <= i < |s.store.value| && s.store.value[i].name == t.name
           && (forall j :: 0 <= j < i ==> s.store.value[j].name != t.name)
           && r.after.store.value == s.store.value[i := ApplyChange(s.store.value[i], ModeChange(mode))]
           && r.after.store.value[i].traits.thermostatMode.value.mode == mode
  {
    TokenCheckContract(s, remote.now, remote.refreshed);
    var checked := TokenCheckStep(s, remote.now, remote.refreshed);
    var i := FirstMatch(checked.after.store.value, (d: Device) => d.name == t.name).value;
    assert s.store.value[i].name == t.name;
  }

  /** Up and down start from the same exact set point, so their requests lie
      symmetrically about it; stepping up by n is stepping down by -n, and a
      step down from where a step up landed asks for the starting value again. */
  lemma StepsAreSymmetric(s: Session, t: ThermostatReading, n: int, remote: Remote, toCelsius: real -> real)
    ensures SetTempUpStep(s, t, n, remote, toCelsius) == SetTempDownStep(s, t, -n, remote, toCelsius)
    ensures SetTempDownStep(s, t.(setPointExact := t.setPointExact + n as real), n, remote, toCelsius)
         == SetTempStep(s, t, t.setPointExact, remote, toCelsius)
  {
  }

  // ---------------------------------------------------------------- the client object

  class NestClient {
    const clientId: string
    const clientSecret: string
    const projectId: string
    /** The `ToCelsius` extension on `decimal`, which is not part of this model. */
    const toCelsius: real -> real

    var accessToken: string
    var refreshToken: string
    var scopes: seq<string>
    var accessTokenExpireTime: int
    var devicesResponse: Option<seq<Device>>
    var redirectUrl: string

    /** Remote calls made and events raised so far. */
    ghost var trace: seq<Effect>

    function State(): Session
      reads this
    {
      Session(accessToken, refreshToken, accessTokenExpireTime, scopes, devicesResponse)
    }

    /** The method call did what `step` describes, `before` being the trace it started from. */
    ghost predicate Performed<T>(step: Step<T>, outcome: Outcome<T>, before: seq<Effect>)
      reads this
    {
      outcome == step.outcome && State() == step.after && trace == before + step.effects
    }

    /** The client that still has to be linked to an account. */
    constructor (clientId: string, clientSecret: string, projectId: string, toCelsius: real -> real)
      ensures this.clientId == clientId && this.clientSecret == clientSecret
      ensures this.projectId == projectId && this.toCelsius == toCelsius
      ensures State() == FreshSession() && redirectUrl == "" && trace == []
    {
      this.clientId := clientId;
      this.clientSecret := clientSecret;
      this.projectId := projectId;
      this.toCelsius := toCelsius;
      accessToken := "";
      refreshToken := "";
      scopes := [];
      accessTokenExpireTime := MinTime;
      devicesResponse := Some([]);
      redirectUrl := "";
      trace := [];
    }

    /** The client restored from a saved refresh token, up to the fetch that
        `Resume` performs. */
    constructor Restored(clientId: string, clientSecret: string, projectId: string,
                         refreshToken: string, scopes: string, toCelsius: real -> real)
      ensures this.clientId == clientId && this.clientSecret == clientSecret
      ensures this.projectId == projectId && this.toCelsius == toCelsius
      ensures State() == RestoredSession(refreshToken, scopes) && redirectUrl == "" && trace == []
    {
      this.clientId := clientId;
      this.clientSecret := clientSecret;
      this.projectId := projectId;
      this.toCelsius := toCelsius;
      accessToken := "";
      this.refreshToken := refreshToken;
      this.scopes := Split(scopes, ' ');
      accessTokenExpireTime := MinTime;
      devicesResponse := Some([]);
      redirectUrl := "";
      trace := [];
    }

    method Resume(remote: Remote) returns (outcome: Outcome<()>)
      modifies this
      ensures Performed(ResumeStep(old(State()), remote), outcome, old(trace))
      ensures redirectUrl == old(redirectUrl)
    {
      var fetched := UpdateDevices(remote);
      if fetched.Threw? {
        return Threw(fetched.fault);
      }
      trace := trace + [PubSubStart(scopes)];
      return Returned(());
    }

    method CheckUpdateToken(now: nat, refreshed: Option<TokenResponse>) returns (outcome: Outcome<()>)
      modifies this
      ensures Performed(TokenCheckStep(old(State()), now, refreshed), outcome, old(trace))
      ensures redirectUrl == old(redirectUrl)
    {
      if accessTokenExpireTime > now {
        return Returned(());
      }
      trace := trace + [RefreshCall(refreshToken)];
      if refreshed.None? {
        return Threw(RefreshFailed);
      }
      accessTokenExpireTime := now + refreshed.value.expiresIn - MarginSeconds;
      accessToken := refreshed.value.accessToken;
      trace := trace + [PubSubStart(scopes)];
      return Returned(());
    }

    method GetAccessToken(now: nat, refreshed: Option<TokenResponse>) returns (outcome: Outcome<string>)
      modifies this
      ensures Performed(GetAccessTokenStep(old(State()), now, refreshed), outcome, old(trace))
      ensures redirectUrl == old(redirectUrl)
    {
      var checked := CheckUpdateToken(now, refreshed);
      if checked.Threw? {
        return Threw(checked.fault);
      }
      return Returned(accessToken);
    }

    /** The category-by-category copy: each category the update carries
        replaces the existing one. */
    static method CopyCategories(existing: Traits, incoming: Traits) returns (traits: Traits)
      ensures traits == MergeTraits(existing, incoming)
    {
      traits := existing;
      if incoming.info.Some? { traits := traits.(info := incoming.info); }
      if incoming.humidity.Some? { traits := traits.(humidity := incoming.humidity); }
      if incoming.connectivity.Some? { traits := traits.(connectivity := incoming.connectivity); }
      if incoming.fan.Some? { traits := traits.(fan := incoming.fan); }
      if incoming.thermostatMode.Some? { traits := traits.(thermostatMode := incoming.thermostatMode); }
      if incoming.thermostatEco.Some? { traits := traits.(thermostatEco := incoming.thermostatEco); }
      if incoming.thermostatHvac.Some? { traits := traits.(thermostatHvac := incoming.thermostatHvac); }
      if incoming.settings.Some? { traits := traits.(settings := incoming.settings); }
      if incoming.thermostatTemperatureSetpoint.Some? {
        traits := traits.(thermostatTemperatureSetpoint := incoming.thermostatTemperatureSetpoint);
      }
      if incoming.temperature.Some? { traits := traits.(temperature := incoming.temperature); }
    }

    /** Copies each category the update carries onto the device of that name. */
    method OnDeviceUpdated(update: Device) returns (outcome: Outcome<()>)
      modifies this
      ensures Performed(DeviceUpdatedStep(old(State()), update), outcome, old(trace))
      ensures redirectUrl == old(redirectUrl)
    {
      if devicesResponse.None? {
        return Threw(NullReference);
      }
      var devices := devicesResponse.value;
      match SingleNamed(devices, update.name)
      case NoMatch =>
        return Returned(());
      case Several =>
        return Threw(AmbiguousDevice);
      case Single(i) =>
        var traits := CopyCategories(devices[i].traits, update.traits);
        assert MergeUpdate(devices, update) == Merged(devices[i := MergeDevice(devices[i], update)]);
        devicesResponse := Some(devices[i := devices[i].(traits := traits)]);
        trace := trace + [DevicesUpdated(update.name)];
        return Returned(());
    }

    method GetAccountLinkUrl(redirect: string, linkUrl: string) returns (url: string)
      modifies this
      ensures url == linkUrl && redirectUrl == redirect
      ensures State() == old(State()) && trace == old(trace)
    {
      redirectUrl := redirect;
      return linkUrl;
    }

    method FinishSetup(code: string, scope: string, first: Option<FirstTokenResponse>, remote: Remote)
      returns (outcome: Outcome<Option<string>>)
      modifies this
      ensures Performed(FinishSetupStep(old(State()), old(redirectUrl), code, scope, first, remote), outcome, old(trace))
      ensures redirectUrl == old(redirectUrl)
    {
      scopes := Split(scope, ' ');
      trace := trace + [FirstTokenCall(redirectUrl, code)];
      if first.None? {
        return Returned(None);
      }
      refreshToken := first.value.refreshToken;
      accessToken := first.value.accessToken;
      accessTokenExpireTime := remote.now + first.value.expiresIn - MarginSeconds;
      var fetched := UpdateDevices(remote);
      if fetched.Threw? {
        return Threw(fetched.fault);
      }
      if !fetched.value {
        return Returned(None);
      }
      trace := trace + [PubSubStart(scopes)];
      return Returned(Some(refreshToken));
    }

    /** The name of the first device whose name matches `name` ignoring case. */
    method GetThermostat(name: string) returns (r: Outcome<string>)
      ensures devicesResponse.None? ==> r == Threw(NullReference)
      ensures devicesResponse.Some? ==>
        (r.Threw? <==> forall j :: 0 <= j < |devicesResponse.value| ==>
                         !EqualsIgnoreCase(devicesResponse.value[j].name, name))
      ensures r.Threw? ==> r.fault == NullReference
      ensures r.Returned? ==> devicesResponse.Some?
      ensures r.Returned? && devicesResponse.Some? ==>
        exists i :: 0 <= i < |devicesResponse.value| && devicesResponse.value[i].name == r.value
          && EqualsIgnoreCase(r.value, name)
          && forall j :: 0 <= j < i ==> !EqualsIgnoreCase(devicesResponse.value[j].name, name)
    {
      if devicesResponse.None? {
        return Threw(NullReference);
      }
      var devices := devicesResponse.value;
      var found := FirstMatch(devices, (d: Device) => ToLower(d.name) == ToLower(name));
      if found.None? {
        return Threw(NullReference);
      }
      return Returned(devices[found.value].name);
    }

    method GetThermostats() returns (r: Outcome<seq<string>>)
      ensures devicesResponse.None? ==> r == Threw(NullReference)
      ensures devicesResponse.Some? ==> r == Returned(ThermostatNames(devicesResponse.value))
      ensures r.Returned? ==> devicesResponse.Some? && |r.value| <= |devicesResponse.value|
    {
      if devicesResponse.None? {
        return Threw(NullReference);
      }
      var devices := devicesResponse.value;
      var thermostats: seq<string> := [];
      for i := 0 to |devices|
        invariant thermostats == ThermostatNames(devices[..i])
      {
        assert devices[..i + 1][..i] == devices[..i];
        if devices[i].deviceType == ThermostatType {
          thermostats := thermostats + [devices[i].name];
        }
      }
      assert devices[..|devices|] == devices;
      ThermostatNamesBound(devices);
      return Returned(thermostats);
    }

    method UpdateDevices(remote: Remote) returns (outcome: Outcome<bool>)
      modifies this
      ensures Performed(UpdateDevicesStep(old(State()), remote), outcome, old(trace))
      ensures redirectUrl == old(redirectUrl)
    {
      var checked := CheckUpdateToken(remote.now, remote.refreshed);
      if checked.Threw? {
        return Threw(checked.fault);
      }
      trace := trace + [GetDevicesCall(accessToken)];
      devicesResponse := remote.listing;
      if devicesResponse.None? {
        return Returned(false);
      }
      return Returned(true);
    }

    /** The optimistic local update after an accepted command. */
    method ApplyLocally(name: string, change: LocalChange) returns (outcome: Outcome<bool>)
      modifies this
      ensures Performed(LocalUpdateStep(old(State()), name, change, []), outcome, old(trace))
      ensures redirectUrl == old(redirectUrl)
    {
      if devicesResponse.None? {
        return Threw(NullReference);
      }
      var devices := devicesResponse.value;
      var found := FirstMatch(devices, (d: Device) => d.name == name);
      if found.None? {
        return Threw(NullReference);
      }
      var i := found.value;
      devicesResponse := Some(devices[i := ApplyChange(devices[i], change)]);
      return Returned(true);
    }

    method SetMode(thermostat: ThermostatDevice, mode: ThermostatMode, remote: Remote)
      returns (outcome: Outcome<bool>)
      modifies this
      ensures Performed(SetModeStep(old(State()), thermostat.Reading(), mode, remote), outcome, old(trace))
      ensures redirectUrl == old(redirectUrl)
    {
      var checked := CheckUpdateToken(remote.now, remote.refreshed);
      if checked.Threw? {
        return Threw(checked.fault);
      }
      trace := trace + [ExecuteCall(thermostat.name, accessToken, SetModeCommand(mode))];
      var success := remote.accepted;
      if success {
        var applied := ApplyLocally(thermostat.name, ModeChange(mode));
        if applied.Threw? {
          return Threw(applied.fault);
        }
      }
      return Returned(success);
    }

    method SetTemp(thermostat: ThermostatDevice, value: real, remote: Remote)
      returns (outcome: Outcome<bool>)
      modifies this
      ensures Performed(SetTempStep(old(State()), thermostat.Reading(), value, remote, toCelsius), outcome, old(trace))
      ensures redirectUrl == old(redirectUrl)
    {
      var checked := CheckUpdateToken(remote.now, remote.refreshed);
      if checked.Threw? {
        return Threw(checked.fault);
      }
      var celsius := value;
      if thermostat.scale == FAHRENHEIT {
        celsius := toCelsius(value);
      }
      if thermostat.mode != HEAT && thermostat.mode != COOL {
        return Returned(false);
      }
      var command;
      if thermostat.mode == COOL {
        command := SetCoolCommand(celsius);
      } else {
        command := SetHeatCommand(celsius);
      }
      trace := trace + [ExecuteCall(thermostat.name, accessToken, command)];
      var success := remote.accepted;
      if success {
        var applied := ApplyLocally(thermostat.name, SetPointChange(thermostat.mode, celsius));
        if applied.Threw? {
          return Threw(applied.fault);
        }
      }
      return Returned(success);
    }

    method SetTempUp(thermostat: ThermostatDevice, step: int, remote: Remote) returns (outcome: Outcome<bool>)
      modifies this
      ensures Performed(SetTempUpStep(old(State()), thermostat.Reading(), step, remote, toCelsius), outcome, old(trace))
      ensures redirectUrl == old(redirectUrl)
    {
      var currentValue := thermostat.setPointExact;
      currentValue := currentValue + step as real;
      outcome := SetTemp(thermostat, currentValue, remote);
    }

    method SetTempDown(thermostat: ThermostatDevice, step: int, remote: Remote) returns (outcome: Outcome<bool>)
      modifies this
      ensures Performed(SetTempDownStep(old(State()), thermostat.Reading(), step, remote, toCelsius), outcome, old(trace))
      ensures redirectUrl == old(redirectUrl)
    {
      var currentValue := thermostat.setPointExact;
      currentValue := currentValue - step as real;
      outcome := SetTemp(thermostat, currentValue, remote);
    }
  }
}
