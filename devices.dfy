/**
 * The device listing of the Smart Device Management API as the client keeps
 * it: each device carries ten trait categories, any of which may be absent.
 * The payload classes themselves are not part of this model; each payload is
 * a record with the fields the thermostat logic reads or writes and one
 * representative field for the others.
 */
module Devices {
  import opened Wrappers

  datatype ThermostatMode = OFF | HEAT | COOL | HEATCOOL

  datatype TemperatureScale = CELSIUS | FAHRENHEIT

  datatype InfoTrait = InfoTrait(customName: string)
  datatype HumidityTrait = HumidityTrait(ambientHumidityPercent: real)
  datatype ConnectivityTrait = ConnectivityTrait(status: string)
  datatype FanTrait = FanTrait(timerMode: string)
  datatype ThermostatModeTrait = ThermostatModeTrait(mode: ThermostatMode, availableModes: seq<ThermostatMode>)
  datatype ThermostatEcoTrait = ThermostatEcoTrait(mode: string, heatCelsius: real, coolCelsius: real)
  datatype ThermostatHvacTrait = ThermostatHvacTrait(status: string)
  datatype SettingsTrait = SettingsTrait(temperatureScale: TemperatureScale)
  datatype SetpointTrait = SetpointTrait(heatCelsius: Option<real>, coolCelsius: Option<real>)
  datatype TemperatureTrait = TemperatureTrait(ambientTemperatureCelsius: real)

  /** The ten trait categories of a device; `None` is a category never observed. */
  datatype Traits = Traits(
    info: Option<InfoTrait>,
    humidity: Option<HumidityTrait>,
    connectivity: Option<ConnectivityTrait>,
    fan: Option<FanTrait>,
    thermostatMode: Option<ThermostatModeTrait>,
    thermostatEco: Option<ThermostatEcoTrait>,
    thermostatHvac: Option<ThermostatHvacTrait>,
    settings: Option<SettingsTrait>,
    thermostatTemperatureSetpoint: Option<SetpointTrait>,
    temperature: Option<TemperatureTrait>)

  /** A device of the listing, or the partial device a push update carries. */
  datatype Device = Device(name: string, deviceType: string, traits: Traits)

  const ThermostatType: string := "sdm.devices.types.THERMOSTAT"

  const NoTraits: Traits := Traits(None, None, None, None, None, None, None, None, None, None)

  /** `merged` is what one category becomes: the incoming payload when there is
      one, replacing the category whole, and the current one otherwise. */
  ghost predicate Replaced<T>(current: Option<T>, incoming: Option<T>, merged: Option<T>)
  {
    (incoming.Some? ==> merged == incoming) && (incoming.None? ==> merged == current)
  }

  function Overlay<T>(current: Option<T>, incoming: Option<T>): Option<T>
  {
    if incoming.Some? then incoming else current
  }

  /** The category-by-category copy of a push update onto an existing device. */
  function MergeTraits(current: Traits, incoming: Traits): (r: Traits)
    ensures Replaced(current.info, incoming.info, r.info)
    ensures Replaced(current.humidity, incoming.humidity, r.humidity)
    ensures Replaced(current.connectivity, incoming.connectivity, r.connectivity)
    ensures Replaced(current.fan, incoming.fan, r.fan)
    ensures Replaced(current.thermostatMode, incoming.thermostatMode, r.thermostatMode)
    ensures Replaced(current.thermostatEco, incoming.thermostatEco, r.thermostatEco)
    ensures Replaced(current.thermostatHvac, incoming.thermostatHvac, r.thermostatHvac)
    ensures Replaced(current.settings, incoming.settings, r.settings)
    ensures Replaced(current.thermostatTemperatureSetpoint, incoming.thermostatTemperatureSetpoint,
                     r.thermostatTemperatureSetpoint)
    ensures Replaced(current.temperature, incoming.temperature, r.temperature)
  {
    Traits(
      Overlay(current.info, incoming.info),
      Overlay(current.humidity, incoming.humidity),
      Overlay(current.connectivity, incoming.connectivity),
      Overlay(current.fan, incoming.fan),
      Overlay(current.thermostatMode, incoming.thermostatMode),
      Overlay(current.thermostatEco, incoming.thermostatEco),
      Overlay(current.thermostatHvac, incoming.thermostatHvac),
      Overlay(current.settings, incoming.settings),
      Overlay(current.thermostatTemperatureSetpoint, incoming.thermostatTemperatureSetpoint),
      Overlay(current.temperature, incoming.temperature))
  }

  /** Merging the same update again changes nothing more. */
  lemma MergeTraitsIdempotent(current: Traits, incoming: Traits)
    ensures MergeTraits(MergeTraits(current, incoming), incoming) == MergeTraits(current, incoming)
  {
  }

  /** Two updates merged one after the other act as one update made of the
      second laid over the first. */
  lemma MergeTraitsCompose(current: Traits, first: Traits, second: Traits)
    ensures MergeTraits(MergeTraits(current, first), second)
         == MergeTraits(current, MergeTraits(first, second))
  {
  }

  /** An update without any category leaves the device as it was; one with all
      ten categories replaces the device's traits entirely. */
  lemma MergeTraitsExtremes(current: Traits, incoming: Traits)
    ensures MergeTraits(current, NoTraits) == current
    ensures incoming.info.Some? && incoming.humidity.Some? && incoming.connectivity.Some?
         && incoming.fan.Some? && incoming.thermostatMode.Some? && incoming.thermostatEco.Some?
         && incoming.thermostatHvac.Some? && incoming.settings.Some?
         && incoming.thermostatTemperatureSetpoint.Some? && incoming.temperature.Some?
         ==> MergeTraits(current, incoming) == incoming
  {
  }

  /** The existing device with the update's categories merged in; its name and
      type are its own. */
  function MergeDevice(existing: Device, update: Device): (r: Device)
    ensures r.name == existing.name && r.deviceType == existing.deviceType
    ensures r.traits == MergeTraits(existing.traits, update.traits)
  {
    existing.(traits := MergeTraits(existing.traits, update.traits))
  }

  /** A change the client applies to its own copy of a device after the remote
      side accepted the matching command. */
  datatype LocalChange =
    | ModeChange(mode: ThermostatMode)
    | SetPointChange(mode: ThermostatMode, celsius: real)

  /** `Device.SetMode` and `Device.SetTemperatureSetPoint`. Their bodies are not
      part of this model; they are taken to replace the mode, or the heat or
      cool set point chosen by the mode, creating the trait when it is absent. */
  function ApplyChange(d: Device, change: LocalChange): (r: Device)
    ensures r.name == d.name && r.deviceType == d.deviceType
    ensures change.ModeChange? ==>
      r.traits.thermostatMode.Some? && r.traits.thermostatMode.value.mode == change.mode
      && r.traits == d.traits.(thermostatMode := r.traits.thermostatMode)
    ensures change.SetPointChange? && change.mode == HEAT ==>
      r.traits.thermostatTemperatureSetpoint.Some?
      && r.traits.thermostatTemperatureSetpoint.value.heatCelsius == Some(change.celsius)
    ensures change.SetPointChange? && change.mode == COOL ==>
      r.traits.thermostatTemperatureSetpoint.Some?
      && r.traits.thermostatTemperatureSetpoint.value.coolCelsius == Some(change.celsius)
    ensures change.SetPointChange? ==>
      r.traits == d.traits.(thermostatTemperatureSetpoint := r.traits.thermostatTemperatureSetpoint)
    ensures change.ModeChange? && d.traits.thermostatMode.Some? ==>
      r.traits.thermostatMode.value.availableModes == d.traits.thermostatMode.value.availableModes
    ensures change.SetPointChange? ==>
      var before := if d.traits.thermostatTemperatureSetpoint.Some?
                    then d.traits.thermostatTemperatureSetpoint.value else SetpointTrait(None, None);
      && r.traits.thermostatTemperatureSetpoint.Some?
      && (change.mode != HEAT ==> r.traits.thermostatTemperatureSetpoint.value.heatCelsius == before.heatCelsius)
      && (change.mode != COOL ==> r.traits.thermostatTemperatureSetpoint.value.coolCelsius == before.coolCelsius)
  {
    match change
    case ModeChange(mode) =>
      var available := if d.traits.thermostatMode.Some? then d.traits.thermostatMode.value.availableModes else [];
      d.(traits := d.traits.(thermostatMode := Some(ThermostatModeTrait(mode, available))))
    case SetPointChange(mode, celsius) =>
      var sp := if d.traits.thermostatTemperatureSetpoint.Some?
                then d.traits.thermostatTemperatureSetpoint.value
                else SetpointTrait(None, None);
      var sp' := if mode == HEAT then sp.(heatCelsius := Some(celsius))
                 else if mode == COOL then sp.(coolCelsius := Some(celsius))
                 else sp;
      d.(traits := d.traits.(thermostatTemperatureSetpoint := Some(sp')))
  }

  /** `d` holds `celsius` in the set-point field `mode` selects: heat for HEAT,
      cool for COOL. */
  predicate CarriesSetPoint(d: Device, mode: ThermostatMode, celsius: real)
  {
    && d.traits.thermostatTemperatureSetpoint.Some?
    && (mode == HEAT ==> d.traits.thermostatTemperatureSetpoint.value.heatCelsius == Some(celsius))
    && (mode == COOL ==> d.traits.thermostatTemperatureSetpoint.value.coolCelsius == Some(celsius))
  }

  /** What a `ThermostatDevice` reports at one moment. */
  datatype ThermostatReading = ThermostatReading(
    name: string, mode: ThermostatMode, scale: TemperatureScale, setPointExact: real)

  /**
   * `ThermostatDevice`: the view the client hands out for one device name. Its
   * getters are not part of this model, so what they report is held in fields.
   * `onUpdate` holds the handlers attached to its `OnUpdate` event.
   */
  class ThermostatDevice {
    const name: string
    var mode: ThermostatMode
    var scale: TemperatureScale
    var setPointExact: real
    var setPoint: real
    var currentTemperature: real
    var onUpdate: multiset<object>

    constructor (name: string, mode: ThermostatMode, scale: TemperatureScale,
                 setPointExact: real, setPoint: real, currentTemperature: real)
      ensures this.name == name && this.mode == mode && this.scale == scale
      ensures this.setPointExact == setPointExact && this.setPoint == setPoint
      ensures this.currentTemperature == currentTemperature
      ensures onUpdate == multiset{}
    {
      this.name := name;
      this.mode := mode;
      this.scale := scale;
      this.setPointExact := setPointExact;
      this.setPoint := setPoint;
      this.currentTemperature := currentTemperature;
      onUpdate := multiset{};
    }

    function Reading(): ThermostatReading
      reads this
    {
      ThermostatReading(name, mode, scale, setPointExact)
    }
  }
}
