/**
 * The "thermostat info" key: it keeps one bound thermostat view, listens to
 * that view's `OnUpdate` event, and shows mode, set point and temperature.
 */
module ThermostatInfoAction {
  import opened Text
  import opened Devices

  datatype Title = ModeAndSetPoint(mode: ThermostatMode, setPoint: real) | Temperature(current: real)

  class ThermostatInfo {
    /** `_thermostat`: the bound view, `null` before the first lookup. */
    var thermostat: ThermostatDevice?
    var currentSetPoint: real
    /** Every view this key has been bound to. */
    ghost var bound: set<ThermostatDevice>
    /** Titles set so far. */
    ghost var titles: seq<Title>

    /** The handler is attached exactly once to the bound view and to no other
        view it was ever bound to. */
    ghost predicate Valid()
      reads this, bound
    {
      && (thermostat != null ==> thermostat in bound)
      && forall d :: d in bound ==> d.onUpdate[this] == if d == thermostat then 1 else 0
    }

    /** The lookup result replaces the cached view: nothing is cached yet, or the
        names differ. */
    predicate Rebinds(lookup: ThermostatDevice)
      reads this
    {
      thermostat == null || lookup.name != thermostat.name
    }

    constructor ()
      ensures Valid() && thermostat == null && currentSetPoint == 0.0 && bound == {} && titles == []
    {
      thermostat := null;
      currentSetPoint := 0.0;
      bound := {};
      titles := [];
    }

    /**
     * `GetThermostat`. `lookup` is what the device lookup returned; a view this
     * key was never bound to does not carry its handler.
     */
    method GetThermostat(lookup: ThermostatDevice) returns (t: ThermostatDevice)
      requires Valid()
      requires lookup !in bound ==> this !in lookup.onUpdate
      modifies this, lookup`onUpdate, bound`onUpdate
      ensures Valid() && t == thermostat
      ensures forall d :: d in bound ==> (this in d.onUpdate <==> d == thermostat)
      ensures currentSetPoint == old(currentSetPoint) && titles == old(titles)
      ensures old(Rebinds(lookup)) ==>
        && thermostat == lookup && bound == old(bound) + {lookup}
        && lookup.onUpdate == old(lookup.onUpdate) + multiset{this}
        && (old(thermostat) != null ==> old(thermostat).onUpdate == old(thermostat.onUpdate) - multiset{this})
      ensures !old(Rebinds(lookup)) ==>
        thermostat == old(thermostat) && bound == old(bound) && unchanged(lookup) && unchanged(bound)
      ensures forall d :: d in old(bound) && d != old(thermostat) && d != lookup ==> d.onUpdate == old(d.onUpdate)
    {
      if thermostat == null || lookup.name != thermostat.name {
        if thermostat != null {
          thermostat.onUpdate := thermostat.onUpdate - multiset{this};
        }
        thermostat := lookup;
        bound := bound + {lookup};
        thermostat.onUpdate := thermostat.onUpdate + multiset{this};
      }
      return thermostat;
    }

    /** `OnUpdate`: reads `SetPoint` through the (re)bound view. */
    method OnUpdate(lookup: ThermostatDevice)
      requires Valid()
      requires lookup !in bound ==> this !in lookup.onUpdate
      modifies this, lookup`onUpdate, bound`onUpdate
      ensures Valid() && thermostat != null
      ensures old(Rebinds(lookup)) ==>
        && thermostat == lookup && bound == old(bound) + {lookup}
        && lookup.onUpdate == old(lookup.onUpdate) + multiset{this}
        && (old(thermostat) != null ==> old(thermostat).onUpdate == old(thermostat.onUpdate) - multiset{this})
      ensures !old(Rebinds(lookup)) ==>
        thermostat == old(thermostat) && bound == old(bound) && unchanged(lookup) && unchanged(bound)
      ensures forall d :: d in old(bound) && d != old(thermostat) && d != lookup ==> d.onUpdate == old(d.onUpdate)
      ensures currentSetPoint == thermostat.setPoint && titles == old(titles)
    {
      var t := GetThermostat(lookup);
      currentSetPoint := t.setPoint;
    }

    /**
     * One pass of the ticker's loop. `lookup` is what the device lookup
     * returned, `null` when it failed; the resulting exception is swallowed.
     */
    method TickOnce(deviceName: string, lookup: ThermostatDevice?)
      requires Valid()
      requires lookup != null && lookup !in bound ==> this !in lookup.onUpdate
      modifies this, (if lookup == null then {} else {lookup})`onUpdate, bound`onUpdate
      ensures Valid()
      ensures IsNullOrWhiteSpace(deviceName) || lookup == null ==>
        && thermostat == old(thermostat) && bound == old(bound)
        && currentSetPoint == old(currentSetPoint) && titles == old(titles)
        && (lookup != null ==> unchanged(lookup)) && unchanged(bound)
      ensures !IsNullOrWhiteSpace(deviceName) && lookup != null && old(Rebinds(lookup)) ==>
        && thermostat == lookup && bound == old(bound) + {lookup}
        && lookup.onUpdate == old(lookup.onUpdate) + multiset{this}
        && (old(thermostat) != null ==> old(thermostat).onUpdate == old(thermostat.onUpdate) - multiset{this})
      ensures !IsNullOrWhiteSpace(deviceName) && lookup != null && !old(Rebinds(lookup)) ==>
        thermostat == old(thermostat) && bound == old(bound) && unchanged(lookup) && unchanged(bound)
      ensures forall d :: d in old(bound) && d != old(thermostat) && d != lookup ==> d.onUpdate == old(d.onUpdate)
      ensures !IsNullOrWhiteSpace(deviceName) && lookup != null ==>
        && currentSetPoint == thermostat.setPoint
        && titles == old(titles) + [ModeAndSetPoint(thermostat.mode, thermostat.setPoint),
                                    Temperature(thermostat.currentTemperature)]
    {
      if IsNullOrWhiteSpace(deviceName) {
        return;
      }
      if lookup == null {
        return;
      }
      var t := GetThermostat(lookup);
      if currentSetPoint != t.setPoint {
        currentSetPoint := t.setPoint;
      }
      titles := titles + [ModeAndSetPoint(t.mode, t.setPoint), Temperature(t.currentTemperature)];
    }
  }
}
