/**
 * The "temperature up" key: a key press chosen by the thermostat's mode, and
 * the ticker that keeps the key's title on the current set point.
 * Alerts and titles are counted and recorded rather than shown.
 */
module TemperatureUpAction {
  import opened Wrappers
  import opened Text
  import opened Devices
  import opened Nest

  /** What a key press ended in; `Faulted` is an exception leaving `KeyDownAsync`. */
  datatype KeyResult = Alerted | SwitchedToHeat | StepFailed | Stepped | Faulted(fault: Fault)

  /**
   * One tick of the ticker: the `device` setting at that moment and the
   * `SetPoint` the thermostat lookup reported, `None` when the lookup or the
   * getter threw.
   */
  datatype TickInput = TickInput(deviceName: string, setPoint: Option<real>)

  /** A tick that reaches the comparison: the name is not blank and nothing threw. */
  predicate Effective(t: TickInput)
  {
    !IsNullOrWhiteSpace(t.deviceName) && t.setPoint.Some?
  }

  /** `CurrentSetPoint` after one tick. */
  function TickValue(current: real, t: TickInput): real
  {
    if Effective(t) then t.setPoint.value else current
  }

  /** The titles one tick sets: one, only when the set point moved. */
  function TickTitles(current: real, t: TickInput): seq<real>
  {
    if Effective(t) && t.setPoint.value != current then [t.setPoint.value] else []
  }

  /** `CurrentSetPoint` after a run of ticks. */
  function AfterTicks(current: real, ticks: seq<TickInput>): real
  {
    if ticks == [] then current
    else TickValue(AfterTicks(current, ticks[..|ticks| - 1]), ticks[|ticks| - 1])
  }

  /** The titles a run of ticks sets, in order. */
  function TitlesOver(current: real, ticks: seq<TickInput>): seq<real>
  {
    if ticks == [] then []
    else
      var init := ticks[..|ticks| - 1];
      TitlesOver(current, init) + TickTitles(AfterTicks(current, init), ticks[|ticks| - 1])
  }

  /** After a run of ticks `CurrentSetPoint` is what the last tick that got
      through reported, or what it was before when none got through: blank
      names and swallowed errors leave it alone. */
  lemma {:induction false} AfterTicksIsLastEffective(current: real, ticks: seq<TickInput>, k: nat)
    ensures (forall m :: 0 <= m < |ticks| ==> !Effective(ticks[m])) ==> AfterTicks(current, ticks) == current
    ensures k < |ticks| && Effective(ticks[k]) && (forall m :: k < m < |ticks| ==> !Effective(ticks[m]))
            ==> AfterTicks(current, ticks) == ticks[k].setPoint.value
  {
    if ticks != [] {
      var init := ticks[..|ticks| - 1];
      AfterTicksIsLastEffective(current, init, k);
      assert forall m :: 0 <= m < |init| ==> init[m] == ticks[m];
    }
  }

  /** A title is set only when the value changes: no two consecutive titles are
      equal, and the last one is the current set point. */
  lemma {:induction false} TitlesOnlyOnChange(current: real, ticks: seq<TickInput>)
    ensures var titles := TitlesOver(current, ticks);
      && (forall i :: 0 < i < |titles| ==> titles[i] != titles[i - 1])
      && (titles != [] ==> titles[|titles| - 1] == AfterTicks(current, ticks))
      && (titles != [] ==> titles[0] != current)
      && (titles == [] ==> AfterTicks(current, ticks) == current)
  {
    if ticks != [] {
      var init := ticks[..|ticks| - 1];
      TitlesOnlyOnChange(current, init);
    }
  }

  /** From OFF a key press sends one command, SetMode(HEAT), and no set point:
      once the token is good, that command is the one call after the token check. */
  lemma SwitchToHeatSendsOnlySetMode(s: Session, t: ThermostatReading, remote: Remote)
    ensures var r := SetModeStep(s, t, HEAT, remote);
      var checked := TokenCheckStep(s, remote.now, remote.refreshed);
      && (forall e :: e in r.effects && e.ExecuteCall? ==> e.command == SetModeCommand(HEAT))
      && (checked.outcome.Returned? ==>
            r.effects == checked.effects + [ExecuteCall(t.name, checked.after.accessToken, SetModeCommand(HEAT))])
      && (checked.outcome.Threw? ==> forall e :: e in r.effects ==> !e.ExecuteCall?)
  {
    TokenCheckContract(s, remote.now, remote.refreshed);
  }

  /** From HEAT or COOL a key press sends one set-point command, for the exact set
      point plus the step, and never a mode change: once the token is good, that
      command is the one call after the token check. */
  lemma StepUpSendsOneSetPoint(s: Session, t: ThermostatReading, step: int, remote: Remote,
                               toCelsius: real -> real)
    requires t.mode == HEAT || t.mode == COOL
    ensures var r := SetTempUpStep(s, t, step, remote, toCelsius);
      var checked := TokenCheckStep(s, remote.now, remote.refreshed);
      var celsius := CelsiusFor(t, t.setPointExact + step as real, toCelsius);
      var command := if t.mode == COOL then SetCoolCommand(celsius) else SetHeatCommand(celsius);
      && (forall e :: e in r.effects && e.ExecuteCall? ==> e.command == command)
      && (checked.outcome.Returned? ==>
            r.effects == checked.effects + [ExecuteCall(t.name, checked.after.accessToken, command)])
      && (checked.outcome.Threw? ==> forall e :: e in r.effects ==> !e.ExecuteCall?)
      && (r.outcome.Returned? ==> r.effects[|r.effects| - 1].ExecuteCall?)
  {
    TokenCheckContract(s, remote.now, remote.refreshed);
  }

  class TemperatureUp {
    var currentSetPoint: real
    /** Alerts shown so far. */
    ghost var alerts: nat
    /** Titles set so far. */
    ghost var titles: seq<real>

    constructor ()
      ensures currentSetPoint == 0.0 && alerts == 0 && titles == []
    {
      currentSetPoint := 0.0;
      alerts := 0;
      titles := [];
    }

    /** The body of the ticker's loop; a thrown error ends the tick only. */
    method TickOnce(t: TickInput)
      modifies this
      ensures currentSetPoint == TickValue(old(currentSetPoint), t)
      ensures titles == old(titles) + TickTitles(old(currentSetPoint), t)
      ensures alerts == old(alerts)
    {
      if IsNullOrWhiteSpace(t.deviceName) {
        return;
      }
      if t.setPoint.None? {
        return;
      }
      var setPoint := t.setPoint.value;
      if currentSetPoint != setPoint {
        currentSetPoint := setPoint;
        titles := titles + [setPoint];
      }
    }

    /** The ticker, over a finite run of ticks. */
    method Ticker(ticks: seq<TickInput>)
      modifies this
      ensures currentSetPoint == AfterTicks(old(currentSetPoint), ticks)
      ensures titles == old(titles) + TitlesOver(old(currentSetPoint), ticks)
      ensures alerts == old(alerts)
    {
      for i := 0 to |ticks|
        invariant currentSetPoint == AfterTicks(old(currentSetPoint), ticks[..i])
        invariant titles == old(titles) + TitlesOver(old(currentSetPoint), ticks[..i])
        invariant alerts == old(alerts)
      {
        assert ticks[..i + 1][..i] == ticks[..i];
        TickOnce(ticks[i]);
      }
      assert ticks[..|ticks|] == ticks;
    }

    /**
     * A key press. `thermostat` is what the thermostat lookup returned and
     * `setPointAfter` what its `SetPoint` reads after an accepted step.
     */
    method KeyDownAsync(client: NestClient, thermostat: ThermostatDevice, step: int, remote: Remote,
                        setPointAfter: real) returns (result: KeyResult)
      modifies this, client
      ensures client.redirectUrl == old(client.redirectUrl)
      ensures thermostat.mode == HEATCOOL ==>
        && result == Alerted && alerts == old(alerts) + 1
        && client.State() == old(client.State()) && client.trace == old(client.trace)
        && currentSetPoint == old(currentSetPoint) && titles == old(titles)
      ensures thermostat.mode == OFF ==>
        var r := SetModeStep(old(client.State()), thermostat.Reading(), HEAT, remote);
        && client.State() == r.after && client.trace == old(client.trace) + r.effects
        && result == (if r.outcome.Threw? then Faulted(r.outcome.fault) else SwitchedToHeat)
        && alerts == old(alerts) && currentSetPoint == old(currentSetPoint) && titles == old(titles)
      ensures thermostat.mode == HEAT || thermostat.mode == COOL ==>
        var r := SetTempUpStep(old(client.State()), thermostat.Reading(), step, remote, client.toCelsius);
        && client.State() == r.after && client.trace == old(client.trace) + r.effects
        && (r.outcome.Threw? ==>
              result == Faulted(r.outcome.fault) && alerts == old(alerts)
              && currentSetPoint == old(currentSetPoint) && titles == old(titles))
        && (r.outcome == Returned(false) ==>
              result == StepFailed && alerts == old(alerts) + 1
              && currentSetPoint == old(currentSetPoint) && titles == old(titles))
        && (r.outcome == Returned(true) ==>
              result == Stepped && alerts == old(alerts)
              && currentSetPoint == setPointAfter && titles == old(titles) + [setPointAfter])
    {
      if thermostat.mode == HEATCOOL {
        alerts := alerts + 1;
        return Alerted;
      }
      if thermostat.mode == OFF {
        var switched := client.SetMode(thermostat, HEAT, remote);
        if switched.Threw? {
          return Faulted(switched.fault);
        }
        return SwitchedToHeat;
      }
      var success := client.SetTempUp(thermostat, step, remote);
      if success.Threw? {
        return Faulted(success.fault);
      }
      if !success.value {
        alerts := alerts + 1;
        return StepFailed;
      }
      currentSetPoint := setPointAfter;
      titles := titles + [setPointAfter];
      return Stepped;
    }
  }
}
