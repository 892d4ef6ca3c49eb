/**
 * One valve row: the `Valve` record shared by the valve screens, the ON and
 * OFF commands the play and stop buttons write to the valve-control
 * characteristic, and the `isRunning` / `currentDuration` state those writes
 * and the timer notifications update.
 */
module ValveComponent {
  import opened Wrappers
  import opened Decimal
  import opened JsonText
  import MockDevice

  datatype Valve = Valve(id: int, name: string, duration: int, isActive: bool)

  /** `JSON.stringify({valve, action: 'ON', duration})`. */
  function PlayCommand(id: int, duration: int): (text: string)
    ensures ParseCommand(text) == Some((ValveCommand(id, On, Some(duration)), ""))
  {
    var c := ValveCommand(id, On, Some(duration));
    ParseCommandText(c, "");
    assert CommandText(c) + "" == CommandText(c);
    CommandText(c)
  }

  /** `JSON.stringify({valve, action: 'OFF'})`: no duration key. */
  function StopCommand(id: int): (text: string)
    ensures ParseCommand(text) == Some((ValveCommand(id, Off, None), ""))
  {
    var c := ValveCommand(id, Off, None);
    ParseCommandText(c, "");
    assert CommandText(c) + "" == CommandText(c);
    CommandText(c)
  }

  /** What `JSON.parse` of a notified timer value gives, as far as the handler looks at it. */
  datatype Parsed =
    /** An object, by its integer-valued top-level members. */
    | ParsedObject(members: map<string, int>)
    /** `null`: reading a property of it throws. */
    | ParsedNull
    /** A number or a boolean: every property is undefined. */
    | ParsedScalar

  /** What the timer listener is called with. */
  datatype TimerEvent =
    | ListenerError
    | NullCharacteristic
    | Unparsable
    | Value(parsed: Parsed)

  /** The listener's call as a timer event; `parse` is what `JSON.parse` makes of the value, `None` if it throws. */
  function EventOf(error: Option<string>, characteristic: Option<MockDevice.BleCharacteristic>, parse: Option<Parsed>): (e: TimerEvent)
    ensures error.Some? ==> e == ListenerError
    ensures e.Value? <==> error.None? && characteristic.Some? && parse.Some?
    ensures e.Value? ==> e.parsed == parse.value
  {
    if error.Some? then ListenerError
    else if characteristic.None? then NullCharacteristic
    else if parse.None? then Unparsable
    else Value(parse.value)
  }

  /** The duration the timer handler shows after an event. */
  function AfterTimerEvent(id: int, currentDuration: int, e: TimerEvent): (d: int)
    ensures (e.Value? && e.parsed.ParsedObject? && IntToString(id) in e.parsed.members) ==>
      d == e.parsed.members[IntToString(id)]
    ensures !(e.Value? && e.parsed.ParsedObject? && IntToString(id) in e.parsed.members) ==>
      d == currentDuration
  {
    match e
    case Value(ParsedObject(members)) =>
      var key := IntToString(id);
      if key in members then members[key] else currentDuration
    case _ => currentDuration
  }

  class ValveComponent {
    const valve: Valve
    var currentDuration: int
    var isRunning: bool

    constructor(valve: Valve)
      ensures this.valve == valve && currentDuration == valve.duration && !isRunning
    {
      this.valve := valve;
      currentDuration := valve.duration;
      isRunning := false;
    }

    /**
     * Writes the ON command with the shown duration; `writeOk` says whether
     * the write resolved. Only then does the valve count as running.
     */
    method HandlePlay(writeOk: bool) returns (written: string)
      modifies this`isRunning
      ensures written == PlayCommand(valve.id, currentDuration)
      ensures isRunning == (old(isRunning) || writeOk)
    {
      written := PlayCommand(valve.id, currentDuration);
      if writeOk {
        isRunning := true;
      }
    }

    /** The play button: disabled while running. */
    method PressPlay(writeOk: bool) returns (written: Option<string>)
      modifies this`isRunning
      ensures old(isRunning) ==> written == None && isRunning
      ensures !old(isRunning) ==> written == Some(PlayCommand(valve.id, currentDuration)) && isRunning == writeOk
    {
      if isRunning {
        written := None;
      } else {
        var w := HandlePlay(writeOk);
        written := Some(w);
      }
    }

    /** Writes the OFF command; the valve stops counting as running only if the write resolved. */
    method HandleStop(writeOk: bool) returns (written: string)
      modifies this`isRunning
      ensures written == StopCommand(valve.id)
      ensures isRunning == (old(isRunning) && !writeOk)
    {
      written := StopCommand(valve.id);
      if writeOk {
        isRunning := false;
      }
    }

    /** The timer listener: takes the member named by the valve id, if there is one. */
    method OnTimerEvent(e: TimerEvent)
      modifies this`currentDuration
      ensures currentDuration == AfterTimerEvent(valve.id, old(currentDuration), e)
    {
      match e {
        case Value(ParsedObject(members)) =>
          var key := IntToString(valve.id);
          if key in members {
            currentDuration := members[key];
          }
        case _ =>
      }
    }

    /**
     * The effect run when the row mounts: show the valve's own duration, then
     * subscribe to the timer characteristic of `device`. The peripheral calls
     * the listener at once with no characteristic, so the duration stays.
     */
    method Subscribe(device: MockDevice.MockDevice)
      modifies this`currentDuration
      ensures currentDuration == valve.duration
    {
      currentDuration := valve.duration;
      var error, characteristic := device.MonitorCharacteristicForService(MockDevice.ServiceUUID, MockDevice.TimerUUID);
      OnTimerEvent(EventOf(error, characteristic, None));
    }
  }
}
