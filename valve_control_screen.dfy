/**
 * The valve control screen: building the valve list from the configuration
 * characteristic, and the sequence command `handleRunSequence` writes for the
 * active valves.
 */
module ValveControlScreen {
  import opened Wrappers
  import opened Decimal
  import opened JsonText
  import opened ValveComponent
  import ValveListComponent
  import MockDevice

  // ---------------------------------------------------------------- the valve list

  /** `Array.from` throws a RangeError for a length above 2^32 - 1. */
  const MaxArrayLength := 0xFFFF_FFFF

  /** The list `Array.from({length: n}, …)` builds: a negative length gives none. */
  function ValvesFromCount(n: int): (r: seq<Valve>)
    ensures |r| == if n < 0 then 0 else n
    ensures forall i | 0 <= i < |r| :: r[i] == Valve(i + 1, "Valve " + IntToString(i + 1), 0, false)
    decreases n
  {
    if n <= 0 then [] else ValvesFromCount(n - 1) + [Valve(n, "Valve " + IntToString(n), 0, false)]
  }

  /** What reading and parsing the configuration characteristic gives. */
  datatype ConfigReading =
    /** The read rejected. */
    | ReadFailed
    /** The value is null or empty. */
    | NoValue
    /** `JSON.parse` threw. */
    | InvalidJson
    /** The text parsed to `null`, so reading `VALVES` of it throws. */
    | ParsedNull
    /** Any other parsed value; `valves` is its `VALVES` member as a whole number, `None` if absent. */
    | Parsed(valves: Option<int>)

  /** The valve list after the configuration is fetched. */
  function FetchConfiguration(current: seq<Valve>, reading: ConfigReading): (r: seq<Valve>)
    ensures !reading.Parsed? ==> r == current
    ensures reading.Parsed? && reading.valves.None? ==> r == []
    ensures reading.Parsed? && reading.valves.Some? && reading.valves.value > MaxArrayLength ==> r == current
    ensures reading.Parsed? && reading.valves.Some? && reading.valves.value <= MaxArrayLength ==>
      r == ValvesFromCount(reading.valves.value)
  {
    match reading
    case Parsed(None) => ValvesFromCount(0)
    case Parsed(Some(n)) => if n > MaxArrayLength then current else ValvesFromCount(n)
    case _ => current
  }

  /** A list built from a configuration has ids 1, 2, … in ascending order, none of them active. */
  lemma BuiltListShape(n: int, i: int, j: int)
    requires 0 <= i < j < |ValvesFromCount(n)|
    ensures ValvesFromCount(n)[i].id < ValvesFromCount(n)[j].id
    ensures !ValvesFromCount(n)[i].isActive && ValvesFromCount(n)[j].duration == 0
  {
  }

  /** The characters JSON counts as whitespace. */
  predicate IsJsonSpace(c: char) {
    c == ' ' || c == '\t' || c == '\n' || c == '\r'
  }

  /** `s` without its leading JSON whitespace. */
  function TrimStart(s: string): (t: string)
    ensures |t| <= |s| && t == s[|s| - |t|..]
    ensures t != [] ==> !IsJsonSpace(t[0])
  {
    if s != [] && IsJsonSpace(s[0]) then TrimStart(s[1..]) else s
  }

  /** A JSON text starts, after whitespace, with one of these characters; `JSON.parse` rejects any other text. */
  predicate StartsLikeJson(s: string) {
    var t := TrimStart(s);
    t != [] && t[0] in "{[\"-0123456789tfn"
  }

  /**
   * The reading a characteristic value gives, where the model can tell:
   * empty values, texts `JSON.parse` rejects outright, and configuration
   * objects. `None` for other JSON texts.
   */
  function ReadingOfValue(value: string): (r: Option<ConfigReading>)
    ensures value == "" ==> r == Some(NoValue)
    ensures value != "" && !StartsLikeJson(MockDevice.DecodeText(value)) ==> r == Some(InvalidJson)
    ensures value != "" && ParseConfig(MockDevice.DecodeText(value)).Some? ==>
      r == Some(Parsed(Some(ParseConfig(MockDevice.DecodeText(value)).value.valves)))
  {
    if value == "" then Some(NoValue)
    else
      var text := MockDevice.DecodeText(value);
      ConfigStartsLikeJson(text);
      if !StartsLikeJson(text) then Some(InvalidJson)
      else match ParseConfig(text)
        case Some(c) => Some(Parsed(Some(c.valves)))
        case None => None
  }

  /** A configuration object starts like JSON. */
  lemma ConfigStartsLikeJson(text: string)
    ensures ParseConfig(text).Some? ==> StartsLikeJson(text)
  {
    if ParseConfig(text).Some? {
      ConfigOpensWithBrace(text);
      assert TrimStart(text) == text;
      assert "{[\"-0123456789tfn"[0] == '{';
    }
  }

  lemma ConfigOpensWithBrace(text: string)
    requires ParseConfig(text).Some?
    ensures text != [] && text[0] == '{'
  {
    var lit := "{\"VALVES\":";
    assert Expect(lit, text).Some?;
    assert text[..|lit|] == lit;
    assert text[0] == text[..|lit|][0];
  }

  /** A value holding a configuration object reads as its valve count. */
  lemma ConfigValueReading(value: string, c: Config)
    requires ParseConfig(MockDevice.DecodeText(value)) == Some(c)
    ensures ReadingOfValue(value) == Some(Parsed(Some(c.valves)))
  {
  }

  /** The list built from a configuration depends on its valve count only: the pins play no part. */
  lemma PinsIgnored(c1: Config, c2: Config, current: seq<Valve>)
    requires c1.valves == c2.valves
    ensures ReadingOfValue(MockDevice.EncodeText(ConfigText(c1))) == ReadingOfValue(MockDevice.EncodeText(ConfigText(c2)))
    ensures ReadingOfValue(MockDevice.EncodeText(ConfigText(c1))) == Some(Parsed(Some(c1.valves)))
  {
    ConfigReadsAsCount(c1);
    ConfigReadsAsCount(c2);
  }

  /** An encoded configuration reads as its valve count. */
  lemma ConfigReadsAsCount(c: Config)
    ensures ReadingOfValue(MockDevice.EncodeText(ConfigText(c))) == Some(Parsed(Some(c.valves)))
  {
    var value := MockDevice.EncodeText(ConfigText(c));
    MockDevice.DecodeEncodeText(ConfigText(c));
    ParseConfigText(c);
    ConfigValueReading(value, c);
  }

  /** The peripheral's configuration data reads as four valves. */
  lemma ConfigDataReading(value: string)
    requires value == MockDevice.CreateConfigData()
    ensures ReadingOfValue(value) == Some(Parsed(Some(4)))
  {
    MockDevice.ConfigDataReadsBack();
    ConfigValueReading(value, Config(4, [2, 4, 5, 16]));
  }

  /** The peripheral's configuration data, read and parsed, gives the four valves. */
  lemma ConfigDataGivesFourValves(value: string, current: seq<Valve>)
    requires value == MockDevice.CreateConfigData()
    ensures ReadingOfValue(value).Some?
    ensures FetchConfiguration(current, ReadingOfValue(value).value) == ValvesFromCount(4)
  {
    ConfigDataReading(value);
  }

  /**
   * Fetching from the mock peripheral: its read always answers `Mock Value`,
   * which is not JSON, so the valve list stays as it was.
   */
  method FetchFromMock(device: MockDevice.MockDevice, current: seq<Valve>) returns (r: seq<Valve>)
    ensures r == current
  {
    var c := device.ReadCharacteristicForService(MockDevice.ServiceUUID, MockDevice.ConfigUUID);
    var reading := ReadingOfValue(c.value);
    MockValueUnparsable(c.value);
    r := FetchConfiguration(current, reading.value);
  }

  /** A value that decodes to `Mock Value` reads as unparsable. */
  lemma MockValueUnparsable(value: string)
    requires MockDevice.DecodeText(value) == "Mock Value"
    ensures ReadingOfValue(value) == Some(InvalidJson)
  {
    assert TrimStart("Mock Value") == "Mock Value";
  }

  // ---------------------------------------------------------------- the sequence

  /** `valves.filter(valve => valve.isActive)`. */
  function Actives(valves: seq<Valve>): (r: seq<Valve>)
    ensures |r| <= |valves|
    ensures forall v | v in r :: v.isActive && v in valves
    ensures forall v | v in valves && v.isActive :: v in r
  {
    if valves == [] then []
    else if valves[0].isActive then [valves[0]] + Actives(valves[1..])
    else Actives(valves[1..])
  }

  /** Filtering keeps the list order: it distributes over concatenation. */
  lemma {:induction false} ActivesAppend(a: seq<Valve>, b: seq<Valve>)
    ensures Actives(a + b) == Actives(a) + Actives(b)
  {
    if a == [] {
      assert a + b == b;
    } else {
      assert (a + b)[1..] == a[1..] + b;
      ActivesAppend(a[1..], b);
    }
  }

  /** One ON command per valve, with the valve's duration. */
  function Commands(valves: seq<Valve>): (cs: seq<ValveCommand>)
    ensures |cs| == |valves|
    ensures forall i | 0 <= i < |cs| :: cs[i] == ValveCommand(valves[i].id, On, Some(valves[i].duration))
  {
    if valves == [] then [] else [ValveCommand(valves[0].id, On, Some(valves[0].duration))] + Commands(valves[1..])
  }

  datatype SequenceOutcome =
    /** No device: nothing happens. */
    | NoDevice
    /** No active valve: an alert, no write. */
    | NoneSelected
    /** One write of `text` to the valve-control characteristic. */
    | Write(text: string)

  function RunSequence(hasDevice: bool, valves: seq<Valve>): (o: SequenceOutcome)
    ensures !hasDevice <==> o == NoDevice
    ensures hasDevice && (forall v | v in valves :: !v.isActive) <==> o == NoneSelected
    ensures o.Write? ==> ParseSequence(o.text) == Some(Commands(Actives(valves)))
  {
    if !hasDevice then NoDevice
    else
      var sequenceValves := Actives(valves);
      if |sequenceValves| == 0 then NoneSelected
      else
        ParseSequenceText(Commands(sequenceValves));
        Write(SequenceText(Commands(sequenceValves)))
  }

  /** The written sequence names exactly the active valves, each with its own duration. */
  lemma SequenceNamesActives(valves: seq<Valve>)
    requires RunSequence(true, valves).Write?
    ensures forall c | c in ParseSequence(RunSequence(true, valves).text).value ::
      exists v | v in valves :: v.isActive && c == ValveCommand(v.id, On, Some(v.duration))
    ensures forall v | v in valves && v.isActive ::
      ValveCommand(v.id, On, Some(v.duration)) in ParseSequence(RunSequence(true, valves).text).value
  {
    var cs := Commands(Actives(valves));
    forall c | c in cs
      ensures exists v | v in valves :: v.isActive && c == ValveCommand(v.id, On, Some(v.duration))
    {
      var i :| 0 <= i < |cs| && cs[i] == c;
      assert Actives(valves)[i] in Actives(valves);
    }
    forall v | v in valves && v.isActive
      ensures ValveCommand(v.id, On, Some(v.duration)) in cs
    {
      var i :| 0 <= i < |Actives(valves)| && Actives(valves)[i] == v;
      assert cs[i] == ValveCommand(v.id, On, Some(v.duration));
    }
  }

  /** A freshly built list has no active valve, so running it writes nothing. */
  lemma FreshListNoneSelected(n: int)
    ensures RunSequence(true, ValvesFromCount(n)) == NoneSelected
  {
    forall v | v in ValvesFromCount(n) ensures !v.isActive {
      var i :| 0 <= i < |ValvesFromCount(n)| && ValvesFromCount(n)[i] == v;
    }
  }

  /** A list with no active valve filters to nothing. */
  lemma {:induction false} NoActives(valves: seq<Valve>)
    requires forall i | 0 <= i < |valves| :: !valves[i].isActive
    ensures Actives(valves) == []
  {
    if valves != [] {
      NoActives(valves[1..]);
    }
  }

  /** Toggling valve `k` of a fresh list activates that one entry. */
  lemma ToggleFresh(n: int, k: int)
    requires 1 <= k <= n
    ensures var built := ValvesFromCount(n);
      ValveListComponent.HandleToggleActive(built, k)
      == built[..k - 1] + [built[k - 1].(isActive := true)] + built[k..]
  {
    var built := ValvesFromCount(n);
    var toggled := ValveListComponent.HandleToggleActive(built, k);
    var expected := built[..k - 1] + [built[k - 1].(isActive := true)] + built[k..];
    assert |toggled| == |expected|;
    forall i | 0 <= i < |toggled| ensures toggled[i] == expected[i] {
      if i < k - 1 {
        assert expected[i] == built[i];
      } else if i == k - 1 {
      } else {
        assert expected[i] == built[i];
      }
    }
  }

  /** Toggling valve `k` of a fresh list leaves that valve as the only active one. */
  lemma ToggledActives(n: int, k: int)
    requires 1 <= k <= n
    ensures Actives(ValveListComponent.HandleToggleActive(ValvesFromCount(n), k))
         == [ValvesFromCount(n)[k - 1].(isActive := true)]
  {
    var built := ValvesFromCount(n);
    var selected := built[k - 1].(isActive := true);
    var front, back := built[..k - 1], built[k..];
    ToggleFresh(n, k);
    ActivesAppend(front + [selected], back);
    ActivesAppend(front, [selected]);
    NoActives(front);
    NoActives(back);
    ActivesSingle(selected);
  }

  lemma ActivesSingle(v: Valve)
    requires v.isActive
    ensures Actives([v]) == [v]
  {
    assert [v][1..] == [];
  }

  /** Selecting valve `k` of a fresh list and running sends exactly one command, for `k`. */
  lemma SelectOneAndRun(n: int, k: int)
    requires 1 <= k <= n
    ensures RunSequence(true, ValveListComponent.HandleToggleActive(ValvesFromCount(n), k)).Write?
    ensures ParseSequence(RunSequence(true, ValveListComponent.HandleToggleActive(ValvesFromCount(n), k)).text)
         == Some([ValveCommand(k, On, Some(0))])
  {
    var selected := ValvesFromCount(n)[k - 1].(isActive := true);
    ToggledActives(n, k);
    assert Commands([selected]) == [ValveCommand(k, On, Some(0))];
  }
}
