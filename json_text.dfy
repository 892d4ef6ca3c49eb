/**
 * The JSON texts carried on the valve characteristics, exactly as
 * `JSON.stringify` writes them for the fixed payload shapes the app uses
 * (keys in insertion order, no spaces), and readers for those shapes that
 * accept what `JSON.parse` would read back as the same values.
 */
module JsonText {
  import opened Wrappers
  import opened Decimal

  datatype Action = On | Off

  /** `{valve, action, duration?}` written to the valve-control characteristic. */
  datatype ValveCommand = ValveCommand(valve: int, action: Action, duration: Option<int>)

  /** `{VALVES, PINS}` read from the configuration characteristic. */
  datatype Config = Config(valves: nat, pins: seq<nat>)

  function ActionText(a: Action): string {
    match a
    case On => "ON"
    case Off => "OFF"
  }

  /** The duration member, present only when there is a duration. */
  function DurationText(d: Option<int>): string {
    match d
    case Some(x) => ",\"duration\":" + IntToString(x)
    case None => ""
  }

  function CommandText(c: ValveCommand): string {
    "{\"valve\":" + IntToString(c.valve) + ",\"action\":\"" + ActionText(c.action) + "\""
    + DurationText(c.duration) + "}"
  }

  /** Comma-separated command objects. */
  function CommandList(cs: seq<ValveCommand>): string {
    if cs == [] then ""
    else if |cs| == 1 then CommandText(cs[0])
    else CommandText(cs[0]) + "," + CommandList(cs[1..])
  }

  /** `JSON.stringify({valves: commands})`. */
  function SequenceText(cs: seq<ValveCommand>): string {
    "{\"valves\":[" + CommandList(cs) + "]}"
  }

  /** Comma-separated natural numbers. */
  function NatList(ns: seq<nat>): string {
    if ns == [] then ""
    else if |ns| == 1 then NatToString(ns[0])
    else NatToString(ns[0]) + "," + NatList(ns[1..])
  }

  function ConfigText(c: Config): string {
    "{\"VALVES\":" + NatToString(c.valves) + ",\"PINS\":[" + NatList(c.pins) + "]}"
  }

  /**
   * `JSON.stringify({TIMERS: {...}})` for integer keys, which `JSON.stringify`
   * writes as quoted strings in ascending order.
   */
  function EntryText(e: (nat, int)): string {
    "\"" + NatToString(e.0) + "\":" + IntToString(e.1)
  }

  /**
   * The entries in list order, each key written once per entry.
   * `JSON.stringify` writes integer-like keys once each, in ascending
   * numeric order, so the two agree only when the ids ascend strictly, as
   * in the peripheral's fixed timer payload.
   */
  function TimerEntries(es: seq<(nat, int)>): string {
    if es == [] then ""
    else if |es| == 1 then EntryText(es[0])
    else EntryText(es[0]) + "," + TimerEntries(es[1..])
  }

  function TimerText(es: seq<(nat, int)>): string {
    "{\"TIMERS\":{" + TimerEntries(es) + "}}"
  }

  // ---------------------------------------------------------------- readers

  /** Consumes the literal `lit` at the start of `s`. */
  function Expect(lit: string, s: string): (r: Option<string>)
    ensures r.Some? ==> |r.value| == |s| - |lit| && r.value == s[|lit|..]
  {
    if |lit| <= |s| && s[..|lit|] == lit then Some(s[|lit|..]) else None
  }

  lemma ExpectLiteral(lit: string, rest: string)
    ensures Expect(lit, lit + rest) == Some(rest)
  {
    assert (lit + rest)[..|lit|] == lit && (lit + rest)[|lit|..] == rest;
  }

  function ParseAction(s: string): (r: Option<(Action, string)>)
    ensures r.Some? ==> |r.value.1| < |s|
  {
    match Expect("ON\"", s)
    case Some(rest) => Some((On, rest))
    case None =>
      match Expect("OFF\"", s)
      case Some(rest) => Some((Off, rest))
      case None => None
  }

  function ParseDuration(s: string): (r: Option<(Option<int>, string)>)
    ensures r.Some? ==> |r.value.1| < |s|
  {
    match Expect(",\"duration\":", s)
    case Some(r1) =>
      var (d, r2) :- ParseInt(r1);
      var r3 :- Expect("}", r2);
      Some((Some(d), r3))
    case None =>
      var r1 :- Expect("}", s);
      Some((None, r1))
  }

  /** Reads one command object at the start of `s`. */
  function ParseCommand(s: string): (r: Option<(ValveCommand, string)>)
    ensures r.Some? ==> |r.value.1| < |s|
  {
    var r1 :- Expect("{\"valve\":", s);
    var (v, r2) :- ParseInt(r1);
    var r3 :- Expect(",\"action\":\"", r2);
    var (a, r4) :- ParseAction(r3);
    var (d, r5) :- ParseDuration(r4);
    Some((ValveCommand(v, a, d), r5))
  }

  /** Reads one or more comma-separated command objects. */
  function ParseCommands(s: string): (r: Option<(seq<ValveCommand>, string)>)
    ensures r.Some? ==> |r.value.1| < |s|
    decreases |s|
  {
    var (c, r1) :- ParseCommand(s);
    match Expect(",", r1)
    case Some(r2) =>
      var (cs, r3) :- ParseCommands(r2);
      Some(([c] + cs, r3))
    case None => Some(([c], r1))
  }

  /** Reads a whole sequence command; `None` if `s` is not one. */
  function ParseSequence(s: string): Option<seq<ValveCommand>> {
    var r1 :- Expect("{\"valves\":[", s);
    if Expect("]}", r1) == Some("") then Some([])
    else
      var (cs, r2) :- ParseCommands(r1);
      if r2 == "]}" then Some(cs) else None
  }

  /** Reads one or more comma-separated natural numbers. */
  function ParseNats(s: string): (r: Option<(seq<nat>, string)>)
    ensures r.Some? ==> |r.value.1| < |s|
    decreases |s|
  {
    var (n, r1) :- ParseNat(s);
    match Expect(",", r1)
    case Some(r2) =>
      var (ns, r3) :- ParseNats(r2);
      Some(([n] + ns, r3))
    case None => Some(([n], r1))
  }

  /** Reads a whole configuration object; `None` if `s` is not one. */
  function ParseConfig(s: string): Option<Config> {
    var r1 :- Expect("{\"VALVES\":", s);
    var (v, r2) :- ParseNat(r1);
    var r3 :- Expect(",\"PINS\":[", r2);
    if r3 == "]}" then Some(Config(v, []))
    else
      var (ps, r4) :- ParseNats(r3);
      if r4 == "]}" then Some(Config(v, ps)) else None
  }

  /** Reads one `"key":value` member with a natural number key. */
  function ParseEntry(s: string): (r: Option<((nat, int), string)>)
    ensures r.Some? ==> |r.value.1| < |s|
  {
    var r1 :- Expect("\"", s);
    var (k, r2) :- ParseNat(r1);
    var r3 :- Expect("\":", r2);
    var (v, r4) :- ParseInt(r3);
    Some(((k, v), r4))
  }

  /** Reads one or more comma-separated members. */
  function ParseEntries(s: string): (r: Option<(seq<(nat, int)>, string)>)
    ensures r.Some? ==> |r.value.1| < |s|
    decreases |s|
  {
    var (e, r1) :- ParseEntry(s);
    match Expect(",", r1)
    case Some(r2) =>
      var (es, r3) :- ParseEntries(r2);
      Some(([e] + es, r3))
    case None => Some(([e], r1))
  }

  /** Reads a whole timer object; `None` if `s` is not one. */
  function ParseTimers(s: string): Option<seq<(nat, int)>> {
    var r1 :- Expect("{\"TIMERS\":{", s);
    if r1 == "}}" then Some([])
    else
      var (es, r2) :- ParseEntries(r1);
      if r2 == "}}" then Some(es) else None
  }

  // ------------------------------------------------------------ round trips

  lemma ExpectMismatch(lit: string, s: string, k: nat)
    requires k < |lit| && k < |s| && s[k] != lit[k]
    ensures Expect(lit, s) == None
  {
    if |lit| <= |s| {
      assert s[..|lit|][k] != lit[k];
    }
  }

  lemma ParseDurationText(d: Option<int>, rest: string)
    ensures ParseDuration(DurationText(d) + ("}" + rest)) == Some((d, rest))
  {
    match d
    case Some(x) =>
      var r1 := IntToString(x) + ("}" + rest);
      Assoc3(",\"duration\":", IntToString(x), "}" + rest);
      ExpectLiteral(",\"duration\":", r1);
      ParseIntToString(x, "}" + rest);
      ExpectLiteral("}", rest);
    case None =>
      assert DurationText(d) + ("}" + rest) == "}" + rest;
      ExpectMismatch(",\"duration\":", "}" + rest, 0);
      ExpectLiteral("}", rest);
  }

  lemma ParseActionText(act: Action, tail: string)
    ensures ParseAction(ActionText(act) + ("\"" + tail)) == Some((act, tail))
  {
    match act
    case On =>
      Assoc3("ON", "\"", tail);
      ExpectLiteral("ON\"", tail);
    case Off =>
      Assoc3("OFF", "\"", tail);
      ExpectMismatch("ON\"", "OFF\"" + tail, 1);
      ExpectLiteral("OFF\"", tail);
  }

  /** A written command is read back as the same command. */
  lemma ParseCommandText(c: ValveCommand, rest: string)
    ensures ParseCommand(CommandText(c) + rest) == Some((c, rest))
  {
    var tail := DurationText(c.duration) + ("}" + rest);
    var r3 := ActionText(c.action) + ("\"" + tail);
    var r2 := ",\"action\":\"" + r3;
    var r1 := IntToString(c.valve) + r2;
    CommandTextShape(c, rest);
    ExpectLiteral("{\"valve\":", r1);
    ParseIntToString(c.valve, r2);
    ExpectLiteral(",\"action\":\"", r3);
    ParseActionText(c.action, tail);
    ParseDurationText(c.duration, rest);
  }

  lemma CommandTextShape(c: ValveCommand, rest: string)
    ensures CommandText(c) + rest
         == "{\"valve\":" + (IntToString(c.valve) + (",\"action\":\"" + (ActionText(c.action)
            + ("\"" + (DurationText(c.duration) + ("}" + rest))))))
  {
    Reassoc("{\"valve\":", IntToString(c.valve), ",\"action\":\"", ActionText(c.action), "\"",
            DurationText(c.duration), "}", rest);
  }

  lemma Assoc3(a: string, b: string, c: string)
    ensures a + b + c == a + (b + c)
  {
  }

  lemma Reassoc5(a: string, b: string, c: string, d: string, e: string)
    ensures a + b + c + d + e == a + (b + (c + (d + e)))
  {
  }

  lemma Reassoc(a: string, b: string, c: string, d: string, e: string, f: string, g: string, h: string)
    ensures a + b + c + d + e + f + g + h == a + (b + (c + (d + (e + (f + (g + h))))))
  {
  }

  lemma CommandListShape(cs: seq<ValveCommand>, rest: string)
    requires |cs| >= 2
    ensures CommandList(cs) + rest == CommandText(cs[0]) + ("," + (CommandList(cs[1..]) + rest))
  {
    assert CommandList(cs) == CommandText(cs[0]) + "," + CommandList(cs[1..]);
    Assoc(CommandText(cs[0]), ",", CommandList(cs[1..]), rest);
  }

  lemma CommandListStart(cs: seq<ValveCommand>, rest: string)
    requires cs != []
    ensures (CommandList(cs) + rest)[0] == '{'
  {
    var t := CommandText(cs[0]);
    assert t[0] == '{';
    if |cs| > 1 {
      CommandListShape(cs, rest);
    }
  }

  lemma ParseCommandsLast(s: string, c: ValveCommand, rest: string)
    requires ParseCommand(s) == Some((c, rest))
    requires rest == [] || rest[0] != ','
    ensures ParseCommands(s) == Some(([c], rest))
  {
    if rest != [] { ExpectMismatch(",", rest, 0); }
  }

  lemma ParseCommandsMore(s: string, c: ValveCommand, more: string, cs: seq<ValveCommand>, rest: string)
    requires ParseCommand(s) == Some((c, "," + more))
    requires ParseCommands(more) == Some((cs, rest))
    ensures ParseCommands(s) == Some(([c] + cs, rest))
  {
    ExpectLiteral(",", more);
  }

  /** Written command lists are read back element by element. */
  lemma {:induction false} ParseCommandsText(cs: seq<ValveCommand>, rest: string)
    requires cs != []
    requires rest == [] || rest[0] != ','
    ensures ParseCommands(CommandList(cs) + rest) == Some((cs, rest))
    decreases |cs|
  {
    if |cs| == 1 {
      ParseCommandText(cs[0], rest);
      ParseCommandsLast(CommandList(cs) + rest, cs[0], rest);
      assert cs == [cs[0]];
    } else {
      var more := CommandList(cs[1..]) + rest;
      CommandListShape(cs, rest);
      ParseCommandText(cs[0], "," + more);
      ParseCommandsText(cs[1..], rest);
      ParseCommandsMore(CommandList(cs) + rest, cs[0], more, cs[1..], rest);
      assert cs == [cs[0]] + cs[1..];
    }
  }

  /** Reading a sequence command gives back the commands it was written from. */
  lemma ParseSequenceText(cs: seq<ValveCommand>)
    ensures ParseSequence(SequenceText(cs)) == Some(cs)
  {
    var body := CommandList(cs) + "]}";
    Assoc3("{\"valves\":[", CommandList(cs), "]}");
    ExpectLiteral("{\"valves\":[", body);
    if cs == [] {
      assert body == "]}" + "";
      ExpectLiteral("]}", "");
    } else {
      CommandListStart(cs, "]}");
      ExpectMismatch("]}", body, 0);
      ParseCommandsText(cs, "]}");
    }
  }

  lemma NatListShape(ns: seq<nat>, rest: string)
    requires |ns| >= 2
    ensures NatList(ns) + rest == NatToString(ns[0]) + ("," + (NatList(ns[1..]) + rest))
  {
    assert NatList(ns) == NatToString(ns[0]) + "," + NatList(ns[1..]);
    Assoc(NatToString(ns[0]), ",", NatList(ns[1..]), rest);
  }

  lemma NatListStart(ns: seq<nat>, rest: string)
    requires ns != []
    ensures IsDigit((NatList(ns) + rest)[0])
  {
    if |ns| > 1 {
      NatListShape(ns, rest);
    }
  }

  lemma ParseNatsLast(s: string, n: nat, rest: string)
    requires ParseNat(s) == Some((n, rest))
    requires rest == [] || rest[0] != ','
    ensures ParseNats(s) == Some(([n], rest))
  {
    if rest != [] { ExpectMismatch(",", rest, 0); }
  }

  lemma ParseNatsMore(s: string, n: nat, more: string, ns: seq<nat>, rest: string)
    requires ParseNat(s) == Some((n, "," + more))
    requires ParseNats(more) == Some((ns, rest))
    ensures ParseNats(s) == Some(([n] + ns, rest))
  {
    ExpectLiteral(",", more);
  }

  /** Written natural number lists are read back element by element. */
  lemma {:induction false} ParseNatsText(ns: seq<nat>, rest: string)
    requires ns != []
    requires rest == [] || (rest[0] != ',' && !IsDigit(rest[0]))
    ensures ParseNats(NatList(ns) + rest) == Some((ns, rest))
    decreases |ns|
  {
    if |ns| == 1 {
      ParseNatToString(ns[0], rest);
      ParseNatsLast(NatList(ns) + rest, ns[0], rest);
      assert ns == [ns[0]];
    } else {
      var more := NatList(ns[1..]) + rest;
      NatListShape(ns, rest);
      ParseNatToString(ns[0], "," + more);
      ParseNatsText(ns[1..], rest);
      ParseNatsMore(NatList(ns) + rest, ns[0], more, ns[1..], rest);
      assert ns == [ns[0]] + ns[1..];
    }
  }

  /** Reading a configuration text gives back the configuration it was written from. */
  lemma ParseConfigText(c: Config)
    ensures ParseConfig(ConfigText(c)) == Some(c)
  {
    var tail := NatList(c.pins) + "]}";
    var r2 := ",\"PINS\":[" + tail;
    var r1 := NatToString(c.valves) + r2;
    Reassoc5("{\"VALVES\":", NatToString(c.valves), ",\"PINS\":[", NatList(c.pins), "]}");
    ExpectLiteral("{\"VALVES\":", r1);
    ParseNatToString(c.valves, r2);
    ExpectLiteral(",\"PINS\":[", tail);
    if c.pins == [] {
      assert tail == "]}";
    } else {
      NatListStart(c.pins, "]}");
      ParseNatsText(c.pins, "]}");
    }
  }

  lemma Assoc(a: string, b: string, c: string, d: string)
    ensures a + b + c + d == a + (b + (c + d))
  {
  }

  lemma ParseEntryText(e: (nat, int), rest: string)
    requires rest == [] || !IsDigit(rest[0])
    ensures ParseEntry(EntryText(e) + rest) == Some((e, rest))
  {
    var r3 := IntToString(e.1) + rest;
    var r2 := "\":" + r3;
    var r1 := NatToString(e.0) + r2;
    Assoc("\"" + NatToString(e.0), "\":", IntToString(e.1), rest);
    Assoc3("\"", NatToString(e.0), r2);
    ExpectLiteral("\"", r1);
    ParseNatToString(e.0, r2);
    ExpectLiteral("\":", r3);
    ParseIntToString(e.1, rest);
  }

  lemma TimerEntriesShape(es: seq<(nat, int)>, rest: string)
    requires |es| >= 2
    ensures TimerEntries(es) + rest == EntryText(es[0]) + ("," + (TimerEntries(es[1..]) + rest))
  {
    assert TimerEntries(es) == EntryText(es[0]) + "," + TimerEntries(es[1..]);
    Assoc(EntryText(es[0]), ",", TimerEntries(es[1..]), rest);
  }

  lemma TimerEntriesStart(es: seq<(nat, int)>, rest: string)
    requires es != []
    ensures (TimerEntries(es) + rest)[0] == '"'
  {
    assert EntryText(es[0])[0] == '"';
    if |es| > 1 {
      TimerEntriesShape(es, rest);
    }
  }

  lemma ParseEntriesLast(s: string, e: (nat, int), rest: string)
    requires ParseEntry(s) == Some((e, rest))
    requires rest == [] || rest[0] != ','
    ensures ParseEntries(s) == Some(([e], rest))
  {
    if rest != [] { ExpectMismatch(",", rest, 0); }
  }

  lemma ParseEntriesMore(s: string, e: (nat, int), more: string, es: seq<(nat, int)>, rest: string)
    requires ParseEntry(s) == Some((e, "," + more))
    requires ParseEntries(more) == Some((es, rest))
    ensures ParseEntries(s) == Some(([e] + es, rest))
  {
    ExpectLiteral(",", more);
  }

  /** Written member lists are read back member by member. */
  lemma {:induction false} ParseEntriesText(es: seq<(nat, int)>, rest: string)
    requires es != []
    requires rest == [] || (rest[0] != ',' && !IsDigit(rest[0]))
    ensures ParseEntries(TimerEntries(es) + rest) == Some((es, rest))
    decreases |es|
  {
    if |es| == 1 {
      ParseEntryText(es[0], rest);
      ParseEntriesLast(TimerEntries(es) + rest, es[0], rest);
      assert es == [es[0]];
    } else {
      var more := TimerEntries(es[1..]) + rest;
      TimerEntriesShape(es, rest);
      ParseEntryText(es[0], "," + more);
      ParseEntriesText(es[1..], rest);
      ParseEntriesMore(TimerEntries(es) + rest, es[0], more, es[1..], rest);
      assert es == [es[0]] + es[1..];
    }
  }

  /** Reading a timer text gives back the members it was written from. */
  lemma ParseTimersText(es: seq<(nat, int)>)
    ensures ParseTimers(TimerText(es)) == Some(es)
  {
    var body := TimerEntries(es) + "}}";
    Assoc3("{\"TIMERS\":{", TimerEntries(es), "}}");
    ExpectLiteral("{\"TIMERS\":{", body);
    if es != [] {
      TimerEntriesStart(es, "}}");
      ParseEntriesText(es, "}}");
    }
  }
}
