// The server's configuration: the pull parser that reads it and the lookups into it.
//
// The XML parser is a sequence of events. The nested loops of the parser are specified by one state
// machine over that sequence; the class proves that they compute its outcome.
module ConfigManager {
  import opened Wrappers
  import opened OrderedDict
  import CStrings
  import Decimal

  const KNOWN: set<string> := {"server", "streams", "stream", "frame", "defaults", "listeners", "listener"}
  const INT32_MAX := 0x7FFF_FFFF

  datatype Format = DefaultFormat | Discard | Overwrite

  datatype Buffering = Buffering(on: bool, num: int, format: Format)

  // The settings by connection; "" stands for all other connections.
  type Bufferings = map<string, Buffering>

  datatype Listener = Listener(connection: string, addressPrimary: string, addressSecondary: string)

  datatype Config = Config(
    clientEnabled: bool,
    listeners: seq<Listener>,
    streams: seq<(string, Bufferings)>,
    defaults: Bufferings)

  // An element with its attributes; the end of an element; any other node.
  datatype Event =
    | Open(name: string, attributes: map<string, string>)
    | Close(name: string)
    | Other

  const SYSTEM_DEFAULT := Buffering(true, 0, DefaultFormat)

  function Cleared(): Config {
    Config(false, [], [], map["" := SYSTEM_DEFAULT])
  }

  // ---- Attributes ----

  function Attribute(e: Event, name: string): Option<string>
    requires e.Open?
  {
    if name in e.attributes then Some(e.attributes[name]) else None
  }

  function OnOff(value: Option<string>, otherwise: bool): bool {
    if value == Some("on") then true else if value == Some("off") then false else otherwise
  }

  // strtoll with base 0: hexadecimal after 0x, octal after another 0, otherwise decimal.
  function DigitValue(c: char): Option<nat> {
    if '0' <= c <= '9' then Some(c as int - '0' as int)
    else if 'a' <= c <= 'z' then Some(c as int - 'a' as int + 10)
    else if 'A' <= c <= 'Z' then Some(c as int - 'A' as int + 10)
    else None
  }

  function Digits(s: string, base: nat): Option<nat> {
    if s == "" then None
    else
      match DigitValue(s[|s| - 1])
      case None => None
      case Some(d) =>
        if d >= base then None
        else if |s| == 1 then Some(d)
        else
          match Digits(s[..|s| - 1], base)
          case None => None
          case Some(n) => Some(n * base + d)
  }

  function Numeral(s: string): Option<nat> {
    if |s| > 2 && s[0] == '0' && (s[1] == 'x' || s[1] == 'X') then Digits(s[2..], 16)
    else if s != "" && s[0] == '0' then Digits(s, 8)
    else Digits(s, 10)
  }

  function SkipSpaces(s: string): string {
    if s != "" && CStrings.IsSpace(s[0]) then SkipSpaces(s[1..]) else s
  }

  // The whole text must be one number, which must fit in 32 bits.
  function StrToInt(text: string): Option<int> {
    var s := SkipSpaces(text);
    var negative := s != "" && s[0] == '-';
    var magnitude := Numeral(if negative || (s != "" && s[0] == '+') then s[1..] else s);
    if magnitude.None? then None
    else
      var m: int := magnitude.value;
      var n := if negative then -m else m;
      if n > INT32_MAX || n < -INT32_MAX - 1 then None else Some(n)
  }

  // What is not a number counts as 0; a negative number is replaced by -1.
  function Num(text: Option<string>): (n: int)
    ensures -1 <= n <= INT32_MAX && (n > 0 ==> text.Some? && StrToInt(text.value) == Some(n))
    ensures n == -1 <==> text.Some? && StrToInt(text.value).Some? && StrToInt(text.value).value < 0
  {
    if text.None? then 0
    else
      match StrToInt(text.value)
      case None => 0
      case Some(n) => if n < 0 then -1 else n
  }

  function FormatOf(value: Option<string>): Format {
    if value == Some("discard") || value == Some("queue") then Discard
    else if value == Some("overwrite") || value == Some("ring") then Overwrite
    else DefaultFormat
  }

  function BufferingOf(e: Event): Buffering
    requires e.Open?
  {
    Buffering(OnOff(Attribute(e, "buffering"), true), Num(Attribute(e, "num")), FormatOf(Attribute(e, "format")))
  }

  predicate Listens(listeners: seq<Listener>, connection: string) {
    exists i :: 0 <= i < |listeners| && listeners[i].connection == connection
  }

  predicate HasListener(c: Config, connection: string) {
    Listens(c.listeners, connection)
  }

  // A frame element without a connection sets the entry for all others; one that names a connection
  // counts only if a listener with it was read before.
  function Framed(c: Config, b: Bufferings, e: Event): Bufferings
    requires e.Open?
  {
    match Attribute(e, "connection")
    case None => b["" := BufferingOf(e)]
    case Some(connection) => if HasListener(c, connection) then b[connection := BufferingOf(e)] else b
  }

  // Exactly one of the attributes address and addressPrimary must be there.
  function ListenerOf(e: Event): Option<Listener>
    requires e.Open?
  {
    var address, primary := Attribute(e, "address"), Attribute(e, "addressPrimary");
    if Attribute(e, "connection").None? || (address.None? <==> primary.None?) then None
    else
      Some(Listener(e.attributes["connection"],
                    if address.Some? then address.value else primary.value,
                    if Attribute(e, "addressSecondary").Some? then e.attributes["addressSecondary"] else ""))
  }

  // ---- The state machine ----

  // The loop that reads the next event.
  datatype Mode =
    | Top(parsed: bool)
    | InServer
    | InStreams
    | InStream(key: string, buffering: Bufferings)
    | InDefaults
    | InListeners
    | Failed

  datatype State = State(mode: Mode, config: Config)

  const START := State(Top(false), Cleared())

  function Step(s: State, e: Event): State {
    if e.Open? then Opened(s, e) else if e.Close? then Closed(s, e.name) else s
  }

  function Opened(s: State, e: Event): State
    requires e.Open?
  {
    var c := s.config;
    match s.mode
    case Top(_) =>
      if e.name == "server" then
        State(InServer, c.(clientEnabled := OnOff(Attribute(e, "client"), c.clientEnabled)))
      else s
    case InServer =>
      if e.name == "streams" then s.(mode := InStreams)
      else if e.name == "listeners" then s.(mode := InListeners)
      else s
    case InStreams =>
      if e.name == "stream" then
        s.(mode := if Attribute(e, "key").Some? then InStream(e.attributes["key"], map[]) else Failed)
      else if e.name == "defaults" then s.(mode := InDefaults)
      else s
    case InStream(key, b) => if e.name == "frame" then s.(mode := InStream(key, Framed(c, b, e))) else s
    case InDefaults => if e.name == "frame" then s.(config := c.(defaults := Framed(c, c.defaults, e))) else s
    case InListeners =>
      if e.name != "listener" then s
      else
        (match ListenerOf(e)
         case None => s.(mode := Failed)
         case Some(l) => s.(config := c.(listeners := c.listeners + [l])))
    case Failed => s
  }

  // A loop ends at the first closing tag with its own name.
  function Closed(s: State, name: string): State {
    match s.mode
    case InServer => if name == "server" then s.(mode := Top(true)) else s
    case InStreams => if name == "streams" then s.(mode := InServer) else s
    case InStream(key, b) =>
      if name == "stream" then State(InStreams, s.config.(streams := Put(s.config.streams, key, b))) else s
    case InDefaults => if name == "defaults" then s.(mode := InStreams) else s
    case InListeners => if name == "listeners" then s.(mode := InServer) else s
    case _ => s
  }

  function After(s: State, events: seq<Event>): State
    decreases |events|
  {
    if events == [] then s else After(Step(s, events[0]), events[1..])
  }

  // Reading succeeds when the events end outside of all elements, after at least one server element.
  datatype Outcome = Outcome(ok: bool, config: Config)

  function Result(s: State): Outcome {
    Outcome(s.mode == Top(true), s.config)
  }

  function Parsed(s: State, events: seq<Event>): Outcome {
    Result(After(s, events))
  }

  lemma {:induction false} FailedStays(c: Config, events: seq<Event>)
    ensures After(State(Failed, c), events) == State(Failed, c)
    decreases |events|
  {
    if events != [] {
      FailedStays(c, events[1..]);
    }
  }

  lemma {:induction false} AfterJoin(s: State, a: seq<Event>, b: seq<Event>)
    ensures After(s, a + b) == After(After(s, a), b)
    decreases |a|
  {
    if a == [] {
      assert a + b == b;
    } else {
      assert (a + b)[1..] == a[1..] + b;
      AfterJoin(Step(s, a[0]), a[1..], b);
    }
  }

  lemma AfterOne(s: State, e: Event)
    ensures After(s, [e]) == Step(s, e)
  {
    hide Step;
    assert [e][1..] == [];
    assert After(s, [e]) == After(Step(s, e), []);
  }

  // ---- Unknown elements ----

  datatype Tree = Tree(name: string, attributes: map<string, string>, children: seq<Tree>)

  // The events of an element: its start, its children, its end.
  function Events(t: Tree): seq<Event>
    decreases t, 0
  {
    [Open(t.name, t.attributes)] + ForestEvents(t.children) + [Close(t.name)]
  }

  function ForestEvents(ts: seq<Tree>): seq<Event>
    decreases ts, |ts|
  {
    if ts == [] then [] else Events(ts[0]) + ForestEvents(ts[1..])
  }

  predicate Unknown(t: Tree) {
    t.name !in KNOWN && forall i :: 0 <= i < |t.children| ==> Unknown(t.children[i])
  }

  predicate UnknownEvents(events: seq<Event>) {
    forall i :: 0 <= i < |events| ==> events[i].Other? || events[i].name !in KNOWN
  }

  lemma UnknownStep(s: State, e: Event)
    requires e.Other? || e.name !in KNOWN
    ensures Step(s, e) == s
  {
  }

  lemma {:induction false} UnknownAfter(s: State, events: seq<Event>)
    requires UnknownEvents(events)
    ensures After(s, events) == s
    decreases |events|
  {
    if events != [] {
      UnknownStep(s, events[0]);
      UnknownAfter(s, events[1..]);
    }
  }

  lemma {:induction false} UnknownTree(t: Tree)
    requires Unknown(t)
    ensures UnknownEvents(Events(t))
    decreases t, |t.children| + 1
  {
    UnknownForest(t, t.children);
  }

  lemma {:induction false} UnknownForest(t: Tree, ts: seq<Tree>)
    requires forall i :: 0 <= i < |ts| ==> Unknown(ts[i]) && ts[i] < t
    ensures UnknownEvents(ForestEvents(ts))
    decreases t, |ts|
  {
    if ts != [] {
      UnknownTree(ts[0]);
      UnknownForest(t, ts[1..]);
    }
  }

  // Taking an element out, wherever it stands, changes neither the status nor the configuration, if
  // its name and the names of all elements inside it are unknown.
  lemma UnknownIsIgnored(s: State, before: seq<Event>, t: Tree, after: seq<Event>)
    requires Unknown(t)
    ensures Parsed(s, before + Events(t) + after) == Parsed(s, before + after)
  {
    UnknownTree(t);
    AfterJoin(s, before + Events(t), after);
    AfterJoin(s, before, Events(t));
    AfterJoin(s, before, after);
    UnknownAfter(After(s, before), Events(t));
  }

  // A known element inside an unknown one is read as if it stood outside.
  lemma UnknownIsTransparent(s: State, before: seq<Event>, t: Tree, after: seq<Event>)
    requires t.name !in KNOWN
    ensures Parsed(s, before + Events(t) + after) == Parsed(s, before + ForestEvents(t.children) + after)
  {
    var start, inner, end := [Open(t.name, t.attributes)], ForestEvents(t.children), [Close(t.name)];
    AfterJoin(s, before + Events(t), after);
    AfterJoin(s, before, Events(t));
    AfterJoin(After(s, before), start + inner, end);
    AfterJoin(After(s, before), start, inner);
    AfterJoin(s, before + inner, after);
    AfterJoin(s, before, inner);
    UnknownAfter(After(s, before), start);
    UnknownAfter(After(After(s, before), inner), end);
  }

  // ---- What is stored ----

  // The stream definitions that are completed, in their order.
  function Definitions(s: State, events: seq<Event>): seq<(string, Bufferings)>
    decreases |events|
  {
    if events == [] then [] else DefinitionAt(s, events[0]) + Definitions(Step(s, events[0]), events[1..])
  }

  function DefinitionAt(s: State, e: Event): seq<(string, Bufferings)> {
    if s.mode.InStream? && e == Close("stream") then [(s.mode.key, s.mode.buffering)] else []
  }

  lemma StepDefines(s: State, e: Event)
    ensures Step(s, e).config.streams == PutAll(s.config.streams, DefinitionAt(s, e))
  {
    hide Put, Framed, ListenerOf, OnOff;
    if s.mode.InStream? && e == Close("stream") {
      assert DefinitionAt(s, e)[..0] == [];
    }
  }

  lemma {:induction false} StreamsAreDefinitions(s: State, events: seq<Event>)
    ensures After(s, events).config.streams == PutAll(s.config.streams, Definitions(s, events))
    decreases |events|
  {
    hide Step, DefinitionAt;
    if events != [] {
      var next := Step(s, events[0]);
      StepDefines(s, events[0]);
      StreamsAreDefinitions(next, events[1..]);
      PutAllJoin(s.config.streams, DefinitionAt(s, events[0]), Definitions(next, events[1..]));
    }
  }

  // In a configuration that was read from scratch every stream key occurs once, with its last
  // definition, at the place of its first one.
  lemma LastDefinitionWins(events: seq<Event>, key: string)
    ensures var streams, defined := Parsed(START, events).config.streams, Definitions(START, events);
            && Distinct(streams)
            && Keys(streams) == FirstSeen(Keys(defined))
            && Get(streams, key) == Last(defined, key)
  {
    StreamsAreDefinitions(START, events);
    PutAllOrdered(Definitions(START, events), key);
  }

  // Every connection with a setting is that of a listener, or "".
  predicate Backed(c: Config, b: Bufferings) {
    forall connection :: connection in b ==> connection == "" || HasListener(c, connection)
  }

  predicate AllBacked(s: State) {
    && Backed(s.config, s.config.defaults)
    && (forall i :: 0 <= i < |s.config.streams| ==> Backed(s.config, s.config.streams[i].1))
    && (s.mode.InStream? ==> Backed(s.config, s.mode.buffering))
  }

  lemma MoreListeners(c: Config, l: Listener, connection: string)
    requires HasListener(c, connection)
    ensures HasListener(c.(listeners := c.listeners + [l]), connection)
  {
    var i :| 0 <= i < |c.listeners| && c.listeners[i].connection == connection;
    assert (c.listeners + [l])[i].connection == connection;
  }

  lemma {:induction false} PutBacked(c: Config, streams: seq<(string, Bufferings)>, key: string, b: Bufferings)
    requires Backed(c, b) && forall i :: 0 <= i < |streams| ==> Backed(c, streams[i].1)
    ensures forall i :: 0 <= i < |Put(streams, key, b)| ==> Backed(c, Put(streams, key, b)[i].1)
  {
    if streams != [] && streams[0].0 != key {
      PutBacked(c, streams[1..], key, b);
    }
  }

  lemma StepBacked(s: State, e: Event)
    requires AllBacked(s)
    ensures AllBacked(Step(s, e))
  {
    hide HasListener, Put, Num, FormatOf, OnOff;
    if s.mode.InStream? && e == Close("stream") {
      PutBacked(s.config, s.config.streams, s.mode.key, s.mode.buffering);
      var t := Step(s, e);
      assert forall connection :: HasListener(t.config, connection) == HasListener(s.config, connection) by {
        SameListeners(s.config, t.config);
      }
    } else if s.mode.InListeners? && e.Open? {
      var t := Step(s, e);
      if t.config.listeners != s.config.listeners {
        forall connection | HasListener(s.config, connection) ensures HasListener(t.config, connection) {
          MoreListeners(s.config, ListenerOf(e).value, connection);
        }
      }
    } else {
      SameListeners(s.config, Step(s, e).config);
    }
  }

  lemma SameListeners(c: Config, d: Config)
    requires c.listeners == d.listeners
    ensures forall connection :: HasListener(c, connection) == HasListener(d, connection)
  {
  }

  lemma {:induction false} AfterBacked(s: State, events: seq<Event>)
    requires AllBacked(s)
    ensures AllBacked(After(s, events))
    decreases |events|
  {
    if events != [] {
      StepBacked(s, events[0]);
      AfterBacked(Step(s, events[0]), events[1..]);
    }
  }

  // Whatever the document says, no setting is stored for a connection without a listener.
  lemma SettingsHaveListeners(events: seq<Event>)
    ensures var c := Parsed(START, events).config;
            && Backed(c, c.defaults)
            && forall i :: 0 <= i < |c.streams| ==> Backed(c, c.streams[i].1)
  {
    AfterBacked(START, events);
  }

  // ---- What fails, and what the attributes mean ----

  // Reading fails at a listener without a connection or without exactly one of the two address attributes,
  // and at a stream without a key, and nowhere else.
  predicate Fails(s: State, e: Event) {
    || (s.mode.InListeners? && e.Open? && e.name == "listener"
        && ("connection" !in e.attributes || ("address" in e.attributes <==> "addressPrimary" in e.attributes)))
    || (s.mode.InStreams? && e.Open? && e.name == "stream" && "key" !in e.attributes)
  }

  lemma FailsExactly(s: State, e: Event)
    requires !s.mode.Failed?
    ensures Step(s, e).mode.Failed? <==> Fails(s, e)
    ensures Fails(s, e) ==> Step(s, e).config == s.config
    ensures s.mode.InListeners? && e.Open? && e.name == "listener" && !Fails(s, e) ==>
              var a := e.attributes;
              Step(s, e) == State(InListeners, s.config.(listeners := s.config.listeners
                + [Listener(a["connection"], if "address" in a then a["address"] else a["addressPrimary"],
                            if "addressSecondary" in a then a["addressSecondary"] else "")]))
  {
    hide Framed, OnOff, Put;
  }

  // So a document in which that happens anywhere is refused, whatever follows.
  lemma FailureIsFinal(before: seq<Event>, e: Event, after: seq<Event>)
    requires Fails(After(START, before), e)
    ensures !Parsed(START, before + [e] + after).ok
    ensures Parsed(START, before + [e] + after).config == After(START, before).config
  {
    var s := After(START, before);
    AfterJoin(START, before + [e], after);
    AfterJoin(START, before, [e]);
    AfterOne(s, e);
    assert Step(s, e).mode == Failed;
    FailsExactly(s, e);
    FailedStays(Step(s, e).config, after);
  }

  // The attributes of a frame: buffering is off only if it says so, the number is what it says, and the two
  // formats have two names each; everything else counts as the default.
  lemma BufferingExactly(e: Event)
    requires e.Open?
    ensures var a, b := e.attributes, BufferingOf(e);
      && (b.on <==> "buffering" !in a || a["buffering"] != "off")
      && b.num == (if "num" !in a then 0
                   else match StrToInt(a["num"]) case None => 0 case Some(n) => if n < 0 then -1 else n)
      && (b.format == Discard <==> "format" in a && (a["format"] == "discard" || a["format"] == "queue"))
      && (b.format == Overwrite <==> "format" in a && (a["format"] == "overwrite" || a["format"] == "ring"))
  {
    hide StrToInt;
  }

  // Before anything is read: no client, no listener, no stream, one entry for all connections.
  lemma StartsEmpty()
    ensures START == State(Top(false), Config(false, [], [], map["" := Buffering(true, 0, DefaultFormat)]))
    ensures !Parsed(START, []).ok
  {
  }

  // The client attribute of a server element switches on or off or leaves it.
  lemma ServerSwitches(s: State, e: Event)
    requires s.mode.Top? && e.Open? && e.name == "server"
    ensures Step(s, e) == State(InServer, s.config.(clientEnabled :=
              if "client" in e.attributes && e.attributes["client"] == "on" then true
              else if "client" in e.attributes && e.attributes["client"] == "off" then false
              else s.config.clientEnabled))
  {
  }

  // Octal and hexadecimal numbers, white space and a sign in front, and texts that are no numbers.
  lemma NumbersRead()
    ensures StrToInt("0x1F") == Some(31) && StrToInt("017") == Some(15)
    ensures StrToInt("") == None && StrToInt("7 ") == None && StrToInt("09") == None && StrToInt("-") == None
  {
    assert Digits("1F", 16) == Some(31) by {
      assert Digits("1", 16) == Some(1) && "1F"[..1] == "1";
    }
    assert "0x1F"[2..] == "1F";
    assert Digits("017", 8) == Some(15) by {
      assert Digits("0", 8) == Some(0) && "01"[..1] == "0" && Digits("01", 8) == Some(1) && "017"[..2] == "01";
    }
    assert Digits("7 ", 10) == None && Digits("09", 8) == None;
    assert "-"[1..] == "" && Digits("", 10) == None;
  }

  // ---- Which frames count ----

  // The listeners that are read, in their order.
  function ListenersIn(s: State, events: seq<Event>): seq<Listener>
    decreases |events|
  {
    if events == [] then [] else ListenerAt(s, events[0]) + ListenersIn(Step(s, events[0]), events[1..])
  }

  function ListenerAt(s: State, e: Event): seq<Listener> {
    if s.mode.InListeners? && e.Open? && e.name == "listener" && ListenerOf(e).Some? then [ListenerOf(e).value] else []
  }

  lemma StepListens(s: State, e: Event)
    ensures Step(s, e).config.listeners == s.config.listeners + ListenerAt(s, e)
  {
    hide Put, Framed, ListenerOf, OnOff;
  }

  lemma {:induction false} ListenersAreRead(s: State, events: seq<Event>)
    ensures After(s, events).config.listeners == s.config.listeners + ListenersIn(s, events)
    decreases |events|
  {
    hide Step, ListenerAt;
    if events != [] {
      StepListens(s, events[0]);
      ListenersAreRead(Step(s, events[0]), events[1..]);
    }
  }

  predicate IsFrame(e: Event) {
    e.Open? && e.name == "frame"
  }

  // The connection whose entry a frame sets: "" if it has no such attribute.
  function Named(e: Event): string
    requires IsFrame(e)
  {
    if "connection" in e.attributes then e.attributes["connection"] else ""
  }

  // A frame counts if it has no connection attribute, or one of these listeners has its connection.
  predicate Counts(listeners: seq<Listener>, e: Event)
    requires IsFrame(e)
  {
    "connection" !in e.attributes || Listens(listeners, e.attributes["connection"])
  }

  // The entries that frames set here: of the stream being read, or of the defaults.
  predicate InFrames(s: State) {
    s.mode.InStream? || s.mode.InDefaults?
  }

  function Entries(s: State): Bufferings
    requires InFrames(s)
  {
    if s.mode.InStream? then s.mode.buffering else s.config.defaults
  }

  // The end of the element whose frames are being read.
  predicate Ends(s: State, e: Event)
    requires InFrames(s)
  {
    e == Close(if s.mode.InStream? then "stream" else "defaults")
  }

  function EntryOf(b: Option<Bufferings>, connection: string): Option<Buffering> {
    if b.Some? && connection in b.value then Some(b.value[connection]) else None
  }

  // The same element, the same stream.
  predicate SameElement(s: State, t: State)
    requires InFrames(s)
  {
    InFrames(t) && (s.mode.InStream? <==> t.mode.InStream?) && (s.mode.InStream? ==> t.mode.key == s.mode.key)
  }

  lemma StepInFrames(s: State, e: Event, connection: string)
    requires InFrames(s) && !Ends(s, e)
    ensures SameElement(s, Step(s, e)) && Step(s, e).config.listeners == s.config.listeners
    ensures EntryOf(Some(Entries(Step(s, e))), connection)
         == if IsFrame(e) && Counts(s.config.listeners, e) && Named(e) == connection then Some(BufferingOf(e))
            else EntryOf(Some(Entries(s)), connection)
    ensures IsFrame(e) && !Counts(s.config.listeners, e) ==> Step(s, e) == s
  {
    hide BufferingOf, Listens;
  }

  // No frame among the events sets the entry of the connection.
  predicate LeavesAlone(listeners: seq<Listener>, events: seq<Event>, connection: string) {
    forall i :: 0 <= i < |events| && IsFrame(events[i]) && Counts(listeners, events[i]) ==> Named(events[i]) != connection
  }

  lemma {:induction false} LeftAlone(s: State, events: seq<Event>, connection: string)
    requires InFrames(s) && forall i :: 0 <= i < |events| ==> !Ends(s, events[i])
    requires LeavesAlone(s.config.listeners, events, connection)
    ensures SameElement(s, After(s, events))
    ensures EntryOf(Some(Entries(After(s, events))), connection) == EntryOf(Some(Entries(s)), connection)
    decreases |events|
  {
    hide Step, Counts, Named, EntryOf;
    if events != [] {
      StepInFrames(s, events[0], connection);
      LeftAlone(Step(s, events[0]), events[1..], connection);
    }
  }

  lemma FrameSets(s: State, e: Event, inside: seq<Event>)
    requires InFrames(s) && IsFrame(e)
    requires forall i :: 0 <= i < |inside| ==> !Ends(s, inside[i])
    requires LeavesAlone(s.config.listeners, inside, Named(e))
    ensures var t := After(Step(s, e), inside);
            && SameElement(s, t)
            && EntryOf(Some(Entries(t)), Named(e))
            == if Counts(s.config.listeners, e) then Some(BufferingOf(e)) else EntryOf(Some(Entries(s)), Named(e))
  {
    hide After, Counts, Named, BufferingOf, LeavesAlone, Step, EntryOf, Entries;
    StepInFrames(s, e, Named(e));
    LeftAlone(Step(s, e), inside, Named(e));
  }

  // At the end of its element a stream is stored, and the defaults stay.
  lemma EntriesAreStored(t: State)
    requires InFrames(t)
    ensures t.mode.InStream? ==> Get(Step(t, Close("stream")).config.streams, t.mode.key) == Some(Entries(t))
    ensures t.mode.InDefaults? ==> Step(t, Close("defaults")).config.defaults == Entries(t)
  {
    if t.mode.InStream? {
      GetPut(t.config.streams, t.mode.key, t.mode.buffering, t.mode.key);
    }
  }

  // In any document, wherever a frame of a stream or of the defaults stands: until a later frame sets the
  // entry of the same connection, the entry is this frame's if and only if it has no connection attribute
  // or a listener that was read before has its connection; else it stays as it was. This entry is stored
  // at the end of the element.
  lemma FrameCounts(before: seq<Event>, e: Event, inside: seq<Event>)
    requires (After(START, before).mode.InStream? || After(START, before).mode.InDefaults?) && IsFrame(e)
    requires forall i :: 0 <= i < |inside| ==> !Ends(After(START, before), inside[i])
    requires LeavesAlone(ListenersIn(START, before), inside, Named(e))
    ensures var s, t := After(START, before), After(START, before + [e] + inside);
            && SameElement(s, t)
            && EntryOf(Some(Entries(t)), Named(e))
            == (if Counts(ListenersIn(START, before), e) then Some(BufferingOf(e)) else EntryOf(Some(Entries(s)), Named(e)))
            && (s.mode.InStream? ==> Get(Step(t, Close("stream")).config.streams, s.mode.key) == Some(Entries(t)))
            && (s.mode.InDefaults? ==> Step(t, Close("defaults")).config.defaults == Entries(t))
  {
    hide After, Counts, Named, BufferingOf, LeavesAlone, ListenersIn, Step, EntryOf, Ends, Entries;
    var s := After(START, before);
    ListenersAreRead(START, before);
    assert s.config.listeners == ListenersIn(START, before);
    AfterJoin(START, before + [e], inside);
    AfterJoin(START, before, [e]);
    AfterOne(s, e);
    FrameSets(s, e, inside);
    EntriesAreStored(After(START, before + [e] + inside));
  }

  // A frame that does not count can be taken out of the document.
  lemma FrameDropped(before: seq<Event>, e: Event, after: seq<Event>)
    requires (After(START, before).mode.InStream? || After(START, before).mode.InDefaults?) && IsFrame(e)
    requires !Counts(ListenersIn(START, before), e)
    ensures Parsed(START, before + [e] + after) == Parsed(START, before + after)
  {
    hide After, Counts, ListenersIn, Step;
    ListenersAreRead(START, before);
    assert After(START, before).config.listeners == ListenersIn(START, before);
    AfterJoin(START, before + [e], after);
    AfterJoin(START, before, [e]);
    AfterJoin(START, before, after);
    AfterOne(After(START, before), e);
    StepInFrames(After(START, before), e, Named(e));
  }

  // ---- Documents ----

  // A document as a writer would lay it out. Listeners can stand before the streams and after them.
  datatype Document = Document(
    clientEnabled: bool,
    before: seq<ListenerText>,
    streams: seq<(string, seq<(string, Buffering)>)>,
    defaults: seq<(string, Buffering)>,
    after: seq<ListenerText>)

  // A listener as it is written: with either of the two attributes for its address, and with or without a
  // secondary address.
  datatype ListenerText = ListenerText(connection: string, isPrimary: bool, address: string, secondary: Option<string>)

  function Meant(t: ListenerText): Listener {
    Listener(t.connection, t.address, if t.secondary.Some? then t.secondary.value else "")
  }

  function AllMeant(texts: seq<ListenerText>): (listeners: seq<Listener>)
    ensures |listeners| == |texts|
  {
    seq(|texts|, i requires 0 <= i < |texts| => Meant(texts[i]))
  }

  function Leaf(name: string, attributes: map<string, string>): seq<Event> {
    [Open(name, attributes), Close(name)]
  }

  function Switch(on: bool): string {
    if on then "on" else "off"
  }

  function NumText(n: int): string {
    if n < 0 then "-" + Decimal.Print(-n) else Decimal.Print(n)
  }

  function FormatText(f: Format): string {
    match f
    case DefaultFormat => "default"
    case Discard => "discard"
    case Overwrite => "overwrite"
  }

  function FrameAttributes(frame: (string, Buffering)): map<string, string> {
    var attributes := map["buffering" := Switch(frame.1.on), "num" := NumText(frame.1.num),
                          "format" := FormatText(frame.1.format)];
    if frame.0 == "" then attributes else attributes["connection" := frame.0]
  }

  function FrameEvents(frame: (string, Buffering)): seq<Event> {
    Leaf("frame", FrameAttributes(frame))
  }

  function ListenerAttributes(t: ListenerText): map<string, string> {
    var attributes := map["connection" := t.connection, (if t.isPrimary then "addressPrimary" else "address") := t.address];
    if t.secondary.Some? then attributes["addressSecondary" := t.secondary.value] else attributes
  }

  function ListenerEvents(t: ListenerText): seq<Event> {
    Leaf("listener", ListenerAttributes(t))
  }

  function AllFrames(frames: seq<(string, Buffering)>): seq<Event> {
    if frames == [] then [] else AllFrames(frames[..|frames| - 1]) + FrameEvents(frames[|frames| - 1])
  }

  function AllListeners(texts: seq<ListenerText>): seq<Event> {
    if texts == [] then [] else AllListeners(texts[..|texts| - 1]) + ListenerEvents(texts[|texts| - 1])
  }

  function StreamEvents(stream: (string, seq<(string, Buffering)>)): seq<Event> {
    Element("stream", map["key" := stream.0], AllFrames(stream.1))
  }

  function AllStreams(streams: seq<(string, seq<(string, Buffering)>)>): seq<Event> {
    if streams == [] then [] else AllStreams(streams[..|streams| - 1]) + StreamEvents(streams[|streams| - 1])
  }

  function Element(name: string, attributes: map<string, string>, inner: seq<Event>): seq<Event> {
    [Open(name, attributes)] + inner + [Close(name)]
  }

  function ListenersElement(texts: seq<ListenerText>): seq<Event> {
    Element("listeners", map[], AllListeners(texts))
  }

  function StreamsElement(d: Document): seq<Event> {
    Element("streams", map[], AllStreams(d.streams) + Element("defaults", map[], AllFrames(d.defaults)))
  }

  function DocumentEvents(d: Document): seq<Event> {
    Element("server", map["client" := Switch(d.clientEnabled)],
            ListenersElement(d.before) + StreamsElement(d) + ListenersElement(d.after))
  }

  // The connections a frame can set while these listeners are known.
  predicate Known(listeners: seq<Listener>, connection: string) {
    connection == "" || Listens(listeners, connection)
  }

  // Of two frames for one connection the later counts, and one for an unknown connection is dropped.
  function FramesOf(listeners: seq<Listener>, initial: Bufferings, frames: seq<(string, Buffering)>): Bufferings {
    if frames == [] then initial
    else
      var b, last := FramesOf(listeners, initial, frames[..|frames| - 1]), frames[|frames| - 1];
      if Known(listeners, last.0) then b[last.0 := last.1] else b
  }

  function StreamsOf(listeners: seq<Listener>, streams: seq<(string, seq<(string, Buffering)>)>): seq<(string, Bufferings)> {
    if streams == [] then []
    else
      var last := streams[|streams| - 1];
      Put(StreamsOf(listeners, streams[..|streams| - 1]), last.0, FramesOf(listeners, map[], last.1))
  }

  // What the document says to the parser, which knows only the listeners before the streams.
  function Said(d: Document): Config {
    var known := AllMeant(d.before);
    Config(d.clientEnabled, known + AllMeant(d.after), StreamsOf(known, d.streams),
           FramesOf(known, Cleared().defaults, d.defaults))
  }

  predicate FramesAreValid(frames: seq<(string, Buffering)>) {
    forall i :: 0 <= i < |frames| ==> -1 <= frames[i].1.num <= INT32_MAX
  }

  predicate IsValid(d: Document) {
    FramesAreValid(d.defaults) && forall i :: 0 <= i < |d.streams| ==> FramesAreValid(d.streams[i].1)
  }

  // A printed number is read back.
  lemma {:induction false} PrintedDigits(n: nat)
    ensures Digits(Decimal.Print(n), 10) == Some(n)
    ensures n > 0 ==> Decimal.Print(n)[0] != '0'
  {
    if n >= 10 {
      PrintedDigits(n / 10);
      var front, last := Decimal.Print(n / 10), Decimal.Digit(n % 10);
      assert Decimal.Print(n) == front + [last] && (front + [last])[..|front|] == front;
    }
  }

  lemma NumeralRead(n: nat)
    ensures Numeral(Decimal.Print(n)) == Some(n)
  {
    hide Decimal.Print;
    PrintedDigits(n);
    if n == 0 {
      assert Decimal.Print(0) == "0" by { ZeroPrinted(); }
      assert Digits("0", 8) == Some(0);
    }
  }

  lemma ZeroPrinted()
    ensures Decimal.Print(0) == "0"
  {
  }

  // Decimal numbers up to the limits of 32 bits, also with a sign.
  lemma DecimalsRead(n: nat)
    ensures StrToInt(Decimal.Print(n)) == if n <= 2147483647 then Some(n) else None
    ensures StrToInt("+" + Decimal.Print(n)) == if n <= 2147483647 then Some(n) else None
    ensures StrToInt("-" + Decimal.Print(n)) == if n <= 2147483648 then Some(0 - n) else None
  {
    hide Numeral, Decimal.Print;
    var digits := Decimal.Print(n);
    NumeralRead(n);
    assert ("+" + digits)[1..] == digits && ("-" + digits)[1..] == digits;
  }

  lemma PrintedNum(n: int)
    requires -1 <= n <= INT32_MAX
    ensures Num(Some(NumText(n))) == n
  {
    var digits := Decimal.Print(if n < 0 then 1 else n);
    PrintedDigits(if n < 0 then 1 else n);
    if n < 0 {
      assert NumText(n)[1..] == digits;
    } else if n == 0 {
      assert Digits("0", 8) == Some(0);
    }
  }

  lemma AfterLeaf(s: State, name: string, attributes: map<string, string>)
    ensures After(s, Leaf(name, attributes)) == Step(Step(s, Open(name, attributes)), Close(name))
  {
    hide Step;
    var events := Leaf(name, attributes);
    assert events[1..] == [Close(name)] && [Close(name)][1..] == [];
    assert After(Step(s, events[0]), [Close(name)]) == After(Step(Step(s, events[0]), Close(name)), []);
  }

  lemma AfterElement(s: State, name: string, attributes: map<string, string>, inner: seq<Event>)
    ensures After(s, Element(name, attributes, inner))
         == Step(After(Step(s, Open(name, attributes)), inner), Close(name))
  {
    hide Step, After;
    AfterJoin(s, [Open(name, attributes)] + inner, [Close(name)]);
    AfterJoin(s, [Open(name, attributes)], inner);
    AfterOne(s, Open(name, attributes));
    AfterOne(After(Step(s, Open(name, attributes)), inner), Close(name));
  }

  // The attributes of a frame are read as they were written, and the frame is stored exactly if its
  // connection is known by then.
  lemma FrameRead(c: Config, b: Bufferings, frame: (string, Buffering))
    requires -1 <= frame.1.num <= INT32_MAX
    ensures BufferingOf(FrameEvents(frame)[0]) == frame.1
    ensures Framed(c, b, FrameEvents(frame)[0]) == if Known(c.listeners, frame.0) then b[frame.0 := frame.1] else b
  {
    hide Num, NumText, Listens;
    PrintedNum(frame.1.num);
    var e := FrameEvents(frame)[0];
    assert Attribute(e, "num") == Some(NumText(frame.1.num));
    assert BufferingOf(e) == frame.1;
  }

  lemma {:induction false} FramesRead(c: Config, key: string, b: Bufferings, frames: seq<(string, Buffering)>)
    requires FramesAreValid(frames)
    ensures After(State(InStream(key, b), c), AllFrames(frames))
         == State(InStream(key, FramesOf(c.listeners, b, frames)), c)
    decreases |frames|
  {
    hide Framed, Known, FrameAttributes, BufferingOf;
    if frames != [] {
      var front, last := frames[..|frames| - 1], frames[|frames| - 1];
      FramesRead(c, key, b, front);
      AfterJoin(State(InStream(key, b), c), AllFrames(front), FrameEvents(last));
      FrameRead(c, FramesOf(c.listeners, b, front), last);
      AfterLeaf(State(InStream(key, FramesOf(c.listeners, b, front)), c), "frame", FrameAttributes(last));
    }
  }

  lemma {:induction false} DefaultsRead(c: Config, frames: seq<(string, Buffering)>)
    requires FramesAreValid(frames)
    ensures After(State(InDefaults, c), AllFrames(frames))
         == State(InDefaults, c.(defaults := FramesOf(c.listeners, c.defaults, frames)))
    decreases |frames|
  {
    hide Framed, Known, FrameAttributes, BufferingOf;
    if frames != [] {
      var front, last := frames[..|frames| - 1], frames[|frames| - 1];
      DefaultsRead(c, front);
      AfterJoin(State(InDefaults, c), AllFrames(front), FrameEvents(last));
      var d := c.(defaults := FramesOf(c.listeners, c.defaults, front));
      FrameRead(d, d.defaults, last);
      AfterLeaf(State(InDefaults, d), "frame", FrameAttributes(last));
    }
  }

  lemma ListenerRead(t: ListenerText)
    ensures ListenerOf(ListenerEvents(t)[0]) == Some(Meant(t))
  {
  }

  lemma {:induction false} ListenersRead(c: Config, texts: seq<ListenerText>)
    ensures After(State(InListeners, c), AllListeners(texts))
         == State(InListeners, c.(listeners := c.listeners + AllMeant(texts)))
    decreases |texts|
  {
    hide Meant, ListenerAttributes, ListenerOf;
    if texts == [] {
      assert c.listeners + AllMeant(texts) == c.listeners;
    } else {
      var front, last := texts[..|texts| - 1], texts[|texts| - 1];
      ListenersRead(c, front);
      AfterJoin(State(InListeners, c), AllListeners(front), ListenerEvents(last));
      var d := c.(listeners := c.listeners + AllMeant(front));
      AfterLeaf(State(InListeners, d), "listener", ListenerAttributes(last));
      ListenerRead(last);
      assert AllMeant(texts) == AllMeant(front) + [Meant(last)];
      assert c.listeners + AllMeant(front) + [Meant(last)] == c.listeners + AllMeant(texts);
    }
  }

  lemma ListenersElementRead(c: Config, texts: seq<ListenerText>)
    ensures After(State(InServer, c), ListenersElement(texts))
         == State(InServer, c.(listeners := c.listeners + AllMeant(texts)))
  {
    hide After, AllListeners;
    AfterElement(State(InServer, c), "listeners", map[], AllListeners(texts));
    ListenersRead(c, texts);
  }

  lemma {:induction false} StreamsRead(c: Config, streams: seq<(string, seq<(string, Buffering)>)>)
    requires c.streams == []
    requires forall i :: 0 <= i < |streams| ==> FramesAreValid(streams[i].1)
    ensures After(State(InStreams, c), AllStreams(streams))
         == State(InStreams, c.(streams := StreamsOf(c.listeners, streams)))
    decreases |streams|
  {
    hide AllFrames, FramesOf, FramesAreValid, Framed;
    if streams != [] {
      var front, last := streams[..|streams| - 1], streams[|streams| - 1];
      StreamsRead(c, front);
      AfterJoin(State(InStreams, c), AllStreams(front), StreamEvents(last));
      var d := c.(streams := StreamsOf(c.listeners, front));
      AfterElement(State(InStreams, d), "stream", map["key" := last.0], AllFrames(last.1));
      FramesRead(d, last.0, map[], last.1);
    }
  }

  lemma StreamsElementRead(c: Config, d: Document)
    requires c.streams == [] && c.listeners == AllMeant(d.before) && IsValid(d)
    ensures After(State(InServer, c), StreamsElement(d))
         == State(InServer, c.(streams := StreamsOf(c.listeners, d.streams),
                               defaults := FramesOf(c.listeners, c.defaults, d.defaults)))
  {
    hide AllFrames, AllStreams, FramesOf, StreamsOf, After, Framed, FramesAreValid;
    var inner := Element("defaults", map[], AllFrames(d.defaults));
    AfterElement(State(InServer, c), "streams", map[], AllStreams(d.streams) + inner);
    AfterJoin(State(InStreams, c), AllStreams(d.streams), inner);
    StreamsRead(c, d.streams);
    var e := c.(streams := StreamsOf(c.listeners, d.streams));
    AfterElement(State(InStreams, e), "defaults", map[], AllFrames(d.defaults));
    DefaultsRead(e, d.defaults);
  }

  // A document is read successfully, to exactly what it says.
  lemma DocumentRead(d: Document)
    requires IsValid(d)
    ensures Parsed(START, DocumentEvents(d)) == Outcome(true, Said(d))
  {
    hide ListenersElement, StreamsElement, FramesOf, StreamsOf, After, IsValid;
    var c := Cleared().(clientEnabled := d.clientEnabled);
    var first, second, third := ListenersElement(d.before), StreamsElement(d), ListenersElement(d.after);
    AfterElement(START, "server", map["client" := Switch(d.clientEnabled)], first + second + third);
    AfterJoin(State(InServer, c), first + second, third);
    AfterJoin(State(InServer, c), first, second);
    ListenersElementRead(c, d.before);
    var known := AllMeant(d.before);
    assert c.listeners + known == known;
    var e := c.(listeners := known);
    StreamsElementRead(e, d);
    ListenersElementRead(e.(streams := StreamsOf(known, d.streams),
                            defaults := FramesOf(known, c.defaults, d.defaults)), d.after);
  }

  lemma {:induction false} FramesOfEntries(listeners: seq<Listener>, initial: Bufferings,
                                           frames: seq<(string, Buffering)>, connection: string)
    ensures var b := FramesOf(listeners, initial, frames);
            var counts := Known(listeners, connection) && Last(frames, connection).Some?;
            && (connection in b <==> counts || connection in initial)
            && (connection in b ==> b[connection] == if counts then Last(frames, connection).value else initial[connection])
    decreases |frames|
  {
    hide Known;
    if frames != [] {
      FramesOfEntries(listeners, initial, frames[..|frames| - 1], connection);
    }
  }

  lemma {:induction false} StreamsOfEntries(listeners: seq<Listener>, streams: seq<(string, seq<(string, Buffering)>)>, key: string)
    ensures Get(StreamsOf(listeners, streams), key)
         == if Last(streams, key).None? then None else Some(FramesOf(listeners, map[], Last(streams, key).value))
    decreases |streams|
  {
    hide FramesOf;
    if streams != [] {
      var front, last := streams[..|streams| - 1], streams[|streams| - 1];
      StreamsOfEntries(listeners, front, key);
      GetPut(StreamsOf(listeners, front), last.0, FramesOf(listeners, map[], last.1), key);
    }
  }

  // Of the frames a stream is last defined with, those for a connection are stored exactly if they name
  // none or a listener that stands before the streams; the last of them counts. The same holds for the
  // defaults, where the entry for all others is there from the start.
  lemma FrameStored(d: Document, key: string, frames: seq<(string, Buffering)>, connection: string)
    requires IsValid(d) && Last(d.streams, key) == Some(frames)
    ensures var c := Parsed(START, DocumentEvents(d)).config;
            var stored, counts := Get(c.streams, key), connection == "" || Listens(AllMeant(d.before), connection);
            && stored.Some?
            && (connection in stored.value <==> counts && Last(frames, connection).Some?)
            && (connection in stored.value ==> stored.value[connection] == Last(frames, connection).value)
            && (connection in c.defaults <==> (counts && Last(d.defaults, connection).Some?) || connection == "")
            && (counts && Last(d.defaults, connection).Some? ==>
                  c.defaults[connection] == Last(d.defaults, connection).value)
  {
    hide FramesOf, StreamsOf, IsValid, Parsed, DocumentEvents, Listens;
    DocumentRead(d);
    var known := AllMeant(d.before);
    StreamsOfEntries(known, d.streams, key);
    FramesOfEntries(known, map[], frames, connection);
    FramesOfEntries(known, Cleared().defaults, d.defaults, connection);
  }

  // A document with one stream whose frame names a listener that comes later: the listener is read, the
  // stream is stored, and the frame is not.
  function LateListener(l: ListenerText, key: string, b: Buffering): Document {
    Document(false, [], [(key, [(l.connection, b)])], [], [l])
  }

  lemma LateListenerDropsFrame(l: ListenerText, key: string, b: Buffering)
    requires l.connection != "" && -1 <= b.num <= INT32_MAX
    ensures var read := Parsed(START, DocumentEvents(LateListener(l, key, b)));
            && read.ok && HasListener(read.config, l.connection)
            && Get(read.config.streams, key) == Some(map[])
  {
    hide Parsed, DocumentEvents;
    var d := LateListener(l, key, b);
    DocumentRead(d);
    assert AllMeant(d.before) == [] && Said(d).listeners[0] == Meant(l);
    var frames := [(l.connection, b)];
    assert frames[..0] == [] && FramesOf([], map[], frames) == map[];
    StreamsOfEntries([], d.streams, key);
    assert Last(d.streams, key) == Some(frames);
  }

  // An empty connection attribute is not a missing one: without a listener of that name the frame is
  // dropped, although "" is also where a frame without the attribute is stored.
  function EmptyName(key: string): seq<Event> {
    Element("server", map[],
      Element("streams", map[], Element("stream", map["key" := key], Leaf("frame", map["connection" := ""]))))
  }

  lemma EmptyNameDropsFrame(key: string)
    ensures var read := Parsed(START, EmptyName(key));
            read.ok && Get(read.config.streams, key) == Some(map[])
  {
    hide After, Element, Put;
    var frame := Leaf("frame", map["connection" := ""]);
    var stream := Element("stream", map["key" := key], frame);
    var streams := Element("streams", map[], stream);
    AfterElement(START, "server", map[], streams);
    AfterElement(State(InServer, Cleared()), "streams", map[], stream);
    AfterElement(State(InStreams, Cleared()), "stream", map["key" := key], frame);
    AfterLeaf(State(InStream(key, map[]), Cleared()), "frame", map["connection" := ""]);
    GetPut<string, Bufferings>([], key, map[], key);
  }

  // ---- Lookup ----

  predicate EndsWith(text: string, suffix: string) {
    |suffix| <= |text| && text[|text| - |suffix|..] == suffix
  }

  // The setting of a key: of the stream with exactly this key, else of the first stream whose key
  // ends with it.
  function Setting(streams: seq<(string, Bufferings)>, key: string): Option<Bufferings> {
    if Get(streams, key).Some? then Get(streams, key) else FirstEnding(streams, key)
  }

  function FirstEnding(streams: seq<(string, Bufferings)>, key: string): Option<Bufferings> {
    if streams == [] then None
    else if EndsWith(streams[0].0, key) then Some(streams[0].1)
    else FirstEnding(streams[1..], key)
  }

  function FirstOf(options: seq<Option<Buffering>>): Buffering {
    if options == [] then SYSTEM_DEFAULT
    else if options[0].Some? then options[0].value
    else FirstOf(options[1..])
  }

  // The stream's own entry for the connection, then its entry for all others, then the defaults'.
  function Lookup(c: Config, stream: string, connection: string): Buffering {
    var setting, defaults := Setting(c.streams, stream), Some(c.defaults);
    FirstOf([EntryOf(setting, connection), EntryOf(setting, ""), EntryOf(defaults, connection), EntryOf(defaults, "")])
  }

  lemma EndsWithExactly(text: string, suffix: string)
    ensures EndsWith(text, suffix) <==> exists front: string :: text == front + suffix
  {
    if EndsWith(text, suffix) {
      assert text == text[..|text| - |suffix|] + suffix;
    }
  }

  // The setting is that of the first stream with this key; without one, that of the first stream whose key
  // ends with it; else there is none.
  lemma SettingExactly(streams: seq<(string, Bufferings)>, key: string, i: nat)
    requires i < |streams|
    ensures streams[i].0 == key && (forall k :: 0 <= k < i ==> streams[k].0 != key) ==>
              Setting(streams, key) == Some(streams[i].1)
    ensures (forall k :: 0 <= k < |streams| ==> streams[k].0 != key)
            && EndsWith(streams[i].0, key) && (forall k :: 0 <= k < i ==> !EndsWith(streams[k].0, key)) ==>
              Setting(streams, key) == Some(streams[i].1)
    ensures (forall k :: 0 <= k < |streams| ==> !EndsWith(streams[k].0, key)) ==> Setting(streams, key) == None
  {
    hide EndsWith;
    GetFound(streams, key);
    if streams[i].0 == key && forall k :: 0 <= k < i ==> streams[k].0 != key {
      GetAt(streams, i);
    }
    if EndsWith(streams[i].0, key) && forall k :: 0 <= k < i ==> !EndsWith(streams[k].0, key) {
      FirstEndingAt(streams, key, i);
    }
    if forall k :: 0 <= k < |streams| ==> !EndsWith(streams[k].0, key) {
      NoneEnding(streams, key);
      if Get(streams, key).Some? {
        var k :| 0 <= k < |streams| && streams[k].0 == key;
        EndsWithItself(key);
      }
    }
  }

  lemma EndsWithItself(key: string)
    ensures EndsWith(key, key)
  {
  }

  lemma {:induction false} FirstEndingAt(streams: seq<(string, Bufferings)>, key: string, i: nat)
    requires i < |streams| && EndsWith(streams[i].0, key) && forall k :: 0 <= k < i ==> !EndsWith(streams[k].0, key)
    ensures FirstEnding(streams, key) == Some(streams[i].1)
  {
    hide EndsWith;
    if i > 0 {
      assert !EndsWith(streams[0].0, key);
      FirstEndingAt(streams[1..], key, i - 1);
    }
  }

  lemma {:induction false} NoneEnding(streams: seq<(string, Bufferings)>, key: string)
    requires forall k :: 0 <= k < |streams| ==> !EndsWith(streams[k].0, key)
    ensures FirstEnding(streams, key) == None
  {
    hide EndsWith;
    if streams != [] {
      NoneEnding(streams[1..], key);
    }
  }

  // The four entries in their order of precedence, and the built-in one without any.
  lemma LookupExactly(c: Config, stream: string, connection: string)
    ensures var s, found := Setting(c.streams, stream), Lookup(c, stream, connection);
      && (s.Some? && connection in s.value ==> found == s.value[connection])
      && (s.Some? && connection !in s.value && "" in s.value ==> found == s.value[""])
      && ((s.None? || (connection !in s.value && "" !in s.value)) && connection in c.defaults ==>
            found == c.defaults[connection])
      && ((s.None? || (connection !in s.value && "" !in s.value)) && connection !in c.defaults && "" in c.defaults ==>
            found == c.defaults[""])
      && ((s.None? || (connection !in s.value && "" !in s.value)) && connection !in c.defaults && "" !in c.defaults ==>
            found == Buffering(true, 0, DefaultFormat))
    ensures Lookup(Cleared(), stream, connection) == Buffering(true, 0, DefaultFormat)
  {
    hide Setting, FirstOf;
    var setting, defaults := Setting(c.streams, stream), Some(c.defaults);
    FirstOfFour(EntryOf(setting, connection), EntryOf(setting, ""), EntryOf(defaults, connection), EntryOf(defaults, ""));
    var cleared := Some(Cleared().defaults);
    assert Setting([], stream) == None by { NothingSet(stream); }
    FirstOfFour(None, None, EntryOf(cleared, connection), EntryOf(cleared, ""));
  }

  lemma NothingSet(stream: string)
    ensures Setting([], stream) == None
  {
  }

  lemma FirstOfFour(a: Option<Buffering>, b: Option<Buffering>, c: Option<Buffering>, d: Option<Buffering>)
    ensures FirstOf([a, b, c, d])
         == if a.Some? then a.value else if b.Some? then b.value
            else if c.Some? then c.value else if d.Some? then d.value else SYSTEM_DEFAULT
  {
    assert [a, b, c, d][1..] == [b, c, d] && [b, c, d][1..] == [c, d] && [c, d][1..] == [d] && [d][1..] == [];
    assert FirstOf([d]) == if d.Some? then d.value else SYSTEM_DEFAULT;
    assert FirstOf([c, d]) == if c.Some? then c.value else FirstOf([d]);
    assert FirstOf([b, c, d]) == if b.Some? then b.value else FirstOf([c, d]);
  }

  // After reading, an exactly named stream is looked up by its last definition, whatever other keys
  // end with its name.
  lemma LookupAfterReading(events: seq<Event>, key: string, connection: string)
    ensures var last := Last(Definitions(START, events), key);
            last.Some? && connection in last.value ==>
              Lookup(Parsed(START, events).config, key, connection) == last.value[connection]
  {
    LastDefinitionWins(events, key);
  }

  // ---- The class ----

  class ConfigManager {
    var config: Config
    const events: seq<Event>
    var pos: nat

    constructor (events: seq<Event>)
      ensures config == Cleared() && this.events == events && pos == 0
    {
      config, this.events, pos := Cleared(), events, 0;
    }

    ghost predicate Valid()
      reads this
    {
      pos <= |events|
    }

    // What is still to come, read in the given mode.
    ghost function ToCome(mode: Mode): Outcome
      requires Valid()
      reads this
    {
      Parsed(State(mode, config), events[pos..])
    }

    method Parse() returns (more: bool, event: Event)
      requires Valid()
      modifies this`pos
      ensures Valid() && more == (old(pos) < |events|)
      ensures if more then pos == old(pos) + 1 && event == events[old(pos)] else pos == old(pos)
      ensures forall mode :: more ==>
                Parsed(State(mode, config), old(events[pos..]))
                == Parsed(Step(State(mode, config), event), events[pos..])
    {
      more := pos < |events|;
      event := Other;
      if more {
        event := events[pos];
        assert events[pos..][1..] == events[pos + 1..];
        pos := pos + 1;
      }
    }

    method ParseConfig() returns (ok: bool)
      requires Valid()
      modifies this
      ensures Valid()
      ensures Outcome(ok, config) == old(ToCome(Top(false)))
    {
      var success := false;
      var more, event := Parse();
      while more
        invariant Valid() && (!more ==> pos == |events|)
        invariant more ==> Parsed(Step(State(Top(success), config), event), events[pos..]) == old(ToCome(Top(false)))
        invariant !more ==> ToCome(Top(success)) == old(ToCome(Top(false)))
        decreases |events| - pos, more
      {
        if event.Open? && event.name == "server" {
          var status := ParseServer(event);
          if !status {
            return false;
          }
          success := true;
        }
        more, event := Parse();
      }
      return success;
    }

    method ParseServer(start: Event) returns (ok: bool)
      requires Valid() && start.Open?
      modifies this
      ensures Valid() && old(pos) <= pos
      ensures var before := old(Parsed(
                State(InServer, config.(clientEnabled := OnOff(Attribute(start, "client"), config.clientEnabled))),
                events[pos..]));
              before == if ok then ToCome(Top(true)) else Outcome(false, config)
    {
      config := config.(clientEnabled := OnOff(Attribute(start, "client"), config.clientEnabled));
      ghost var before := ToCome(InServer);
      var more, event := Parse();
      while more
        invariant Valid() && old(pos) <= pos && (!more ==> pos == |events|)
        invariant more ==> Parsed(Step(State(InServer, config), event), events[pos..]) == before
        invariant !more ==> ToCome(InServer) == before
        decreases |events| - pos, more
      {
        if event.Open? {
          var status := ParseServerElementNode(event);
          if !status {
            return false;
          }
        } else if event == Close("server") {
          return true;
        }
        more, event := Parse();
      }
      return false;
    }

    method ParseServerElementNode(event: Event) returns (ok: bool)
      requires Valid() && event.Open?
      modifies this
      ensures Valid() && old(pos) <= pos
      ensures var before := old(Parsed(Step(State(InServer, config), event), events[pos..]));
              before == if ok then ToCome(InServer) else Outcome(false, config)
    {
      if event.name == "streams" {
        ok := ParseStreams();
      } else if event.name == "listeners" {
        ok := ParseListeners();
      } else {
        ok := true;
      }
    }

    method ParseStreams() returns (ok: bool)
      requires Valid()
      modifies this
      ensures Valid() && old(pos) <= pos
      ensures old(ToCome(InStreams)) == if ok then ToCome(InServer) else Outcome(false, config)
    {
      var more, event := Parse();
      while more
        invariant Valid() && old(pos) <= pos && (!more ==> pos == |events|)
        invariant more ==> Parsed(Step(State(InStreams, config), event), events[pos..]) == old(ToCome(InStreams))
        invariant !more ==> ToCome(InStreams) == old(ToCome(InStreams))
        decreases |events| - pos, more
      {
        if event.Open? {
          var status := ParseStreamsElementNode(event);
          if !status {
            return false;
          }
        } else if event == Close("streams") {
          return true;
        }
        more, event := Parse();
      }
      return false;
    }

    method ParseStreamsElementNode(event: Event) returns (ok: bool)
      requires Valid() && event.Open?
      modifies this
      ensures Valid() && old(pos) <= pos
      ensures var before := old(Parsed(Step(State(InStreams, config), event), events[pos..]));
              before == if ok then ToCome(InStreams) else Outcome(false, config)
    {
      if event.name == "stream" {
        ok := ParseStream(event);
      } else if event.name == "defaults" {
        ok := ParseDefaults();
      } else {
        ok := true;
      }
    }

    method ParseStream(start: Event) returns (ok: bool)
      requires Valid() && start.Open? && start.name == "stream"
      modifies this
      ensures Valid() && old(pos) <= pos
      ensures var before := old(Parsed(Step(State(InStreams, config), start), events[pos..]));
              before == if ok then ToCome(InStreams) else Outcome(false, config)
    {
      if Attribute(start, "key").None? {
        FailedStays(config, events[pos..]);
        return false;
      }
      var key := start.attributes["key"];
      var buffering;
      ok, buffering := ParseStreamChildNode(key);
      if ok {
        StoreStream(key, buffering);
      }
    }

    // The search loop at the end of ParseStream.
    method StoreStream(key: string, buffering: Bufferings)
      modifies this`config
      ensures config == old(config).(streams := Put(old(config).streams, key, buffering))
    {
      var streams := config.streams;
      var i := 0;
      while i < |streams| && streams[i].0 != key
        invariant i <= |streams| && forall k :: 0 <= k < i ==> streams[k].0 != key
      {
        i := i + 1;
      }
      if i < |streams| {
        PutAt(streams, buffering, i);
        config := config.(streams := streams[i := (key, buffering)]);
      } else {
        PutLast(streams, key, buffering);
        config := config.(streams := streams + [(key, buffering)]);
      }
    }

    method ParseStreamChildNode(ghost key: string) returns (ok: bool, buffering: Bufferings)
      requires Valid()
      modifies this`pos
      ensures Valid() && old(pos) <= pos
      ensures old(ToCome(InStream(key, map[]))) ==
              if ok then
                Parsed(State(InStreams, config.(streams := Put(config.streams, key, buffering))), events[pos..])
              else Outcome(false, config)
    {
      buffering := map[];
      var more, event := Parse();
      while more
        invariant Valid() && old(pos) <= pos && (!more ==> pos == |events|)
        invariant more ==>
                    Parsed(Step(State(InStream(key, buffering), config), event), events[pos..])
                    == old(ToCome(InStream(key, map[])))
        invariant !more ==> ToCome(InStream(key, buffering)) == old(ToCome(InStream(key, map[])))
        decreases |events| - pos, more
      {
        if event.Open? {
          if event.name == "frame" {
            buffering := ParseFrame(event, buffering);
          }
        } else if event == Close("stream") {
          return true, buffering;
        }
        more, event := Parse();
      }
      return false, buffering;
    }

    method ContainsListener(connection: string) returns (contains: bool)
      ensures contains == HasListener(config, connection)
    {
      var i := 0;
      while i < |config.listeners|
        invariant i <= |config.listeners|
        invariant forall k :: 0 <= k < i ==> config.listeners[k].connection != connection
      {
        if config.listeners[i].connection == connection {
          return true;
        }
        i := i + 1;
      }
      return false;
    }

    method ParseFrame(event: Event, before: Bufferings) returns (buffering: Bufferings)
      requires event.Open?
      ensures buffering == Framed(config, before, event)
    {
      buffering := before;
      var connection := Attribute(event, "connection");
      if connection.None? {
        buffering := buffering["" := BufferingOf(event)];
      } else {
        var contains := ContainsListener(connection.value);
        if contains {
          buffering := buffering[connection.value := BufferingOf(event)];
        }
      }
    }

    method ParseDefaults() returns (ok: bool)
      requires Valid()
      modifies this
      ensures Valid() && old(pos) <= pos
      ensures old(ToCome(InDefaults)) == if ok then ToCome(InStreams) else Outcome(false, config)
    {
      var more, event := Parse();
      while more
        invariant Valid() && old(pos) <= pos && (!more ==> pos == |events|)
        invariant more ==> Parsed(Step(State(InDefaults, config), event), events[pos..]) == old(ToCome(InDefaults))
        invariant !more ==> ToCome(InDefaults) == old(ToCome(InDefaults))
        decreases |events| - pos, more
      {
        if event.Open? {
          if event.name == "frame" {
            var defaults := ParseFrame(event, config.defaults);
            config := config.(defaults := defaults);
          }
        } else if event == Close("defaults") {
          return true;
        }
        more, event := Parse();
      }
      return false;
    }

    method ParseListeners() returns (ok: bool)
      requires Valid()
      modifies this
      ensures Valid() && old(pos) <= pos
      ensures old(ToCome(InListeners)) == if ok then ToCome(InServer) else Outcome(false, config)
    {
      var more, event := Parse();
      while more
        invariant Valid() && old(pos) <= pos && (!more ==> pos == |events|)
        invariant more ==> Parsed(Step(State(InListeners, config), event), events[pos..]) == old(ToCome(InListeners))
        invariant !more ==> ToCome(InListeners) == old(ToCome(InListeners))
        decreases |events| - pos, more
      {
        if event.Open? {
          if event.name == "listener" {
            var status := ParseListener(event);
            if !status {
              FailedStays(config, events[pos..]);
              return false;
            }
          }
        } else if event == Close("listeners") {
          return true;
        }
        more, event := Parse();
      }
      return false;
    }

    method ParseListener(event: Event) returns (ok: bool)
      requires event.Open?
      modifies this`config
      ensures ok == ListenerOf(event).Some?
      ensures config == if ok then old(config).(listeners := old(config).listeners + [ListenerOf(event).value])
                        else old(config)
      ensures var a := event.attributes;
              ok <==> "connection" in a && ("address" in a <==> "addressPrimary" !in a)
    {
      var connection := Attribute(event, "connection");
      if connection.None? {
        return false;
      }
      var address := Attribute(event, "address");
      var primary := Attribute(event, "addressPrimary");
      if address.None? {
        if primary.None? {
          return false;
        }
        address := primary;
      } else if primary.Some? {
        return false;
      }
      var secondary := Attribute(event, "addressSecondary");
      var listener :=
        Listener(connection.value, address.value, if secondary.Some? then secondary.value else "");
      config := config.(listeners := config.listeners + [listener]);
      return true;
    }

    // ---- Lookup ----

    // std::string::find from the only place where the suffix can still fit.
    method IsBackwardMatch(target: string, suffix: string) returns (matches: bool)
      ensures matches == EndsWith(target, suffix)
    {
      if |target| < |suffix| {
        return false;
      }
      var at := |target| - |suffix|;
      var i := 0;
      while i < |suffix|
        invariant i <= |suffix| && target[at..at + i] == suffix[..i]
      {
        if target[at + i] != suffix[i] {
          assert target[at..][i] != suffix[i];
          return false;
        }
        assert suffix[..i + 1] == suffix[..i] + [suffix[i]];
        assert target[at..at + i + 1] == target[at..at + i] + [target[at + i]];
        i := i + 1;
      }
      assert suffix[..i] == suffix && target[at..at + i] == target[at..];
      return true;
    }

    method GetStreamSetting(key: string) returns (result: Option<Bufferings>)
      ensures result == Setting(config.streams, key)
    {
      var streams := config.streams;
      result := None;
      var i := 0;
      while i < |streams|
        invariant i <= |streams|
        invariant Get(streams, key) == Get(streams[i..], key)
        invariant FirstEnding(streams, key) == if result.Some? then result else FirstEnding(streams[i..], key)
      {
        assert streams[i..][1..] == streams[i + 1..];
        if streams[i].0 == key {
          return Some(streams[i].1);
        }
        if result.None? {
          var matches := IsBackwardMatch(streams[i].0, key);
          if matches {
            result := Some(streams[i].1);
          }
        }
        i := i + 1;
      }
    }

    method GetStreamConfigByStreamKey(stream: string, connection: string) returns (buffering: Buffering)
      ensures buffering == Lookup(config, stream, connection)
    {
      FirstOfFour(EntryOf(Setting(config.streams, stream), connection), EntryOf(Setting(config.streams, stream), ""),
                  EntryOf(Some(config.defaults), connection), EntryOf(Some(config.defaults), ""));
      buffering := SYSTEM_DEFAULT;
      var setting := GetStreamSetting(stream);
      if setting.Some? {
        if connection in setting.value {
          return setting.value[connection];
        }
        if "" in setting.value {
          return setting.value[""];
        }
      }
      if connection in config.defaults {
        return config.defaults[connection];
      }
      if "" in config.defaults {
        buffering := config.defaults[""];
      }
    }
  }
}
