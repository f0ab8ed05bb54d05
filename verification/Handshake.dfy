/** websocket.c: the opening handshake of a client, section 4.2.1 of RFC 6455. */
module Handshake {
  import opened Wrappers
  import opened CStrings

  const CRLF := "\r\n"
  const BLANK_LINE := "\r\n\r\n"
  const CONNECTION_FIELD := "Connection: "
  const UPGRADE := "upgrade"
  const UPGRADE_FIELD := "Upgrade: "
  const WEBSOCKET := "websocket"
  const HOST_FIELD := "Host: "
  const ORIGIN_FIELD := "Origin: "
  const KEY_FIELD := "Sec-WebSocket-Key: "
  const PROTOCOL_FIELD := "Sec-WebSocket-Protocol: "
  const VERSION_FIELD := "Sec-WebSocket-Version: "
  const VERSION := "13"

  /** Undefined stands for a resource that does not fit in the memory allocated for it. */
  datatype FrameType = EmptyFrame | ErrorFrame | IncompleteFrame | OpeningFrame | Undefined

  datatype Fields = Fields(host: Option<string>, origin: Option<string>, key: Option<string>)

  /** Everything the scanning loop keeps: the fields found so far and its four flags. */
  datatype Scan = Scan(fields: Fields, connection: bool, upgrade: bool, subprotocol: bool, mismatch: bool)

  function Begin(f: Fields): Scan {
    Scan(f, false, false, false, false)
  }

  /** The length of a copied value is kept in a uint8_t. */
  function Cut(v: string): string {
    v[..|v| % 256]
  }

  /** The names the loop looks for, in the order of its tests. */
  datatype Name = Host | Origin | Protocol | Key | Version | Connection | Upgrade | Other

  function Field(n: Name): string {
    match n
    case Host => HOST_FIELD
    case Origin => ORIGIN_FIELD
    case Protocol => PROTOCOL_FIELD
    case Key => KEY_FIELD
    case Version => VERSION_FIELD
    case Connection => CONNECTION_FIELD
    case Upgrade => UPGRADE_FIELD
    case Other => ""
  }

  /** The chain of comparisons at one position of the text. */
  function NameAt(text: string, at: nat): (n: Name)
    ensures n != Other ==> StartsAt(text, at, Field(n))
  {
    if StartsAt(text, at, HOST_FIELD) then Host
    else if StartsAt(text, at, ORIGIN_FIELD) then Origin
    else if StartsAt(text, at, PROTOCOL_FIELD) then Protocol
    else if StartsAt(text, at, KEY_FIELD) then Key
    else if StartsAt(text, at, VERSION_FIELD) then Version
    else if StartsAt(text, at, CONNECTION_FIELD) then Connection
    else if StartsAt(text, at, UPGRADE_FIELD) then Upgrade
    else Other
  }

  /** What one header line does. */
  function Effect(s: Scan, line: string): Scan {
    var n := NameAt(line, 0);
    var v := if n == Other then "" else Cut(line[|Field(n)|..]);
    match n
    case Host => s.(fields := s.fields.(host := Some(v)))
    case Origin => s.(fields := s.fields.(origin := Some(v)))
    case Protocol => s.(subprotocol := true)
    case Key => s.(fields := s.fields.(key := Some(v)))
    case Version => s.(mismatch := s.mismatch || !(VERSION <= v))
    case Connection => s.(connection := s.connection || Contains(Lower(v), UPGRADE))
    case Upgrade => s.(upgrade := s.upgrade || WEBSOCKET <= Lower(v))
    case Other => s
  }

  /** The test that ends the loop at position at: the end of the data, a CR, or an LF one character further. */
  predicate Stops(text: string, at: nat) {
    at >= |text| || text[at] == '\r' || (at + 1 < |text| && text[at + 1] == '\n')
  }

  /** The scanning loop from position at on; None when a line has no end. */
  function ScanFrom(text: string, at: nat, s: Scan): Option<Scan>
    decreases |text| - at
  {
    if Stops(text, at) then Some(s)
    else
      var end := IndexOf(text, CRLF, at);
      if end < 0 then None else ScanFrom(text, end + 2, Effect(s, text[at..end]))
  }

  predicate Accepts(s: Scan) {
    s.fields.host.Some? && s.fields.key.Some? && s.connection && s.upgrade && !s.subprotocol && !s.mismatch
  }

  function SkipSpaces(text: string, at: nat): (i: nat)
    ensures i >= at
    decreases |text| - at
  {
    if at < |text| && IsSpace(text[at]) then SkipSpaces(text, at + 1) else at
  }

  function TokenEnd(text: string, at: nat): (i: nat)
    ensures i >= at
    decreases |text| - at
  {
    if at < |text| && !IsSpace(text[at]) then TokenEnd(text, at + 1) else at
  }

  /** What sscanf(text, "GET %s ...", resource) stores, None when it converts nothing. */
  function Resource(text: string): Option<string>
    requires "GET " <= text
  {
    var start := SkipSpaces(text, 4);
    var end := TokenEnd(text, start);
    if start < end <= |text| then Some(text[start..end]) else None
  }

  /** A handshake request is looked at only once its blank line has arrived and it starts with GET and a resource. */
  predicate HasRequestLine(text: string) {
    && "GET " <= text
    && IndexOf(text, " ", 4) >= 0
    && Resource(text).Some?
  }

  /** The memory is measured from the first blank to the second, with one byte for the zero. */
  predicate ResourceFits(text: string)
    requires HasRequestLine(text)
  {
    |Resource(text).value| <= IndexOf(text, " ", 4) - 4
  }

  /** The answer to a request, with what earlier requests have left in the fields. */
  function Answer(text: string, found: Fields): FrameType {
    if !Contains(text, BLANK_LINE) then IncompleteFrame
    else if !HasRequestLine(text) then ErrorFrame
    else if !ResourceFits(text) then Undefined
    else
      match ScanFrom(text, AfterRequestLine(text), Begin(found))
      case None => ErrorFrame
      case Some(s) => if Accepts(s) then OpeningFrame else ErrorFrame
  }

  /** The text that getUptoLinefeed copies. */
  function UptoLinefeed(text: string, from: nat): string {
    var end := IndexOf(text, CRLF, from);
    if end < 0 then "" else Cut(text[from..end])
  }

  method GetUptoLinefeed(text: string, from: nat) returns (v: string)
    ensures v == UptoLinefeed(text, from)
  {
    var newLength := 0;
    var found := IndexOf(text, CRLF, from);
    if found >= 0 {
      newLength := (found - from) % 256;
      v := text[from..from + newLength];
    } else {
      v := "";
    }
  }

  /** The names of the fields contain no CR. */
  predicate NoCR(s: string) {
    forall i | 0 <= i < |s| :: s[i] != '\r'
  }

  lemma NamesHaveNoCR(n: Name)
    ensures NoCR(Field(n))
  {
  }

  /** Testing for a name at this position of the text or at the start of its line is the same. */
  lemma NameInLine(text: string, at: nat, name: string)
    requires NoCR(name) && IndexOf(text, CRLF, at) >= 0
    ensures StartsAt(text, at, name) <==> StartsAt(text[at..IndexOf(text, CRLF, at)], 0, name)
  {
    var end := IndexOf(text, CRLF, at);
    var line := text[at..end];
    if StartsAt(line, 0, name) {
      assert text[at..at + |name|] == line[0..|name|];
    }
    if StartsAt(text, at, name) {
      LineAfterName(text, at, name);
      assert line[0..|name|] == text[at..at + |name|];
    }
  }

  /** So the line ends where it ends when searched from after the name. */
  lemma LineAfterName(text: string, at: nat, name: string)
    requires StartsAt(text, at, name) && NoCR(name)
    ensures IndexOf(text, CRLF, at + |name|) == IndexOf(text, CRLF, at)
  {
    forall j: nat | at <= j < at + |name|
      ensures !StartsAt(text, j, CRLF)
    {
      assert text[j] == text[at..at + |name|][j - at] == name[j - at];
    }
    SkipTo(text, CRLF, at, at + |name|);
  }

  /** The value of the field called name in the line at this position. */
  lemma ValueInLine(text: string, at: nat, name: string)
    requires StartsAt(text, at, name) && NoCR(name)
    ensures IndexOf(text, CRLF, at + |name|) == IndexOf(text, CRLF, at)
    ensures IndexOf(text, CRLF, at) >= 0 ==>
              var line := text[at..IndexOf(text, CRLF, at)];
              |name| <= |line| && UptoLinefeed(text, at + |name|) == Cut(line[|name|..])
  {
    LineAfterName(text, at, name);
    var end := IndexOf(text, CRLF, at);
    if end >= 0 {
      NameInLine(text, at, name);
      assert text[at..end][|name|..] == text[at + |name|..end];
    }
  }

  /** The chain of comparisons sees only the line it is in. */
  lemma NameOfLine(text: string, at: nat)
    requires IndexOf(text, CRLF, at) >= 0
    ensures NameAt(text, at) == NameAt(text[at..IndexOf(text, CRLF, at)], 0)
  {
    var line := text[at..IndexOf(text, CRLF, at)];
    hide NoCR, StartsAt, IndexOf;
    forall n: Name
      ensures StartsAt(text, at, Field(n)) <==> StartsAt(line, 0, Field(n))
    {
      NamesHaveNoCR(n);
      NameInLine(text, at, Field(n));
    }
    assert Field(Host) == HOST_FIELD && Field(Origin) == ORIGIN_FIELD && Field(Protocol) == PROTOCOL_FIELD;
    assert Field(Key) == KEY_FIELD && Field(Version) == VERSION_FIELD;
    assert Field(Connection) == CONNECTION_FIELD && Field(Upgrade) == UPGRADE_FIELD;
  }

  /** No line starts with two of the names, so the order of the comparisons is immaterial. */
  lemma NameIs(l: string, n: Name)
    requires n != Other
    ensures NameAt(l, 0) == n <==> Field(n) <= l
  {
    hide NameAt, Field;
    NameAtIsFirst(l, n);
    var m := NameAt(l, 0);
    if m != Other {
      assert Field(m) <= l;
      if Field(n) <= l {
        NamesDiffer(l, m, n);
      }
    }
  }

  lemma NameAtIsFirst(l: string, n: Name)
    requires n != Other
    ensures NameAt(l, 0) == Other ==> !(Field(n) <= l)
  {
    if Field(n) <= l {
      assert l[0..|Field(n)|] == Field(n);
    }
  }

  lemma NamesDiffer(l: string, m: Name, n: Name)
    requires m != Other && n != Other && Field(m) <= l && Field(n) <= l
    ensures m == n
  {
    assert l[0] == Field(m)[0] == Field(n)[0];
    if |Field(m)| > 14 && |Field(n)| > 14 {
      assert l[14] == Field(m)[14] == Field(n)[14];
    }
  }

  lemma BlankLineEndsLine(text: string)
    requires Contains(text, BLANK_LINE)
    ensures IndexOf(text, CRLF, 0) >= 0
  {
    var b := IndexOf(text, BLANK_LINE, 0);
    assert text[b..b + 2] == text[b..b + 4][..2];
    assert StartsAt(text, b, CRLF);
  }

  /** The position after the request line. */
  function AfterRequestLine(text: string): nat {
    var end := IndexOf(text, CRLF, 0);
    if end < 0 then |text| else end + 2
  }

  class HandshakeData {
    var host: Option<string>
    var origin: Option<string>
    var key: Option<string>
    var resource: Option<string>
    var frameType: FrameType

    /** nullHandshake */
    constructor ()
      ensures host == None && origin == None && key == None && resource == None && frameType == EmptyFrame
    {
      host, origin, key, resource, frameType := None, None, None, None, EmptyFrame;
    }

    function Found(): Fields
      reads this
    {
      Fields(host, origin, key)
    }

    /** One turn of the loop up to the step to the next line: at moves behind the name of the field. */
    method ScanField(text: string, at0: nat, flags: Scan) returns (at: nat, s: Scan)
      requires flags.fields == Found()
      modifies this`host, this`origin, this`key
      ensures s.fields == Found()
      ensures IndexOf(text, CRLF, at) == IndexOf(text, CRLF, at0)
      ensures var end := IndexOf(text, CRLF, at0);
              end >= 0 ==> s == Effect(flags, text[at0..end])
    {
      hide IndexOf, StartsAt, NoCR, Cut, UptoLinefeed, Contains, Lower, NameAt, Field;
      at, s := at0, flags;
      if IndexOf(text, CRLF, at) >= 0 {
        NameOfLine(text, at);
      }
      var n := NameAt(text, at);
      if n == Other {
        return;
      }
      NamesHaveNoCR(n);
      ValueInLine(text, at, Field(n));
      at := at + |Field(n)|;
      if n == Protocol {
        s := s.(subprotocol := true);
        return;
      }
      var v := GetUptoLinefeed(text, at);
      if n == Host {
        host := Some(v);
        s := s.(fields := s.fields.(host := Some(v)));
      } else if n == Origin {
        origin := Some(v);
        s := s.(fields := s.fields.(origin := Some(v)));
      } else if n == Key {
        key := Some(v);
        s := s.(fields := s.fields.(key := Some(v)));
      } else if n == Version {
        if !(VERSION <= v) {
          s := s.(mismatch := true);
        }
      } else if n == Connection {
        if Contains(Lower(v), UPGRADE) {
          s := s.(connection := true);
        }
      } else {
        if WEBSOCKET <= Lower(v) {
          s := s.(upgrade := true);
        }
      }
    }

    /** wsParseHandshake, for an input frame that holds exactly the C string text. */
    method ParseHandshake(text: string) returns (r: FrameType)
      modifies this
      ensures r == Answer(text, old(Found()))
      ensures r == IncompleteFrame ==> Found() == old(Found()) && resource == old(resource)
      ensures Contains(text, BLANK_LINE) && !HasRequestLine(text) ==> Found() == old(Found())
      ensures Contains(text, BLANK_LINE) && HasRequestLine(text) && ResourceFits(text) ==>
                var end := ScanFrom(text, AfterRequestLine(text), Begin(old(Found())));
                end.Some? ==> Found() == end.value.fields && resource == Resource(text) && r == frameType
    {
      hide IndexOf, StartsAt, Contains, Accepts, Resource, Effect;
      if !Contains(text, BLANK_LINE) {
        return IncompleteFrame;
      }
      if !("GET " <= text) {
        return ErrorFrame;
      }
      var second := IndexOf(text, " ", 4);
      if second < 0 {
        return ErrorFrame;
      }
      resource := Resource(text);
      if resource.None? {
        return ErrorFrame;
      }
      if |resource.value| > second - 4 {
        return Undefined;
      }
      BlankLineEndsLine(text);
      var at: nat := IndexOf(text, CRLF, 0) + 2;
      var s := Begin(Found());
      ghost var goal := ScanFrom(text, at, s);
      while !Stops(text, at)
        invariant s.fields == Found() && resource == Resource(text)
        invariant ScanFrom(text, at, s) == goal
        decreases |text| - at
      {
        ghost var end := IndexOf(text, CRLF, at);
        at, s := ScanField(text, at, s);
        var next := IndexOf(text, CRLF, at);
        if next >= 0 {
          at := next + 2;
        } else {
          return ErrorFrame;
        }
      }
      frameType := if Accepts(s) then OpeningFrame else ErrorFrame;
      return frameType;
    }
  }

  // ---- the memory for the resource --------------------------------------------------

  lemma {:induction false} BlankAfterSpaces(text: string, at: nat)
    requires IndexOf(text, " ", at) >= 0
    ensures IndexOf(text, " ", at) < SkipSpaces(text, at)
         || (SkipSpaces(text, at) <= TokenEnd(text, SkipSpaces(text, at)) <= IndexOf(text, " ", at))
    decreases |text| - at
  {
    var blank := IndexOf(text, " ", at);
    assert text[blank] == text[blank..blank + 1][0];
    if at < |text| && IsSpace(text[at]) {
      if blank > at {
        assert !StartsAt(text, at, " ");
        BlankAfterSpaces(text, at + 1);
      }
    } else {
      TokenBeforeSpace(text, at, blank);
    }
  }

  lemma {:induction false} TokenBeforeSpace(text: string, at: nat, blank: nat)
    requires at <= blank < |text| && IsSpace(text[blank])
    ensures at <= TokenEnd(text, at) <= blank
    decreases blank - at
  {
    if !IsSpace(text[at]) {
      TokenBeforeSpace(text, at + 1, blank);
    }
  }

  /**
   * The resource fits exactly if no blank stands among the white space before it, or if at least as many
   * other white-space characters stand before that blank as the resource is long. So after GET and one
   * blank it fits exactly if no second blank follows, other white space aside.
   */
  lemma ResourceFitsExactly(text: string)
    requires HasRequestLine(text)
    ensures var start, blank := SkipSpaces(text, 4), IndexOf(text, " ", 4);
            ResourceFits(text) <==> start <= blank || |Resource(text).value| <= blank - 4
    ensures |text| > 4
    ensures text[4] == ' ' || !IsSpace(text[4]) ==> (ResourceFits(text) <==> text[4] != ' ')
  {
    var start, blank := SkipSpaces(text, 4), IndexOf(text, " ", 4);
    assert text[blank] == text[blank..blank + 1][0];
    BlankAfterSpaces(text, 4);
    if text[4] == ' ' {
      assert StartsAt(text, 4, " ") by {
        assert text[4..5] == " ";
      }
    }
  }

  // ---- the loop always reaches the blank line -----------------------------------

  /** Once the blank line has arrived, no header line is left without its end. */
  lemma {:induction false} NeverRunsOut(text: string, at: nat, s: Scan, blank: nat)
    requires StartsAt(text, blank, BLANK_LINE) && (at <= blank || at == blank + 2)
    ensures ScanFrom(text, at, s).Some?
    decreases |text| - at
  {
    hide Effect, IndexOf;
    assert text[blank..blank + 4] == BLANK_LINE;
    assert text[blank] == BLANK_LINE[0] && text[blank + 2] == BLANK_LINE[2];
    if !Stops(text, at) {
      assert text[blank..blank + 2] == text[blank..blank + 4][..2];
      assert StartsAt(text, blank, CRLF);
      var end := IndexOf(text, CRLF, at);
      assert text[end + 1] == text[end..end + 2][1];
      NeverRunsOut(text, end + 2, Effect(s, text[at..end]), blank);
    }
  }

  /** So wsParseHandshake never leaves its loop through the error exit. */
  lemma ScanCompletes(text: string, s: Scan)
    requires Contains(text, BLANK_LINE)
    ensures ScanFrom(text, AfterRequestLine(text), s).Some?
  {
    BlankLineEndsLine(text);
    var blank, end := IndexOf(text, BLANK_LINE, 0), IndexOf(text, CRLF, 0);
    assert text[blank] == text[blank..blank + 4][0];
    assert text[end + 1] == text[end..end + 2][1];
    assert text[blank..blank + 2] == text[blank..blank + 4][..2];
    assert StartsAt(text, blank, CRLF);
    NeverRunsOut(text, end + 2, s, blank);
  }

  // ---- well-formed requests: the order of the header lines does not matter ---------------

  /** A header line without its end: not empty, and neither CR nor LF in it. */
  predicate IsLine(l: string) {
    l != "" && forall i | 0 <= i < |l| :: l[i] != '\r' && l[i] != '\n'
  }

  predicate AreLines(ls: seq<string>) {
    forall i | 0 <= i < |ls| :: IsLine(ls[i])
  }

  function Block(ls: seq<string>): string {
    if ls == [] then "" else ls[0] + CRLF + Block(ls[1..])
  }

  /** The lines taken one by one, each once, in order. */
  function Fold(s: Scan, ls: seq<string>): Scan
    decreases |ls|
  {
    if ls == [] then s else Fold(Effect(s, ls[0]), ls[1..])
  }

  /** The loop visits each header line exactly once, in order, and stops at the blank line. */
  lemma {:induction false} ScanIsFold(before: string, ls: seq<string>, rest: string, s: Scan)
    requires AreLines(ls)
    ensures ScanFrom(before + (Block(ls) + CRLF + rest), |before|, s) == Some(Fold(s, ls))
    decreases |ls|
  {
    hide Effect, IndexOf, IsLine;
    var text, at := before + (Block(ls) + CRLF + rest), |before|;
    if ls == [] {
      assert text[at] == CRLF[0];
    } else {
      var l, tail := ls[0], Block(ls[1..]) + CRLF + rest;
      assert IsLine(ls[0]);
      Regroup(before, l, Block(ls[1..]), rest);
      LineEnd(before, l, tail);
      assert |before + l + CRLF| == at + |l| + 2;
      ScanIsFold(before + l + CRLF, ls[1..], rest, Effect(s, l));
    }
  }

  lemma Regroup(before: string, l: string, block: string, rest: string)
    ensures before + ((l + CRLF + block) + CRLF + rest) == (before + l + CRLF) + (block + CRLF + rest)
  {
  }

  lemma Middle(before: string, l: string, tail: string)
    ensures var text, at := (before + l + CRLF) + tail, |before|;
            |text| >= at + |l| + 2 && text[at..at + |l|] == l && text[at + |l|..at + |l| + 2] == CRLF
  {
  }

  lemma LineEnd(before: string, l: string, tail: string)
    requires IsLine(l)
    ensures var text := (before + l + CRLF) + tail;
            !Stops(text, |before|) && IndexOf(text, CRLF, |before|) == |before| + |l|
            && text[|before|..|before| + |l|] == l
  {
    hide IndexOf, Stops, IsLine;
    Middle(before, l, tail);
    LineEndAt((before + l + CRLF) + tail, |before|, l);
  }

  lemma LineEndAt(text: string, at: nat, l: string)
    requires IsLine(l) && at + |l| + 2 <= |text|
    requires text[at..at + |l|] == l && text[at + |l|..at + |l| + 2] == CRLF
    ensures !Stops(text, at) && IndexOf(text, CRLF, at) == at + |l|
  {
    hide IndexOf;
    forall i | 0 <= i < |l|
      ensures text[at + i] == l[i]
    {
      assert text[at + i] == text[at..at + |l|][i];
    }
    assert text[at + |l|] == text[at + |l|..at + |l| + 2][0] == '\r';
    assert text[at] == l[0];
    assert text[at + 1] == if |l| > 1 then l[1] else '\r';
    forall j: nat | at <= j < at + |l|
      ensures !StartsAt(text, j, CRLF)
    {
      assert text[j] == text[at + (j - at)] == l[j - at];
    }
    FoundAt(text, CRLF, at, at + |l|);
  }

  /** The value a line gives to the field called n. */
  function ValueOf(l: string, n: Name): string {
    if |Field(n)| <= |l| then Cut(l[|Field(n)|..]) else ""
  }

  predicate IsHost(l: string) { NameAt(l, 0) == Host }
  predicate IsKey(l: string) { NameAt(l, 0) == Key }
  predicate IsProtocol(l: string) { NameAt(l, 0) == Protocol }

  predicate SaysUpgrade(l: string) {
    NameAt(l, 0) == Connection && Contains(Lower(ValueOf(l, Connection)), UPGRADE)
  }

  predicate SaysWebSocket(l: string) {
    NameAt(l, 0) == Upgrade && WEBSOCKET <= Lower(ValueOf(l, Upgrade))
  }

  predicate SaysOtherVersion(l: string) {
    NameAt(l, 0) == Version && !(VERSION <= ValueOf(l, Version))
  }

  ghost predicate Any(ls: seq<string>, p: string -> bool) {
    exists i :: 0 <= i < |ls| && p(ls[i])
  }

  lemma AnyStep(ls: seq<string>, p: string -> bool)
    requires ls != []
    ensures Any(ls, p) <==> p(ls[0]) || Any(ls[1..], p)
  {
    if i :| 1 <= i < |ls| && p(ls[i]) {
      assert p(ls[1..][i - 1]);
    }
  }

  lemma AnySame(ls: seq<string>, ms: seq<string>, p: string -> bool)
    requires multiset(ls) == multiset(ms)
    ensures Any(ls, p) == Any(ms, p)
  {
    SameMembers(ls, ms);
    if i :| 0 <= i < |ls| && p(ls[i]) {
      assert ls[i] in ms;
    }
    if i :| 0 <= i < |ms| && p(ms[i]) {
      assert ms[i] in ls;
    }
  }

  lemma SameMembers(ls: seq<string>, ms: seq<string>)
    requires multiset(ls) == multiset(ms)
    ensures forall l :: l in ls <==> l in ms
  {
    assert forall l :: l in ls <==> l in multiset(ls);
    assert forall l :: l in ms <==> l in multiset(ms);
  }

  /** Section 4.2.1 as this server checks it, of the lines as a collection. */
  ghost predicate Grantable(ls: seq<string>) {
    && Any(ls, IsHost)
    && Any(ls, IsKey)
    && Any(ls, SaysUpgrade)
    && Any(ls, SaysWebSocket)
    && !Any(ls, IsProtocol)
    && !Any(ls, SaysOtherVersion)
  }

  /** What one line adds to each of the things the verdict looks at. */
  lemma EffectAdds(s: Scan, l: string)
    ensures var e := Effect(s, l);
      && (e.fields.host.Some? <==> s.fields.host.Some? || IsHost(l))
      && (e.fields.key.Some? <==> s.fields.key.Some? || IsKey(l))
      && (e.connection <==> s.connection || SaysUpgrade(l))
      && (e.upgrade <==> s.upgrade || SaysWebSocket(l))
      && (e.subprotocol <==> s.subprotocol || IsProtocol(l))
      && (e.mismatch <==> s.mismatch || SaysOtherVersion(l))
  {
    hide Contains, Lower, Cut, NameAt, Field;
  }

  lemma {:induction false} FoldAdds(s: Scan, ls: seq<string>)
    ensures var e := Fold(s, ls);
      && (e.fields.host.Some? <==> s.fields.host.Some? || Any(ls, IsHost))
      && (e.fields.key.Some? <==> s.fields.key.Some? || Any(ls, IsKey))
      && (e.connection <==> s.connection || Any(ls, SaysUpgrade))
      && (e.upgrade <==> s.upgrade || Any(ls, SaysWebSocket))
      && (e.subprotocol <==> s.subprotocol || Any(ls, IsProtocol))
      && (e.mismatch <==> s.mismatch || Any(ls, SaysOtherVersion))
    decreases |ls|
  {
    hide Effect, IsHost, IsKey, IsProtocol, SaysUpgrade, SaysWebSocket, SaysOtherVersion;
    if ls != [] {
      EffectAdds(s, ls[0]);
      FoldAdds(Effect(s, ls[0]), ls[1..]);
      AnyStep(ls, IsHost);
      AnyStep(ls, IsKey);
      AnyStep(ls, SaysUpgrade);
      AnyStep(ls, SaysWebSocket);
      AnyStep(ls, IsProtocol);
      AnyStep(ls, SaysOtherVersion);
    }
  }

  const NOTHING := Fields(None, None, None)

  /** The verdict on a well-formed request is a property of its header lines as a collection. */
  lemma Verdict(ls: seq<string>)
    ensures Accepts(Fold(Begin(NOTHING), ls)) <==> Grantable(ls)
  {
    FoldAdds(Begin(NOTHING), ls);
  }

  lemma EffectOnFields(s: Scan, l: string)
    ensures Effect(s, l).fields.host == if IsHost(l) then Some(ValueOf(l, Host)) else s.fields.host
    ensures Effect(s, l).fields.key == if IsKey(l) then Some(ValueOf(l, Key)) else s.fields.key
  {
    hide Cut, Contains, Lower, NameAt, Field;
  }

  /** All lines of one kind agree on being l. */
  ghost predicate Agree(ls: seq<string>, p: string -> bool, l: string) {
    forall i :: 0 <= i < |ls| && p(ls[i]) ==> ls[i] == l
  }

  lemma {:induction false} HostIs(s: Scan, ls: seq<string>, l: string)
    requires IsHost(l) && Agree(ls, IsHost, l)
    requires l in ls || s.fields.host == Some(ValueOf(l, Host))
    ensures Fold(s, ls).fields.host == Some(ValueOf(l, Host))
    decreases |ls|
  {
    hide ValueOf, Effect, NameAt;
    if ls != [] {
      EffectOnFields(s, ls[0]);
      assert IsHost(ls[0]) ==> ls[0] == l;
      assert forall i :: 0 <= i < |ls[1..]| ==> ls[1..][i] == ls[i + 1];
      HostIs(Effect(s, ls[0]), ls[1..], l);
    }
  }

  lemma {:induction false} KeyIs(s: Scan, ls: seq<string>, l: string)
    requires IsKey(l) && Agree(ls, IsKey, l)
    requires l in ls || s.fields.key == Some(ValueOf(l, Key))
    ensures Fold(s, ls).fields.key == Some(ValueOf(l, Key))
    decreases |ls|
  {
    hide ValueOf, Effect, NameAt;
    if ls != [] {
      EffectOnFields(s, ls[0]);
      assert IsKey(ls[0]) ==> ls[0] == l;
      assert forall i :: 0 <= i < |ls[1..]| ==> ls[1..][i] == ls[i + 1];
      KeyIs(Effect(s, ls[0]), ls[1..], l);
    }
  }

  lemma AgreeSame(ls: seq<string>, ms: seq<string>, p: string -> bool, l: string)
    requires multiset(ls) == multiset(ms) && Agree(ls, p, l)
    ensures Agree(ms, p, l)
  {
    SameMembers(ls, ms);
    forall i | 0 <= i < |ms| && p(ms[i])
      ensures ms[i] == l
    {
      assert ms[i] in ls;
    }
  }

  /** Permuting the header lines does not change the verdict. */
  lemma VerdictOrderIndependent(ls: seq<string>, ms: seq<string>)
    requires multiset(ls) == multiset(ms)
    ensures Accepts(Fold(Begin(NOTHING), ls)) == Accepts(Fold(Begin(NOTHING), ms))
  {
    hide Accepts;
    Verdict(ls);
    Verdict(ms);
    AnySame(ls, ms, IsHost);
    AnySame(ls, ms, IsKey);
    AnySame(ls, ms, SaysUpgrade);
    AnySame(ls, ms, SaysWebSocket);
    AnySame(ls, ms, IsProtocol);
    AnySame(ls, ms, SaysOtherVersion);
  }

  /** Nor does it change the host, when the request says only one, or the key likewise. */
  lemma FieldsOrderIndependent(ls: seq<string>, ms: seq<string>, h: string, k: string)
    requires multiset(ls) == multiset(ms) && h in ls && k in ls
    requires IsHost(h) && Agree(ls, IsHost, h) && IsKey(k) && Agree(ls, IsKey, k)
    ensures forall x | x in {ls, ms} ::
              && Fold(Begin(NOTHING), x).fields.host == Some(ValueOf(h, Host))
              && Fold(Begin(NOTHING), x).fields.key == Some(ValueOf(k, Key))
  {
    hide ValueOf, IsHost, IsKey, Fold;
    SameMembers(ls, ms);
    AgreeSame(ls, ms, IsHost, h);
    AgreeSame(ls, ms, IsKey, k);
    HostIs(Begin(NOTHING), ls, h);
    HostIs(Begin(NOTHING), ms, h);
    KeyIs(Begin(NOTHING), ls, k);
    KeyIs(Begin(NOTHING), ms, k);
  }

  /** A value is copied whole exactly when it is shorter than 256 characters. */
  lemma CutIsWhole(v: string)
    ensures Cut(v) == v <==> |v| < 256
  {
  }

  // ---- the whole request ----------------------------------------------------------

  /** GET, a resource, the rest of the request line, the header lines, the blank line and what follows it. */
  function Request(resource: string, tail: string, ls: seq<string>, rest: string): string {
    ("GET " + resource + " " + tail + CRLF) + (Block(ls) + CRLF + rest)
  }

  /** A resource name without white space, and a rest of the request line without CR. */
  predicate IsRequestLine(resource: string, tail: string) {
    && resource != "" && (forall i | 0 <= i < |resource| :: !IsSpace(resource[i]))
    && forall i | 0 <= i < |tail| :: tail[i] != '\r'
  }

  lemma {:induction false} TokenEndAt(text: string, at: nat, end: nat)
    requires at <= end < |text| && (forall j | at <= j < end :: !IsSpace(text[j])) && IsSpace(text[end])
    ensures TokenEnd(text, at) == end
    decreases end - at
  {
    if at < end {
      TokenEndAt(text, at + 1, end);
    }
  }

  /** The request line of a well-formed request is read, whatever follows it. */
  lemma RequestLineRead(resource: string, tail: string, after: string)
    requires IsRequestLine(resource, tail)
    ensures var text := ("GET " + resource + " " + tail + CRLF) + after;
            HasRequestLine(text) && ResourceFits(text) && Resource(text) == Some(resource)
            && AfterRequestLine(text) == |"GET " + resource + " " + tail + CRLF|
  {
    hide IndexOf;
    var first := "GET " + resource + " " + tail;
    var text, end := (first + CRLF) + after, 4 + |resource|;
    assert forall i | 0 <= i < |resource| :: text[4 + i] == resource[i];
    assert text[end..end + 1] == " ";
    assert StartsAt(text, end, " ");
    assert !IsSpace(text[4]) by { assert text[4] == resource[0]; }
    TokenEndAt(text, 4, end);
    assert text[4..end] == resource;
    ResourceFitsExactly(text);
    assert NoCR(first);
    assert text[|first|..|first| + 2] == CRLF;
    forall j: nat | j < |first|
      ensures !StartsAt(text, j, CRLF)
    {
      assert text[j] == first[j];
    }
    FoundAt(text, CRLF, 0, |first|);
  }

  lemma BlankLineThere(ls: seq<string>, before: string, rest: string)
    requires |before| >= 2 && before[|before| - 2..] == CRLF
    ensures Contains(before + (Block(ls) + CRLF + rest), BLANK_LINE)
  {
    hide IndexOf;
    var b := before + Block(ls);
    BlockEnds(ls, before);
    var text := before + (Block(ls) + CRLF + rest);
    assert text == b + CRLF + rest;
    assert text[|b| - 2..|b| + 2] == b[|b| - 2..] + CRLF == BLANK_LINE;
    assert StartsAt(text, |b| - 2, BLANK_LINE);
  }

  lemma {:induction false} BlockEnds(ls: seq<string>, before: string)
    requires |before| >= 2 && before[|before| - 2..] == CRLF
    ensures var b := before + Block(ls); b[|b| - 2..] == CRLF
    decreases |ls|
  {
    if ls == [] {
      assert before + "" == before;
    } else {
      BlockEnds(ls[1..], before + ls[0] + CRLF);
      assert before + Block(ls) == before + ls[0] + CRLF + Block(ls[1..]);
    }
  }

  /**
   * A well-formed request is complete, its resource is read, and the loop takes its header lines one
   * by one; so wsParseHandshake grants the upgrade exactly when the lines, in any order, ask for it.
   */
  lemma RequestRead(resource: string, tail: string, ls: seq<string>, rest: string)
    requires IsRequestLine(resource, tail) && AreLines(ls)
    ensures var text := Request(resource, tail, ls, rest);
            && Contains(text, BLANK_LINE) && HasRequestLine(text) && ResourceFits(text)
            && Resource(text) == Some(resource)
            && ScanFrom(text, AfterRequestLine(text), Begin(NOTHING)) == Some(Fold(Begin(NOTHING), ls))
            && Answer(text, NOTHING) == if Grantable(ls) then OpeningFrame else ErrorFrame
    ensures Accepts(Fold(Begin(NOTHING), ls)) <==> Grantable(ls)
  {
    hide Accepts, Grantable, HasRequestLine, Contains, AfterRequestLine, ScanFrom, Resource, IsRequestLine, IsLine,
         ResourceFits;
    var before := "GET " + resource + " " + tail + CRLF;
    RequestLineRead(resource, tail, Block(ls) + CRLF + rest);
    assert before[|before| - 2..] == CRLF;
    BlankLineThere(ls, before, rest);
    ScanIsFold(before, ls, rest, Begin(NOTHING));
    Verdict(ls);
  }

  /** A request with its header lines permuted gets the same answer: an upgrade exactly if the lines ask for it. */
  lemma PermutedRequests(resource: string, tail: string, ls: seq<string>, ms: seq<string>, rest: string)
    requires IsRequestLine(resource, tail) && AreLines(ls) && multiset(ls) == multiset(ms)
    ensures Answer(Request(resource, tail, ls, rest), NOTHING) == Answer(Request(resource, tail, ms, rest), NOTHING)
    ensures Answer(Request(resource, tail, ls, rest), NOTHING) == OpeningFrame <==> Grantable(ls)
  {
    hide Answer, Request, Grantable, Accepts, Fold, IsRequestLine, IsLine;
    forall i | 0 <= i < |ms| ensures IsLine(ms[i]) {
      assert ms[i] in multiset(ms);
      assert ms[i] in ls;
    }
    RequestRead(resource, tail, ls, rest);
    RequestRead(resource, tail, ms, rest);
    VerdictOrderIndependent(ls, ms);
    Verdict(ls);
    Verdict(ms);
  }

  // ---- the names and the answers, spelled out -----------------------------------------

  lemma NamedLine(n: Name, v: string)
    requires n != Other
    ensures NameAt(Field(n) + v, 0) == n && (Field(n) + v)[|Field(n)|..] == v
  {
    hide NameAt, Field;
    NameIs(Field(n) + v, n);
  }

  /** What each kind of header line does to the fields and flags. */
  lemma LinesSpelledOut(s: Scan, v: string)
    ensures var c := v[..|v| % 256];
      && Effect(s, "Host: " + v) == s.(fields := s.fields.(host := Some(c)))
      && Effect(s, "Origin: " + v) == s.(fields := s.fields.(origin := Some(c)))
      && Effect(s, "Sec-WebSocket-Key: " + v) == s.(fields := s.fields.(key := Some(c)))
      && Effect(s, "Sec-WebSocket-Protocol: " + v) == s.(subprotocol := true)
      && Effect(s, "Sec-WebSocket-Version: " + v) == s.(mismatch := s.mismatch || !("13" <= c))
      && Effect(s, "Connection: " + v) == s.(connection := s.connection || Contains(Lower(c), "upgrade"))
      && Effect(s, "Upgrade: " + v) == s.(upgrade := s.upgrade || "websocket" <= Lower(c))
  {
    FieldsSpelledOut();
    hide NameAt, Field, Contains, Lower;
    NamedLine(Host, v);
    NamedLine(Origin, v);
    NamedLine(Key, v);
    NamedLine(Protocol, v);
    NamedLine(Version, v);
    NamedLine(Connection, v);
    NamedLine(Upgrade, v);
  }

  lemma FieldsSpelledOut()
    ensures Field(Host) == "Host: " && Field(Origin) == "Origin: " && Field(Key) == "Sec-WebSocket-Key: "
    ensures Field(Protocol) == "Sec-WebSocket-Protocol: " && Field(Version) == "Sec-WebSocket-Version: "
    ensures Field(Connection) == "Connection: " && Field(Upgrade) == "Upgrade: "
  {
  }

  /** Any other line does nothing. */
  lemma OtherLines(s: Scan, l: string)
    requires !("Host: " <= l) && !("Origin: " <= l) && !("Sec-WebSocket-Key: " <= l) && !("Sec-WebSocket-Protocol: " <= l)
    requires !("Sec-WebSocket-Version: " <= l) && !("Connection: " <= l) && !("Upgrade: " <= l)
    ensures Effect(s, l) == s
  {
    FieldsSpelledOut();
    hide NameAt, Field, Contains, Lower;
    var n := NameAt(l, 0);
    if n != Other {
      NameIs(l, n);
    }
  }

  /** A request is incomplete exactly before its first blank line, and one that does not start with GET is refused. */
  lemma AnswerExactly(text: string, found: Fields)
    ensures Answer(text, found) == IncompleteFrame <==> forall i: nat :: !StartsAt(text, i, "\r\n\r\n")
    ensures Answer(text, found) != IncompleteFrame && !("GET " <= text) ==> Answer(text, found) == ErrorFrame
  {
    hide ScanFrom, Accepts, IndexOf, StartsAt;
  }

  /** The loop also ends at a line whose second character is a line feed, whatever follows it. */
  lemma LineFeedEnds(text: string, at: nat, s: Scan)
    requires at + 1 < |text| && text[at + 1] == '\n'
    ensures ScanFrom(text, at, s) == Some(s)
  {
  }

  /** The lines of the request in section 1.2 of RFC 6455, for any host and key. */
  function Ask(host: string, key: string): seq<string> {
    ["Host: " + host, "Upgrade: websocket", "Connection: Upgrade", "Sec-WebSocket-Key: " + key, "Sec-WebSocket-Version: 13"]
  }

  lemma AskFolds(host: string, key: string)
    requires |host| < 256 && |key| < 256
    ensures Fold(Begin(NOTHING), Ask(host, key)) == Scan(Fields(Some(host), None, Some(key)), true, true, false, false)
  {
    hide Effect, Contains, Lower;
    var ls := Ask(host, key);
    var s1 := Begin(Fields(Some(host), None, None));
    var s2 := s1.(upgrade := true);
    var s3 := s2.(connection := true);
    var s4 := s3.(fields := Fields(Some(host), None, Some(key)));
    LinesSpelledOut(Begin(NOTHING), host);
    LinesSpelledOut(s1, "websocket");
    LinesSpelledOut(s2, "Upgrade");
    LinesSpelledOut(s3, key);
    LinesSpelledOut(s4, "13");
    WordsLowered();
    assert host[..|host| % 256] == host && key[..|key| % 256] == key;
    assert "websocket"[..9] == "websocket" && "Upgrade"[..7] == "Upgrade" && "13"[..2] == "13";
    assert "Upgrade: " + "websocket" == ls[1] && "Connection: " + "Upgrade" == ls[2];
    assert "Sec-WebSocket-Version: " + "13" == ls[4];
    FoldFirst(Begin(NOTHING), ls);
    FoldFirst(s1, ls[1..]);
    FoldFirst(s2, ls[2..]);
    FoldFirst(s3, ls[3..]);
    FoldFirst(s4, ls[4..]);
  }

  lemma WordsLowered()
    ensures "websocket" <= Lower("websocket") && Contains(Lower("Upgrade"), "upgrade")
  {
    assert Lower("websocket") == "websocket" && Lower("Upgrade") == "upgrade";
    assert StartsAt("upgrade", 0, "upgrade");
  }

  lemma FoldFirst(s: Scan, ls: seq<string>)
    requires ls != []
    ensures Fold(s, ls) == Fold(Effect(s, ls[0]), ls[1..])
    ensures |ls| == 1 ==> Fold(s, ls) == Effect(s, ls[0])
    ensures |ls| > 1 ==> ls[1..][0] == ls[1] && forall k :: 2 <= k <= |ls| ==> ls[1..][k - 1..] == ls[k..]
  {
    hide Effect;
    if |ls| == 1 {
      assert ls[1..] == [];
    }
  }

  /** That request is granted, and its key is kept. */
  lemma AskGranted(resource: string, tail: string, host: string, key: string, rest: string)
    requires IsRequestLine(resource, tail) && |host| < 256 && |key| < 256
    requires IsLine("Host: " + host) && IsLine("Sec-WebSocket-Key: " + key)
    ensures Answer(Request(resource, tail, Ask(host, key), rest), NOTHING) == OpeningFrame
  {
    hide Fold, Grantable, IsRequestLine, Answer, Request, IsLine;
    var ls := Ask(host, key);
    AskFolds(host, key);
    AskIsLines(host, key);
    RequestRead(resource, tail, ls, rest);
  }

  lemma AskIsLines(host: string, key: string)
    requires IsLine("Host: " + host) && IsLine("Sec-WebSocket-Key: " + key)
    ensures AreLines(Ask(host, key))
  {
    assert IsLine("Upgrade: websocket") && IsLine("Connection: Upgrade") && IsLine("Sec-WebSocket-Version: 13");
  }
}
