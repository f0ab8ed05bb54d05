/** lssdp.cpp: the NOTIFY and RESPONSE packets and the parser of received packets. */
module SsdpPacket {
  import opened CStrings
  import Decimal

  const FIELD_LEN := 128
  const LOCATION_LEN := 256
  const BUFFER_LEN := 2048

  const HEADER_MSEARCH := "M-SEARCH * HTTP/1.1\r\n"
  const HEADER_NOTIFY := "NOTIFY * HTTP/1.1\r\n"
  const HEADER_RESPONSE := "HTTP/1.1 200 OK\r\n"
  const ADDR_MULTICAST := "239.255.255.250"
  const CRLF := "\r\n"

  datatype Method = NoMethod | MSearch | Notify | Response

  /** The character arrays of struct lssdp_packet as C strings, without the text of the method. */
  datatype Fields = Fields(
    st: string, usn: string, location: string, connection: string,
    address: string, addressSecondly: string, smId: string, deviceType: string)

  const EMPTY := Fields("", "", "", "", "", "", "", "")

  // ---- one line ----------------------------------------------------------------

  /** What trim_spaces skips at both ends. */
  predicate Skipped(c: char) {
    !IsPrint(c) || IsSpace(c)
  }

  function TrimLeft(s: string): (r: string)
    ensures |r| <= |s| && r == s[|s| - |r|..]
    ensures r != "" ==> !Skipped(r[0])
  {
    if s != "" && Skipped(s[0]) then TrimLeft(s[1..]) else s
  }

  function TrimRight(s: string): (r: string)
    ensures |r| <= |s| && r == s[..|r|]
    ensures r != "" ==> !Skipped(r[|r| - 1])
  {
    if s != "" && Skipped(s[|s| - 1]) then TrimRight(s[..|s| - 1]) else s
  }

  function Trim(s: string): string {
    TrimRight(TrimLeft(s))
  }

  /** OSMemcpy over an array of capacity cap that ends in a zero: a longer old text shows behind a shorter new one. */
  function Store(was: string, value: string, cap: nat): (r: string)
    requires cap > 0
  {
    var v := if |value| < cap then value else value[..cap - 1];
    if |v| < |was| then v + was[|v|..] else v
  }

  /** The chain of comparisons at the end of parse_field_line; name is in lower case. */
  function SetField(p: Fields, name: string, value: string): Fields {
    if name == "st" then p.(st := Store(p.st, value, FIELD_LEN))
    else if name == "nt" then p.(st := Store(p.st, value, FIELD_LEN))
    else if name == "usn" then p.(usn := Store(p.usn, value, FIELD_LEN))
    else if name == "location" then p.(location := Store(p.location, value, LOCATION_LEN))
    else if name == "sm_id" then p.(smId := Store(p.smId, value, FIELD_LEN))
    else if name == "dev_type" then p.(deviceType := Store(p.deviceType, value, FIELD_LEN))
    else if name == "connection" then p.(connection := Store(p.connection, value, FIELD_LEN))
    else if name == "address" then p.(address := Store(p.address, value, FIELD_LEN))
    else if name == "address_secondly" then p.(addressSecondly := Store(p.addressSecondly, value, FIELD_LEN))
    else p
  }

  /** What one line, without its end, does to the packet. */
  function LineEffect(p: Fields, line: string): Fields
    requires line != ""
  {
    var colon := IndexOf(line, ":", 1);
    if line[0] == ':' || colon < 0 || colon == |line| - 1 then p
    else
      var name, value := Trim(line[..colon]), Trim(line[colon + 1..]);
      if name == "" || value == "" then p else SetField(p, Lower(name), value)
  }

  // ---- the scanning loop ---------------------------------------------------------

  /** The loop over the characters from i on, the current line having started at start. */
  function ScanFrom(data: string, start: nat, i: nat, p: Fields): Fields
    requires start <= i && start > 0
    decreases |data| - i
  {
    if i >= |data| then p
    else if data[i] == '\n' && i - 1 > start && data[i - 1] == '\r' then
      ScanFrom(data, i + 1, i + 1, LineEffect(p, data[start..i - 1]))
    else ScanFrom(data, start, i + 1, p)
  }

  lemma ScanStep(data: string, start: nat, i: nat, p: Fields)
    requires 0 < start <= i < |data|
    ensures ScanFrom(data, start, i, p)
         == if data[i] == '\n' && i - 1 > start && data[i - 1] == '\r' then
              ScanFrom(data, i + 1, i + 1, LineEffect(p, data[start..i - 1]))
            else ScanFrom(data, start, i + 1, p)
  {
  }

  lemma ScanEnd(data: string, start: nat, i: nat, p: Fields)
    requires 0 < start <= i && i >= |data|
    ensures ScanFrom(data, start, i, p) == p
  {
  }

  /** A line ends at a line feed behind a carriage return with something before it, and nowhere else. */
  lemma LineEndsExactly(data: string, start: nat, i: nat, p: Fields)
    requires 0 < start <= i < |data|
    ensures data[i] == '\n' && i >= start + 2 && data[i - 1] == '\r' ==>
              ScanFrom(data, start, i, p) == ScanFrom(data, i + 1, i + 1, LineEffect(p, data[start..i - 1]))
    ensures data[i] != '\n' || i < start + 2 || data[i - 1] != '\r' ==>
              ScanFrom(data, start, i, p) == ScanFrom(data, start, i + 1, p)
  {
  }

  lemma HeaderFits(data: string)
    requires MethodOf(data) != NoMethod
    ensures 0 < |HeaderOf(MethodOf(data))| < |data|
  {
  }

  /** The first line decides the method. A packet that holds nothing else is unknown. */
  function MethodOf(data: string): Method {
    if |HEADER_MSEARCH| < |data| && HEADER_MSEARCH <= data then MSearch
    else if |HEADER_NOTIFY| < |data| && HEADER_NOTIFY <= data then Notify
    else if |HEADER_RESPONSE| < |data| && HEADER_RESPONSE <= data then Response
    else NoMethod
  }

  function HeaderOf(m: Method): string {
    match m
    case NoMethod => ""
    case MSearch => HEADER_MSEARCH
    case Notify => HEADER_NOTIFY
    case Response => HEADER_RESPONSE
  }

  lemma TrimLeftStep(s: string, i: nat, stop: nat)
    requires i < stop <= |s|
    ensures TrimLeft(s[i..stop]) == if Skipped(s[i]) then TrimLeft(s[i + 1..stop]) else s[i..stop]
  {
    assert s[i..stop][1..] == s[i + 1..stop];
  }

  lemma TrimRightStep(s: string, i: nat, stop: nat)
    requires i < stop <= |s|
    ensures TrimRight(s[i..stop]) == if Skipped(s[stop - 1]) then TrimRight(s[i..stop - 1]) else s[i..stop]
  {
    assert s[i..stop][..stop - 1 - i] == s[i..stop - 1];
  }

  method SkipLeft(str: string, start: nat, stop: nat) returns (i: nat)
    requires start <= stop <= |str|
    ensures start <= i <= stop && str[i..stop] == TrimLeft(str[start..stop])
    ensures i < stop ==> !Skipped(str[i])
  {
    hide TrimLeft, Skipped;
    i := start;
    ghost var goal := TrimLeft(str[start..stop]);
    while i < stop && Skipped(str[i])
      invariant start <= i <= stop && TrimLeft(str[i..stop]) == goal
    {
      TrimLeftStep(str, i, stop);
      i := i + 1;
    }
    if i < stop {
      TrimLeftStep(str, i, stop);
    } else {
      assert TrimLeft(str[i..stop]) == [];
    }
  }

  method SkipRight(str: string, start: nat, stop: nat, ghost i: nat) returns (j: int)
    requires start <= i < stop <= |str| && !Skipped(str[i])
    ensures i <= j < stop && str[i..j + 1] == TrimRight(str[i..stop])
  {
    hide TrimRight, Skipped;
    j := stop - 1;
    ghost var goal := TrimRight(str[i..stop]);
    while j >= start && Skipped(str[j])
      invariant i <= j < stop && TrimRight(str[i..j + 1]) == goal
    {
      TrimRightStep(str, i, j + 1);
      j := j - 1;
    }
    TrimRightStep(str, i, j + 1);
  }

  /**
   * trim_spaces: the part of str[start..stop] that trimming leaves, given by its first and its last
   * index. When nothing is left, the second loop of the source runs down to start - 1 to no effect.
   */
  method TrimSpaces(str: string, start: nat, stop: nat) returns (found: bool, i: nat, j: int)
    requires 0 < start <= stop <= |str|
    ensures found <==> Trim(str[start..stop]) != ""
    ensures found ==> start <= i <= j < stop && str[i..j + 1] == Trim(str[start..stop])
  {
    hide TrimLeft, TrimRight, Skipped;
    j := stop;
    i := SkipLeft(str, start, stop);
    found := i < stop;
    if found {
      j := SkipRight(str, start, stop, i);
    } else {
      assert TrimRight(str[i..stop]) == "";
    }
  }

  class LssdpPacket {
    var fields: Fields
    var kind: Method
    var updateTime: int

    /** lssdp_packet packet = {} */
    constructor ()
      ensures fields == EMPTY && kind == NoMethod && updateTime == 0
    {
      fields, kind, updateTime := EMPTY, NoMethod, 0;
    }

    /** parse_field_line for the line data[start..end], both ends included. */
    method ParseFieldLine(data: string, start: nat, end: nat)
      requires 0 < start <= end < |data|
      modifies this`fields
      ensures fields == LineEffect(old(fields), data[start..end + 1])
    {
      hide Trim, SetField, IndexOf;
      ghost var line := data[start..end + 1];
      if data[start] == ':' {
        return;
      }
      var colon := GetColonIndex(data, start + 1, end);
      ColonInLine(data, start, end);
      if colon == -1 {
        return;
      }
      if colon == end {
        return;
      }
      assert data[start..colon] == line[..colon - start] && data[colon + 1..end + 1] == line[colon + 1 - start..];
      var found, i, j := TrimSpaces(data, start, colon);
      if !found {
        return;
      }
      var name := data[i..j + 1];
      found, i, j := TrimSpaces(data, colon + 1, end + 1);
      if !found {
        return;
      }
      var value := data[i..j + 1];
      fields := SetField(fields, Lower(name), value);
    }

    /** lssdp_packet_parser: the method, every line that has an end, and the time of arrival. */
    method Parse(data: string, now: nat) returns (r: int)
      modifies this
      ensures r == if |data| <= BUFFER_LEN && MethodOf(data) != NoMethod && now != 0 then 0 else -1
      ensures |data| > BUFFER_LEN || MethodOf(data) == NoMethod ==> fields == old(fields) && kind == old(kind)
      ensures |data| <= BUFFER_LEN && MethodOf(data) != NoMethod ==>
                kind == MethodOf(data)
                && var start := |HeaderOf(kind)|; fields == ScanFrom(data, start, start, old(fields))
      ensures updateTime == if r == 0 then now else old(updateTime)
    {
      hide MethodOf, LineEffect;
      var length := if |data| < BUFFER_LEN then |data| else BUFFER_LEN; // strnlen
      if |data| != length {
        return -1;
      }
      var m := MethodOf(data);
      if m == NoMethod {
        return -1;
      }
      kind := m;
      var start := |HeaderOf(m)|;
      var i := start;
      HeaderFits(data);
      ghost var goal := ScanFrom(data, start, start, fields);
      ghost var before := updateTime;
      hide ScanFrom, HeaderOf;
      while i < |data|
        invariant 0 < start <= i && start <= |data|
        invariant ScanFrom(data, start, i, fields) == goal
        invariant kind == m && updateTime == before
        decreases |data| - i
      {
        ScanStep(data, start, i, fields);
        if data[i] == '\n' && i - 1 > start && data[i - 1] == '\r' {
          ParseFieldLine(data, start, i - 2);
          start := i + 1;
        }
        i := i + 1;
      }
      ScanEnd(data, start, i, fields);
      if now == 0 {
        return -1;
      }
      updateTime := now;
      return 0;
    }
  }

  method GetColonIndex(str: string, start: nat, end: nat) returns (i: int)
    requires end < |str|
    ensures i == -1 ==> forall k | start <= k <= end :: str[k] != ':'
    ensures i != -1 ==> start <= i <= end && str[i] == ':' && forall k | start <= k < i :: str[k] != ':'
  {
    i := start;
    while i <= end
      invariant start <= i && forall k | start <= k < i && k <= end :: str[k] != ':'
    {
      if str[i] == ':' {
        return;
      }
      i := i + 1;
    }
    i := -1;
  }

  /** The colon found in the line is the one found in the data. */
  lemma ColonInLine(data: string, start: nat, end: nat)
    requires start <= end < |data|
    ensures var c := IndexOf(data[start..end + 1], ":", 1);
      && (c < 0 <==> forall k | start + 1 <= k <= end :: data[k] != ':')
      && (c >= 0 ==> start + 1 <= start + c <= end && data[start + c] == ':'
                     && forall k | start + 1 <= k < start + c :: data[k] != ':')
  {
    var line := data[start..end + 1];
    var c := IndexOf(line, ":", 1);
    forall k | 1 <= k < |line|
      ensures StartsAt(line, k, ":") <==> data[start + k] == ':'
    {
      assert line[k..k + 1] == [line[k]];
    }
    if c < 0 {
      forall k | start + 1 <= k <= end
        ensures data[k] != ':'
      {
        assert !StartsAt(line, k - start, ":");
      }
    } else {
      forall k | start + 1 <= k < start + c
        ensures data[k] != ':'
      {
        assert !StartsAt(line, k - start, ":");
      }
    }
  }

  // ---- printing ------------------------------------------------------------------

  /** The parts of struct lssdp_header that are printed. */
  datatype Header = Header(domain: string, suffix: string, suffixSecondly: string, searchTarget: string, connection: string)

  /** The texts fit their arrays of FIELD_LEN characters with a terminating zero. */
  predicate FitsArrays(h: Header, ip: string, port: nat) {
    && |h.domain| < FIELD_LEN && |h.suffix| < FIELD_LEN && |h.suffixSecondly| < FIELD_LEN
    && |h.searchTarget| < FIELD_LEN && |h.connection| < FIELD_LEN
    && |ip| < 16 && port < 0x1_0000
  }

  function Host(h: Header, ip: string): string {
    if |h.domain| > 0 then h.domain else ip
  }

  /** The lines both packets share. */
  function SharedLines(h: Header, ip: string): seq<string> {
    ["CACHE-CONTROL:max-age=120",
     "LOCATION" + ":" + (Host(h, ip) + h.suffix),
     "ST" + ":" + h.searchTarget,
     "CONNECTION" + ":" + h.connection,
     "ADDRESS" + ":" + (Host(h, ip) + h.suffix),
     "ADDRESS_SECONDLY" + ":" + (Host(h, ip) + h.suffixSecondly)]
  }

  function HostLine(port: nat): string {
    "HOST" + ":" + (ADDR_MULTICAST + ":" + Decimal.Print(port))
  }

  function Block(ls: seq<string>): string {
    if ls == [] then "" else ls[0] + CRLF + Block(ls[1..])
  }

  /** What the format strings of lssdp_send_notify and lssdp_send_response spell out. */
  function NotifyText(h: Header, ip: string, port: nat): string {
    HEADER_NOTIFY + (Block([HostLine(port)] + SharedLines(h, ip)) + CRLF)
  }

  function ResponseText(h: Header, ip: string): string {
    HEADER_RESPONSE + (Block(SharedLines(h, ip)) + CRLF)
  }

  /** snprintf into an array of size characters: the C string that is left there. */
  function Snprintf(text: string, size: nat): string
    requires size > 0
  {
    if |text| < size then text else text[..size - 1]
  }

  function BlockLength(ls: seq<string>): nat {
    if ls == [] then 0 else |ls[0]| + 2 + BlockLength(ls[1..])
  }

  lemma {:induction false} BlockLengthIs(ls: seq<string>)
    ensures |Block(ls)| == BlockLength(ls)
    decreases |ls|
  {
    if ls != [] {
      BlockLengthIs(ls[1..]);
    }
  }

  lemma SharedLength(h: Header, ip: string)
    requires |h.domain| < FIELD_LEN && |h.suffix| < FIELD_LEN && |h.suffixSecondly| < FIELD_LEN
    requires |h.searchTarget| < FIELD_LEN && |h.connection| < FIELD_LEN && |ip| < 16
    ensures |Block(SharedLines(h, ip))| < 1200
  {
    var ls := SharedLines(h, ip);
    BlockLengthIs(ls);
    BlockLengthSix(ls[0], ls[1], ls[2], ls[3], ls[4], ls[5]);
    assert ls == [ls[0], ls[1], ls[2], ls[3], ls[4], ls[5]];
  }

  lemma BlockLengthSix(a: string, b: string, c: string, d: string, e: string, f: string)
    ensures BlockLength([a, b, c, d, e, f]) == |a| + |b| + |c| + |d| + |e| + |f| + 12
  {
    assert [f][1..] == [] && BlockLength([f]) == |f| + 2;
    assert [e, f][1..] == [f] && BlockLength([e, f]) == |e| + |f| + 4;
    assert [d, e, f][1..] == [e, f] && BlockLength([d, e, f]) == |d| + |e| + |f| + 6;
    assert [c, d, e, f][1..] == [d, e, f] && BlockLength([c, d, e, f]) == |c| + |d| + |e| + |f| + 8;
    assert [b, c, d, e, f][1..] == [c, d, e, f];
    assert [a, b, c, d, e, f][1..] == [b, c, d, e, f];
  }

  /** Neither packet is ever cut at the size of its buffer. */
  lemma NeverCut(h: Header, ip: string, port: nat)
    requires FitsArrays(h, ip, port)
    ensures Snprintf(NotifyText(h, ip, port), BUFFER_LEN) == NotifyText(h, ip, port)
    ensures Snprintf(ResponseText(h, ip), BUFFER_LEN) == ResponseText(h, ip)
    ensures |NotifyText(h, ip, port)| < BUFFER_LEN && |ResponseText(h, ip)| < BUFFER_LEN
  {
    hide SharedLines, Decimal.Print;
    SharedLength(h, ip);
    Decimal.FiveDigits(port);
    var ls := [HostLine(port)] + SharedLines(h, ip);
    assert ls[1..] == SharedLines(h, ip);
  }

  // ---- parsing what was printed -----------------------------------------------------

  predicate NoNewline(s: string) {
    forall i | 0 <= i < |s| :: s[i] != '\n'
  }

  function FoldLines(p: Fields, ls: seq<string>): Fields
    requires forall i | 0 <= i < |ls| :: ls[i] != ""
    decreases |ls|
  {
    if ls == [] then p else FoldLines(LineEffect(p, ls[0]), ls[1..])
  }

  lemma {:induction false} SkipChars(data: string, start: nat, i: nat, j: nat, p: Fields)
    requires 0 < start <= i <= j <= |data| && forall k | i <= k < j :: data[k] != '\n'
    ensures ScanFrom(data, start, i, p) == ScanFrom(data, start, j, p)
    decreases j - i
  {
    hide ScanFrom, LineEffect;
    if i < j {
      ScanStep(data, start, i, p);
      SkipChars(data, start, i + 1, j, p);
    }
  }

  /** One whole line is handed over, and the next one starts behind it. */
  lemma ScanLine(data: string, start: nat, line: string, p: Fields)
    requires 0 < start && start + |line| + 2 <= |data| && line != "" && NoNewline(line)
    requires data[start..start + |line|] == line && data[start + |line|..start + |line| + 2] == CRLF
    ensures var next := start + |line| + 2;
            ScanFrom(data, start, start, p) == ScanFrom(data, next, next, LineEffect(p, line))
  {
    hide ScanFrom, LineEffect;
    var end := start + |line|;
    assert data[end] == data[end..end + 2][0] && data[end + 1] == data[end..end + 2][1];
    forall k | start <= k < end
      ensures data[k] != '\n'
    {
      assert data[k] == data[start..end][k - start] == line[k - start];
    }
    SkipChars(data, start, start, end + 1, p);
    ScanStep(data, start, end + 1, p);
  }

  lemma Middle(before: string, l: string, tail: string)
    ensures var text, at := (before + l + CRLF) + tail, |before|;
            |text| >= at + |l| + 2 && text[at..at + |l|] == l && text[at + |l|..at + |l| + 2] == CRLF
  {
  }

  lemma Regroup(before: string, l: string, block: string)
    ensures before + ((l + CRLF + block) + CRLF) == (before + l + CRLF) + (block + CRLF)
  {
  }

  /** The parser takes the printed lines one by one; the empty line at the end does nothing. */
  lemma {:induction false} ScanIsFold(before: string, ls: seq<string>, p: Fields)
    requires before != "" && forall i | 0 <= i < |ls| :: ls[i] != "" && NoNewline(ls[i])
    ensures ScanFrom(before + (Block(ls) + CRLF), |before|, |before|, p) == FoldLines(p, ls)
    decreases |ls|
  {
    hide ScanFrom, LineEffect, NoNewline;
    var data, start := before + (Block(ls) + CRLF), |before|;
    if ls == [] {
      assert data[start] == '\r';
      ScanStep(data, start, start, p);
      ScanStep(data, start, start + 1, p);
      ScanEnd(data, start, start + 2, p);
    } else {
      var l := ls[0];
      assert NoNewline(ls[0]);
      Regroup(before, l, Block(ls[1..]));
      Middle(before, l, Block(ls[1..]) + CRLF);
      ScanLine(data, start, l, p);
      ScanIsFold(before + l + CRLF, ls[1..], LineEffect(p, l));
    }
  }

  lemma {:induction false} TrimKeeps(s: string)
    ensures (s == "" || (!Skipped(s[0]) && !Skipped(s[|s| - 1]))) ==> Trim(s) == s
    ensures Trim(s) == s && s != "" ==> !Skipped(s[0]) && !Skipped(s[|s| - 1])
  {
    hide Skipped;
  }

  /** The name of a printed line: no colon, no blanks around it. */
  predicate IsName(name: string) {
    name != "" && !Skipped(name[0]) && !Skipped(name[|name| - 1]) && forall i | 0 <= i < |name| :: name[i] != ':'
  }

  /** A line name:value gives the trimmed value to the field, or nothing when nothing is left of it. */
  lemma PrintedLine(p: Fields, name: string, value: string)
    requires IsName(name)
    ensures LineEffect(p, name + ":" + value) == if Trim(value) == "" then p else SetField(p, Lower(name), Trim(value))
  {
    hide Trim, SetField, Lower, IndexOf;
    var line := name + ":" + value;
    forall j: nat | 1 <= j < |name|
      ensures !StartsAt(line, j, ":")
    {
      assert line[j..j + 1] == [line[j]] && line[j] == name[j];
    }
    assert line[|name|..|name| + 1] == ":";
    FoundAt(line, ":", 1, |name|);
    assert line[..|name|] == name && line[|name| + 1..] == value;
    TrimKeeps(name);
    TrimKeeps(value);
    assert line[0] == name[0];
  }

  // ---- the lines and texts, spelled out ----------------------------------------------

  /** An array keeps the value as far as it fits, and what a longer old text has behind it. */
  lemma StoreExactly(was: string, value: string, cap: nat, i: nat)
    requires cap > 0
    ensures var r, n := Store(was, value, cap), if |value| < cap then |value| else cap - 1;
      && |r| == (if |was| > n then |was| else n)
      && (i < n ==> r[i] == value[i])
      && (n <= i < |r| ==> r[i] == was[i])
  {
  }

  /** Each field is set by its own name, in letters of either case, and st by two names. */
  lemma NamesSpelledOut(p: Fields, v: string)
    ensures SetField(p, Lower("St"), v) == p.(st := Store(p.st, v, 128))
    ensures SetField(p, Lower("NT"), v) == p.(st := Store(p.st, v, 128))
    ensures SetField(p, Lower("usn"), v) == p.(usn := Store(p.usn, v, 128))
    ensures SetField(p, Lower("LOCATION"), v) == p.(location := Store(p.location, v, 256))
    ensures SetField(p, Lower("SM_ID"), v) == p.(smId := Store(p.smId, v, 128))
    ensures SetField(p, Lower("DEV_TYPE"), v) == p.(deviceType := Store(p.deviceType, v, 128))
    ensures SetField(p, Lower("Connection"), v) == p.(connection := Store(p.connection, v, 128))
    ensures SetField(p, Lower("ADDRESS"), v) == p.(address := Store(p.address, v, 128))
    ensures SetField(p, Lower("ADDRESS_SECONDLY"), v) == p.(addressSecondly := Store(p.addressSecondly, v, 128))
  {
    hide Store;
    NamesLowered();
    assert Lower("St") == "st" && Lower("NT") == "nt" && Lower("usn") == "usn" && Lower("SM_ID") == "sm_id";
    assert Lower("DEV_TYPE") == "dev_type" && Lower("Connection") == "connection";
  }

  /** Any other name changes nothing. */
  lemma OtherNames(p: Fields, name: string, v: string)
    requires name !in {"st", "nt", "usn", "location", "sm_id", "dev_type", "connection", "address", "address_secondly"}
    ensures SetField(p, name, v) == p
  {
  }

  /** Trimming takes exactly the characters at both ends that are blank or not printable. */
  lemma {:induction false} TrimExactly(left: string, middle: string, right: string)
    requires forall i | 0 <= i < |left| :: left[i] as int <= 32 || left[i] as int >= 127
    requires forall i | 0 <= i < |right| :: right[i] as int <= 32 || right[i] as int >= 127
    requires middle != "" ==> 33 <= middle[0] as int <= 126 && 33 <= middle[|middle| - 1] as int <= 126
    requires middle == "" ==> right == ""
    ensures Trim(left + middle + right) == middle
  {
    hide TrimLeft, TrimRight, Skipped;
    SkippedExactly();
    var s := left + middle + right;
    LeftTrimmed(left, middle + right);
    assert left + (middle + right) == s;
    if middle == "" {
      assert middle + right == "";
      assert TrimLeft("") == "" && TrimRight("") == "" by { NothingTrimmed(); }
    } else {
      assert (middle + right)[0] == middle[0];
      RightTrimmed(middle, right);
    }
  }

  lemma SkippedExactly()
    ensures forall c :: Skipped(c) <==> c as int <= 32 || c as int >= 127
  {
  }

  lemma NothingTrimmed()
    ensures TrimLeft("") == "" && TrimRight("") == ""
  {
  }

  lemma {:induction false} LeftTrimmed(left: string, rest: string)
    requires (forall i | 0 <= i < |left| :: Skipped(left[i])) && (rest != "" ==> !Skipped(rest[0]))
    ensures TrimLeft(left + rest) == rest
  {
    hide Skipped;
    if left == "" {
      assert left + rest == rest;
    } else {
      assert (left + rest)[1..] == left[1..] + rest;
      LeftTrimmed(left[1..], rest);
    }
  }

  lemma {:induction false} RightTrimmed(rest: string, right: string)
    requires (forall i | 0 <= i < |right| :: Skipped(right[i])) && (rest != "" ==> !Skipped(rest[|rest| - 1]))
    ensures TrimRight(rest + right) == rest
    decreases |right|
  {
    hide Skipped;
    if right == "" {
      assert rest + right == rest;
    } else {
      var front := right[..|right| - 1];
      assert (rest + right)[..|rest + right| - 1] == rest + front;
      assert (rest + right)[|rest + right| - 1] == right[|right| - 1];
      RightTrimmed(rest, front);
    }
  }

  /** What a line means: the part before its first colon, trimmed, names the field, whatever its case. */
  lemma LineExactly(p: Fields, name: string, value: string)
    requires name != "" && forall i | 0 <= i < |name| :: name[i] != ':'
    ensures LineEffect(p, name + ":" + value)
         == if Trim(name) == "" || Trim(value) == "" then p else SetField(p, Lower(Trim(name)), Trim(value))
  {
    hide TrimLeft, TrimRight, SetField, Lower, IndexOf;
    var line := name + ":" + value;
    forall j: nat | 1 <= j < |name|
      ensures !StartsAt(line, j, ":")
    {
      assert line[j..j + 1] == [line[j]] && line[j] == name[j];
    }
    assert line[|name|..|name| + 1] == ":";
    FoundAt(line, ":", 1, |name|);
    assert line[..|name|] == name && line[|name| + 1..] == value;
    assert line[0] == name[0];
    if value == "" {
      NothingTrimmed();
    }
  }

  /** A line that starts with a colon, or has none, does nothing. */
  lemma NoName(p: Fields, line: string)
    requires line != "" && (line[0] == ':' || forall i | 0 <= i < |line| :: line[i] != ':')
    ensures LineEffect(p, line) == p
  {
    var colon := IndexOf(line, ":", 1);
    if colon >= 0 {
      assert line[colon..colon + 1] == ":" && line[colon] == line[colon..colon + 1][0];
    }
  }

  /** The first line of a packet decides its kind, if more follows. */
  lemma KindExactly(data: string)
    ensures MethodOf(data) == MSearch <==> "M-SEARCH * HTTP/1.1\r\n" < data
    ensures MethodOf(data) == Notify <==> "NOTIFY * HTTP/1.1\r\n" < data
    ensures MethodOf(data) == Response <==> "HTTP/1.1 200 OK\r\n" < data
  {
    hide IndexOf;
    if data != "" {
      assert HEADER_MSEARCH[0] == 'M' && HEADER_NOTIFY[0] == 'N' && HEADER_RESPONSE[0] == 'H';
    }
  }

  /** The lines of both packets as the format strings spell them. */
  lemma LinesSpelledOut(h: Header, ip: string)
    ensures var host := if |h.domain| > 0 then h.domain else ip;
      Block(SharedLines(h, ip))
      == "CACHE-CONTROL:max-age=120\r\n"
       + ("LOCATION:" + (host + h.suffix) + "\r\n")
       + ("ST:" + h.searchTarget + "\r\n")
       + ("CONNECTION:" + h.connection + "\r\n")
       + ("ADDRESS:" + (host + h.suffix) + "\r\n")
       + ("ADDRESS_SECONDLY:" + (host + h.suffixSecondly) + "\r\n")
  {
    hide Block;
    var ls := SharedLines(h, ip);
    BlockSix(ls[0], ls[1], ls[2], ls[3], ls[4], ls[5]);
    assert ls == [ls[0], ls[1], ls[2], ls[3], ls[4], ls[5]];
    assert ls[0] + "\r\n" == "CACHE-CONTROL:max-age=120\r\n";
    assert "LOCATION" + ":" == "LOCATION:" && "ST" + ":" == "ST:" && "CONNECTION" + ":" == "CONNECTION:";
    assert "ADDRESS" + ":" == "ADDRESS:" && "ADDRESS_SECONDLY" + ":" == "ADDRESS_SECONDLY:";
  }

  /** And the packets around these lines. */
  lemma TextsSpelledOut(h: Header, ip: string, port: nat)
    ensures var lines := Block(SharedLines(h, ip));
      && ResponseText(h, ip) == "HTTP/1.1 200 OK\r\n" + (lines + "\r\n")
      && NotifyText(h, ip, port)
      == "NOTIFY * HTTP/1.1\r\n" + ("HOST:239.255.255.250:" + Decimal.Print(port) + "\r\n" + lines + "\r\n")
  {
    hide Decimal.Print, SharedLines;
    var all := [HostLine(port)] + SharedLines(h, ip);
    assert all[1..] == SharedLines(h, ip) && all[0] == HostLine(port);
    assert HostLine(port) == "HOST:239.255.255.250:" + Decimal.Print(port) by {
      assert "HOST" + ":" + ("239.255.255.250" + ":" + Decimal.Print(port)) == "HOST:239.255.255.250:" + Decimal.Print(port);
    }
  }

  lemma BlockSix(a: string, b: string, c: string, d: string, e: string, f: string)
    ensures Block([a, b, c, d, e, f])
         == (a + CRLF) + (b + CRLF) + (c + CRLF) + (d + CRLF) + (e + CRLF) + (f + CRLF)
  {
    assert [f][1..] == [] && Block([f]) == f + CRLF;
    assert [e, f][1..] == [f] && Block([e, f]) == (e + CRLF) + (f + CRLF);
    assert [d, e, f][1..] == [e, f] && Block([d, e, f]) == (d + CRLF) + (e + CRLF) + (f + CRLF);
    assert [c, d, e, f][1..] == [d, e, f];
    assert Block([c, d, e, f]) == (c + CRLF) + (d + CRLF) + (e + CRLF) + (f + CRLF);
    assert [b, c, d, e, f][1..] == [c, d, e, f];
    assert Block([b, c, d, e, f]) == (b + CRLF) + (c + CRLF) + (d + CRLF) + (e + CRLF) + (f + CRLF);
    assert [a, b, c, d, e, f][1..] == [b, c, d, e, f];
  }

  /** What a field that was empty holds after a printed line with this value. */
  function Kept(value: string, cap: nat): string
    requires cap > 0
  {
    Store("", Trim(value), cap)
  }

  /** A field gives the printed value back exactly when trimming leaves it alone and it fits. */
  lemma KeptIsValue(value: string, cap: nat)
    requires cap > 0
    ensures Kept(value, cap) == value <==> Trim(value) == value && |value| < cap
  {
    var t := Trim(value);
    assert |t| <= |value|;
  }

  /** Printable text without a blank at either end is left alone by trimming. */
  predicate Clean(s: string) {
    (forall i | 0 <= i < |s| :: IsPrint(s[i])) && (s != "" ==> s[0] != ' ' && s[|s| - 1] != ' ')
  }

  lemma CleanIsTrimmed(s: string)
    requires Clean(s)
    ensures Trim(s) == s && NoNewline(s)
  {
    hide Trim;
    TrimKeeps(s);
  }

  lemma NamesAreNames()
    ensures IsName("HOST") && IsName("CACHE-CONTROL") && IsName("LOCATION") && IsName("ST")
    ensures IsName("CONNECTION") && IsName("ADDRESS") && IsName("ADDRESS_SECONDLY")
  {
  }

  lemma NamesLowered()
    ensures Lower("HOST") == "host" && Lower("CACHE-CONTROL") == "cache-control"
    ensures Lower("LOCATION") == "location" && Lower("ST") == "st" && Lower("CONNECTION") == "connection"
    ensures Lower("ADDRESS") == "address" && Lower("ADDRESS_SECONDLY") == "address_secondly"
  {
  }

  /** The packet read back from the lines of a header. */
  function ReadBack(h: Header, ip: string): Fields {
    Fields(
      Kept(h.searchTarget, FIELD_LEN), "", Kept(Host(h, ip) + h.suffix, LOCATION_LEN), Kept(h.connection, FIELD_LEN),
      Kept(Host(h, ip) + h.suffix, FIELD_LEN), Kept(Host(h, ip) + h.suffixSecondly, FIELD_LEN), "", "")
  }

  lemma FoldShared(h: Header, ip: string)
    ensures forall i | 0 <= i < 6 :: SharedLines(h, ip)[i] != ""
    ensures FoldLines(EMPTY, SharedLines(h, ip)) == ReadBack(h, ip)
  {
    hide Trim, Lower, LineEffect, IsName;
    NamesAreNames();
    NamesLowered();
    var ls := SharedLines(h, ip);
    assert ls[0] == "CACHE-CONTROL" + ":" + "max-age=120";
    PrintedLine(EMPTY, "CACHE-CONTROL", "max-age=120");
    var p1 := LineEffect(EMPTY, ls[0]);
    assert p1 == EMPTY;
    PrintedLine(p1, "LOCATION", Host(h, ip) + h.suffix);
    var p2 := LineEffect(p1, ls[1]);
    PrintedLine(p2, "ST", h.searchTarget);
    var p3 := LineEffect(p2, ls[2]);
    PrintedLine(p3, "CONNECTION", h.connection);
    var p4 := LineEffect(p3, ls[3]);
    PrintedLine(p4, "ADDRESS", Host(h, ip) + h.suffix);
    var p5 := LineEffect(p4, ls[4]);
    PrintedLine(p5, "ADDRESS_SECONDLY", Host(h, ip) + h.suffixSecondly);
    var p6 := LineEffect(p5, ls[5]);
    FoldSix(EMPTY, ls);
  }

  lemma FoldSix(p: Fields, ls: seq<string>)
    requires |ls| == 6 && forall i | 0 <= i < |ls| :: ls[i] != ""
    ensures FoldLines(p, ls) == LineEffect(LineEffect(LineEffect(LineEffect(LineEffect(LineEffect(p, ls[0]), ls[1]), ls[2]), ls[3]), ls[4]), ls[5])
  {
    hide LineEffect;
    FoldFirst(p, ls);
    var q := LineEffect(p, ls[0]);
    FoldFirst(q, ls[1..]);
    var r := LineEffect(q, ls[1]);
    assert ls[1..][1..] == ls[2..];
    FoldFirst(r, ls[2..]);
    var s := LineEffect(r, ls[2]);
    assert ls[2..][1..] == ls[3..];
    FoldFirst(s, ls[3..]);
    var t := LineEffect(s, ls[3]);
    assert ls[3..][1..] == ls[4..];
    FoldFirst(t, ls[4..]);
    assert ls[4..][1..] == ls[5..];
    FoldFirst(LineEffect(t, ls[4]), ls[5..]);
    assert ls[5..][1..] == [];
  }

  lemma FoldFirst(p: Fields, ls: seq<string>)
    requires ls != [] && forall i | 0 <= i < |ls| :: ls[i] != ""
    ensures FoldLines(p, ls) == FoldLines(LineEffect(p, ls[0]), ls[1..])
  {
  }

  predicate NoNewlines(h: Header, ip: string) {
    NoNewline(h.domain) && NoNewline(h.suffix) && NoNewline(h.suffixSecondly)
    && NoNewline(h.searchTarget) && NoNewline(h.connection) && NoNewline(ip)
  }

  lemma JoinNoNewline(a: string, b: string)
    requires NoNewline(a) && NoNewline(b)
    ensures NoNewline(a + b)
  {
  }

  lemma SharedNoNewline(h: Header, ip: string)
    requires NoNewlines(h, ip)
    ensures forall i | 0 <= i < 6 :: NoNewline(SharedLines(h, ip)[i])
  {
    JoinNoNewline(Host(h, ip), h.suffix);
    JoinNoNewline(Host(h, ip), h.suffixSecondly);
    JoinNoNewline("LOCATION:", Host(h, ip) + h.suffix);
    JoinNoNewline("ST:", h.searchTarget);
    JoinNoNewline("CONNECTION:", h.connection);
    JoinNoNewline("ADDRESS:", Host(h, ip) + h.suffix);
    JoinNoNewline("ADDRESS_SECONDLY:", Host(h, ip) + h.suffixSecondly);
    assert NoNewline("CACHE-CONTROL:max-age=120");
  }

  lemma HostLineFolds(port: nat)
    ensures HostLine(port) != "" && NoNewline(HostLine(port)) && LineEffect(EMPTY, HostLine(port)) == EMPTY
  {
    hide Trim, Lower, LineEffect, Decimal.Print;
    NamesAreNames();
    NamesLowered();
    PrintedLine(EMPTY, "HOST", ADDR_MULTICAST + ":" + Decimal.Print(port));
  }

  /** A printed RESPONSE, parsed, gives back every header value as trimming and the array sizes leave it. */
  lemma ResponseRoundTrip(h: Header, ip: string, port: nat)
    requires FitsArrays(h, ip, port) && NoNewlines(h, ip)
    ensures var data := Snprintf(ResponseText(h, ip), BUFFER_LEN);
            |data| <= BUFFER_LEN && MethodOf(data) == Response
            && ScanFrom(data, |HEADER_RESPONSE|, |HEADER_RESPONSE|, EMPTY) == ReadBack(h, ip)
  {
    hide SharedLines, ScanFrom, FoldLines, ReadBack, NoNewline, Block;
    NeverCut(h, ip, port);
    SharedNoNewline(h, ip);
    FoldShared(h, ip);
    assert |SharedLines(h, ip)| == 6 by { SharedSize(h, ip); }
    ScanIsFold(HEADER_RESPONSE, SharedLines(h, ip), EMPTY);
    MethodOfText(Response, Block(SharedLines(h, ip)) + CRLF);
  }

  lemma SharedSize(h: Header, ip: string)
    ensures |SharedLines(h, ip)| == 6
  {
  }

  lemma MethodOfText(m: Method, rest: string)
    requires m != NoMethod && rest != ""
    ensures MethodOf(HeaderOf(m) + rest) == m
  {
    var data := HeaderOf(m) + rest;
    assert data[0] == HeaderOf(m)[0];
  }

  /** The same for a printed NOTIFY. */
  lemma NotifyRoundTrip(h: Header, ip: string, port: nat)
    requires FitsArrays(h, ip, port) && NoNewlines(h, ip)
    ensures var data := Snprintf(NotifyText(h, ip, port), BUFFER_LEN);
            |data| <= BUFFER_LEN && MethodOf(data) == Notify
            && ScanFrom(data, |HEADER_NOTIFY|, |HEADER_NOTIFY|, EMPTY) == ReadBack(h, ip)
  {
    hide SharedLines, ScanFrom, FoldLines, ReadBack, NoNewline, Block, HostLine, LineEffect;
    NeverCut(h, ip, port);
    SharedNoNewline(h, ip);
    FoldShared(h, ip);
    SharedSize(h, ip);
    HostLineFolds(port);
    var ls := [HostLine(port)] + SharedLines(h, ip);
    FoldFirst(EMPTY, ls);
    assert ls[1..] == SharedLines(h, ip);
    ScanIsFold(HEADER_NOTIFY, ls, EMPTY);
    MethodOfText(Notify, Block(ls) + CRLF);
  }

  /**
   * For values that are empty or printable with no blank at either end, location, search target and
   * connection come back exactly, and the two addresses cut to 127 characters.
   */
  lemma CleanReadBack(h: Header, ip: string, port: nat)
    requires FitsArrays(h, ip, port)
    requires Clean(h.searchTarget) && Clean(h.connection)
    requires Clean(Host(h, ip) + h.suffix) && Clean(Host(h, ip) + h.suffixSecondly)
    ensures var p := ReadBack(h, ip);
      && p.location == Host(h, ip) + h.suffix
      && p.st == h.searchTarget
      && p.connection == h.connection
      && p.address == Snprintf(Host(h, ip) + h.suffix, FIELD_LEN)
      && p.addressSecondly == Snprintf(Host(h, ip) + h.suffixSecondly, FIELD_LEN)
      && p.usn == p.smId == p.deviceType == ""
  {
    hide Clean, Trim;
    CleanIsTrimmed(h.searchTarget);
    CleanIsTrimmed(h.connection);
    CleanIsTrimmed(Host(h, ip) + h.suffix);
    CleanIsTrimmed(Host(h, ip) + h.suffixSecondly);
  }

  lemma CleanNoNewline(a: string, b: string)
    requires Clean(a + b)
    ensures NoNewline(a) && NoNewline(b)
  {
    forall i | 0 <= i < |a| ensures a[i] != '\n' {
      assert (a + b)[i] == a[i];
    }
    forall i | 0 <= i < |b| ensures b[i] != '\n' {
      assert (a + b)[|a| + i] == b[i];
    }
  }

  /** What the parser makes of a packet of this kind in an empty record. */
  function Parsed(m: Method, data: string): Fields
    requires m != NoMethod && |HeaderOf(m)| <= |data|
  {
    ScanFrom(data, |HeaderOf(m)|, |HeaderOf(m)|, EMPTY)
  }

  /** The host that is printed: the address of the interface stands in only for a missing domain. */
  function Shown(h: Header, ip: string): string {
    if |h.domain| > 0 then "" else ip
  }

  /**
   * A packet printed from such values and parsed: location, search target and connection come back exactly,
   * the two addresses cut to 127 characters, and nothing else is set.
   */
  lemma CleanRoundTrip(h: Header, ip: string, port: nat, m: Method)
    requires FitsArrays(h, ip, port) && m in {Notify, Response}
    requires Clean(h.searchTarget) && Clean(h.connection)
    requires Clean(Host(h, ip) + h.suffix) && Clean(Host(h, ip) + h.suffixSecondly)
    ensures var data := Snprintf(if m == Notify then NotifyText(h, ip, port) else ResponseText(h, ip), BUFFER_LEN);
      && |HeaderOf(m)| <= |data| <= BUFFER_LEN && MethodOf(data) == m
      && var p := Parsed(m, data);
      && p.location == Host(h, ip) + h.suffix
      && p.st == h.searchTarget
      && p.connection == h.connection
      && p.address == Snprintf(Host(h, ip) + h.suffix, FIELD_LEN)
      && p.addressSecondly == Snprintf(Host(h, ip) + h.suffixSecondly, FIELD_LEN)
      && p.usn == p.smId == p.deviceType == ""
  {
    hide Clean, ReadBack, ScanFrom, NoNewline, MethodOf, Snprintf, Block, SharedLines, HostLine;
    var other := Shown(h, ip);
    assert Host(h, other) == Host(h, ip);
    CleanNoNewline(Host(h, ip), h.suffix);
    CleanNoNewline(Host(h, ip), h.suffixSecondly);
    CleanIsTrimmed(h.searchTarget);
    CleanIsTrimmed(h.connection);
    EmptyNoNewline();
    SameShown(h, ip, port);
    ResponseRoundTrip(h, other, port);
    NotifyRoundTrip(h, other, port);
    CleanReadBack(h, other, port);
    HeaderFits(Snprintf(NotifyText(h, ip, port), BUFFER_LEN));
    HeaderFits(Snprintf(ResponseText(h, ip), BUFFER_LEN));
  }

  lemma EmptyNoNewline()
    ensures NoNewline("")
  {
  }

  lemma SameShown(h: Header, ip: string, port: nat)
    ensures NotifyText(h, Shown(h, ip), port) == NotifyText(h, ip, port)
    ensures ResponseText(h, Shown(h, ip)) == ResponseText(h, ip)
  {
  }

  /** Exactly which headers come back unchanged: those that trimming leaves alone and whose addresses fit. */
  lemma ReadBackExactly(h: Header, ip: string, port: nat)
    requires FitsArrays(h, ip, port)
    ensures var p, main, second := ReadBack(h, ip), Host(h, ip) + h.suffix, Host(h, ip) + h.suffixSecondly;
      (p.location == main && p.st == h.searchTarget && p.connection == h.connection
       && p.address == main && p.addressSecondly == second)
      <==>
      (Trim(main) == main && Trim(second) == second && Trim(h.searchTarget) == h.searchTarget
       && Trim(h.connection) == h.connection && |main| < FIELD_LEN && |second| < FIELD_LEN)
  {
    hide Trim, Store;
    KeptIsValue(h.searchTarget, FIELD_LEN);
    KeptIsValue(h.connection, FIELD_LEN);
    KeptIsValue(Host(h, ip) + h.suffix, LOCATION_LEN);
    KeptIsValue(Host(h, ip) + h.suffix, FIELD_LEN);
    KeptIsValue(Host(h, ip) + h.suffixSecondly, FIELD_LEN);
  }
}
