// Property keys with appended information, such as "image_property[ch=3]": their parser, their printer
// and the function that sets a channel id.
module PropertyKey {
  import opened Wrappers
  import opened OrderedDict
  import Decimal

  const CHANNEL_TAG := "ch="
  const MAX_CHANNEL_ID := 0xFFFF_FFFF

  // The part before the bracket and the appended information; a tag ends with its '='.
  datatype Key = Key(base: string, info: seq<(string, string)>)

  // ---- Python's string functions ----

  function Find(s: string, c: char): (i: int)
    ensures -1 <= i < |s|
    ensures i >= 0 ==> s[i] == c && c !in s[..i]
    ensures i < 0 <==> c !in s
  {
    if s == [] then -1
    else if s[0] == c then 0
    else
      var i := Find(s[1..], c);
      assert i >= 0 ==> s[..i + 1] == [s[0]] + s[1..][..i];
      if i < 0 then -1 else i + 1
  }

  function RFind(s: string, c: char): (i: int)
    ensures -1 <= i < |s|
    ensures i >= 0 ==> s[i] == c && c !in s[i + 1..]
    ensures i < 0 <==> c !in s
  {
    if s == [] then -1
    else if s[|s| - 1] == c then |s| - 1
    else
      var i := RFind(s[..|s| - 1], c);
      assert i >= 0 ==> s[i + 1..] == s[..|s| - 1][i + 1..] + [s[|s| - 1]];
      i
  }

  function Slice(s: string, from: nat, to: nat): string {
    if from < to <= |s| then s[from..to] else ""
  }

  function Split(s: string): seq<string>
    decreases |s|
  {
    var at := Find(s, ',');
    if at < 0 then [s] else [s[..at]] + Split(s[at + 1..])
  }

  // ---- Parsing ----

  function Assign(info: seq<(string, string)>, piece: string): seq<(string, string)> {
    var pos := Find(piece, '=');
    if pos < 0 then info else Put(info, piece[..pos + 1], piece[pos + 1..])
  }

  function AssignAll(info: seq<(string, string)>, pieces: seq<string>): seq<(string, string)>
    decreases |pieces|
  {
    if pieces == [] then info else AssignAll(Assign(info, pieces[0]), pieces[1..])
  }

  // From behind the last opening bracket to the first closing one.
  function Appended(key: string): string
    requires '[' in key && ']' in key
  {
    Slice(key, RFind(key, '[') + 1, Find(key, ']'))
  }

  function Parse(key: string): Key {
    var start, end := Find(key, '['), RFind(key, ']');
    if start < 0 then (if end < 0 then Key(key, []) else Key("", []))
    else if end != |key| - 1 || start == 0 then Key("", [])
    else Key(key[..start], AssignAll([], Split(Appended(key))))
  }

  // ---- Printing ----

  function Body(info: seq<(string, string)>): string {
    if info == [] then ""
    else if |info| == 1 then info[0].0 + info[0].1
    else info[0].0 + info[0].1 + "," + Body(info[1..])
  }

  function Print(k: Key): string {
    if k.base == "" then "" else k.base + "[" + Body(k.info) + "]"
  }

  function WithChannel(k: Key, id: nat): Key {
    k.(info := Put(k.info, CHANNEL_TAG, Decimal.Print(id)))
  }

  function SetChannelId(key: string, id: int): string {
    if key == "" || id < 0 || id > MAX_CHANNEL_ID then "" else Print(WithChannel(Parse(key), id))
  }

  // ---- What parsing produces ----

  predicate Plain(s: string) {
    '[' !in s && ']' !in s && ',' !in s
  }

  predicate IsTag(s: string) {
    Plain(s) && s != "" && s[|s| - 1] == '=' && '=' !in s[..|s| - 1]
  }

  ghost predicate WellFormed(info: seq<(string, string)>) {
    Distinct(info) && forall i :: 0 <= i < |info| ==> IsTag(info[i].0) && Plain(info[i].1)
  }

  lemma {:induction false} PutWellFormed(info: seq<(string, string)>, tag: string, value: string)
    requires WellFormed(info) && IsTag(tag) && Plain(value)
    ensures WellFormed(Put(info, tag, value))
  {
    PutDistinct(info, tag, value);
    PutEntries(info, tag, value);
  }

  lemma {:induction false} PutEntries(info: seq<(string, string)>, tag: string, value: string)
    requires forall i :: 0 <= i < |info| ==> IsTag(info[i].0) && Plain(info[i].1)
    requires IsTag(tag) && Plain(value)
    ensures forall i :: 0 <= i < |Put(info, tag, value)| ==>
              IsTag(Put(info, tag, value)[i].0) && Plain(Put(info, tag, value)[i].1)
  {
    hide IsTag, Plain;
    if info != [] && info[0].0 != tag {
      PutEntries(info[1..], tag, value);
    }
  }

  predicate NoBrackets(s: string) {
    '[' !in s && ']' !in s
  }

  lemma {:induction false} SplitPlain(s: string)
    requires NoBrackets(s)
    ensures forall i :: 0 <= i < |Split(s)| ==> Plain(Split(s)[i])
    decreases |s|
  {
    var at := Find(s, ',');
    if at >= 0 {
      SplitPlain(s[at + 1..]);
    }
  }

  lemma {:induction false} AssignAllWellFormed(info: seq<(string, string)>, pieces: seq<string>)
    requires WellFormed(info) && forall i :: 0 <= i < |pieces| ==> Plain(pieces[i])
    ensures WellFormed(AssignAll(info, pieces))
    decreases |pieces|
  {
    if pieces != [] {
      AssignWellFormed(info, pieces[0]);
      AssignAllWellFormed(Assign(info, pieces[0]), pieces[1..]);
    }
  }

  lemma AssignWellFormed(info: seq<(string, string)>, piece: string)
    requires WellFormed(info) && Plain(piece)
    ensures WellFormed(Assign(info, piece))
  {
    var pos := Find(piece, '=');
    if pos >= 0 {
      var tag := piece[..pos + 1];
      assert tag[..|tag| - 1] == piece[..pos];
      PutWellFormed(info, tag, piece[pos + 1..]);
    }
  }

  lemma AppendedPlain(key: string)
    requires '[' in key && ']' in key
    ensures NoBrackets(Appended(key))
  {
    var from, to := RFind(key, '[') + 1, Find(key, ']');
    if from < to {
      assert Appended(key) == key[from..to];
      assert forall c :: c in key[from..to] ==> c in key[from..] && c in key[..to];
    }
  }

  // Parsing gives a base without an opening bracket and well-formed information, which is empty if the
  // base has a closing bracket.
  lemma ParseProduces(key: string)
    ensures '[' !in Parse(key).base && WellFormed(Parse(key).info)
    ensures ']' in Parse(key).base ==> Parse(key).info == []
  {
    var start, end := Find(key, '['), RFind(key, ']');
    if start > 0 && end == |key| - 1 {
      var text := Appended(key);
      AppendedPlain(key);
      SplitPlain(text);
      AssignAllWellFormed([], Split(text));
      if ']' in key[..start] {
        var i :| 0 <= i < start && key[..start][i] == ']';
        FindAtMost(key, ']', i);
        RFindAtLeast(key, '[', start);
        NothingAppended();
      }
    }
  }

  lemma NothingAppended()
    ensures AssignAll([], Split("")) == []
  {
    assert Split("") == [""] && [""][1..] == [];
    assert AssignAll([], [""]) == AssignAll([], []);
  }

  lemma {:induction false} FindAtMost(s: string, c: char, i: nat)
    requires i < |s| && s[i] == c
    ensures 0 <= Find(s, c) <= i
  {
    if i > 0 && s[0] != c {
      FindAtMost(s[1..], c, i - 1);
    }
  }

  lemma {:induction false} RFindAtLeast(s: string, c: char, i: nat)
    requires i < |s| && s[i] == c
    ensures RFind(s, c) >= i
    decreases |s|
  {
    if i < |s| - 1 && s[|s| - 1] != c {
      RFindAtLeast(s[..|s| - 1], c, i);
    }
  }

  // ---- Reading back what was printed ----

  function Pieces(info: seq<(string, string)>): seq<string> {
    if info == [] then [""] else if |info| == 1 then [info[0].0 + info[0].1] else [info[0].0 + info[0].1] + Pieces(info[1..])
  }

  lemma {:induction false} FindIn(a: string, c: char, b: string)
    requires c !in a
    ensures Find(a + [c] + b, c) == |a|
  {
    if a != [] {
      assert (a + [c] + b)[1..] == a[1..] + [c] + b;
      FindIn(a[1..], c, b);
    }
  }

  lemma {:induction false} RFindIn(a: string, c: char, b: string)
    requires c !in b
    ensures RFind(a + [c] + b, c) == |a|
    decreases |b|
  {
    var s := a + [c] + b;
    if b != [] {
      assert s[..|s| - 1] == a + [c] + b[..|b| - 1] && s[|s| - 1] == b[|b| - 1];
      RFindIn(a, c, b[..|b| - 1]);
    } else {
      assert s[|s| - 1] == c;
    }
  }

  lemma {:induction false} BodyPlain(info: seq<(string, string)>)
    requires forall i :: 0 <= i < |info| ==> IsTag(info[i].0) && Plain(info[i].1)
    ensures NoBrackets(Body(info))
  {
    if |info| > 1 {
      BodyPlain(info[1..]);
    }
  }

  lemma {:induction false} SplitBody(info: seq<(string, string)>)
    requires forall i :: 0 <= i < |info| ==> IsTag(info[i].0) && Plain(info[i].1)
    ensures Split(Body(info)) == Pieces(info)
  {
    if |info| > 1 {
      var piece, rest := info[0].0 + info[0].1, Body(info[1..]);
      SplitBody(info[1..]);
      FindIn(piece, ',', rest);
      var s := piece + [','] + rest;
      assert Body(info) == s && s[..|piece|] == piece && s[|piece| + 1..] == rest;
    }
  }

  lemma AssignPiece(info: seq<(string, string)>, tag: string, value: string)
    requires IsTag(tag)
    ensures Assign(info, tag + value) == Put(info, tag, value)
  {
    var before := tag[..|tag| - 1];
    FindIn(before, '=', value);
    assert tag + value == before + ['='] + value;
    assert (tag + value)[..|tag|] == tag && (tag + value)[|tag|..] == value;
  }

  lemma {:induction false} AssignPieces(done: seq<(string, string)>, info: seq<(string, string)>)
    requires WellFormed(done + info)
    ensures AssignAll(done, Pieces(info)) == done + info
    decreases |info|
  {
    if info == [] {
      assert Assign(done, "") == done;
      assert AssignAll(done, [""]) == AssignAll(done, [""][1..]) == done;
      assert done + info == done;
    } else {
      var all := done + info;
      assert all[|done|] == info[0];
      AssignPiece(done, info[0].0, info[0].1);
      forall k | 0 <= k < |done| ensures done[k].0 != info[0].0 {
        assert all[k] == done[k];
      }
      PutLast(done, info[0].0, info[0].1);
      var next := done + [info[0]];
      assert next + info[1..] == all;
      if |info| == 1 {
        assert AssignAll(done, Pieces(info)) == AssignAll(next, Pieces(info)[1..]) == next;
        assert next == all;
      } else {
        AssignPieces(next, info[1..]);
        assert Pieces(info)[1..] == Pieces(info[1..]);
      }
    }
  }

  // Where the brackets of a printed key are found.
  lemma PrintedBrackets(base: string, body: string)
    requires base != "" && '[' !in base && NoBrackets(body)
    ensures var key := base + "[" + body + "]";
            && Find(key, '[') == RFind(key, '[') == |base|
            && RFind(key, ']') == |key| - 1
            && key[..|base|] == base
            && (']' !in base ==> Find(key, ']') == |key| - 1 && key[|base| + 1..|key| - 1] == body)
            && (']' in base ==> 0 <= Find(key, ']') < |base|)
  {
    hide Find, RFind;
    var key := base + "[" + body + "]";
    assert key == base + ['['] + (body + "]");
    FindIn(base, '[', body + "]");
    RFindIn(base, '[', body + "]");
    assert key == (base + "[" + body) + [']'] + "";
    RFindIn(base + "[" + body, ']', "");
    if ']' in base {
      var i :| 0 <= i < |base| && base[i] == ']';
      FindAtMost(key, ']', i);
    } else {
      FindIn(base + "[" + body, ']', "");
    }
  }

  // A printed key is read back as the same base with the same information, unless the base has a
  // closing bracket: then the information is not found again.
  lemma ParsePrint(k: Key)
    requires k.base != "" && '[' !in k.base && WellFormed(k.info)
    ensures Parse(Print(k)) == Key(k.base, if ']' in k.base then [] else k.info)
  {
    hide Find, RFind, Split, AssignAll, Body, Pieces, IsTag, Plain, Distinct;
    BodyPlain(k.info);
    PrintedBrackets(k.base, Body(k.info));
    if ']' in k.base {
      NothingAppended();
    } else {
      SplitBody(k.info);
      assert [] + k.info == k.info;
      AssignPieces([], k.info);
    }
  }

  // Parsing, printing and parsing again gives the same result, for every key that can be parsed.
  lemma ParseIsStable(key: string)
    requires Parse(key).base != ""
    ensures Parse(Print(Parse(key))) == Parse(key)
  {
    ParseProduces(key);
    ParsePrint(Parse(key));
  }

  lemma ChannelIsWellFormed(id: nat)
    ensures IsTag(CHANNEL_TAG) && Plain(Decimal.Print(id))
  {
    var digits := Decimal.Print(id);
    assert CHANNEL_TAG[..2] == "ch";
  }

  lemma {:induction false} PutTwice(info: seq<(string, string)>, tag: string, a: string, b: string)
    ensures Put(Put(info, tag, a), tag, b) == Put(info, tag, b)
  {
    if info != [] && info[0].0 != tag {
      PutTwice(info[1..], tag, a, b);
    }
  }

  // Setting a channel id and then another one is the same as setting the second one, for every key.
  lemma SetTwice(key: string, a: nat, b: nat)
    requires a <= MAX_CHANNEL_ID && b <= MAX_CHANNEL_ID
    ensures SetChannelId(SetChannelId(key, a), b) == SetChannelId(key, b)
  {
    var k := Parse(key);
    if key != "" && k.base != "" {
      ParseProduces(key);
      ChannelIsWellFormed(a);
      PutWellFormed(k.info, CHANNEL_TAG, Decimal.Print(a));
      ParsePrint(WithChannel(k, a));
      PutTwice(k.info, CHANNEL_TAG, Decimal.Print(a), Decimal.Print(b));
    }
  }

  // The id that was set can be read back, with all other tags unchanged, exactly if the base has no
  // closing bracket.
  lemma SetIsReadBack(key: string, id: nat, tag: string)
    requires id <= MAX_CHANNEL_ID && Parse(key).base != ""
    ensures var info := Parse(SetChannelId(key, id)).info;
            && Parse(SetChannelId(key, id)).base == Parse(key).base
            && (Get(info, CHANNEL_TAG) == Some(Decimal.Print(id)) <==> ']' !in Parse(key).base)
            && (tag != CHANNEL_TAG ==> Get(info, tag) == Get(Parse(key).info, tag))
  {
    var k := Parse(key);
    ParseProduces(key);
    ChannelIsWellFormed(id);
    PutWellFormed(k.info, CHANNEL_TAG, Decimal.Print(id));
    ParsePrint(WithChannel(k, id));
    GetPut(k.info, CHANNEL_TAG, Decimal.Print(id), CHANNEL_TAG);
    GetPut(k.info, CHANNEL_TAG, Decimal.Print(id), tag);
  }

  // ---- On the text ----

  // A key without brackets gets the channel appended.
  lemma PlainKeyGetsChannel(key: string, id: int)
    requires key != "" && '[' !in key && ']' !in key && 0 <= id <= 0xFFFF_FFFF
    ensures SetChannelId(key, id) == key + "[ch=" + Decimal.Print(id) + "]"
  {
    OneTag(key, Decimal.Print(id));
  }

  lemma OneTag(base: string, digits: string)
    requires base != ""
    ensures Print(Key(base, Put([], CHANNEL_TAG, digits))) == base + "[ch=" + digits + "]"
  {
    assert Put([], CHANNEL_TAG, digits) == [(CHANNEL_TAG, digits)];
    assert base + "[" + ("ch=" + digits) + "]" == base + "[ch=" + digits + "]";
  }

  // Which calls give the empty key: those with no key or an id outside of 32 bits, and those whose key has
  // a closing bracket without an opening one, an opening one without a closing one at the end, or an
  // opening one in first place.
  lemma RefusedExactly(key: string, id: int)
    ensures SetChannelId(key, id) == "" <==>
              || key == "" || id < 0 || id > 0xFFFF_FFFF
              || (']' in key && '[' !in key)
              || ('[' in key && key[|key| - 1] != ']')
              || key[0] == '['
  {
    hide Find, RFind, AssignAll, Split, Body;
    if key != "" {
      FoundAtEnds(key);
    }
  }

  lemma FoundAtEnds(key: string)
    requires key != ""
    ensures Find(key, '[') == 0 <==> key[0] == '['
    ensures RFind(key, ']') == |key| - 1 <==> key[|key| - 1] == ']'
  {
  }

  // A key with one tag other than the channel keeps it, with the channel after it.
  lemma OtherTagStays(base: string, tag: string, value: string, id: int)
    requires base != "" && '[' !in base && ']' !in base && 0 <= id <= 0xFFFF_FFFF
    requires Plain(tag) && '=' !in tag && tag != "ch" && Plain(value)
    ensures SetChannelId(base + "[" + tag + "=" + value + "]", id)
         == base + "[" + tag + "=" + value + ",ch=" + Decimal.Print(id) + "]"
  {
    hide Find, RFind, Split, AssignAll;
    var info := [(tag + "=", value)];
    assert (tag + "=")[..|tag|] == tag;
    assert CHANNEL_TAG[..2] == "ch";
    var key := base + "[" + tag + "=" + value + "]";
    assert key == Print(Key(base, info)) by {
      assert base + "[" + (tag + "=" + value) + "]" == key;
    }
    ParsePrint(Key(base, info));
    var digits := Decimal.Print(id);
    assert Put(info, CHANNEL_TAG, digits) == info + [(CHANNEL_TAG, digits)] by {
      PutLast(info, CHANNEL_TAG, digits);
    }
    TwoTags(base, tag, value, digits);
  }

  lemma TwoTags(base: string, tag: string, value: string, digits: string)
    requires base != ""
    ensures Print(Key(base, [(tag + "=", value)] + [(CHANNEL_TAG, digits)]))
         == base + "[" + tag + "=" + value + ",ch=" + digits + "]"
  {
    var info := [(tag + "=", value)] + [(CHANNEL_TAG, digits)];
    assert info[1..] == [(CHANNEL_TAG, digits)];
    assert Body(info[1..]) == "ch=" + digits;
    assert Body(info) == tag + "=" + value + "," + ("ch=" + digits);
    assert base + "[" + (tag + "=" + value + "," + ("ch=" + digits)) + "]"
        == base + "[" + tag + "=" + value + ",ch=" + digits + "]";
  }

  // The appended information stands between the last opening and the first closing bracket, in this order.
  lemma AppendedExactly(front: string, piece: string, back: string)
    requires ']' !in front && NoBrackets(piece) && '[' !in back
    ensures Appended(front + "[" + piece + "]" + back) == piece
  {
    hide Find, RFind;
    var key := front + "[" + piece + "]" + back;
    assert key == front + ['['] + (piece + "]" + back);
    RFindIn(front, '[', piece + "]" + back);
    assert key == (front + "[" + piece) + [']'] + back;
    FindIn(front + "[" + piece, ']', back);
    assert piece == "" || key[|front| + 1..|front| + 1 + |piece|] == piece;
  }

  // A key that closes before it opens last has no information, and so only gets the channel.
  lemma ClosedBeforeOpened(front: string, middle: string, back: string)
    requires ']' !in front && '[' !in back
    ensures Appended(front + "]" + middle + "[" + back) == ""
  {
    hide Find, RFind;
    var key := front + "]" + middle + "[" + back;
    assert key == front + [']'] + (middle + "[" + back);
    FindIn(front, ']', middle + "[" + back);
    assert key == (front + "]" + middle) + ['['] + back;
    RFindIn(front + "]" + middle, '[', back);
  }

  // A piece without an equals sign is lost.
  lemma LostPiece(base: string, piece: string, id: int)
    requires base != "" && '[' !in base && ']' !in base && 0 <= id <= 0xFFFF_FFFF
    requires Plain(piece) && '=' !in piece
    ensures SetChannelId(base + "[" + piece + "]", id) == base + "[ch=" + Decimal.Print(id) + "]"
  {
    hide Find, RFind;
    var key := base + "[" + piece + "]";
    PrintedBrackets(base, piece);
    assert Appended(key) == piece by {
      assert piece == "" ==> Appended(key) == "";
    }
    assert Split(piece) == [piece] && [piece][1..] == [];
    assert Find(piece, '=') < 0 && AssignAll([], [piece]) == AssignAll([], []) == [];
    assert Parse(key) == Key(base, []);
    OneTag(base, Decimal.Print(id));
  }

  // ---- The class ----

  class PropertyUtilsParam {
    var appendDict: seq<(string, string)>
    var key: string

    constructor (text: string)
      ensures Key(key, appendDict) == Parse(text)
    {
      appendDict, key := [], "";
      new;
      ParseKey(text);
    }

    method ParseKey(text: string)
      requires appendDict == []
      modifies this
      ensures Key(key, appendDict) == Parse(text)
    {
      var start, end := Find(text, '['), RFind(text, ']');
      if start < 0 {
        key := if end < 0 then text else "";
      } else if end != |text| - 1 || start == 0 {
        key := "";
      } else {
        ParseAppendInfo(text);
        key := text[..start];
      }
    }

    method ParseAppendInfo(text: string)
      requires '[' in text && ']' in text
      modifies this`appendDict
      ensures appendDict == AssignAll(old(appendDict), Split(Appended(text)))
    {
      var pieces := Split(Appended(text));
      var i := 0;
      while i < |pieces|
        invariant i <= |pieces|
        invariant AssignAll(appendDict, pieces[i..]) == AssignAll(old(appendDict), pieces)
      {
        var pos := Find(pieces[i], '=');
        assert pieces[i..][1..] == pieces[i + 1..];
        if pos != -1 {
          appendDict := Put(appendDict, pieces[i][..pos + 1], pieces[i][pos + 1..]);
        }
        i := i + 1;
      }
    }

    method SetChannelId(value: nat)
      modifies this`appendDict
      ensures Key(key, appendDict) == WithChannel(old(Key(key, appendDict)), value)
    {
      appendDict := Put(appendDict, CHANNEL_TAG, Decimal.Print(value));
    }

    method GetFullKey() returns (fullKey: string)
      ensures fullKey == Print(Key(key, appendDict))
    {
      if key == "" {
        return "";
      }
      var makeKey := "[";
      var count := 0;
      while count < |appendDict|
        invariant count <= |appendDict|
        invariant makeKey + Body(appendDict[count..]) == "[" + Body(appendDict)
      {
        var entry := appendDict[count];
        var rest := appendDict[count..];
        assert rest[0] == entry && rest[1..] == appendDict[count + 1..];
        ghost var before := makeKey;
        makeKey := makeKey + entry.0 + entry.1;
        count := count + 1;
        if count != |appendDict| {
          makeKey := makeKey + ",";
          assert makeKey + Body(rest[1..]) == before + Body(rest);
        } else {
          assert makeKey + Body(rest[1..]) == before + Body(rest);
        }
      }
      assert appendDict[count..] == [] && makeKey + "" == makeKey;
      return key + makeKey + "]";
    }
  }

  method SetChannelIdOf(key: string, channelId: int) returns (fullKey: string)
    ensures fullKey == SetChannelId(key, channelId)
  {
    if key == "" {
      return "";
    }
    if channelId < 0 || channelId > MAX_CHANNEL_ID {
      return "";
    }
    var utils := new PropertyUtilsParam(key);
    utils.SetChannelId(channelId);
    fullKey := utils.GetFullKey();
  }
}
