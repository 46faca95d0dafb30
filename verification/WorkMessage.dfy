/** The work line the Go side writes for its GPU host, and the host's parser. */
module WorkMessage {
  import opened Words
  import opened Targets
  import opened Wrappers
  import opened Headers
  import Hex

  // ----- the writer

  /** The header with extra nonce 2 in place, in hex; the nonce is left alone. */
  function HeaderHex(job: Job, extraNonce2: Long): string {
    Hex.Encode(WithExtraNonce2(job.header, extraNonce2))
  }

  /** The share target, little endian, in hex. */
  function ShareTargetHex(job: Job): string {
    Hex.Encode(Reverse(job.shareTargetBE))
  }

  const HEAD := "{\"type\":\"work\",\"header\":\""
  const MIDDLE := "\",\"target\":\""
  const TAIL := "\"}"

  /** The encoded line, with its newline. */
  function WorkLine(header: string, target: string): string {
    HEAD + header + MIDDLE + target + TAIL + "\n"
  }

  lemma WrittenLine()
    ensures WorkLine("00", "ff") == "{\"type\":\"work\",\"header\":\"00\",\"target\":\"ff\"}\n"
  {
  }

  // ----- the host's parser

  /** std::string::find from a position. */
  function Find(s: string, pattern: string, from: nat): (at: Option<nat>)
    ensures at.Some? ==> from <= at.value < |s| && MatchAt(s, pattern, at.value)
    ensures at.Some? ==> forall i :: from <= i < at.value ==> !MatchAt(s, pattern, i)
    ensures at.None? ==> forall i :: from <= i < |s| ==> !MatchAt(s, pattern, i)
    decreases |s| - from
  {
    if from >= |s| then None
    else if MatchAt(s, pattern, from) then Some(from)
    else Find(s, pattern, from + 1)
  }

  predicate MatchAt(s: string, pattern: string, i: nat) {
    i + |pattern| <= |s| && forall j :: 0 <= j < |pattern| ==> s[i + j] == pattern[j]
  }

  function Quoted(key: string): string {
    "\"" + key + "\""
  }

  lemma FindIs(s: string, pattern: string, from: nat, at: nat)
    requires pattern != "" && from <= at && MatchAt(s, pattern, at)
    requires forall i :: from <= i < at ==> !MatchAt(s, pattern, i)
    ensures Find(s, pattern, from) == Some(at)
  {
    var r := Find(s, pattern, from);
    assert MatchAt(s, pattern, at);
    if r.Some? { assert MatchAt(s, pattern, r.value); }
  }

  lemma Mismatch(s: string, pattern: string, i: nat, j: nat)
    requires j < |pattern| && i + j < |s| && s[i + j] != pattern[j]
    ensures !MatchAt(s, pattern, i)
  {
  }

  lemma FindChar(s: string, pattern: string, from: nat, at: nat)
    requires |pattern| == 1 && from <= at < |s| && s[at] == pattern[0]
    requires forall i :: from <= i < at ==> s[i] != pattern[0]
    ensures Find(s, pattern, from) == Some(at)
  {
    forall i | from <= i < at ensures !MatchAt(s, pattern, i) {
      Mismatch(s, pattern, i, 0);
    }
    FindIs(s, pattern, from, at);
  }

  /** The quoted string after the first colon after the quoted key. */
  function ExtractStr(s: string, key: string): string {
    var kp := Find(s, Quoted(key), 0);
    if kp.None? then "" else
    var vp := Find(s, ":", kp.value);
    if vp.None? then "" else
    var sp := Find(s, "\"", vp.value + 1);
    if sp.None? then "" else
    var ep := Find(s, "\"", sp.value + 1);
    if ep.None? then "" else s[sp.value + 1..ep.value]
  }

  function Trim(line: string): string {
    if line != "" && line[|line| - 1] in {'\n', '\r', ' ', '\t'} then Trim(line[..|line| - 1]) else line
  }

  datatype Parsed = Ignored | Stop | Ping | Work(header: Header, target: Bytes32)
                  | MissingField | BadHeader | BadTarget

  method ParseMessage(line: string) returns (m: Parsed)
    ensures m == Parse(line)
  {
    hide ExtractStr, Find, Trim, Hex.LaxDecode, Hex.Strip0x;
    var trimmed := Trim(line);
    if trimmed == "" {
      return Ignored;
    }
    if Find(trimmed, Quoted("type"), 0).None? {
      return Ignored;
    }
    var kind := ExtractStr(trimmed, "type");
    if kind == "stop" { return Stop; }
    if kind == "ping" { return Ping; }
    if kind != "work" { return Ignored; }
    var headerHex, targetHex := ExtractStr(trimmed, "header"), ExtractStr(trimmed, "target");
    if headerHex == "" || targetHex == "" {
      return MissingField;
    }
    var ok, header := Hex.HexToBytes(headerHex);
    if !ok || |header| < 180 {
      return BadHeader;
    }
    if |header| > 180 { header := header[..180]; }
    var okT, target := Hex.HexToBytes(targetHex);
    if !okT || |target| != 32 {
      return BadTarget;
    }
    return Parsed.Work(header, target);
  }

  function HostBytes(hex: string): Option<seq<Byte>> {
    var h := Hex.Strip0x(hex);
    if |h| % 2 != 0 then None else Some(Hex.LaxDecode(h))
  }

  function Parse(line: string): Parsed {
    var t := Trim(line);
    var kind := ExtractStr(t, "type");
    if t == "" || Find(t, Quoted("type"), 0).None? then Ignored
    else if kind == "stop" then Stop
    else if kind == "ping" then Ping
    else if kind != "work" then Ignored
    else
      var header, target := HostBytes(ExtractStr(t, "header")), HostBytes(ExtractStr(t, "target"));
      if ExtractStr(t, "header") == "" || ExtractStr(t, "target") == "" then MissingField
      else if header.None? || |header.value| < 180 then BadHeader
      else if target.None? || |target.value| != 32 then BadTarget
      else Parsed.Work(header.value[..180], target.value)
  }

  // ----- round trip

  /** Hex text: no quote, no colon, and no letter that opens a key. */
  predicate HexText(s: string) {
    forall i :: 0 <= i < |s| ==> Hex.DigitValue(s[i]).Some?
  }

  /** Where the four searches for a key land. */
  lemma ExtractIs(s: string, key: string, kp: nat, vp: nat, sp: nat, ep: nat)
    requires MatchAt(s, Quoted(key), kp) && forall i :: 0 <= i < kp ==> !MatchAt(s, Quoted(key), i)
    requires kp <= vp < sp < ep < |s| && s[vp] == ':' && s[sp] == '"' && s[ep] == '"'
    requires forall i :: kp <= i < vp ==> s[i] != ':'
    requires forall i :: vp < i < sp ==> s[i] != '"'
    requires forall i :: sp < i < ep ==> s[i] != '"'
    ensures ExtractStr(s, key) == s[sp + 1..ep]
  {
    hide Find;
    FindIs(s, Quoted(key), 0, kp);
    FindChar(s, ":", kp, vp);
    FindChar(s, "\"", vp + 1, sp);
    FindChar(s, "\"", sp + 1, ep);
  }

  /** Text comes out only when all four searches succeed, and from there. */
  lemma ExtractFound(s: string, key: string) returns (kp: nat, vp: nat, sp: nat, ep: nat)
    requires ExtractStr(s, key) != ""
    ensures MatchAt(s, Quoted(key), kp) && forall i :: 0 <= i < kp ==> !MatchAt(s, Quoted(key), i)
    ensures kp <= vp < sp < ep < |s| && s[vp] == ':' && s[sp] == '"' && s[ep] == '"'
    ensures forall i :: kp <= i < vp ==> s[i] != ':'
    ensures forall i :: vp < i < sp ==> s[i] != '"'
    ensures forall i :: sp < i < ep ==> s[i] != '"'
    ensures ExtractStr(s, key) == s[sp + 1..ep]
  {
    hide Quoted, Find, MatchAt;
    kp := FirstMatch(s, Quoted(key), 0);
    vp := FindCharIs(s, ":", kp);
    sp := FindCharIs(s, "\"", vp + 1);
    ep := FindCharIs(s, "\"", sp + 1);
  }

  lemma FirstMatch(s: string, pattern: string, from: nat) returns (at: nat)
    requires Find(s, pattern, from).Some?
    ensures Find(s, pattern, from) == Some(at) && from <= at < |s| && MatchAt(s, pattern, at)
    ensures forall i :: from <= i < at ==> !MatchAt(s, pattern, i)
  {
    hide MatchAt;
    at := Find(s, pattern, from).value;
  }

  lemma FindCharIs(s: string, pattern: string, from: nat) returns (at: nat)
    requires |pattern| == 1 && Find(s, pattern, from).Some?
    ensures Find(s, pattern, from) == Some(at) && from <= at < |s| && s[at] == pattern[0]
    ensures forall i :: from <= i < at ==> s[i] != pattern[0]
  {
    at := Find(s, pattern, from).value;
    forall i | from <= i < at ensures s[i] != pattern[0] {
      assert !MatchAt(s, pattern, i);
    }
  }

  /** The written line without its newline. */
  function Body(header: string, target: string): string {
    HEAD + header + MIDDLE + target + TAIL
  }

  lemma TrimLine(header: string, target: string)
    ensures Trim(WorkLine(header, target)) == Body(header, target)
  {
    var l, b := WorkLine(header, target), Body(header, target);
    assert l[..|l| - 1] == b && l[|l| - 1] == '\n';
    assert b[|b| - 1] == TAIL[1];
  }

  /** A quoted key can only match at a quote followed by the key's letters. */
  lemma NoMatch(s: string, key: string, i: nat, k: nat)
    requires k < |key| && i < |s| && (s[i] != '"' || (i + 1 + k < |s| && s[i + 1 + k] != key[k]))
    ensures !MatchAt(s, Quoted(key), i)
  {
    assert Quoted(key)[0] == '"' && Quoted(key)[1 + k] == key[k];
    Mismatch(s, Quoted(key), i, if s[i] != '"' then 0 else 1 + k);
  }

  lemma BodyLayout(header: string, target: string)
    ensures var b, n, t := Body(header, target), |header|, |target|;
      && |b| == 39 + n + t
      && b[..25] == HEAD && b[25..25 + n] == header && b[25 + n..37 + n] == MIDDLE
      && b[37 + n..37 + n + t] == target && b[37 + n + t..] == TAIL
  {
  }

  /** The characters of the body, region by region. */
  lemma BodyChars(header: string, target: string)
    ensures var b, n, t := Body(header, target), |header|, |target|;
      && |b| == 39 + n + t
      && (forall i :: 0 <= i < 25 ==> b[i] == HEAD[i])
      && (forall i :: 25 <= i < 25 + n ==> b[i] == header[i - 25])
      && (forall i :: 25 + n <= i < 37 + n ==> b[i] == MIDDLE[i - 25 - n])
      && (forall i :: 37 + n <= i < 37 + n + t ==> b[i] == target[i - 37 - n])
      && b[37 + n + t] == '"'
  {
  }

  lemma TypeAt(b: string, header: string, target: string)
    requires b == Body(header, target)
    ensures |b| > 13 && MatchAt(b, Quoted("type"), 1) && !MatchAt(b, Quoted("type"), 0)
    ensures (forall i :: 1 <= i < 7 ==> b[i] != ':') && b[7] == ':' && b[8] == '"' && b[13] == '"'
    ensures b[9..13] == "work"
  {
    hide Body, MatchAt;
    BodyChars(header, target);
    TypeKey(b);
    TypeValue(b);
  }

  lemma TypeKey(b: string)
    requires |b| > 13 && forall i :: 0 <= i < 14 ==> b[i] == HEAD[i]
    ensures MatchAt(b, Quoted("type"), 1) && !MatchAt(b, Quoted("type"), 0)
  {
    NoMatch(b, "type", 0, 0);
  }

  lemma TypeValue(b: string)
    requires |b| > 13 && forall i :: 0 <= i < 14 ==> b[i] == HEAD[i]
    ensures (forall i :: 1 <= i < 7 ==> b[i] != ':') && b[7] == ':' && b[8] == '"' && b[13] == '"'
    ensures b[9..13] == "work"
  {
    assert b[9] == 'w' && b[10] == 'o' && b[11] == 'r' && b[12] == 'k';
  }

  lemma ExtractType(header: string, target: string)
    ensures ExtractStr(Body(header, target), "type") == "work"
    ensures Find(Body(header, target), Quoted("type"), 0).Some?
  {
    hide ExtractStr, Find, Body;
    var b := Body(header, target);
    TypeAt(b, header, target);
    ExtractIs(b, "type", 1, 7, 8, 13);
    FindIs(b, Quoted("type"), 0, 1);
  }

  lemma ExtractHeader(header: string, target: string)
    requires HexText(header)
    ensures ExtractStr(Body(header, target), "header") == header
  {
    hide ExtractStr, Find, Body;
    var b, n := Body(header, target), |header|;
    BodyChars(header, target);
    assert MatchAt(b, Quoted("header"), 15);
    forall i | 0 <= i < 15 ensures !MatchAt(b, Quoted("header"), i) {
      NoMatch(b, "header", i, 0);
    }
    ExtractIs(b, "header", 15, 23, 24, 25 + n);
    assert b[25..25 + n] == header;
  }

  lemma ExtractTarget(header: string, target: string)
    requires HexText(header) && HexText(target)
    ensures ExtractStr(Body(header, target), "target") == target
  {
    hide ExtractStr, Find, Body;
    var b, n, t := Body(header, target), |header|, |target|;
    BodyChars(header, target);
    assert MatchAt(b, Quoted("target"), 27 + n);
    forall i | 0 <= i < 27 + n ensures !MatchAt(b, Quoted("target"), i) {
      NoTargetBefore(header, target, i);
    }
    ExtractIs(b, "target", 27 + n, 35 + n, 36 + n, 37 + n + t);
    assert b[37 + n..37 + n + t] == target;
  }

  lemma NoTargetBefore(header: string, target: string, i: nat)
    requires HexText(header) && i < 27 + |header|
    ensures !MatchAt(Body(header, target), Quoted("target"), i)
  {
    hide Body;
    var b := Body(header, target);
    BodyChars(header, target);
    if i == 1 {
      NoMatch(b, "target", 1, 1);
    } else {
      NoMatch(b, "target", i, 0);
    }
  }

  lemma EncodeIsHexText(bytes: seq<Byte>)
    ensures HexText(Hex.Encode(bytes))
  {
    hide Hex.DigitChar, Hex.DigitValue, Hex.Encode;
    var s := Hex.Encode(bytes);
    forall i | 0 <= i < |s| ensures Hex.DigitValue(s[i]).Some? {
      var j := i / 2;
      Hex.DigitRoundTrip(bytes[j] / 16);
      Hex.DigitRoundTrip(bytes[j] % 16);
      assert s[2 * j] == Hex.DigitChar(bytes[j] / 16) && s[2 * j + 1] == Hex.DigitChar(bytes[j] % 16);
    }
  }

  /** Any 180 header bytes and 32 target bytes survive the line. */
  lemma LineRoundTrip(header: Header, target: Bytes32)
    ensures Parse(WorkLine(Hex.Encode(header), Hex.Encode(target))) == Parsed.Work(header, target)
  {
    hide ExtractStr, Find, Trim, Body, WorkLine, Hex.Encode, Hex.LaxDecode, Hex.Strip0x;
    var h, t := Hex.Encode(header), Hex.Encode(target);
    TrimLine(h, t);
    ExtractType(h, t);
    EncodeIsHexText(header); EncodeIsHexText(target);
    ExtractHeader(h, t); ExtractTarget(h, t);
    Hex.HostReadsGo(header); Hex.HostReadsGo(target);
    BodyLayout(h, t);
    assert Body(h, t) != "";
    assert header[..180] == header;
  }

  /** The host receives exactly the header and the target the miner means: the
      job's header with the sweep's number, little endian, as extra nonce 2, and
      the number of the share target with its bytes turned around. */
  lemma WorkRoundTrip(job: Job, extraNonce2: Long)
    ensures Parse(WorkLine(HeaderHex(job, extraNonce2), ShareTargetHex(job)))
      == Parsed.Work(WithExtraNonce2(job.header, extraNonce2), Reverse(job.shareTargetBE))
    ensures Means(job, extraNonce2, Parse(WorkLine(HeaderHex(job, extraNonce2), ShareTargetHex(job))))
  {
    hide Parse, WorkLine, Hex.Encode, WithExtraNonce2, StoreU64, BytesInt;
    LineRoundTrip(WithExtraNonce2(job.header, extraNonce2), Reverse(job.shareTargetBE));
    WorkHeader(job.header, extraNonce2);
  }

  predicate Means(job: Job, sweep: nat, m: Parsed) {
    && m.Work? && BytesInt(m.header[148..156]) == sweep
    && m.header[..148] == job.header[..148] && m.header[156..] == job.header[156..]
    && BytesInt(m.target) == BigEndianInt(job.shareTargetBE)
  }

  lemma WorkHeader(h: Header, extraNonce2: Long)
    ensures var sent := WithExtraNonce2(h, extraNonce2);
      BytesInt(sent[148..156]) == extraNonce2 && sent[..148] == h[..148] && sent[156..] == h[156..]
  {
    hide StoreU64, BytesInt;
    StoreU64Int(extraNonce2);
    assert WithExtraNonce2(h, extraNonce2)[148..156] == StoreU64(extraNonce2);
  }

  // ----- the other lines

  const SPACES: set<char> := {'\n', '\r', ' ', '\t'}

  /** Trimming takes off all the white space at the end and nothing else. */
  lemma {:induction false} TrimIs(body: string, spaces: string)
    requires forall i :: 0 <= i < |spaces| ==> spaces[i] in SPACES
    requires body == "" || body[|body| - 1] !in SPACES
    ensures Trim(body + spaces) == body
    decreases |spaces|
  {
    var line := body + spaces;
    if spaces == "" {
      assert line == body;
    } else {
      assert line[..|line| - 1] == body + spaces[..|spaces| - 1];
      TrimIs(body, spaces[..|spaces| - 1]);
    }
  }

  /** A line of white space says nothing. */
  lemma BlankLine(spaces: string)
    requires forall i :: 0 <= i < |spaces| ==> spaces[i] in SPACES
    ensures Parse(spaces) == Ignored
  {
    hide Trim, ExtractStr;
    assert "" + spaces == spaces;
    TrimIs("", spaces);
  }

  /** Nor does a line that names no type. */
  lemma Untyped(line: string)
    requires forall i :: 0 <= i ==> !MatchAt(Trim(line), Quoted("type"), i)
    ensures Parse(line) == Ignored
  {
    hide Trim, ExtractStr, MatchAt;
  }

  /** A message that opens with its type. */
  function Typed(kind: string, rest: string): string {
    "{\"type\":\"" + kind + "\"" + rest + "}"
  }

  lemma TypedKind(kind: string, rest: string)
    requires '"' !in kind
    ensures ExtractStr(Typed(kind, rest), "type") == kind && Find(Typed(kind, rest), Quoted("type"), 0).Some?
  {
    hide ExtractStr, Find;
    var s, n := Typed(kind, rest), |kind|;
    assert s[..9] == "{\"type\":\"" && s[9..9 + n] == kind && s[9 + n] == '"';
    assert MatchAt(s, Quoted("type"), 1);
    NoMatch(s, "type", 0, 0);
    assert forall i :: 9 <= i < 9 + n ==> s[i] == kind[i - 9];
    ExtractIs(s, "type", 1, 7, 8, 9 + n);
    FindIs(s, Quoted("type"), 0, 1);
  }

  /** Its type alone says what it is, whatever follows: "stop" stops, "ping" is
      answered, and any other type but "work" is ignored. */
  lemma KindDecides(kind: string, rest: string, spaces: string)
    requires '"' !in kind && forall i :: 0 <= i < |spaces| ==> spaces[i] in SPACES
    ensures var m := Parse(Typed(kind, rest) + spaces);
      && (m == Stop <==> kind == "stop")
      && (m == Ping <==> kind == "ping")
      && (m == Ignored <==> kind != "stop" && kind != "ping" && kind != "work")
  {
    hide Trim, ExtractStr, Find, Typed, HostBytes;
    assert Typed(kind, rest) != "" && Typed(kind, rest)[|Typed(kind, rest)| - 1] == '}' by { TypedEnds(kind, rest); }
    TrimIs(Typed(kind, rest), spaces);
    TypedKind(kind, rest);
  }

  lemma TypedEnds(kind: string, rest: string)
    ensures var s := Typed(kind, rest);
      s != "" && s[|s| - 1] == '}'
  {
  }

  /** Which work lines are refused and for what: an empty field, a header of an
      odd number of digits or of fewer than 360, a target of other than 64. */
  lemma WorkLineErrors(header: string, target: string)
    requires HexText(header) && HexText(target)
    ensures var m := Parse(WorkLine(header, target));
      && (m == MissingField <==> header == "" || target == "")
      && (m == BadHeader <==> header != "" && target != "" && (|header| % 2 != 0 || |header| < 360))
      && (m == BadTarget <==> |header| % 2 == 0 && |header| >= 360 && target != "" && |target| != 64)
      && (m.Work? <==> |header| % 2 == 0 && |header| >= 360 && |target| == 64)
  {
    hide ExtractStr, Find, Trim, Body, WorkLine, Hex.LaxDigit, Hex.DigitValue, Hex.Strip0x;
    TrimLine(header, target);
    ExtractType(header, target);
    ExtractHeader(header, target); ExtractTarget(header, target);
    NoPrefix(header); NoPrefix(target);
    BodyLayout(header, target);
    assert Body(header, target) != "";
  }

  lemma NoPrefix(s: string)
    requires HexText(s)
    ensures Hex.Strip0x(s) == s
  {
    hide Hex.DigitValue;
    if |s| > 1 { Hex.NotADigit(s[1]); }
  }

  /** What is read from the others: the first 180 bytes of the header, and the
      target. */
  lemma WorkLineRead(header: string, target: string)
    requires HexText(header) && HexText(target) && |header| % 2 == 0 && |header| >= 360 && |target| == 64
    ensures Hex.Decode(header).Some? && |Hex.Decode(header).value| >= 180
    ensures Hex.Decode(target).Some? && |Hex.Decode(target).value| == 32
    ensures Parse(WorkLine(header, target)) == Parsed.Work(Hex.Decode(header).value[..180], Hex.Decode(target).value)
  {
    hide ExtractStr, Find, Trim, Body, WorkLine, Hex.LaxDecode, Hex.Decode, Hex.DigitValue, Hex.Strip0x;
    TrimLine(header, target);
    ExtractType(header, target);
    ExtractHeader(header, target); ExtractTarget(header, target);
    Hex.DecodesIff(header); Hex.DecodesIff(target);
    Hex.HostReadsHex(header); Hex.HostReadsHex(target);
    BodyLayout(header, target);
    assert Body(header, target) != "";
  }
}
