/** The JSON text of a `CustomServer` (src/custom_server.rs) as serde_json
    prints it, and what is assumed of the reader on the other side. */
module LicenseJson {
  import opened Options
  import opened Base64Url

  datatype CustomServer = CustomServer(key: string, host: string, api: string, relay: string)

  predicate Ascii(s: string) {
    forall i | 0 <= i < |s| :: s[i] as int < 128
  }

  predicate AsciiServer(lic: CustomServer) {
    Ascii(lic.key) && Ascii(lic.host) && Ascii(lic.api) && Ascii(lic.relay)
  }

  function Bytes(s: string): seq<Byte>
    requires Ascii(s)
  {
    seq(|s|, i requires 0 <= i < |s| => s[i] as int)
  }

  function Text(b: seq<Byte>): string {
    seq(|b|, i requires 0 <= i < |b| => b[i] as char)
  }

  // ---------------------------------------------------------------- printing

  function HexDigit(d: nat): (c: char)
    requires d < 16
    ensures c as int < 128 && FromHex(c) == Some(d)
  {
    if d < 10 then ('0' as int + d) as char else ('a' as int + (d - 10)) as char
  }

  function FromHex(c: char): Option<nat> {
    if '0' <= c <= '9' then Some(c as int - '0' as int)
    else if 'a' <= c <= 'f' then Some(c as int - 'a' as int + 10)
    else None
  }

  /** The letter of a two-character escape. */
  function EscapeLetter(c: char): Option<char> {
    if c == '"' || c == '\\' then Some(c)
    else if c as int == 8 then Some('b')
    else if c as int == 12 then Some('f')
    else if c == '\n' then Some('n')
    else if c == '\r' then Some('r')
    else if c == '\t' then Some('t')
    else None
  }

  function Escape(c: char): string {
    var letter := EscapeLetter(c);
    if letter.Some? then ['\\', letter.value]
    else if c as int < 32 then ['\\', 'u', '0', '0', HexDigit(c as int / 16), HexDigit(c as int % 16)]
    else [c]
  }

  function EscapeAll(s: string): string {
    if s == [] then [] else Escape(s[0]) + EscapeAll(s[1..])
  }

  // What serde_json prints before each of the four values.
  const OPENERS: seq<string> := ["{\"key\":\"", ",\"host\":\"", ",\"api\":\"", ",\"relay\":\""]

  function Fields(lic: CustomServer): seq<string> {
    [lic.key, lic.host, lic.api, lic.relay]
  }

  function PrintMembers(openers: seq<string>, values: seq<string>): string
    requires |openers| == |values|
  {
    if openers == [] then "}"
    else openers[0] + (EscapeAll(values[0]) + "\"" + PrintMembers(openers[1..], values[1..]))
  }

  function JsonText(lic: CustomServer): string {
    PrintMembers(OPENERS, Fields(lic))
  }

  lemma {:induction false} EscapeAllAscii(s: string)
    requires Ascii(s)
    ensures Ascii(EscapeAll(s))
  {
    if s != [] { EscapeAllAscii(s[1..]); }
  }

  lemma {:induction false} PrintMembersAscii(openers: seq<string>, values: seq<string>)
    requires |openers| == |values|
    requires forall i | 0 <= i < |openers| :: Ascii(openers[i]) && Ascii(values[i])
    ensures var t := PrintMembers(openers, values);
            Ascii(t) && t != [] && t[|t| - 1] == '}'
  {
    if openers != [] {
      PrintMembersAscii(openers[1..], values[1..]);
      EscapeAllAscii(values[0]);
    }
  }

  lemma OpenersFacts()
    ensures |OPENERS| == 4 && OPENERS[0] != [] && OPENERS[0][0] == '{'
    ensures forall i | 0 <= i < 4 :: Ascii(OPENERS[i])
  {
  }

  lemma JsonTextAscii(lic: CustomServer)
    requires AsciiServer(lic)
    ensures Ascii(JsonText(lic)) && |JsonText(lic)| >= 2
    ensures JsonText(lic)[0] == '{' && JsonText(lic)[|JsonText(lic)| - 1] == '}'
  {
    OpenersFacts();
    PrintMembersAscii(OPENERS, Fields(lic));
  }

  /** A text that JSON writes as it is. */
  predicate Plain(s: string) {
    forall i | 0 <= i < |s| :: s[i] as int >= 32 && s[i] != '"' && s[i] != '\\'
  }

  lemma {:induction false} PlainIsKept(s: string)
    requires Plain(s)
    ensures EscapeAll(s) == s
  {
    if s != [] {
      PlainIsKept(s[1..]);
      assert s == [s[0]] + s[1..];
    }
  }

  /** The printed text in full, for plain settings. */
  lemma PlainJsonText(lic: CustomServer)
    requires Plain(lic.key) && Plain(lic.host) && Plain(lic.api) && Plain(lic.relay)
    ensures JsonText(lic)
         == "{\"key\":\"" + (lic.key + "\"" + (",\"host\":\"" + (lic.host + "\"" + (",\"api\":\"" + (lic.api + "\""
            + (",\"relay\":\"" + (lic.relay + "\"" + "}")))))))
  {
    PlainIsKept(lic.key);
    PlainIsKept(lic.host);
    PlainIsKept(lic.api);
    PlainIsKept(lic.relay);
    PrintMember(OPENERS, Fields(lic));
    PrintMember(OPENERS[1..], Fields(lic)[1..]);
    PrintMember(OPENERS[2..], Fields(lic)[2..]);
    PrintMember(OPENERS[3..], Fields(lic)[3..]);
  }

  lemma PrintMember(openers: seq<string>, values: seq<string>)
    requires |openers| == |values| > 0
    ensures PrintMembers(openers, values)
         == openers[0] + (EscapeAll(values[0]) + "\"" + PrintMembers(openers[1..], values[1..]))
  {
  }

  /** Quotes, backslashes and control characters are escaped as section 7 of
      RFC 8259 has it, with the short forms where there are any. */
  lemma EscapeForms(c: char)
    requires c as int < 128
    ensures c == '"' ==> Escape(c) == "\\\""
    ensures c == '\\' ==> Escape(c) == "\\\\"
    ensures c == '\n' ==> Escape(c) == "\\n"
    ensures c == '\r' ==> Escape(c) == "\\r"
    ensures c == '\t' ==> Escape(c) == "\\t"
    ensures c as int == 8 ==> Escape(c) == "\\b"
    ensures c as int == 12 ==> Escape(c) == "\\f"
    ensures c as int == 1 ==> Escape(c) == "\\u0001"
    ensures c as int == 31 ==> Escape(c) == "\\u001f"
  {
  }

  // ---------------------------------------------------------------- reading

  // JSON white space.
  const BLANK: set<Byte> := {9, 10, 13, 32}

  /** What the proofs use of `serde_json::from_slice::<CustomServer>`: it reads
      what serde_json printed, and it accepts nothing but an object or an array
      with white space around it. */
  ghost predicate ReadsServers(json: seq<Byte> -> Option<CustomServer>) {
    && (forall lic | AsciiServer(lic) && Ascii(JsonText(lic)) :: json(Bytes(JsonText(lic))) == Some(lic))
    && (forall d :: json(d).Some? ==>
          d != [] && d[0] in BLANK + {123, 91} && d[|d| - 1] in BLANK + {125, 93})
  }

  function UnescapeLetter(c: char): Option<char> {
    if c == '"' || c == '\\' then Some(c)
    else if c == 'b' then Some(8 as char)
    else if c == 'f' then Some(12 as char)
    else if c == 'n' then Some('\n')
    else if c == 'r' then Some('\r')
    else if c == 't' then Some('\t')
    else None
  }

  /** One printed character and what follows it. */
  function ReadChar(t: string): Option<(char, string)> {
    if t == [] || t[0] == '"' then None
    else if t[0] != '\\' then Some((t[0], t[1..]))
    else if |t| < 2 then None
    else if UnescapeLetter(t[1]).Some? then Some((UnescapeLetter(t[1]).value, t[2..]))
    else if |t| < 6 || t[1..4] != "u00" || FromHex(t[4]).None? || FromHex(t[5]).None? then None
    else Some(((FromHex(t[4]).value * 16 + FromHex(t[5]).value) as char, t[6..]))
  }

  /** A string literal after its opening quote, and what follows the closing one. */
  function ReadChars(t: string): (r: Option<(string, string)>)
    ensures r.Some? ==> |r.value.1| < |t| && r.value.1 == t[|t| - |r.value.1|..]
    decreases |t|
  {
    if t == [] then None
    else if t[0] == '"' then Some(([], t[1..]))
    else
      var c := ReadChar(t);
      if c.None? then None
      else
        var more := ReadChars(c.value.1);
        if more.None? then None else Some(([c.value.0] + more.value.0, more.value.1))
  }

  /** The values after each of the given openers, up to the closing brace. */
  function ReadMembers(t: string, openers: seq<string>): (r: Option<seq<string>>)
    ensures r.Some? ==> |r.value| == |openers| && t != [] && t[|t| - 1] == '}'
  {
    if openers == [] then
      if t == "}" then Some([]) else None
    else if !(openers[0] <= t) then None
    else
      var v := ReadChars(t[|openers[0]|..]);
      if v.None? then None
      else
        var more := ReadMembers(v.value.1, openers[1..]);
        if more.None? then None else Some([v.value.0] + more.value)
  }

  /** A reader of the printed form only. */
  function ReadPrinted(t: string): Option<CustomServer> {
    var v := ReadMembers(t, OPENERS);
    if v.None? then None
    else Some(CustomServer(v.value[0], v.value[1], v.value[2], v.value[3]))
  }

  lemma ReadCharOfEscape(c: char, rest: string)
    requires c as int < 128
    ensures ReadChar(Escape(c) + rest) == Some((c, rest))
    ensures Escape(c)[0] != '"'
  {
    var t := Escape(c) + rest;
    if EscapeLetter(c).Some? {
      assert t[2..] == rest;
    } else if c as int < 32 {
      assert t[6..] == rest && t[1..4] == ['u', '0', '0'];
    } else {
      assert t[1..] == rest;
    }
  }

  lemma {:induction false} ReadCharsOfPrinted(s: string, rest: string)
    requires Ascii(s)
    ensures ReadChars(EscapeAll(s) + "\"" + rest) == Some((s, rest))
  {
    var t := EscapeAll(s) + "\"" + rest;
    if s == [] {
      assert t == "\"" + rest && t[1..] == rest;
    } else {
      var more := EscapeAll(s[1..]) + "\"" + rest;
      assert t == Escape(s[0]) + more;
      ReadCharsOfPrinted(s[1..], rest);
      ReadCharsStep(s[0], more, s[1..], rest);
      assert s == [s[0]] + s[1..];
    }
  }

  lemma ReadCharsStep(c: char, more: string, s: string, rest: string)
    requires c as int < 128 && ReadChars(more) == Some((s, rest))
    ensures ReadChars(Escape(c) + more) == Some(([c] + s, rest))
  {
    ReadCharOfEscape(c, more);
    assert (Escape(c) + more)[0] == Escape(c)[0];
  }

  lemma ReadMembersStep(openers: seq<string>, u: string, v: string, w: string, vs: seq<string>)
    requires openers != [] && ReadChars(u) == Some((v, w)) && ReadMembers(w, openers[1..]) == Some(vs)
    ensures ReadMembers(openers[0] + u, openers) == Some([v] + vs)
  {
    assert (openers[0] + u)[|openers[0]|..] == u;
  }

  lemma {:induction false} ReadMembersOfPrinted(openers: seq<string>, values: seq<string>)
    requires |openers| == |values| && forall i | 0 <= i < |values| :: Ascii(values[i])
    ensures ReadMembers(PrintMembers(openers, values), openers) == Some(values)
  {
    if openers != [] {
      var v, vs := values[0], values[1..];
      var more := PrintMembers(openers[1..], vs);
      assert values == [v] + vs;
      ReadMembersOfPrinted(openers[1..], vs);
      ReadCharsOfPrinted(v, more);
      ReadMembersStep(openers, EscapeAll(v) + "\"" + more, v, more, vs);
    }
  }

  /** The four fields are found again in the printed text. */
  lemma ReadPrintedText(lic: CustomServer)
    requires AsciiServer(lic)
    ensures ReadPrinted(JsonText(lic)) == Some(lic)
  {
    ReadMembersOfPrinted(OPENERS, Fields(lic));
  }

  function PrintedReader(d: seq<Byte>): Option<CustomServer> {
    ReadPrinted(Text(d))
  }

  /** The assumptions about the reader are met by an actual reader. */
  lemma SomeReaderReadsServers()
    ensures ReadsServers(PrintedReader)
  {
    forall lic | AsciiServer(lic) && Ascii(JsonText(lic))
      ensures PrintedReader(Bytes(JsonText(lic))) == Some(lic)
    {
      assert Text(Bytes(JsonText(lic))) == JsonText(lic);
      ReadPrintedText(lic);
    }
    forall d | PrintedReader(d).Some?
      ensures d != [] && d[0] in BLANK + {123, 91} && d[|d| - 1] in BLANK + {125, 93}
    {
      var t := Text(d);
      OpenersFacts();
      assert t[0] == OPENERS[0][0];
      assert t[0] as int == d[0] && t[|t| - 1] as int == d[|d| - 1];
    }
  }
}
