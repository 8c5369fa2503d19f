/** A custom server's settings in the name of the installer: the printer of
    src/naming.rs and the parser of src/custom_server.rs. File names are ASCII. */
module CustomServers {
  import opened Options
  import opened Strings
  import opened Base64Url
  import opened LicenseJson

  // ---------------------------------------------------------------- printer

  function Reverse(s: string): (r: string)
    ensures |r| == |s| && forall i | 0 <= i < |s| :: r[i] == s[|s| - 1 - i]
  {
    seq(|s|, i requires 0 <= i < |s| => s[|s| - 1 - i])
  }

  /** `gen_name`. */
  function GenName(lic: CustomServer): string
    requires Ascii(JsonText(lic))
  {
    Reverse(Encode(Bytes(JsonText(lic))))
  }

  // ---------------------------------------------------------------- parser

  /** The two library calls of the parser: the JSON reader and the check of a
      signed message, which returns the signed content. */
  datatype Readers = Readers(
    json: seq<Byte> -> Option<CustomServer>,
    verify: seq<Byte> -> Option<seq<Byte>>)

  ghost predicate Honest(rd: Readers) {
    && ReadsServers(rd.json)
    // a signature alone has 64 bytes
    && (forall d :: rd.verify(d).Some? ==> |d| >= 64)
  }

  /** `get_custom_server_from_config_string`. */
  function ParseConfig(s: string, rd: Readers): Option<CustomServer> {
    var data := Decode(Reverse(s));
    if data.None? then None
    else if rd.json(data.value).Some? then rd.json(data.value)
    else
      var signed := rd.verify(data.value);
      if signed.None? then None else rd.json(signed.value)
  }

  predicate IsSpace(c: char) {
    c == ' ' || 9 <= c as int <= 13
  }

  function TrimStart(s: string): string {
    if s != [] && IsSpace(s[0]) then TrimStart(s[1..]) else s
  }

  function TrimEnd(s: string): string {
    if s != [] && IsSpace(s[|s| - 1]) then TrimEnd(s[..|s| - 1]) else s
  }

  function Trim(s: string): string { TrimEnd(TrimStart(s)) }

  /** The name without its extension, once or twice ".exe" in any case. */
  function StripExe(s: string): string {
    if EndsWith(Lower(s), ".exe.exe") then s[..|s| - 8]
    else if EndsWith(Lower(s), ".exe") then s[..|s| - 4]
    else s
  }

  /** The text from the first "host=" on. */
  function FromHost(s: string): string {
    if s == [] || "host=" <= Lower(s) then s else FromHost(s[1..])
  }

  /** The last of the parts that starts with the tag, without it. */
  function LastField(parts: seq<string>, tag: string): string {
    if parts == [] then ""
    else
      var el := parts[|parts| - 1];
      if tag <= Lower(el) then el[|tag|..] else LastField(parts[..|parts| - 1], tag)
  }

  function Fields(parts: seq<string>): CustomServer {
    CustomServer(
      LastField(parts, "key="), LastField(parts, "host="), LastField(parts, "api="), LastField(parts, "relay="))
  }

  function HostForm(s: string): CustomServer {
    Fields(Split(FromHost(s), ","))
  }

  const LICENSED1 := "-licensed-"
  const LICENSED2 := "-licensed--"
  const LICENSED3 := "-licensed---"

  function Normalize(s: string): string {
    Replace(Replace(Replace(s, LICENSED3, "--"), LICENSED2, "--"), LICENSED1, "--")
  }

  function FirstConfig(pieces: seq<string>, rd: Readers): Option<CustomServer> {
    if pieces == [] then None
    else
      var lic := ParseConfig(Trim(pieces[0]), rd);
      if lic.Some? then lic else FirstConfig(pieces[1..], rd)
  }

  function FirstLicense(pieces: seq<string>, rd: Readers): Option<CustomServer> {
    if pieces == [] then None
    else
      var s := pieces[0];
      var lic := ParseConfig(Trim(s), rd);
      if lic.Some? then lic
      else
        var inner := if Contains(s, "(") then FirstConfig(Split(s, "("), rd) else None;
        if inner.Some? then inner else FirstLicense(pieces[1..], rd)
  }

  /** `get_custom_server_from_string`; None stands for the error. */
  function ParseName(name: string, rd: Readers): Option<CustomServer> {
    var s := StripExe(name);
    if Contains(Lower(s), "host=") then Some(HostForm(s))
    else FirstLicense(Split(Normalize(s), "--"), rd)
  }

  /** The parser with its loops. */
  method GetCustomServerFromString(name: string, rd: Readers) returns (lic: Option<CustomServer>)
    ensures lic == ParseName(name, rd)
  {
    var s := StripExe(name);
    if Contains(Lower(s), "host=") {
      var read := ReadSettings(s);
      return Some(read);
    }
    lic := FindLicense(s, rd);
  }

  lemma NextField(parts: seq<string>, i: nat, tag: string)
    requires i < |parts|
    ensures LastField(parts[..i + 1], tag)
         == if tag <= Lower(parts[i]) then parts[i][|tag|..] else LastField(parts[..i], tag)
  {
    assert parts[..i + 1][..i] == parts[..i];
  }

  function WithPart(lic: CustomServer, el: string): CustomServer {
    CustomServer(
      if "key=" <= Lower(el) then el[4..] else lic.key, if "host=" <= Lower(el) then el[5..] else lic.host,
      if "api=" <= Lower(el) then el[4..] else lic.api, if "relay=" <= Lower(el) then el[6..] else lic.relay)
  }

  lemma NextFields(parts: seq<string>, i: nat)
    requires i < |parts|
    ensures Fields(parts[..i + 1]) == WithPart(Fields(parts[..i]), parts[i])
  {
    NextField(parts, i, "host=");
    NextField(parts, i, "key=");
    NextField(parts, i, "api=");
    NextField(parts, i, "relay=");
  }

  /** The branch for a name with "host=". */
  method ReadSettings(s: string) returns (lic: CustomServer)
    ensures lic == HostForm(s)
  {
    var strs := Split(FromHost(s), ",");
    lic := CustomServer("", "", "", "");
    for i := 0 to |strs|
      invariant lic == Fields(strs[..i])
    {
      NextFields(strs, i);
      lic := ReadPart(lic, strs[i]);
    }
    assert strs[..|strs|] == strs;
  }

  /** One turn of its loop. */
  method ReadPart(was: CustomServer, el: string) returns (lic: CustomServer)
    ensures lic == WithPart(was, el)
  {
    lic := was;
    if "host=" <= Lower(el) { lic := lic.(host := el[5..]); }
    if "key=" <= Lower(el) { lic := lic.(key := el[4..]); }
    if "api=" <= Lower(el) { lic := lic.(api := el[4..]); }
    if "relay=" <= Lower(el) { lic := lic.(relay := el[6..]); }
  }

  /** The loop over the parts around the parentheses. */
  method FindConfig(strs: seq<string>, rd: Readers) returns (lic: Option<CustomServer>)
    ensures lic == FirstConfig(strs, rd)
  {
    assert strs[0..] == strs;
    for k := 0 to |strs|
      invariant FirstConfig(strs, rd) == FirstConfig(strs[k..], rd)
    {
      assert strs[k..][0] == strs[k] && strs[k..][1..] == strs[k + 1..];
      lic := ParseConfig(Trim(strs[k]), rd);
      if lic.Some? { return; }
    }
    lic := None;
  }

  /** The branch for a name without it. */
  method FindLicense(s: string, rd: Readers) returns (lic: Option<CustomServer>)
    ensures lic == FirstLicense(Split(Normalize(s), "--"), rd)
  {
    var strs := Split(Normalize(s), "--");
    assert strs[0..] == strs;
    for i := 0 to |strs|
      invariant FirstLicense(strs, rd) == FirstLicense(strs[i..], rd)
    {
      assert strs[i..][0] == strs[i] && strs[i..][1..] == strs[i + 1..];
      lic := ParseConfig(Trim(strs[i]), rd);
      if lic.Some? { return; }
      if Contains(strs[i], "(") {
        lic := FindConfig(Split(strs[i], "("), rd);
        if lic.Some? { return; }
      }
    }
    lic := None;
  }

  // ---------------------------------------------------------------- the printed name

  /** What the proofs need of a printed name. */
  ghost predicate GoodName(name: string) {
    && name != [] && AllInAlphabet(name)
    && name[0] in {'9', 'Q', '0'} && name[|name| - 1] == 'e'
    && (forall i, j | 0 <= i < j < |name| && name[i] == '-' && name[j] == '-' :: (j - i) % 4 == 0)
  }

  lemma GenNameIsGood(lic: CustomServer)
    requires AsciiServer(lic)
    ensures Ascii(JsonText(lic)) && GoodName(GenName(lic))
  {
    JsonTextAscii(lic);
    var b := Bytes(JsonText(lic));
    var e, name := Encode(b), GenName(lic);
    LastSymbolOfBrace(b);
    EncodeAlphabet(b);
    assert b[0] == 123 && e[0] == Symbol(123 / 4) == 'e';
    forall i, j | 0 <= i < j < |name| && name[i] == '-' && name[j] == '-' ensures (j - i) % 4 == 0 {
      DashesApart(b, i, j);
    }
  }

  lemma DashesApart(b: seq<Byte>, i: nat, j: nat)
    requires forall k | 0 <= k < |b| :: b[k] < 128
    requires var name := Reverse(Encode(b)); i < j < |name| && name[i] == '-' && name[j] == '-'
    ensures (j - i) % 4 == 0
  {
    var e := Encode(b);
    DashPositions(b, |e| - 1 - i);
    DashPositions(b, |e| - 1 - j);
    SameRest(|e| - 1 - i, |e| - 1 - j);
  }

  lemma SameRest(p: nat, q: nat)
    requires p % 4 == 3 && q % 4 == 3
    ensures (p - q) % 4 == 0
  {
  }

  lemma ParseGenName(lic: CustomServer, rd: Readers)
    requires AsciiServer(lic) && Honest(rd)
    ensures Ascii(JsonText(lic)) && ParseConfig(GenName(lic), rd) == Some(lic)
  {
    JsonTextAscii(lic);
    var b := Bytes(JsonText(lic));
    assert Reverse(GenName(lic)) == Encode(b);
    DecodeEncode(b);
  }

  // ---------------------------------------------------------------- what may follow the name

  /** Blanks and an opening parenthesis, as a second download gets them. */
  predicate Copy(rest: string) {
    rest != [] && (rest[0] == '(' || (rest[0] == ' ' && Copy(rest[1..])))
  }

  /** What may stand between the name and the extension. */
  predicate Suffix(rest: string) {
    rest == [] || "--" <= rest || Copy(rest)
  }

  predicate Pattern(p: string) {
    p == LICENSED1 || p == LICENSED2 || p == LICENSED3
  }

  lemma PatternFacts(p: string)
    requires Pattern(p)
    ensures |p| >= 10 && p[0] == '-' && p[1] == 'l' && p[8] == 'd' && p[9] == '-'
    ensures forall i | 1 <= i < 9 :: p[i] != '-' && p[i] != ' ' && p[i] != '('
  {
  }

  /** No pattern starts inside the name. */
  lemma NoPatternInName(name: string, rest: string, p: string, j: nat)
    requires GoodName(name) && Suffix(rest) && Pattern(p) && j < |name|
    ensures !(p <= (name + rest)[j..])
  {
    PatternFacts(p);
    var w := (name + rest)[j..];
    var k := |name| - j;
    if k > 9 {
      assert w[0] == name[j] && w[9] == name[j + 9];
    } else if rest != [] {
      assert w[k] == rest[0] && w[k - 1] == name[|name| - 1];
    } else {
      assert |w| == k < |p|;
    }
  }

  lemma {:induction false} CopyKept(rest: string, p: string)
    requires Copy(rest) && Pattern(p)
    ensures Copy(Replace(rest, p, "--"))
  {
    PatternFacts(p);
    if rest[0] != '(' { CopyKept(rest[1..], p); }
  }

  lemma SuffixKept(rest: string, p: string)
    requires Suffix(rest) && Pattern(p)
    ensures Suffix(Replace(rest, p, "--"))
  {
    PatternFacts(p);
    if rest != [] {
      if "--" <= rest {
        var r := Replace(rest, p, "--");
        assert r == ['-'] + Replace(rest[1..], p, "--");
        assert rest[1..][0] == '-' && Replace(rest[1..], p, "--")[0] == '-';
      } else {
        CopyKept(rest, p);
      }
    }
  }

  lemma ReplaceAfterName(name: string, rest: string, p: string)
    requires GoodName(name) && Suffix(rest) && Pattern(p)
    ensures Replace(name + rest, p, "--") == name + Replace(rest, p, "--")
    ensures Suffix(Replace(rest, p, "--"))
  {
    forall j | 0 <= j < |name| ensures !(p <= (name + rest)[j..]) {
      NoPatternInName(name, rest, p, j);
    }
    ReplaceUnmatched(name + rest, |name|, p, "--");
    assert (name + rest)[..|name|] == name && (name + rest)[|name|..] == rest;
    SuffixKept(rest, p);
  }

  // ---------------------------------------------------------------- what stands before the name

  // The program's own name and the four separators the parser understands.
  const PROGRAM := "rustdesk"

  predicate Separator(sep: string) {
    sep == "--" || Pattern(sep)
  }

  /** One pass of the normalisation over a separator and what follows it. */
  lemma ReplaceSeparator(sep: string, w: string, p: string)
    requires Separator(sep) && Pattern(p) && |sep| <= |p|
    requires w != [] && w[0] != '-' && w[0] != 'l'
    ensures Replace(sep + w, p, "--") == (if sep == p then "--" else sep) + Replace(w, p, "--")
  {
    PatternFacts(p);
    if sep == p {
      ReplaceHit(w, p, "--");
    } else {
      forall j | 0 <= j < |sep| ensures !(p <= (sep + w)[j..]) {
        var v := (sep + w)[j..];
        if j == 0 {
          assert v[|sep|] == w[0] && (sep == "--" ==> v[1] == '-');
          assert sep != "--" ==> |sep| < |p| && p[|sep|] == '-';
        } else if j + 1 < |sep| {
          assert v[0] == sep[j] && v[1] == sep[j + 1];
        } else {
          assert v[1] == w[0];
        }
      }
      ReplaceUnmatched(sep + w, |sep|, p, "--");
      assert (sep + w)[..|sep|] == sep && (sep + w)[|sep|..] == w;
    }
  }

  lemma ReplaceAfterProgram(y: string, p: string)
    requires Pattern(p)
    ensures Replace(PROGRAM + y, p, "--") == PROGRAM + Replace(y, p, "--")
  {
    PatternFacts(p);
    ReplaceSkip(PROGRAM, y, p, "--");
  }

  /** One pass over a whole file name. */
  lemma ReplaceWhole(sep: string, name: string, rest: string, p: string)
    requires Separator(sep) && Pattern(p) && |sep| <= |p| && GoodName(name) && Suffix(rest)
    ensures Suffix(Replace(rest, p, "--"))
    ensures Replace(PROGRAM + (sep + (name + rest)), p, "--")
         == PROGRAM + ((if sep == p then "--" else sep) + (name + Replace(rest, p, "--")))
  {
    ReplaceAfterProgram(sep + (name + rest), p);
    assert (name + rest)[0] == name[0];
    ReplaceSeparator(sep, name + rest, p);
    ReplaceAfterName(name, rest, p);
  }

  lemma NormalizeName(sep: string, name: string, rest: string)
    requires Separator(sep) && GoodName(name) && Suffix(rest)
    ensures Suffix(Normalize(rest))
    ensures Normalize(PROGRAM + (sep + (name + rest))) == PROGRAM + ("--" + (name + Normalize(rest)))
  {
    var sep3 := if sep == LICENSED3 then "--" else sep;
    var rest3 := Replace(rest, LICENSED3, "--");
    ReplaceWhole(sep, name, rest, LICENSED3);
    var sep2 := if sep3 == LICENSED2 then "--" else sep3;
    var rest2 := Replace(rest3, LICENSED2, "--");
    ReplaceWhole(sep3, name, rest3, LICENSED2);
    ReplaceWhole(sep2, name, rest2, LICENSED1);
  }

  // ---------------------------------------------------------------- splitting

  lemma {:induction false} SplitAfter(x: string, y: string, sep: string)
    requires sep != [] && forall j | 0 <= j < |x| :: !(sep <= (x + y)[j..])
    ensures var r := Split(y, sep); Split(x + y, sep) == [x + r[0]] + r[1..]
  {
    if x == [] {
      assert x + y == y;
      assert x + Split(y, sep)[0] == Split(y, sep)[0];
    } else {
      assert (x + y)[0..] == x + y && (x + y)[1..] == x[1..] + y;
      forall j | 0 <= j < |x| - 1 ensures !(sep <= (x[1..] + y)[j..]) {
        assert (x[1..] + y)[j..] == (x + y)[j + 1..];
      }
      SplitAfter(x[1..], y, sep);
      var r := Split(y, sep);
      assert [x[0]] + (x[1..] + r[0]) == x + r[0];
    }
  }

  lemma SplitAtSeparator(x: string, y: string, sep: string)
    requires sep != [] && forall j | 0 <= j < |x| :: !(sep <= (x + (sep + y))[j..])
    ensures Split(x + (sep + y), sep) == [x] + Split(y, sep)
  {
    SplitAfter(x, sep + y, sep);
    assert (sep + y)[|sep|..] == y;
    assert x + [] == x;
  }

  /** The pieces of a normalised name: the program, then the printed name
      followed by nothing or by a copy mark. */
  lemma SplitNormalized(name: string, rest: string) returns (tail: string, more: seq<string>)
    requires GoodName(name) && Suffix(rest)
    ensures Split(PROGRAM + ("--" + (name + rest)), "--") == [PROGRAM, name + tail] + more
    ensures tail == [] || Copy(tail)
  {
    SplitProgram(name + rest);
    SplitName(name, rest);
    tail, more := Split(rest, "--")[0], Split(rest, "--")[1..];
    FirstPiece(rest);
    assert [PROGRAM] + ([name + tail] + more) == [PROGRAM, name + tail] + more;
  }

  lemma SplitName(name: string, rest: string)
    requires GoodName(name)
    ensures var r := Split(rest, "--"); Split(name + rest, "--") == [name + r[0]] + r[1..]
  {
    forall j | 0 <= j < |name| ensures !("--" <= (name + rest)[j..]) {
      NameIsOnePiece(name, rest, j);
    }
    SplitAfter(name, rest, "--");
  }

  lemma FirstPiece(rest: string)
    requires Suffix(rest)
    ensures var tail := Split(rest, "--")[0]; tail == [] || Copy(tail)
  {
    if rest != [] && !("--" <= rest) { SplitCopy(rest); }
  }

  lemma SplitProgram(w: string)
    ensures Split(PROGRAM + ("--" + w), "--") == [PROGRAM] + Split(w, "--")
  {
    forall j | 0 <= j < 8 ensures !("--" <= (PROGRAM + ("--" + w))[j..]) {
      assert (PROGRAM + ("--" + w))[j..][0] == PROGRAM[j];
    }
    SplitAtSeparator(PROGRAM, w, "--");
  }

  lemma NameIsOnePiece(name: string, rest: string, j: nat)
    requires GoodName(name) && j < |name|
    ensures !("--" <= (name + rest)[j..])
  {
    var w := (name + rest)[j..];
    assert w[0] == name[j] && (j + 1 < |name| ==> w[1] == name[j + 1]);
  }

  lemma {:induction false} SplitCopy(rest: string)
    requires Copy(rest)
    ensures Copy(Split(rest, "--")[0])
  {
    var t := Split(rest, "--")[0];
    assert t[0] == rest[0];
    if rest[0] != '(' {
      SplitCopy(rest[1..]);
      assert t[1..] == Split(rest[1..], "--")[0];
    }
  }

  // ---------------------------------------------------------------- trimming

  lemma {:induction false} TrimEndKeeps(s: string, k: nat)
    requires k < |s| && !IsSpace(s[k])
    ensures s[..k + 1] <= TrimEnd(s)
  {
    if IsSpace(s[|s| - 1]) {
      TrimEndKeeps(s[..|s| - 1], k);
      assert s[..|s| - 1][..k + 1] == s[..k + 1];
    }
  }

  /** Only blanks can be trimmed from the end. */
  lemma {:induction false} TrimEndBlanks(x: string, blanks: string)
    requires x != [] && !IsSpace(x[|x| - 1]) && forall i | 0 <= i < |blanks| :: blanks[i] == ' '
    ensures TrimEnd(x + blanks) == x
  {
    if blanks == [] {
      assert x + blanks == x;
    } else {
      var s := x + blanks;
      assert s[|s| - 1] == blanks[|blanks| - 1];
      assert s[..|s| - 1] == x + blanks[..|blanks| - 1];
      TrimEndBlanks(x, blanks[..|blanks| - 1]);
    }
  }

  lemma NameHasNoSpace(name: string, i: nat)
    requires AllInAlphabet(name) && i < |name|
    ensures !IsSpace(name[i]) && name[i] != '(' && name[i] != '='
  {
    assert InAlphabet(name[i]);
  }

  /** The blanks of a copy mark and the parenthesis that ends them. */
  lemma {:induction false} CopyBlanks(tail: string) returns (n: nat)
    requires Copy(tail)
    ensures n < |tail| && tail[n] == '(' && forall i | 0 <= i < n :: tail[i] == ' '
  {
    if tail[0] == '(' {
      n := 0;
    } else {
      var k := CopyBlanks(tail[1..]);
      n := k + 1;
      forall i | 0 <= i < n ensures tail[i] == ' ' {
        if i > 0 { assert tail[i] == tail[1..][i - 1]; }
      }
    }
  }

  // ---------------------------------------------------------------- reading the pieces

  /** What the JSON reader says of a text that starts like the program's name. */
  lemma NoJsonInProgram(s: string, rd: Readers)
    requires Honest(rd) && |s| >= 2 && s[0] == 'r' && s[1] == 'u'
    ensures Decode(Reverse(s)).Some? ==> rd.json(Decode(Reverse(s)).value).None?
  {
    var r := Reverse(s);
    DecodeEndingInUr(r);
    DecodedLength(r);
    assert 171 !in BLANK + {125, 93};
  }

  lemma ProgramIsNoConfig(rd: Readers)
    requires Honest(rd)
    ensures ParseConfig(PROGRAM, rd) == None
  {
    NoJsonInProgram(PROGRAM, rd);
    DecodedLength(Reverse(PROGRAM));
  }

  lemma ProgramIsPlain()
    ensures Trim(PROGRAM) == PROGRAM && !Contains(PROGRAM, "(")
  {
    ContainsNeeds(PROGRAM, "(", 0);
  }

  /** The piece with the printed name gives the settings back. */
  lemma ReadNamePiece(lic: CustomServer, tail: string, more: seq<string>, rd: Readers)
    requires AsciiServer(lic) && Honest(rd) && Ascii(JsonText(lic))
    requires tail == [] || Copy(tail)
    ensures FirstLicense([GenName(lic) + tail] + more, rd) == Some(lic)
  {
    var name := GenName(lic);
    GenNameIsGood(lic);
    ParseGenName(lic, rd);
    if tail == [] {
      TrimName(name, []);
      assert name + tail == name;
    } else {
      var n := CopyBlanks(tail);
      MarkedPiece(name, tail, n, rd);
      assert "(" <= (name + tail)[|name| + n..];
      ContainsAt(name + tail, "(", |name| + n);
      TrimName(name, tail[..n]);
      var inner := SplitMarked(name, tail, n);
      assert FirstConfig([name + tail[..n]] + inner, rd) == Some(lic);
    }
  }

  lemma TrimName(name: string, blanks: string)
    requires GoodName(name) && forall i | 0 <= i < |blanks| :: blanks[i] == ' '
    ensures Trim(name + blanks) == name
  {
    NameHasNoSpace(name, 0);
    NameHasNoSpace(name, |name| - 1);
    TrimEndBlanks(name, blanks);
  }

  /** Splitting at the parentheses isolates the name and its blanks. */
  lemma SplitMarked(name: string, tail: string, n: nat) returns (inner: seq<string>)
    requires GoodName(name) && n < |tail| && tail[n] == '('
    requires forall i | 0 <= i < n :: tail[i] == ' '
    ensures Split(name + tail, "(") == [name + tail[..n]] + inner
  {
    var x, y := name + tail[..n], tail[n + 1..];
    var s := x + ("(" + y);
    assert name + tail == s;
    forall j | 0 <= j < |x| ensures !("(" <= s[j..]) {
      assert s[j..][0] == x[j];
      if j < |name| { NameHasNoSpace(name, j); }
    }
    SplitAtSeparator(x, y, "(");
    inner := Split(y, "(");
  }

  /** A piece with a parenthesis is no configuration by itself. */
  lemma MarkedPiece(name: string, tail: string, n: nat, rd: Readers)
    requires GoodName(name) && n < |tail| && tail[n] == '('
    ensures ParseConfig(Trim(name + tail), rd) == None
  {
    var s := name + tail;
    var k := |name| + n;
    NameHasNoSpace(name, 0);
    assert s[k] == '(';
    TrimEndKeeps(s, k);
    var t := Trim(s);
    assert s[..k + 1][k] == '(' && t[k] == '(';
    DecodeNeedsAlphabet(Reverse(t), |t| - 1 - k);
  }

  lemma DecodeNeedsAlphabet(s: string, i: nat)
    requires i < |s| && !InAlphabet(s[i])
    ensures Decode(s).None?
  {
  }

  lemma SkipProgram(pieces: seq<string>, rd: Readers)
    requires Honest(rd)
    ensures FirstLicense([PROGRAM] + pieces, rd) == FirstLicense(pieces, rd)
  {
    ProgramIsNoConfig(rd);
    ProgramIsPlain();
    assert ([PROGRAM] + pieces)[1..] == pieces;
  }

  lemma PiecesOfName(sep: string, name: string, rest: string) returns (tail: string, more: seq<string>)
    requires Separator(sep) && GoodName(name) && Suffix(rest)
    ensures Split(Normalize(PROGRAM + (sep + (name + rest))), "--") == [PROGRAM] + ([name + tail] + more)
    ensures tail == [] || Copy(tail)
  {
    NormalizeName(sep, name, rest);
    tail, more := SplitNormalized(name, Normalize(rest));
  }

  lemma ReadStripped(lic: CustomServer, sep: string, rest: string, rd: Readers)
    requires AsciiServer(lic) && Honest(rd) && Separator(sep) && Suffix(rest)
    ensures Ascii(JsonText(lic))
    ensures FirstLicense(Split(Normalize(PROGRAM + (sep + (GenName(lic) + rest))), "--"), rd) == Some(lic)
  {
    GenNameIsGood(lic);
    var tail, more := PiecesOfName(sep, GenName(lic), rest);
    SkipProgram([GenName(lic) + tail] + more, rd);
    ReadNamePiece(lic, tail, more, rd);
  }

  // ---------------------------------------------------------------- extension and "host="

  /** Removing one extension, and a second one if it is there. */
  lemma StripOne(s: string, ext: string)
    requires Lower(ext) == ".exe"
    ensures StripExe(s + ext) == if EndsWith(Lower(s), ".exe") then s[..|s| - 4] else s
  {
    LowerSum(s, ext);
    var l := Lower(s);
    assert (l + ".exe")[|s|..] == ".exe";
    assert |s| >= 4 ==> (l + ".exe")[|s| - 4..] == l[|s| - 4..] + ".exe";
    assert |s| >= 4 ==> (l[|s| - 4..] + ".exe" == ".exe.exe" <==> l[|s| - 4..] == ".exe") by {
      assert ".exe.exe" == ".exe" + ".exe";
    }
    assert (s + ext)[..|s|] == s;
    assert |s| >= 4 ==> (s + ext)[..|s| - 4] == s[..|s| - 4];
  }

  lemma {:induction false} ContainsInFront(x: string, y: string, p: string)
    requires Contains(x, p)
    ensures Contains(x + y, p)
  {
    if p <= x {
      assert p <= x + y;
    } else {
      assert (x + y)[1..] == x[1..] + y;
      ContainsInFront(x[1..], y, p);
    }
  }

  lemma {:induction false} ContainsOnlyBehind(x: string, y: string, p: string)
    requires !Contains(y, p) && forall j | 0 <= j < |x| :: !(p <= (x + y)[j..])
    ensures !Contains(x + y, p)
  {
    if x == [] {
      assert x + y == y;
    } else {
      assert (x + y)[0..] == x + y && (x + y)[1..] == x[1..] + y;
      forall j | 0 <= j < |x| - 1 ensures !(p <= (x[1..] + y)[j..]) {
        assert (x[1..] + y)[j..] == (x + y)[j + 1..];
      }
      ContainsOnlyBehind(x[1..], y, p);
    }
  }

  /** In front of a suffix without "host=" nothing without '=' completes one. */
  lemma NoHostInFront(x: string, rest: string)
    requires '=' !in x && Suffix(rest) && !Contains(Lower(rest), "host=")
    ensures !Contains(Lower(x + rest), "host=")
  {
    LowerSum(x, rest);
    var lx, ly := Lower(x), Lower(rest);
    var p := "host=";
    forall j | 0 <= j < |lx| ensures !(p <= (lx + ly)[j..]) {
      var w, k := (lx + ly)[j..], |lx| - j;
      if k > 4 {
        assert x[j + 4] in x && w[4] == LowerChar(x[j + 4]);
      } else if rest == [] {
        assert |w| == k;
      } else {
        assert w[k] == LowerChar(rest[0]) == rest[0];
        assert p[k] == "host="[k];
      }
    }
    ContainsOnlyBehind(lx, ly, p);
  }

  /** Cutting a suffix before a dot leaves a suffix. */
  lemma SuffixBeforeDot(rest: string, m: nat)
    requires Suffix(rest) && m < |rest| && rest[m] == '.'
    ensures Suffix(rest[..m])
  {
    if "--" <= rest {
      assert m >= 2 && rest[..m][..2] == rest[..2];
    } else {
      CopyBeforeDot(rest, m);
    }
  }

  lemma {:induction false} CopyBeforeDot(rest: string, m: nat)
    requires Copy(rest) && m < |rest| && rest[m] == '.'
    ensures Copy(rest[..m])
  {
    assert m > 0 && rest[..m][0] == rest[0];
    if rest[0] == ' ' {
      CopyBeforeDot(rest[1..], m - 1);
      assert rest[..m][1..] == rest[1..][..m - 1];
    }
  }

  /** Neither '.' nor '=' stands before the suffix. */
  lemma FrontIsPlain(sep: string, name: string)
    requires Separator(sep) && GoodName(name)
    ensures var x := PROGRAM + (sep + name); '=' !in x && '.' !in x
  {
    forall i | 0 <= i < |name| ensures name[i] != '=' && name[i] != '.' {
      NameHasNoSpace(name, i);
      assert InAlphabet(name[i]);
    }
    SeparatorIsPlain(sep);
    assert '=' !in PROGRAM && '.' !in PROGRAM;
  }

  lemma SeparatorIsPlain(sep: string)
    requires Separator(sep)
    ensures '=' !in sep && '.' !in sep
  {
  }

  /** What remains of the whole name is the front and a suffix again. */
  lemma StripName(x: string, rest: string, ext: string) returns (kept: string)
    requires '.' !in x && Suffix(rest) && Lower(ext) == ".exe"
    requires !Contains(Lower(rest), "host=")
    ensures StripExe(x + rest + ext) == x + kept
    ensures Suffix(kept) && !Contains(Lower(kept), "host=")
  {
    var s := x + rest;
    StripOne(s, ext);
    if EndsWith(Lower(s), ".exe") {
      assert Lower(s)[|s| - 4] == Lower(s)[|s| - 4..][0] == '.';
      assert s[|s| - 4] == '.';
      assert forall i | 0 <= i < |x| :: s[i] == x[i] && x[i] in x;
      var m := |rest| - 4;
      SuffixBeforeDot(rest, m);
      kept := rest[..m];
      assert s[..|s| - 4] == x + kept;
      assert rest == kept + rest[m..];
      LowerSum(kept, rest[m..]);
      if Contains(Lower(kept), "host=") { ContainsInFront(Lower(kept), Lower(rest[m..]), "host="); }
    } else {
      kept := rest;
    }
  }

  lemma ParseFront(x: string, rest: string, ext: string, rd: Readers) returns (kept: string)
    requires '.' !in x && '=' !in x && Suffix(rest)
    requires Lower(ext) == ".exe" && !Contains(Lower(rest), "host=")
    ensures Suffix(kept)
    ensures ParseName(x + rest + ext, rd) == FirstLicense(Split(Normalize(x + kept), "--"), rd)
  {
    kept := StripName(x, rest, ext);
    NoHostInFront(x, kept);
  }

  lemma ParseStripped(sep: string, name: string, rest: string, ext: string, rd: Readers) returns (kept: string)
    requires Separator(sep) && GoodName(name) && Suffix(rest)
    requires Lower(ext) == ".exe" && !Contains(Lower(rest), "host=")
    ensures Suffix(kept)
    ensures ParseName(PROGRAM + (sep + name) + rest + ext, rd)
         == FirstLicense(Split(Normalize(PROGRAM + (sep + (name + kept))), "--"), rd)
  {
    FrontIsPlain(sep, name);
    kept := ParseFront(PROGRAM + (sep + name), rest, ext, rd);
    SumsAgree(PROGRAM, sep, name, kept);
  }

  lemma SumsAgree(a: string, b: string, c: string, d: string)
    ensures a + (b + c) + d == a + (b + (c + d))
  {
  }

  /** Main result: for every ASCII server, every separator the parser knows,
      and nothing, a copy mark or "--..." before the extension, the parser
      reads back what the printer wrote, unless the added text has "host=".
      Small and capital letters of "host=" and ".exe" count alike. */
  lemma FileNameRoundTrip(lic: CustomServer, sep: string, rest: string, ext: string, rd: Readers)
    requires AsciiServer(lic) && Honest(rd) && Separator(sep) && Suffix(rest)
    requires Spells(ext, ".exe") && !Mentions(rest, "host=")
    ensures Ascii(JsonText(lic))
    ensures ParseName(PROGRAM + (sep + GenName(lic)) + rest + ext, rd) == Some(lic)
  {
    GenNameIsGood(lic);
    WordsAreSmall();
    SpellsLower(ext, ".exe");
    MentionsLower(rest, "host=");
    var kept := ParseStripped(sep, GenName(lic), rest, ext, rd);
    ReadStripped(lic, sep, kept, rd);
  }

  // ---------------------------------------------------------------- what the tool prints

  // The front of the file name that the program in src/naming.rs prints.
  const PRINTED := "rustdesk-custom_serverd-"

  lemma PrintedFacts()
    ensures |PRINTED| == 24 && PRINTED[0] == 'r' && PRINTED[1] == 'u' && PRINTED[8] == '-' && PRINTED[9] == 'c'
    ensures forall i | 0 <= i < 23 && i != 8 :: PRINTED[i] != '-'
    ensures forall i | 0 <= i < 24 :: PRINTED[i] != '(' && PRINTED[i] != '=' && PRINTED[i] != '.'
    ensures forall i | 0 <= i < 24 :: !IsSpace(PRINTED[i])
  {
  }

  /** The printed front and a good name hold no separator. */
  lemma NoPatternPrinted(name: string, p: string)
    requires GoodName(name) && Pattern(p)
    ensures Replace(PRINTED + name, p, "--") == PRINTED + name
  {
    PrintedFacts();
    PatternFacts(p);
    var s := PRINTED + name;
    forall j | 0 <= j < |s| ensures !(p <= s[j..]) {
      var w := s[j..];
      if j < 24 {
        assert w[0] == PRINTED[j] && w[1] == s[j + 1];
        assert j == 23 ==> s[j + 1] == name[0];
      } else {
        NoPatternInName(name, [], p, j - 24);
        assert (name + [])[j - 24..] == w;
      }
    }
    ReplaceUnmatched(s, |s|, p, "--");
    assert s[..|s|] == s && s[|s|..] == [];
  }

  lemma NothingToSplit(name: string)
    requires GoodName(name)
    ensures Split(Normalize(PRINTED + name), "--") == [PRINTED + name]
  {
    NoPatternPrinted(name, LICENSED3);
    NoPatternPrinted(name, LICENSED2);
    NoPatternPrinted(name, LICENSED1);
    var s := PRINTED + name;
    assert s + [] == s;
    forall j | 0 <= j < |s| ensures !("--" <= (s + [])[j..]) {
      NoTwoDashes(name, j);
    }
    SplitAfter(s, [], "--");
  }

  lemma NoTwoDashes(name: string, j: nat)
    requires GoodName(name) && j < 24 + |name|
    ensures !("--" <= (PRINTED + name)[j..])
  {
    PrintedFacts();
    var s := PRINTED + name;
    var w := s[j..];
    if j < 24 {
      assert w[0] == PRINTED[j] && w[1] == s[j + 1];
      assert j == 23 ==> s[j + 1] == name[0];
    } else {
      assert w[0] == name[j - 24];
      assert j + 1 < |s| ==> w[1] == name[j - 23];
    }
  }

  lemma PrintedIsPlain(name: string)
    requires GoodName(name)
    ensures var s := PRINTED + name;
            '=' !in s && '.' !in s && '(' !in s && Trim(s) == s
  {
    PrintedFacts();
    forall i | 0 <= i < |name| ensures name[i] != '=' && name[i] != '.' && name[i] != '(' {
      NameHasNoSpace(name, i);
      assert InAlphabet(name[i]);
    }
    NameHasNoSpace(name, |name| - 1);
    TrimEndBlanks(PRINTED + name, []);
    assert PRINTED + name + [] == PRINTED + name;
  }

  /** What the parser finds in a file name as the tool prints it: nothing but
      a signed message that the whole text may happen to carry. */
  function SignedOnly(s: string, rd: Readers): Option<CustomServer> {
    var d := Decode(Reverse(s));
    if d.Some? && rd.verify(d.value).Some? then rd.json(rd.verify(d.value).value) else None
  }

  lemma NoExtension(s: string)
    requires '.' !in s
    ensures !EndsWith(Lower(s), ".exe")
  {
    if |s| >= 4 {
      assert s[|s| - 4] in s && Lower(s)[|s| - 4..][0] == LowerChar(s[|s| - 4]) != '.';
    }
  }

  lemma ParsePlain(s: string, ext: string, rd: Readers)
    requires Honest(rd) && Lower(ext) == ".exe" && |s| >= 2 && s[0] == 'r' && s[1] == 'u'
    requires '=' !in s && '.' !in s && '(' !in s && Trim(s) == s
    requires Split(Normalize(s), "--") == [s]
    ensures ParseName(s + ext, rd) == SignedOnly(s, rd)
  {
    StripOne(s, ext);
    NoExtension(s);
    assert s + [] == s;
    NoHostInFront(s, []);
    ContainsNeeds(s, "(", 0);
    NoJsonInProgram(s, rd);
    assert FirstLicense([s], rd) == SignedOnly(s, rd);
  }

  lemma PrintedIsLost(name: string, ext: string, rd: Readers)
    requires GoodName(name) && Honest(rd) && Spells(ext, ".exe")
    ensures ParseName(PRINTED + name + ext, rd) == SignedOnly(PRINTED + name, rd)
  {
    NothingToSplit(name);
    PrintedIsPlain(name);
    PrintedStart(name);
    WordsAreSmall();
    SpellsLower(ext, ".exe");
    ParsePlain(PRINTED + name, ext, rd);
  }

  lemma PrintedStart(name: string)
    ensures var s := PRINTED + name; |s| >= 2 && s[0] == 'r' && s[1] == 'u'
  {
    PrintedFacts();
  }

  /** The tool joins name and program by "-custom_serverd-", which is none of
      the parser's separators: no printed file name is ever read back, however
      its settings look, unless the text happens to carry a signature. */
  lemma PrintedNameIsLost(lic: CustomServer, ext: string, rd: Readers)
    requires AsciiServer(lic) && Honest(rd) && Spells(ext, ".exe")
    ensures Ascii(JsonText(lic))
    ensures ParseName(PRINTED + GenName(lic) + ext, rd) == SignedOnly(PRINTED + GenName(lic), rd)
  {
    GenNameIsGood(lic);
    PrintedIsLost(GenName(lic), ext, rd);
  }

  // ---------------------------------------------------------------- smaller laws of the parser

  /** A configuration signed with the program's key is read like its content. */
  lemma ParseSigned(data: seq<Byte>, content: seq<Byte>, rd: Readers)
    requires rd.verify(data) == Some(content)
    ensures ParseConfig(Reverse(Encode(data)), rd)
         == if rd.json(data).Some? then rd.json(data) else rd.json(content)
  {
    assert Reverse(Reverse(Encode(data))) == Encode(data);
    DecodeEncode(data);
  }

  predicate Blanks(s: string) {
    forall i | 0 <= i < |s| :: s[i] == ' ' || s[i] == '\t' || s[i] == '\n' || s[i] == '\r'
  }

  /** Trimming takes the blanks at both ends and nothing else. */
  lemma TrimMeans(before: string, x: string, after: string)
    requires Blanks(before) && Blanks(after)
    requires x != [] && !IsSpace(x[0]) && !IsSpace(x[|x| - 1])
    ensures Trim(before + x + after) == x
    ensures forall c | Blanks([c]) :: IsSpace(c)
  {
    assert before + x + after == before + (x + after);
    TrimFront(before, x + after);
    TrimBack(x, after);
    forall c | Blanks([c]) ensures IsSpace(c) { assert [c][0] == c; }
  }

  lemma {:induction false} TrimFront(before: string, x: string)
    requires Blanks(before) && x != [] && !IsSpace(x[0])
    ensures TrimStart(before + x) == x
  {
    if before == [] {
      assert before + x == x;
    } else {
      assert (before + x)[1..] == before[1..] + x;
      TrimFront(before[1..], x);
    }
  }

  lemma {:induction false} TrimBack(x: string, after: string)
    requires Blanks(after) && x != [] && !IsSpace(x[|x| - 1])
    ensures TrimEnd(x + after) == x
  {
    if after == [] {
      assert x + after == x;
    } else {
      var n := |after| - 1;
      assert (x + after)[..|x| + n] == x + after[..n];
      TrimBack(x, after[..n]);
    }
  }
}
