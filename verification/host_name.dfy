/** Settings written out in the installer's name, as in
    "rustdesk-host=h,key=k,api=a,relay=r, (1).exe" (src/custom_server.rs). */
module HostNames {
  import opened Options
  import opened Strings
  import opened LicenseJson
  import opened CustomServers

  function Join(parts: seq<string>): string
    requires parts != []
  {
    JoinWith(parts, ",")
  }

  ghost predicate NoCommas(parts: seq<string>) {
    forall i | 0 <= i < |parts| :: ',' !in parts[i]
  }

  lemma {:induction false} SplitJoin(parts: seq<string>)
    requires parts != [] && NoCommas(parts)
    ensures Split(Join(parts), ",") == parts
  {
    var x := parts[0];
    if |parts| == 1 {
      assert x + [] == x;
      NoCommaInside(x, []);
      SplitAfter(x, [], ",");
      assert parts == [x];
    } else {
      SplitJoin(parts[1..]);
      NoCommaInside(x, "," + Join(parts[1..]));
      SplitAtSeparator(x, Join(parts[1..]), ",");
      assert parts == [x] + parts[1..];
    }
  }

  lemma NoCommaInside(x: string, y: string)
    requires ',' !in x
    ensures forall j | 0 <= j < |x| :: !("," <= (x + y)[j..])
  {
    forall j | 0 <= j < |x| ensures !("," <= (x + y)[j..]) {
      assert (x + y)[j..][0] == x[j] && x[j] in x;
    }
  }

  /** No "host=" stands in the front, in any case. */
  ghost predicate PlainFront(front: string) { !Mentions(front, "host=") }

  /** The text from "host=" on starts where such a front ends. */
  lemma {:induction false} FromHostAfter(front: string, y: string)
    requires !Contains(Lower(front), "host=") && "host=" <= Lower(y)
    ensures FromHost(front + y) == y && Contains(Lower(front + y), "host=")
  {
    var s := front + y;
    if front == [] {
      assert s == y;
    } else {
      FrontIsNotHost(front, y);
      assert s[1..] == front[1..] + y;
      assert Lower(front)[1..] == Lower(front[1..]);
      FromHostAfter(front[1..], y);
      assert Lower(s)[1..] == Lower(s[1..]);
    }
  }

  /** Nor can one begin in the front and end behind it. */
  lemma FrontIsNotHost(front: string, y: string)
    requires front != [] && !Contains(Lower(front), "host=") && "host=" <= Lower(y)
    ensures !("host=" <= Lower(front + y))
  {
    var l, k := Lower(front + y), |front|;
    LowerSum(front, y);
    if k > 4 {
      assert l[..5] == Lower(front)[..5];
    } else {
      assert l[k] == Lower(y)[0] == 'h';
      assert "host="[k] != 'h';
    }
  }

  /** Main result: whatever stands between the commas, provided that "host="
      in any case comes first, each setting is the text of the last part with
      its tag. */
  lemma HostPartsRead(front: string, parts: seq<string>, name: string, rd: Readers)
    requires PlainFront(front) && parts != [] && NoCommas(parts) && StartsSpelled(parts[0], "host=")
    requires StripExe(name) == front + Join(parts)
    ensures ParseName(name, rd)
         == Some(CustomServer(LastField(parts, "key="), LastField(parts, "host="),
                              LastField(parts, "api="), LastField(parts, "relay=")))
  {
    WordsAreSmall();
    StartsLower(parts[0], "host=");
    MentionsLower(front, "host=");
    JoinStartsWithHost(parts);
    FromHostAfter(front, Join(parts));
    SplitJoin(parts);
    HostFormIsRead(name, rd);
  }

  lemma HostFormIsRead(name: string, rd: Readers)
    requires Contains(Lower(StripExe(name)), "host=")
    ensures ParseName(name, rd) == Some(HostForm(StripExe(name)))
  {
  }

  lemma JoinStartsWithHost(parts: seq<string>)
    requires parts != [] && "host=" <= Lower(parts[0])
    ensures "host=" <= Lower(Join(parts))
  {
    var more := if |parts| == 1 then [] else "," + Join(parts[1..]);
    assert Join(parts) == parts[0] + more;
    LowerSum(parts[0], more);
  }

  // ---------------------------------------------------------------- the documented form

  ghost predicate Untagged(parts: seq<string>) {
    forall i | 0 <= i < |parts| :: NoTag(parts[i])
  }

  ghost predicate NoTag(part: string) {
    forall tag | Tag(tag) :: !StartsSpelled(part, tag)
  }

  predicate Tag(t: string) { t == "host=" || t == "key=" || t == "api=" || t == "relay=" }

  lemma TagsAreSmall(tag: string)
    requires Tag(tag)
    ensures Small(tag) && tag != []
  {
    WordsAreSmall();
  }

  lemma {:induction false} UntaggedKeeps(parts: seq<string>, extra: seq<string>, tag: string)
    requires Tag(tag) && Untagged(extra)
    ensures LastField(parts + extra, tag) == LastField(parts, tag)
  {
    if extra == [] {
      assert parts + extra == parts;
    } else {
      var n := |extra| - 1;
      assert (parts + extra)[..|parts| + n] == parts + extra[..n];
      assert NoTag(extra[n]);
      TagsAreSmall(tag);
      StartsLower(extra[n], tag);
      UntaggedKeeps(parts, extra[..n], tag);
    }
  }

  lemma OneTag(tag: string, spelled: string, value: string)
    requires Tag(tag) && Spells(spelled, tag)
    ensures StartsSpelled(spelled + value, tag) && tag <= Lower(spelled + value)
    ensures forall other | Tag(other) && other != tag :: !(other <= Lower(spelled + value))
  {
    assert (spelled + value)[..|tag|] == spelled;
    TagsAreSmall(tag);
    StartsLower(spelled + value, tag);
    assert Lower(spelled + value)[0] == tag[0];
  }

  /** The last part with a tag, in any spelling, is what is read. */
  lemma LastFieldStep(parts: seq<string>, tag: string, spelled: string, value: string, asked: string)
    requires Tag(tag) && Tag(asked) && Spells(spelled, tag)
    ensures LastField(parts + [spelled + value], asked) == if asked == tag then value else LastField(parts, asked)
  {
    OneTag(tag, spelled, value);
    assert (parts + [spelled + value])[..|parts|] == parts;
    assert (spelled + value)[|tag|..] == value;
  }

  /** How the four tags are spelled. */
  datatype Tags = Tags(host: string, key: string, api: string, relay: string)

  predicate Spelled(tags: Tags) {
    Spells(tags.host, "host=") && Spells(tags.key, "key=") && Spells(tags.api, "api=") && Spells(tags.relay, "relay=")
  }

  function Settings(lic: CustomServer, tags: Tags): seq<string> {
    FirstSettings(lic, tags) + [tags.relay + lic.relay]
  }

  function FirstSettings(lic: CustomServer, tags: Tags): seq<string> {
    [] + [tags.host + lic.host] + [tags.key + lic.key] + [tags.api + lic.api]
  }

  lemma SettingsRead(lic: CustomServer, tags: Tags, asked: string)
    requires Tag(asked) && Spelled(tags)
    ensures LastField(Settings(lic, tags), asked)
         == if asked == "host=" then lic.host else if asked == "key=" then lic.key
            else if asked == "api=" then lic.api else lic.relay
  {
    var p0: seq<string> := [];
    var p1 := p0 + [tags.host + lic.host];
    var p2 := p1 + [tags.key + lic.key];
    var p3 := p2 + [tags.api + lic.api];
    LastFieldStep(p0, "host=", tags.host, lic.host, asked);
    LastFieldStep(p1, "key=", tags.key, lic.key, asked);
    LastFieldStep(p2, "api=", tags.api, lic.api, asked);
    LastFieldStep(p3, "relay=", tags.relay, lic.relay, asked);
  }

  lemma TagsHaveNoComma(tags: Tags)
    requires Spelled(tags)
    ensures ',' !in tags.host && ',' !in tags.key && ',' !in tags.api && ',' !in tags.relay
  {
    NoCommaSpelled(tags.host, "host=");
    NoCommaSpelled(tags.key, "key=");
    NoCommaSpelled(tags.api, "api=");
    NoCommaSpelled(tags.relay, "relay=");
  }

  lemma NoCommaSpelled(x: string, word: string)
    requires Spells(x, word) && ',' !in word
    ensures ',' !in x
  {
    forall i | 0 <= i < |x| ensures x[i] != ',' { assert SpellsChar(x[i], word[i]) && word[i] in word; }
  }

  ghost predicate NoCommaIn(lic: CustomServer) {
    ',' !in lic.host && ',' !in lic.key && ',' !in lic.api && ',' !in lic.relay
  }

  /** The settings, then parts without a tag, are read as the settings. */
  lemma SettingsAreRead(
    front: string, lic: CustomServer, tags: Tags, extra: seq<string>, name: string, rd: Readers)
    requires PlainFront(front) && Spelled(tags) && NoCommaIn(lic) && NoCommas(extra) && Untagged(extra)
    requires StripExe(name) == front + Join(Settings(lic, tags) + extra)
    ensures ParseName(name, rd) == Some(lic)
  {
    var parts := Settings(lic, tags) + extra;
    assert parts[0] == tags.host + lic.host;
    OneTag("host=", tags.host, lic.host);
    TagsHaveNoComma(tags);
    assert NoCommas(parts);
    HostPartsRead(front, parts, name, rd);
    FieldsRead(lic, tags, extra, "host=");
    FieldsRead(lic, tags, extra, "key=");
    FieldsRead(lic, tags, extra, "api=");
    FieldsRead(lic, tags, extra, "relay=");
  }

  lemma FieldsRead(lic: CustomServer, tags: Tags, extra: seq<string>, asked: string)
    requires Tag(asked) && Spelled(tags) && Untagged(extra)
    ensures LastField(Settings(lic, tags) + extra, asked)
         == if asked == "host=" then lic.host else if asked == "key=" then lic.key
            else if asked == "api=" then lic.api else lic.relay
  {
    UntaggedKeeps(Settings(lic, tags), extra, asked);
    SettingsRead(lic, tags, asked);
  }

  // ---------------------------------------------------------------- a doubled extension

  /** The text without its last four characters. */
  function Cut(s: string): string
    requires |s| >= 4
  {
    s[..|s| - 4]
  }

  /** The extension cannot reach over a comma or over a tag. */
  lemma EndsInLast(x: string, c: char, y: string)
    requires c == ',' || c == '='
    ensures EndsSpelled(x + [c] + y, ".exe") <==> EndsSpelled(y, ".exe")
    ensures EndsSpelled(y, ".exe") ==> Cut(x + [c] + y) == x + [c] + Cut(y)
  {
    var s := x + [c] + y;
    if |y| >= 4 {
      assert s[|s| - 4..] == y[|y| - 4..];
    } else if |s| >= 4 {
      assert s[|s| - 4..][3 - |y|] == c;
      NoSignInExe(c, 3 - |y|);
    }
  }

  lemma NoSignInExe(c: char, i: nat)
    requires (c == ',' || c == '=') && i < 4
    ensures !SpellsChar(c, ".exe"[i])
  {
  }

  /** A joined name ends in its last part, after a comma. */
  lemma {:induction false} JoinLast(parts: seq<string>, last: string)
    requires parts != []
    ensures Join(parts + [last]) == Join(parts) + [','] + last
  {
    if |parts| == 1 {
      assert (parts + [last])[1..] == [last] && JoinWith([last], ",") == last;
      assert Join(parts + [last]) == parts[0] + ("," + last);
    } else {
      assert (parts + [last])[1..] == parts[1..] + [last];
      JoinLast(parts[1..], last);
      var rest := Join(parts[1..]);
      assert parts[0] + ("," + (rest + [','] + last)) == (parts[0] + ("," + rest)) + [','] + last;
    }
  }

  /** What the parser sees of a name whose last part ends in the extension. */
  lemma LastPartCut(front: string, parts: seq<string>, last: string, ext: string)
    requires parts != [] && Spells(ext, ".exe")
    ensures StripExe(front + Join(parts + [last]) + ext)
         == front + Join(parts + [if EndsSpelled(last, ".exe") then Cut(last) else last])
  {
    var x, s := front + Join(parts), front + Join(parts + [last]);
    JoinLast(parts, last);
    assert s == x + [','] + last;
    EndsInLast(x, ',', last);
    WordsAreSmall();
    SpellsLower(ext, ".exe");
    EndsLower(s, ".exe");
    StripOne(s, ext);
    if EndsSpelled(last, ".exe") {
      JoinLast(parts, Cut(last));
      assert front + Join(parts + [Cut(last)]) == x + [','] + Cut(last);
    }
  }

  lemma UntaggedCut(extra: seq<string>, last: string)
    requires Untagged(extra + [last]) && NoCommas(extra + [last]) && |last| >= 4
    ensures Untagged(extra + [Cut(last)]) && NoCommas(extra + [Cut(last)])
  {
    var before, after := extra + [last], extra + [Cut(last)];
    assert before[|extra|] == last;
    NoTagCut(last);
    forall i | 0 <= i < |after| ensures NoTag(after[i]) && ',' !in after[i] {
      assert i < |extra| ==> after[i] == before[i];
    }
  }

  lemma NoTagCut(part: string)
    requires NoTag(part) && |part| >= 4
    ensures NoTag(Cut(part))
  {
    forall tag | Tag(tag) ensures !StartsSpelled(Cut(part), tag) {
      assert !StartsSpelled(part, tag);
      assert |tag| <= |part| - 4 ==> Cut(part)[..|tag|] == part[..|tag|];
    }
  }

  /** Without any further part the doubled extension costs the relay its own. */
  function WithoutExe(lic: CustomServer): CustomServer {
    if EndsSpelled(lic.relay, ".exe") then lic.(relay := Cut(lic.relay)) else lic
  }

  lemma BareNameRead(front: string, lic: CustomServer, tags: Tags, ext: string, rd: Readers)
    requires PlainFront(front) && Spelled(tags) && NoCommaIn(lic) && Spells(ext, ".exe")
    ensures ParseName(front + Join(Settings(lic, tags)) + ext, rd) == Some(WithoutExe(lic))
  {
    var read := WithoutExe(lic);
    RelayCut(lic, tags);
    LastPartCut(front, FirstSettings(lic, tags), tags.relay + lic.relay, ext);
    assert Settings(read, tags) + [] == Settings(read, tags);
    SettingsAreRead(front, read, tags, [], front + Join(Settings(lic, tags)) + ext, rd);
  }

  lemma RelayCut(lic: CustomServer, tags: Tags)
    requires Spelled(tags)
    ensures var part := tags.relay + lic.relay;
            tags.relay + WithoutExe(lic).relay == if EndsSpelled(part, ".exe") then Cut(part) else part
    ensures FirstSettings(lic, tags) == FirstSettings(WithoutExe(lic), tags) != []
    ensures NoCommaIn(lic) ==> NoCommaIn(WithoutExe(lic))
  {
    var word := tags.relay[..5];
    assert SpellsChar(tags.relay[5], "relay="[5]);
    assert tags.relay == word + ['='];
    assert tags.relay + lic.relay == word + ['='] + lic.relay;
    EndsInLast(word, '=', lic.relay);
  }

  lemma MarkedNameRead(
    front: string, lic: CustomServer, tags: Tags, extra: seq<string>, last: string, ext: string, rd: Readers)
    requires PlainFront(front) && Spelled(tags) && NoCommaIn(lic) && Spells(ext, ".exe")
    requires NoCommas(extra + [last]) && Untagged(extra + [last])
    ensures ParseName(front + Join(Settings(lic, tags) + (extra + [last])) + ext, rd) == Some(lic)
  {
    var kept, all := if EndsSpelled(last, ".exe") then Cut(last) else last, Settings(lic, tags) + extra;
    if EndsSpelled(last, ".exe") { UntaggedCut(extra, last); }
    assert Settings(lic, tags) + (extra + [last]) == all + [last];
    assert Settings(lic, tags) + (extra + [kept]) == all + [kept];
    LastPartCut(front, all, last, ext);
    SettingsAreRead(front, lic, tags, extra + [kept], front + Join(all + [last]) + ext, rd);
  }

  /** Main result: settings without commas are read back from the written-out
      name, whatever untagged parts follow, exactly if some part follows or the
      relay does not itself end in ".exe". A final comma is always enough. Tags
      and extensions may be spelled with capitals. */
  lemma HostNameRoundTripIff(
    front: string, lic: CustomServer, tags: Tags, extra: seq<string>, ext: string, rd: Readers)
    requires PlainFront(front) && Spelled(tags) && NoCommaIn(lic) && NoCommas(extra) && Untagged(extra)
    requires Spells(ext, ".exe")
    ensures ParseName(front + Join(Settings(lic, tags) + extra) + ext, rd) == Some(lic)
       <==> extra != [] || !EndsSpelled(lic.relay, ".exe")
  {
    if extra == [] {
      assert Settings(lic, tags) + extra == Settings(lic, tags);
      BareNameRead(front, lic, tags, ext, rd);
    } else {
      var n := |extra| - 1;
      assert extra == extra[..n] + [extra[n]];
      MarkedNameRead(front, lic, tags, extra[..n], extra[n], ext, rd);
    }
  }
}
