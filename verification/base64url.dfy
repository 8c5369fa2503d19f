/** base64url without padding (section 5 of RFC 4648), as `URL_SAFE_NO_PAD`
    encodes and decodes it: the decoder refuses foreign characters, a single
    left-over character and non-zero trailing bits. */
module Base64Url {
  import opened Options

  type Byte = x: int | 0 <= x < 256
  // A six-bit number, the value of one character.
  type Six = x: int | 0 <= x < 64

  predicate InAlphabet(c: char) {
    'A' <= c <= 'Z' || 'a' <= c <= 'z' || '0' <= c <= '9' || c == '-' || c == '_'
  }

  function Symbol(i: Six): (c: char)
    ensures InAlphabet(c) && Index(c) == i
  {
    if i < 26 then ('A' as int + i) as char
    else if i < 52 then ('a' as int + (i - 26)) as char
    else if i < 62 then ('0' as int + (i - 52)) as char
    else if i == 62 then '-'
    else '_'
  }

  function Index(c: char): Six
    requires InAlphabet(c)
  {
    if 'A' <= c <= 'Z' then c as int - 'A' as int
    else if 'a' <= c <= 'z' then c as int - 'a' as int + 26
    else if '0' <= c <= '9' then c as int - '0' as int + 52
    else if c == '-' then 62
    else 63
  }

  /** Table 2 of section 5 of RFC 4648. */
  lemma SymbolsAreTheTable()
    ensures [
            Symbol(0), Symbol(1), Symbol(2), Symbol(3), Symbol(4), Symbol(5), Symbol(6), Symbol(7),
            Symbol(8), Symbol(9), Symbol(10), Symbol(11), Symbol(12), Symbol(13), Symbol(14), Symbol(15),
            Symbol(16), Symbol(17), Symbol(18), Symbol(19), Symbol(20), Symbol(21), Symbol(22), Symbol(23),
            Symbol(24), Symbol(25)]
         == "ABCDEFGHIJKLMNOPQRSTUVWXYZ"
    ensures [
            Symbol(26), Symbol(27), Symbol(28), Symbol(29), Symbol(30), Symbol(31), Symbol(32), Symbol(33),
            Symbol(34), Symbol(35), Symbol(36), Symbol(37), Symbol(38), Symbol(39), Symbol(40), Symbol(41),
            Symbol(42), Symbol(43), Symbol(44), Symbol(45), Symbol(46), Symbol(47), Symbol(48), Symbol(49),
            Symbol(50), Symbol(51)]
         == "abcdefghijklmnopqrstuvwxyz"
    ensures [
            Symbol(52), Symbol(53), Symbol(54), Symbol(55), Symbol(56), Symbol(57), Symbol(58), Symbol(59),
            Symbol(60), Symbol(61), Symbol(62), Symbol(63)]
         == "0123456789-_"
  {
  }

  lemma SymbolOfIndex(c: char)
    requires InAlphabet(c)
    ensures Symbol(Index(c)) == c
  {
  }

  // ---------------------------------------------------------------- bytes and six-bit numbers

  function Second(b0: Byte, b1: Byte): Six { b0 % 4 * 16 + b1 / 16 }
  function Third(b1: Byte, b2: Byte): Six { b1 % 16 * 4 + b2 / 64 }

  function ByteA(i0: Six, i1: Six): Byte { i0 * 4 + i1 / 16 }
  function ByteB(i1: Six, i2: Six): Byte { i1 % 16 * 16 + i2 / 4 }
  function ByteC(i2: Six, i3: Six): Byte { i2 % 4 * 64 + i3 }

  function Cut(b: seq<Byte>): seq<Six> {
    if |b| == 0 then []
    else if |b| == 1 then [b[0] / 4, Second(b[0], 0)]
    else if |b| == 2 then [b[0] / 4, Second(b[0], b[1]), Third(b[1], 0)]
    else [b[0] / 4, Second(b[0], b[1]), Third(b[1], b[2]), b[2] % 64] + Cut(b[3..])
  }

  function Pack(i: seq<Six>): Option<seq<Byte>> {
    if |i| == 0 then Some([])
    else if |i| == 1 then None
    else if |i| == 2 then
      if i[1] % 16 != 0 then None else Some([ByteA(i[0], i[1])])
    else if |i| == 3 then
      if i[2] % 4 != 0 then None else Some([ByteA(i[0], i[1]), ByteB(i[1], i[2])])
    else
      var rest := Pack(i[4..]);
      if rest.None? then None
      else Some([ByteA(i[0], i[1]), ByteB(i[1], i[2]), ByteC(i[2], i[3])] + rest.value)
  }

  /** The four numbers of a group are its 24 bits, highest first. */
  lemma GroupValue(b0: Byte, b1: Byte, b2: Byte)
    ensures Cut([b0, b1, b2]) == [b0 / 4, Second(b0, b1), Third(b1, b2), b2 % 64]
    ensures b0 / 4 * 0x4_0000 + Second(b0, b1) * 0x1000 + Third(b1, b2) * 64 + b2 % 64
         == b0 * 0x1_0000 + b1 * 0x100 + b2
  {
    assert [b0, b1, b2][3..] == [] && Cut([]) == [];
    assert Second(b0, b1) * 0x1000 == b0 % 4 * 0x1_0000 + b1 / 16 * 0x1000;
    assert Third(b1, b2) * 64 == b1 % 16 * 0x100 + b2 / 64 * 64;
  }

  /** A short last group is filled up with zero bits. */
  lemma ShortGroupValue(b0: Byte, b1: Byte)
    ensures var i := Cut([b0]); |i| == 2 && i[0] as int * 64 + i[1] as int == b0 as int * 16
    ensures var i := Cut([b0, b1]);
            |i| == 3 && i[0] as int * 0x1000 + i[1] as int * 64 + i[2] as int == (b0 as int * 0x100 + b1 as int) * 4
  {
  }

  lemma PackAfterCut(b0: Byte, b1: Byte, b2: Byte)
    ensures ByteA(b0 / 4, Second(b0, b1)) == b0
    ensures ByteB(Second(b0, b1), Third(b1, b2)) == b1
    ensures ByteC(Third(b1, b2), b2 % 64) == b2
    ensures Second(b0, 0) % 16 == 0 && Third(b1, 0) % 4 == 0
  {
    FirstBack(b0, b1);
    SecondBack(b0, b1, b2);
    ThirdBack(b1, b2);
  }

  lemma FirstBack(b0: Byte, b1: Byte)
    ensures ByteA(b0 / 4, Second(b0, b1)) == b0 && Second(b0, 0) % 16 == 0
  {
    assert Second(b0, b1) / 16 == b0 % 4;
  }

  lemma SecondBack(b0: Byte, b1: Byte, b2: Byte)
    ensures ByteB(Second(b0, b1), Third(b1, b2)) == b1
  {
    assert Second(b0, b1) % 16 == b1 / 16;
    assert Third(b1, b2) / 4 == b1 % 16;
  }

  lemma ThirdBack(b1: Byte, b2: Byte)
    ensures ByteC(Third(b1, b2), b2 % 64) == b2 && Third(b1, 0) % 4 == 0
  {
    assert Third(b1, b2) % 4 == b2 / 64;
  }

  lemma CutAfterPack(i0: Six, i1: Six, i2: Six, i3: Six)
    ensures ByteA(i0, i1) / 4 == i0
    ensures Second(ByteA(i0, i1), ByteB(i1, i2)) == i1
    ensures Third(ByteB(i1, i2), ByteC(i2, i3)) == i2
    ensures ByteC(i2, i3) % 64 == i3
    ensures i1 % 16 == 0 ==> Second(ByteA(i0, i1), 0) == i1
    ensures i2 % 4 == 0 ==> Third(ByteB(i1, i2), 0) == i2
  {
  }

  lemma PackGroup(a: Six, b: Six, c: Six, d: Six, i: seq<Six>, rest: seq<Byte>)
    requires Pack(i) == Some(rest)
    ensures Pack([a, b, c, d] + i) == Some([ByteA(a, b), ByteB(b, c), ByteC(c, d)] + rest)
  {
    assert ([a, b, c, d] + i)[4..] == i;
  }

  lemma CutGroup(a: Byte, b: Byte, c: Byte, rest: seq<Byte>)
    ensures Cut([a, b, c] + rest) == [a / 4, Second(a, b), Third(b, c), c % 64] + Cut(rest)
  {
    assert ([a, b, c] + rest)[3..] == rest;
  }

  lemma PackShort(a: Six, b: Six, c: Six)
    ensures b % 16 == 0 ==> Pack([a, b]) == Some([ByteA(a, b)])
    ensures c % 4 == 0 ==> Pack([a, b, c]) == Some([ByteA(a, b), ByteB(b, c)])
  {
  }

  lemma CutShort(a: Byte, b: Byte)
    ensures Cut([a]) == [a / 4, Second(a, 0)]
    ensures Cut([a, b]) == [a / 4, Second(a, b), Third(b, 0)]
  {
  }

  lemma PackCutOne(a: Byte)
    ensures Pack(Cut([a])) == Some([a])
  {
    CutShort(a, 0);
    PackAfterCut(a, 0, 0);
    PackShort(a / 4, Second(a, 0), 0);
  }

  lemma PackCutTwo(a: Byte, b: Byte)
    ensures Pack(Cut([a, b])) == Some([a, b])
  {
    CutShort(a, b);
    PackAfterCut(a, b, 0);
    PackShort(a / 4, Second(a, b), Third(b, 0));
  }

  lemma PackCutThree(a: Byte, b: Byte, c: Byte, rest: seq<Byte>)
    requires Pack(Cut(rest)) == Some(rest)
    ensures Pack(Cut([a, b, c] + rest)) == Some([a, b, c] + rest)
  {
    CutGroup(a, b, c, rest);
    PackGroup(a / 4, Second(a, b), Third(b, c), c % 64, Cut(rest), rest);
    PackAfterCut(a, b, c);
  }

  lemma {:induction false} PackCut(b: seq<Byte>)
    ensures Pack(Cut(b)) == Some(b)
  {
    if |b| == 1 {
      PackCutOne(b[0]);
      assert b == [b[0]];
    } else if |b| == 2 {
      PackCutTwo(b[0], b[1]);
      assert b == [b[0], b[1]];
    } else if |b| > 2 {
      PackCut(b[3..]);
      PackCutThree(b[0], b[1], b[2], b[3..]);
      assert b == [b[0], b[1], b[2]] + b[3..];
    }
  }

  lemma {:induction false} CutPack(i: seq<Six>)
    requires Pack(i).Some?
    ensures Cut(Pack(i).value) == i
  {
    if |i| == 2 {
      var i0, i1 := i[0], i[1];
      assert i == [i0, i1];
      PackShort(i0, i1, 0);
      CutShort(ByteA(i0, i1), 0);
      CutAfterPack(i0, i1, 0, 0);
    } else if |i| == 3 {
      var i0, i1, i2 := i[0], i[1], i[2];
      assert i == [i0, i1, i2];
      PackShort(i0, i1, i2);
      CutShort(ByteA(i0, i1), ByteB(i1, i2));
      CutAfterPack(i0, i1, i2, 0);
    } else if |i| > 3 {
      var i0, i1, i2, i3, more := i[0], i[1], i[2], i[3], i[4..];
      CutPack(more);
      CutGroup(ByteA(i0, i1), ByteB(i1, i2), ByteC(i2, i3), Pack(more).value);
      CutAfterPack(i0, i1, i2, i3);
      assert i == [i0, i1, i2, i3] + more;
    }
  }

  // ---------------------------------------------------------------- text

  function Encode(b: seq<Byte>): string {
    var i := Cut(b);
    seq(|i|, k requires 0 <= k < |i| => Symbol(i[k]))
  }

  predicate AllInAlphabet(s: string) {
    forall k | 0 <= k < |s| :: InAlphabet(s[k])
  }

  function Decode(s: string): Option<seq<Byte>> {
    if AllInAlphabet(s) then Pack(seq(|s|, k requires 0 <= k < |s| => Index(s[k]))) else None
  }

  /** Decoding undoes encoding. */
  lemma DecodeEncode(b: seq<Byte>)
    ensures Decode(Encode(b)) == Some(b)
  {
    var s, i := Encode(b), Cut(b);
    assert seq(|s|, k requires 0 <= k < |s| => Index(s[k])) == i;
    PackCut(b);
  }

  /** Only one text decodes to given bytes. */
  lemma EncodeDecode(s: string)
    requires Decode(s).Some?
    ensures Encode(Decode(s).value) == s
  {
    var i := seq(|s|, k requires 0 <= k < |s| => Index(s[k]));
    CutPack(i);
    forall k | 0 <= k < |s| ensures Symbol(i[k]) == s[k] { SymbolOfIndex(s[k]); }
  }

  lemma EncodeAlphabet(b: seq<Byte>)
    ensures AllInAlphabet(Encode(b))
  {
  }

  /** For ASCII bytes the number of a dash, 62, is only ever cut last of four. */
  lemma {:induction false} DashNumbers(b: seq<Byte>, k: nat)
    requires forall j | 0 <= j < |b| :: b[j] < 128
    requires k < |Cut(b)| && Cut(b)[k] == 62
    ensures k % 4 == 3
  {
    if |b| > 2 && k >= 4 {
      assert Cut(b)[k] == Cut(b[3..])[k - 4];
      DashNumbers(b[3..], k - 4);
    } else if |b| == 1 {
      DashInGroup(b[0], 0, 0);
    } else if |b| == 2 {
      DashInGroup(b[0], b[1], 0);
    } else {
      DashInGroup(b[0], b[1], b[2]);
    }
  }

  lemma DashInGroup(b0: Byte, b1: Byte, b2: Byte)
    requires b0 < 128 && b1 < 128 && b2 < 128
    ensures b0 / 4 != 62 && Second(b0, b1) != 62 && Third(b1, b2) != 62
  {
  }

  /** For ASCII bytes dashes stand only at every fourth place. */
  lemma DashPositions(b: seq<Byte>, k: nat)
    requires forall j | 0 <= j < |b| :: b[j] < 128
    requires k < |Encode(b)| && Encode(b)[k] == '-'
    ensures k % 4 == 3
  {
    assert Index(Encode(b)[k]) == Cut(b)[k];
    DashNumbers(b, k);
  }

  /** The last character, when the last byte is a closing brace. */
  lemma LastSymbolOfBrace(b: seq<Byte>)
    requires b != [] && b[|b| - 1] == 125
    ensures Encode(b) != [] && Encode(b)[|Encode(b)| - 1] in {'9', 'Q', '0'}
  {
    LastNumberOfBrace(b);
  }

  lemma {:induction false} LastNumberOfBrace(b: seq<Byte>)
    requires b != [] && b[|b| - 1] == 125
    ensures Cut(b) != [] && Cut(b)[|Cut(b)| - 1] in {61, 16, 52}
  {
    if |b| > 3 { LastNumberOfBrace(b[3..]); }
  }

  /** What a text ending in "ur" can decode to: at best bytes that end in 171. */
  lemma DecodeEndingInUr(s: string)
    requires |s| >= 2 && s[|s| - 2] == 'u' && s[|s| - 1] == 'r'
    ensures Decode(s).Some? ==> Decode(s).value != [] && Decode(s).value[|Decode(s).value| - 1] == 171
  {
    if AllInAlphabet(s) {
      PackEndingIn46And43(seq(|s|, k requires 0 <= k < |s| => Index(s[k])));
    }
  }

  lemma {:induction false} PackEndingIn46And43(i: seq<Six>)
    requires |i| >= 2 && i[|i| - 2] == 46 && i[|i| - 1] == 43
    ensures Pack(i).Some? ==> Pack(i).value != [] && Pack(i).value[|Pack(i).value| - 1] == 171
  {
    if |i| >= 6 { PackEndingIn46And43(i[4..]); }
  }

  /** Decoding never lengthens. */
  lemma DecodedLength(s: string)
    ensures Decode(s).Some? ==> |Decode(s).value| <= |s|
  {
    if AllInAlphabet(s) {
      PackedLength(seq(|s|, k requires 0 <= k < |s| => Index(s[k])));
    }
  }

  lemma {:induction false} PackedLength(i: seq<Six>)
    ensures Pack(i).Some? ==> |Pack(i).value| <= |i|
  {
    if |i| > 3 { PackedLength(i[4..]); }
  }
}
