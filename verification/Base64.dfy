/** Base64 as the client uses it: one encoder, a decoder that works group by group and accepts padding in
    any group, and a decoder that strips the padding first (section 4 of RFC 4648). */
module Base64 {
  import opened Common

  type Sextet = n: int | 0 <= n < 64

  datatype DecodeError = BadLength | BadCharacter(c: char)

  type Decoded = Result<Bytes, DecodeError>

  /** The alphabet table. */
  function CharOf(v: Sextet): char {
    if v < 26 then ('A' as int + v) as char
    else if v < 52 then ('a' as int + v - 26) as char
    else if v < 62 then ('0' as int + v - 52) as char
    else if v == 62 then '+' else '/'
  }

  function Val(c: char): Option<Sextet> {
    if 'A' <= c <= 'Z' then Some(c as int - 'A' as int)
    else if 'a' <= c <= 'z' then Some(c as int - 'a' as int + 26)
    else if '0' <= c <= '9' then Some(c as int - '0' as int + 52)
    else if c == '+' then Some(62)
    else if c == '/' then Some(63)
    else None
  }

  lemma AlphabetInverse(v: Sextet, c: char)
    ensures Val(CharOf(v)) == Some(v)
    ensures Val(c).Some? ==> CharOf(Val(c).value) == c
    ensures Val('=').None?
  {
  }

  function Min(a: nat, b: nat): nat {
    if a < b then a else b
  }

  predicate IsUnit(unit: nat) {
    unit == 4 || unit == 0x10 || unit == 0x40 || unit == 0x1000 || unit == 0x4_0000 || unit == 0x100_0000
  }

  /** `|` where the low bits of one side are free for the other. */
  lemma OrIsSum(a: nat, b: nat, unit: nat)
    requires IsUnit(unit) && a % unit == 0 && b < unit
    ensures BitOr(a, b) == a + b
  {
    var k := if unit == 4 then 2 else if unit == 0x10 then 4 else if unit == 0x40 then 6
             else if unit == 0x1000 then 12 else if unit == 0x4_0000 then 18 else 24;
    Units();
    hide BitOr, Pow2;
    OrAdds(a / unit, b, k);
    assert a / unit * unit == a;
  }

  lemma Units()
    ensures Pow2(2) == 4 && Pow2(4) == 0x10 && Pow2(6) == 0x40
    ensures Pow2(12) == 0x1000 && Pow2(18) == 0x4_0000 && Pow2(24) == 0x100_0000
  {
  }

  // ----- The encoder -----

  /** One group of one to three bytes. */
  function EncodeGroup(chunk: Bytes): (g: string)
    requires 1 <= |chunk| <= 3
    ensures |g| == 4
  {
    var b0: Byte := chunk[0];
    var b1: Byte := if |chunk| > 1 then chunk[1] else 0;
    var b2: Byte := if |chunk| > 2 then chunk[2] else 0;
    [CharOf(b0 / 4), CharOf(b0 % 4 * 16 + b1 / 16),
     if |chunk| > 1 then CharOf(b1 % 16 * 4 + b2 / 64) else '=',
     if |chunk| > 2 then CharOf(b2 % 64) else '=']
  }

  function Encode(b: Bytes): string {
    if b == [] then [] else EncodeGroup(b[..Min(3, |b|)]) + Encode(b[Min(3, |b|)..])
  }

  lemma {:induction false} EncodedLength(b: Bytes)
    ensures |Encode(b)| == 4 * ((|b| + 2) / 3)
  {
    hide EncodeGroup;
    if b != [] { EncodedLength(b[Min(3, |b|)..]); }
  }

  /** The four characters of a chunk, by shifts, masks and `|`. */
  method EncodeChunk(chunk: Bytes) returns (group: string)
    requires 1 <= |chunk| <= 3
    ensures group == EncodeGroup(chunk)
  {
    hide BitOr, CharOf;
    var b0: Byte := chunk[0];
    var b1: Byte := if |chunk| > 1 then chunk[1] else 0;
    var b2: Byte := if |chunk| > 2 then chunk[2] else 0;
    OrIsSum(b0 % 4 * 16, b1 / 16, 0x10);
    OrIsSum(b1 % 16 * 4, b2 / 64, 4);
    group := [CharOf(b0 / 4)];
    group := group + [CharOf(BitOr(b0 % 4 * 16, b1 / 16))];
    if |chunk| > 1 {
      group := group + [CharOf(BitOr(b1 % 16 * 4, b2 / 64))];
    } else {
      group := group + ['='];
    }
    if |chunk| > 2 {
      group := group + [CharOf(b2 % 64)];
    } else {
      group := group + ['='];
    }
  }

  /** The alphabet of section 4 of RFC 4648 by its ASCII codes: 26 capital letters from 65, 26 small letters from 97,
      ten digits from 48, then plus and slash. */
  predicate IsLetter(c: char, v: Sextet) {
    var code := c as int;
    if v < 26 then code == 65 + v
    else if v < 52 then code == 97 + (v - 26)
    else if v < 62 then code == 48 + (v - 52)
    else if v == 62 then code == 43
    else code == 47
  }

  lemma InOrder(v: Sextet)
    ensures IsLetter(CharOf(v), v)
  {
  }

  /** The bytes of group `k` as one 24-bit number, the first byte highest, missing bytes being zero. */
  function GroupNumber(b: Bytes, k: nat): nat
    requires 3 * k < |b|
  {
    var b0: nat, b1: nat, b2: nat :=
      b[3 * k], if 3 * k + 1 < |b| then b[3 * k + 1] else 0, if 3 * k + 2 < |b| then b[3 * k + 2] else 0;
    b0 * 0x1_0000 + b1 * 0x100 + b2
  }

  /** The six bits in place `j` of a 24-bit number, highest first. */
  function SixBits(n: nat, j: nat): Sextet {
    (if j == 0 then n / 0x4_0000 else if j == 1 then n / 0x1000 else if j == 2 then n / 0x40 else n) % 0x40
  }

  lemma GroupChars(b: Bytes, j: nat)
    requires 0 < |b| && j < 4
    ensures EncodeGroup(b[..Min(3, |b|)])[j] == if j <= |b| then CharOf(SixBits(GroupNumber(b, 0), j)) else '='
  {
    hide CharOf;
    var b0: Byte, b1: Byte, b2: Byte :=
      b[0], if |b| > 1 then b[1] else 0, if |b| > 2 then b[2] else 0;
    SixBitsOf(b0, b1, b2);
    assert GroupNumber(b, 0) == b0 * 0x1_0000 + b1 * 0x100 + b2;
  }

  lemma SixBitsOf(b0: Byte, b1: Byte, b2: Byte)
    ensures var n := b0 * 0x1_0000 + b1 * 0x100 + b2;
            && SixBits(n, 0) == b0 / 4 && SixBits(n, 1) == b0 % 4 * 16 + b1 / 16
            && SixBits(n, 2) == b1 % 16 * 4 + b2 / 64 && SixBits(n, 3) == b2 % 64
  {
    var n := b0 * 0x1_0000 + b1 * 0x100 + b2;
    assert n / 0x4_0000 == b0 / 4;
    assert n / 0x1000 == b0 * 16 + b1 / 16;
    assert n / 0x40 == b0 * 0x400 + b1 * 4 + b2 / 64;
  }

  /** Every character of an encoding, by position: character `j` of group `k` is the alphabet's letter for the
      six bits in place `j` of the group's number, or padding where the group has too few bytes. */
  lemma {:induction false} EncodedAt(b: Bytes, k: nat, j: nat)
    requires 3 * k < |b| && j < 4
    ensures 4 * k + j < |Encode(b)|
    ensures var c := Encode(b)[4 * k + j];
            if j <= |b| - 3 * k then IsLetter(c, SixBits(GroupNumber(b, k), j)) else c == '='
  {
    hide EncodeGroup, CharOf, SixBits, IsLetter;
    EncodedLength(b);
    if k == 0 {
      GroupChars(b, j);
      InOrder(SixBits(GroupNumber(b, 0), j));
    } else {
      var rest := b[3..];
      EncodedAt(rest, k - 1, j);
      assert GroupNumber(rest, k - 1) == GroupNumber(b, k);
      assert Encode(b) == EncodeGroup(b[..3]) + Encode(rest);
    }
  }

  method Base64Encode(input: Bytes) returns (out: string)
    ensures out == Encode(input)
    ensures |out| == 4 * ((|input| + 2) / 3)
  {
    hide EncodeGroup;
    out := [];
    var i := 0;
    assert input[0..] == input;
    while i < |input|
      invariant i <= |input|
      invariant out + Encode(input[i..]) == Encode(input)
    {
      var n := Min(3, |input| - i);
      var chunk := input[i..i + n];
      assert input[i..][..n] == chunk && input[i..][n..] == input[i + n..];
      ConcatAssociative(out, EncodeGroup(chunk), Encode(input[i + n..]));
      var group := EncodeChunk(chunk);
      out := out + group;
      i := i + n;
    }
    assert input[i..] == [];
    assert out + [] == out;
    EncodedLength(input);
  }

  // ----- The decoder of the capture module -----

  /** `&` and `>>` on the 24-bit number of a group: its three bytes. */
  function GroupBytes(c0: Sextet, c1: Sextet, c2: Sextet, c3: Sextet): (b: Bytes)
    ensures |b| == 3
  {
    var n := c0 * 0x4_0000 + c1 * 0x1000 + c2 * 0x40 + c3;
    [n / 0x1_0000 % 0x100, n / 0x100 % 0x100, n % 0x100]
  }

  lemma Digits256(b0: Byte, b1: Byte, b2: Byte)
    ensures var n := b0 * 0x1_0000 + b1 * 0x100 + b2;
            n / 0x1_0000 % 0x100 == b0 && n / 0x100 % 0x100 == b1 && n % 0x100 == b2
  {
    var n := b0 * 0x1_0000 + b1 * 0x100 + b2;
    assert n / 0x100 == b0 * 0x100 + b1;
    assert n / 0x1_0000 == b0;
  }

  lemma GroupBytesSplit(c0: Sextet, c1: Sextet, c2: Sextet, c3: Sextet)
    ensures GroupBytes(c0, c1, c2, c3) == [c0 * 4 + c1 / 16, c1 % 16 * 16 + c2 / 4, c2 % 4 * 64 + c3]
  {
    Digits256(c0 * 4 + c1 / 16, c1 % 16 * 16 + c2 / 4, c2 % 4 * 64 + c3);
    assert c1 * 0x1000 == c1 / 16 * 0x1_0000 + c1 % 16 * 0x1000;
    assert c2 * 0x40 == c2 / 4 * 0x100 + c2 % 4 * 0x40;
  }

  function DecodeGroup(g: string): Decoded
    requires |g| == 4
  {
    var pad := if g[3] != '=' then 0 else if g[2] != '=' then 1 else 2;
    if Val(g[0]).None? then Err(BadCharacter(g[0]))
    else if Val(g[1]).None? then Err(BadCharacter(g[1]))
    else if g[2] != '=' && Val(g[2]).None? then Err(BadCharacter(g[2]))
    else if g[3] != '=' && Val(g[3]).None? then Err(BadCharacter(g[3]))
    else
      var bytes := GroupBytes(Val(g[0]).value, Val(g[1]).value,
                              if g[2] == '=' then 0 else Val(g[2]).value, if g[3] == '=' then 0 else Val(g[3]).value);
      Ok(bytes[..3 - pad])
  }

  function Append(a: Decoded, b: Decoded): Decoded {
    if a.Err? then a else if b.Err? then b else Ok(a.value + b.value)
  }

  function DecodeGroups(s: string): Decoded
    requires |s| % 4 == 0
  {
    if s == [] then Ok([]) else Append(DecodeGroup(s[..4]), DecodeGroups(s[4..]))
  }

  function Decode(s: string): Decoded {
    if |s| % 4 != 0 then Err(BadLength) else DecodeGroups(s)
  }

  lemma GroupsAt(s: string, i: nat)
    requires |s| % 4 == 0 && i % 4 == 0 && i + 4 <= |s|
    ensures DecodeGroups(s[i..]) == Append(DecodeGroup(s[i..i + 4]), DecodeGroups(s[i + 4..]))
  {
    hide DecodeGroup;
    assert s[i..][..4] == s[i..i + 4] && s[i..][4..] == s[i + 4..];
  }

  lemma EmptyDecodes()
    ensures DecodeGroups([]) == Ok([]) && StrippedGroups([]) == Ok([])
  {
  }

  lemma AppendAssociative(a: Decoded, b: Decoded, c: Decoded)
    ensures Append(Append(a, b), c) == Append(a, Append(b, c))
  {
    if a.Ok? && b.Ok? && c.Ok? { ConcatAssociative(a.value, b.value, c.value); }
  }

  lemma AppendNothing(a: Decoded)
    ensures Append(Ok([]), a) == a && Append(a, Ok([])) == a
  {
    if a.Ok? { assert [] + a.value == a.value == a.value + []; }
  }

  /** One group: every character is looked up, a padding character counting as zero in the last two places,
      and the number built by `|` is cut into as many bytes as the trailing padding leaves. */
  method DecodeFour(g: string) returns (r: Decoded)
    requires |g| == 4
    ensures r == DecodeGroup(g)
  {
    hide BitOr, Val;
    var pad := 0;
    while pad < 4 && g[3 - pad] == '='
      invariant pad <= 4 && (pad > 0 ==> g[3] == '=') && (pad > 1 ==> g[2] == '=') && (pad > 2 ==> g[1] == '=')
    {
      pad := pad + 1;
    }
    var c0, c1 := Val(g[0]), Val(g[1]);
    if c0.None? { return Err(BadCharacter(g[0])); }
    if c1.None? { return Err(BadCharacter(g[1])); }
    var c2 := if g[2] == '=' then Some(0) else Val(g[2]);
    if c2.None? { return Err(BadCharacter(g[2])); }
    var c3 := if g[3] == '=' then Some(0) else Val(g[3]);
    if c3.None? { return Err(BadCharacter(g[3])); }
    NotInAlphabet();
    var v0: nat, v1: nat, v2: nat, v3: nat := c0.value, c1.value, c2.value, c3.value;
    OrGroup(v0, v1, v2, v3);
    var n := BitOr(BitOr(BitOr(v0 * 0x4_0000, v1 * 0x1000), v2 * 0x40), v3);
    var out: Bytes := [n / 0x1_0000 % 0x100];
    if pad < 2 { out := out + [n / 0x100 % 0x100]; }
    if pad < 1 { out := out + [n % 0x100]; }
    assert pad <= 2 && out == GroupBytes(v0, v1, v2, v3)[..3 - pad];
    return Ok(out);
  }

  lemma NotInAlphabet()
    ensures Val('=').None?
  {
  }

  lemma OrGroup(c0: Sextet, c1: Sextet, c2: Sextet, c3: Sextet)
    ensures BitOr(BitOr(BitOr(c0 * 0x4_0000, c1 * 0x1000), c2 * 0x40), c3)
         == c0 * 0x4_0000 + c1 * 0x1000 + c2 * 0x40 + c3
  {
    hide BitOr;
    OrIsSum(c0 * 0x4_0000, c1 * 0x1000, 0x4_0000);
    OrIsSum(c0 * 0x4_0000 + c1 * 0x1000, c2 * 0x40, 0x1000);
    OrIsSum(c0 * 0x4_0000 + c1 * 0x1000 + c2 * 0x40, c3, 0x40);
  }

  method CaptureDecode(input: string) returns (r: Decoded)
    ensures r == Decode(input)
  {
    hide DecodeGroup;
    EmptyDecodes();
    if |input| % 4 != 0 { return Err(BadLength); }
    var out: Bytes := [];
    var i := 0;
    assert input[0..] == input;
    AppendNothing(DecodeGroups(input));
    hide DecodeGroups;
    while i < |input|
      invariant i <= |input| && i % 4 == 0
      invariant DecodeGroups(input) == Append(Ok(out), DecodeGroups(input[i..]))
    {
      var group := DecodeFour(input[i..i + 4]);
      GroupsAt(input, i);
      if group.Err? { return group; }
      AppendAssociative(Ok(out), group, DecodeGroups(input[i + 4..]));
      out := out + group.value;
      i := i + 4;
    }
    assert input[i..] == [];
    AppendNothing(Ok(out));
    return Ok(out);
  }

  // ----- Round trip -----

  /** Cutting three bytes into four sextets loses nothing. */
  lemma SextetsOf(b0: Byte, b1: Byte, b2: Byte)
    ensures GroupBytes(b0 / 4, b0 % 4 * 16 + b1 / 16, b1 % 16 * 4 + b2 / 64, b2 % 64) == [b0, b1, b2]
  {
    hide GroupBytes;
    var v1, v2 := b0 % 4 * 16 + b1 / 16, b1 % 16 * 4 + b2 / 64;
    GroupBytesSplit(b0 / 4, v1, v2, b2 % 64);
    assert v1 / 16 == b0 % 4 && v1 % 16 == b1 / 16;
    assert v2 / 4 == b1 % 16 && v2 % 4 == b2 / 64;
  }

  lemma GroupRoundTrip(chunk: Bytes)
    requires 1 <= |chunk| <= 3
    ensures DecodeGroup(EncodeGroup(chunk)) == Ok(chunk)
  {
    hide CharOf, Val, GroupBytes;
    var b0: Byte := chunk[0];
    var b1: Byte := if |chunk| > 1 then chunk[1] else 0;
    var b2: Byte := if |chunk| > 2 then chunk[2] else 0;
    AlphabetInverse(b0 / 4, '=');
    AlphabetInverse(b0 % 4 * 16 + b1 / 16, '=');
    AlphabetInverse(b1 % 16 * 4 + b2 / 64, '=');
    AlphabetInverse(b2 % 64, '=');
    SextetsOf(b0, b1, b2);
    assert chunk == [b0, b1, b2][..|chunk|];
  }

  /** Whatever is encoded is decoded back. */
  lemma {:induction false} RoundTrip(b: Bytes)
    ensures Decode(Encode(b)) == Ok(b)
  {
    hide EncodeGroup, DecodeGroup;
    EncodedLength(b);
    if b != [] {
      var n := Min(3, |b|);
      var group, rest := EncodeGroup(b[..n]), Encode(b[n..]);
      RoundTrip(b[n..]);
      EncodedLength(b[n..]);
      GroupRoundTrip(b[..n]);
      assert (group + rest)[..4] == group && (group + rest)[4..] == rest;
      assert b[..n] + b[n..] == b;
    }
  }

  // ----- Which texts are encodings -----

  predicate Full(g: string) {
    |g| == 4 && forall c <- g :: Val(c).Some?
  }

  /** A last group: full, or padded with the unused bits of its last character zero. */
  predicate Last(g: string) {
    || Full(g)
    || (|g| == 4 && g[3] == '=' && Val(g[0]).Some? && Val(g[1]).Some?
        && ((Val(g[2]).Some? && Val(g[2]).value % 4 == 0) || (g[2] == '=' && Val(g[1]).value % 16 == 0)))
  }

  /** The canonical form: full groups, and a last group whose padding is exact. */
  predicate Canonical(s: string) {
    s == [] || (|s| == 4 && Last(s)) || (|s| > 4 && Full(s[..4]) && Canonical(s[4..]))
  }

  /** Cutting four sextets into bytes and back: the unused bits of a short group come back as zero. */
  lemma BytesOf(c0: Sextet, c1: Sextet, c2: Sextet, c3: Sextet)
    ensures var b := GroupBytes(c0, c1, c2, c3);
            && b[0] / 4 == c0 && b[0] % 4 * 16 == c1 / 16 * 16 && b[0] % 4 * 16 + b[1] / 16 == c1
            && b[1] % 16 * 4 == c2 / 4 * 4 && b[1] % 16 * 4 + b[2] / 64 == c2 && b[2] % 64 == c3
  {
    hide GroupBytes;
    GroupBytesSplit(c0, c1, c2, c3);
    var b0, b1, b2 := c0 * 4 + c1 / 16, c1 % 16 * 16 + c2 / 4, c2 % 4 * 64 + c3;
    assert b0 / 4 == c0 && b0 % 4 == c1 / 16;
    assert b1 / 16 == c1 % 16 && b1 % 16 == c2 / 4;
    assert b2 / 64 == c2 % 4 && b2 % 64 == c3;
  }

  lemma SameChar(v: Sextet, c: char)
    requires Val(c).Some?
    ensures CharOf(v) == c <==> v == Val(c).value
  {
    AlphabetInverse(v, c);
  }

  lemma GroupBack(g: string)
    requires |g| == 4 && DecodeGroup(g).Ok?
    ensures EncodeGroup(DecodeGroup(g).value) == g <==> Last(g)
    ensures |DecodeGroup(g).value| == 3 && EncodeGroup(DecodeGroup(g).value) == g <==> Full(g)
  {
    hide CharOf, Val, GroupBytes, Full;
    AlphabetInverse(0, '=');
    var c0, c1 := Val(g[0]).value, Val(g[1]).value;
    var c2: Sextet := if g[2] == '=' then 0 else Val(g[2]).value;
    var c3: Sextet := if g[3] == '=' then 0 else Val(g[3]).value;
    BytesOf(c0, c1, c2, c3);
    SameChar(c0, g[0]);
    FullChars(g);
    if g[3] != '=' {
      SameChar(c3, g[3]);
      SameChar(c1, g[1]);
      AlphabetInverse(c2, '=');
      if g[2] != '=' { SameChar(c2, g[2]); }
    } else if g[2] != '=' {
      SameChar(c1, g[1]);
      SameChar(c2 / 4 * 4, g[2]);
    } else {
      SameChar(c1 / 16 * 16, g[1]);
    }
  }

  lemma FullChars(g: string)
    requires |g| == 4
    ensures Full(g) <==> Val(g[0]).Some? && Val(g[1]).Some? && Val(g[2]).Some? && Val(g[3]).Some?
  {
    hide Val;
    assert g[0] in g && g[1] in g && g[2] in g && g[3] in g;
    assert forall c <- g :: c == g[0] || c == g[1] || c == g[2] || c == g[3];
  }

  lemma LastDecodes(g: string)
    requires Last(g)
    ensures DecodeGroup(g).Ok?
    ensures Full(g) ==> |DecodeGroup(g).value| == 3
  {
    AlphabetInverse(0, '=');
    if Full(g) {
      assert g[0] in g && g[1] in g && g[2] in g && g[3] in g;
    }
  }

  /** A group that is followed by others encodes back only if it gave three bytes: the padding of a shorter
      one would have to reappear inside the encoding, where there is none. */
  lemma InnerGroup(g: string, gv: Bytes, rv: Bytes, r: string)
    requires |g| == 4 && DecodeGroup(g) == Ok(gv) && r != []
    requires Encode(gv + rv) == g + r
    ensures |gv| == 3 && EncodeGroup(gv) == g && Encode(rv) == r
  {
    hide DecodeGroup, EncodeGroup;
    var b := gv + rv;
    EncodedLength(b);
    assert |b| >= 3;
    var first, rest := EncodeGroup(b[..3]), Encode(b[3..]);
    assert first == (first + rest)[..4] == (g + r)[..4] == g;
    assert rest == (first + rest)[4..] == (g + r)[4..] == r;
    ShortGroupsArePadded(g, gv, b[..3]);
    assert b[..3] == gv && b[3..] == rv;
  }

  lemma ShortGroupsArePadded(g: string, gv: Bytes, chunk: Bytes)
    requires |g| == 4 && DecodeGroup(g) == Ok(gv)
    requires |chunk| == 3 && EncodeGroup(chunk) == g
    ensures |gv| == 3
  {
    AlphabetInverse(chunk[2] % 64, '=');
  }

  lemma ThreeBytesFirst(gv: Bytes, rv: Bytes)
    requires |gv| == 3
    ensures Encode(gv + rv) == EncodeGroup(gv) + Encode(rv)
  {
    assert (gv + rv)[..3] == gv && (gv + rv)[3..] == rv;
  }

  /** Re-encoding what was decoded gives the text back exactly when the text is canonical. The decoder takes
      more than that: padding inside, padding that does not end its group, and unused bits that are set. */
  lemma {:induction false} EncodesBackIff(s: string)
    ensures Decode(s).Ok? && Encode(Decode(s).value) == s <==> Canonical(s)
  {
    hide DecodeGroup, EncodeGroup, Full, Last;
    if |s| % 4 != 0 {
      if Canonical(s) { CanonicalLength(s); }
    } else if s != [] {
      var g, r := s[..4], s[4..];
      assert s == g + r;
      EncodesBackIff(r);
      if DecodeGroup(g).Ok? { GroupBack(g); }
      if Last(g) { LastDecodes(g); }
      if Full(g) { FullIsLast(g); }
      if r == [] {
        assert s == g;
        if DecodeGroup(g).Ok? { OneGroup(DecodeGroup(g).value, g); }
      } else if DecodeGroup(g).Ok? && DecodeGroups(r).Ok? {
        var gv, rv := DecodeGroup(g).value, DecodeGroups(r).value;
        if Encode(gv + rv) == s { InnerGroup(g, gv, rv, r); }
        if |gv| == 3 { ThreeBytesFirst(gv, rv); }
      }
    }
  }

  lemma FullIsLast(g: string)
    requires Full(g)
    ensures Last(g)
  {
  }

  lemma OneGroup(v: Bytes, g: string)
    requires |g| == 4 && DecodeGroup(g) == Ok(v)
    ensures Encode(v + []) == EncodeGroup(v)
  {
    assert v + [] == v;
    assert v[..|v|] == v && v[|v|..] == [];
    assert EncodeGroup(v) + [] == EncodeGroup(v);
  }

  lemma {:induction false} CanonicalLength(s: string)
    requires Canonical(s)
    ensures |s| % 4 == 0
  {
    if |s| > 4 { CanonicalLength(s[4..]); }
  }

  /** Padding inside the text: accepted, and the bytes of both groups run together. */
  lemma InnerPaddingAccepted()
    ensures Decode("QQ==QQ==") == Ok([0x41, 0x41]) && Encode([0x41, 0x41]) != "QQ==QQ=="
  {
    hide GroupBytes, Encode;
    GroupBytesSplit(16, 16, 0, 0);
    var s, g := "QQ==QQ==", "QQ==";
    assert s[..4] == g && s[4..] == g && g[..4] == g && g[4..] == [];
    assert Val('Q') == Some(16);
    assert GroupBytes(16, 16, 0, 0)[..1] == [0x41];
    assert DecodeGroup(g) == Ok([0x41]);
    AppendNothing(DecodeGroup(g));
    assert DecodeGroups(s) == Append(DecodeGroup(g), DecodeGroups(g));
    assert DecodeGroups(g) == Append(DecodeGroup(g), DecodeGroups([]));
    assert [0x41] + [0x41] == [0x41, 0x41];
    EncodedLength([0x41, 0x41]);
  }

  // ----- The decoder of the connection module -----

  /** `trim_end_matches('=')`. */
  function Strip(s: string): string {
    if s != [] && s[|s| - 1] == '=' then Strip(s[..|s| - 1]) else s
  }

  /** The first character outside the alphabet, in reading order. */
  function FirstBad(g: string): Option<char> {
    if g == [] then None else if Val(g[0]).None? then Some(g[0]) else FirstBad(g[1..])
  }

  function ValAt(g: string, i: nat): Sextet {
    if i < |g| && Val(g[i]).Some? then Val(g[i]).value else 0
  }

  /** One group of one to four characters; a short group gives fewer bytes. */
  function StrippedGroup(g: string): Decoded
    requires 1 <= |g| <= 4
  {
    if FirstBad(g).Some? then Err(BadCharacter(FirstBad(g).value))
    else
      var bytes := GroupBytes(ValAt(g, 0), ValAt(g, 1), ValAt(g, 2), ValAt(g, 3));
      Ok(bytes[..if |g| > 3 then 3 else if |g| > 2 then 2 else 1])
  }

  function StrippedGroups(t: string): Decoded {
    if t == [] then Ok([]) else Append(StrippedGroup(t[..Min(4, |t|)]), StrippedGroups(t[Min(4, |t|)..]))
  }

  function ConnectionSpec(s: string): Decoded {
    StrippedGroups(Strip(s))
  }

  /** The number the inner loop has built after `i` characters. */
  function Weight(i: nat): nat {
    if i == 0 then 0x4_0000 else if i == 1 then 0x1000 else if i == 2 then 0x40 else 1
  }

  method DecodeChunk(chunk: string) returns (r: Decoded)
    requires 1 <= |chunk| <= 4
    ensures r == StrippedGroup(chunk)
  {
    hide Val, BitOr;
    var buf := 0;
    assert chunk[0..] == chunk;
    for i := 0 to |chunk|
      invariant FirstBad(chunk) == FirstBad(chunk[i..])
      invariant buf == (if i > 0 then ValAt(chunk, 0) * 0x4_0000 else 0)
                     + (if i > 1 then ValAt(chunk, 1) * 0x1000 else 0)
                     + (if i > 2 then ValAt(chunk, 2) * 0x40 else 0) + (if i > 3 then ValAt(chunk, 3) else 0)
    {
      assert chunk[i..][1..] == chunk[i + 1..];
      var v := Val(chunk[i]);
      if v.None? { return Err(BadCharacter(chunk[i])); }
      OrIsSum(buf, v.value * Weight(i), 0x40 * Weight(i));
      buf := BitOr(buf, v.value * Weight(i));
    }
    var out: Bytes := [buf / 0x1_0000 % 0x100];
    if |chunk| > 2 { out := out + [buf / 0x100 % 0x100]; }
    if |chunk| > 3 { out := out + [buf % 0x100]; }
    assert chunk[|chunk|..] == [];
    assert buf == ValAt(chunk, 0) * 0x4_0000 + ValAt(chunk, 1) * 0x1000 + ValAt(chunk, 2) * 0x40 + ValAt(chunk, 3);
    assert out == GroupBytes(ValAt(chunk, 0), ValAt(chunk, 1), ValAt(chunk, 2), ValAt(chunk, 3))[..|out|];
    return Ok(out);
  }

  lemma StrippedAt(t: string, i: nat)
    requires i < |t|
    ensures var n := Min(4, |t| - i);
            StrippedGroups(t[i..]) == Append(StrippedGroup(t[i..i + n]), StrippedGroups(t[i + n..]))
  {
    hide StrippedGroup;
    var n := Min(4, |t| - i);
    assert t[i..][..n] == t[i..i + n] && t[i..][n..] == t[i + n..];
  }

  method ConnectionDecode(s: string) returns (r: Decoded)
    ensures r == ConnectionSpec(s)
  {
    hide StrippedGroup;
    EmptyDecodes();
    var input := Strip(s);
    var out: Bytes := [];
    var i := 0;
    assert input[0..] == input;
    AppendNothing(StrippedGroups(input));
    hide StrippedGroups, Strip;
    while i < |input|
      invariant i <= |input|
      invariant StrippedGroups(input) == Append(Ok(out), StrippedGroups(input[i..]))
    {
      var n := Min(4, |input| - i);
      var group := DecodeChunk(input[i..i + n]);
      StrippedAt(input, i);
      if group.Err? { return group; }
      AppendAssociative(Ok(out), group, StrippedGroups(input[i + n..]));
      out := out + group.value;
      i := i + n;
    }
    assert input[i..] == [];
    AppendNothing(Ok(out));
    return Ok(out);
  }

  // ----- The decoders agree on well-padded text -----

  /** `s` is `t` with at most two padding characters to fill its last group, and none inside. */
  predicate PadsTo(t: string, s: string) {
    && |s| % 4 == 0
    && |t| <= |s| <= |t| + 2 && s[..|t|] == t
    && (forall i :: |t| <= i < |s| ==> s[i] == '=')
    && (forall i :: 0 <= i < |t| ==> t[i] != '=')
  }

  lemma {:induction false} StripsTo(t: string, s: string)
    requires t <= s && (t != [] ==> t[|t| - 1] != '=')
    requires forall i :: |t| <= i < |s| ==> s[i] == '='
    ensures Strip(s) == t
  {
    if |t| < |s| { StripsTo(t, s[..|s| - 1]); }
  }

  lemma GroupsAgree(g: string, pad: nat)
    requires |g| == 4 && pad <= 2
    requires forall i :: 0 <= i < 4 ==> (g[i] == '=' <==> i >= 4 - pad)
    ensures StrippedGroup(g[..4 - pad]) == DecodeGroup(g)
  {
    hide Val, GroupBytes;
    var t := g[..4 - pad];
    FirstBadOf(t);
  }

  lemma FirstBadOf(t: string)
    requires 2 <= |t| <= 4
    ensures FirstBad(t) == if Val(t[0]).None? then Some(t[0]) else if Val(t[1]).None? then Some(t[1])
                           else if |t| > 2 && Val(t[2]).None? then Some(t[2])
                           else if |t| > 3 && Val(t[3]).None? then Some(t[3]) else None
  {
    hide Val;
    assert FirstBad(t[|t|..]) == None;
    if |t| > 3 { assert t[3..][1..] == t[4..]; }
    if |t| > 2 { assert t[2..][1..] == t[3..]; }
    assert t[1..][1..] == t[2..];
    assert FirstBad(t[2..]) == if |t| > 2 && Val(t[2]).None? then Some(t[2])
                               else if |t| > 3 && Val(t[3]).None? then Some(t[3]) else None;
    assert FirstBad(t[1..]) == if Val(t[1]).None? then Some(t[1]) else FirstBad(t[2..]);
  }

  /** On every well-padded text, valid or not, the two decoders give the same bytes or the same error. */
  lemma DecodersAgree(t: string, s: string)
    requires PadsTo(t, s)
    ensures ConnectionSpec(s) == Decode(s)
  {
    StripsTo(t, s);
    StrippedAgree(t, s);
  }

  lemma {:induction false} StrippedAgree(t: string, s: string)
    requires PadsTo(t, s)
    ensures StrippedGroups(t) == DecodeGroups(s)
  {
    hide StrippedGroup, DecodeGroup;
    if s != [] {
      var n := Min(4, |t|);
      GroupsAgree(s[..4], if |s| == 4 then 4 - |t| else 0);
      assert s[..4][..n] == t[..n];
      if |s| > 4 {
        assert s[4..][..|t[4..]|] == t[4..];
        StrippedAgree(t[4..], s[4..]);
      } else {
        assert t[n..] == [] == s[4..];
      }
    }
  }

  lemma {:induction false} EncodingsArePadded(b: Bytes) returns (t: string)
    ensures PadsTo(t, Encode(b))
  {
    hide EncodeGroup, PadsTo;
    if b == [] {
      t := [];
      NothingPads();
    } else {
      var n := Min(3, |b|);
      var group := GroupPads(b[..n]);
      var rest := EncodingsArePadded(b[n..]);
      if n < 3 {
        assert b[n..] == [] && EncodeGroup(b[..n]) + [] == EncodeGroup(b[..n]);
        t := group;
      } else {
        t := group + rest;
        PadsConcat(group, EncodeGroup(b[..n]), rest, Encode(b[n..]));
      }
    }
  }

  lemma NothingPads()
    ensures PadsTo([], [])
  {
  }

  lemma PadsConcat(full: string, g: string, t: string, s: string)
    requires PadsTo(full, g) && |full| == |g| && PadsTo(t, s)
    ensures PadsTo(full + t, g + s)
  {
  }

  lemma GroupPads(chunk: Bytes) returns (t: string)
    requires 1 <= |chunk| <= 3
    ensures PadsTo(t, EncodeGroup(chunk)) && |t| == |chunk| + 1
  {
    forall v: Sextet ensures CharOf(v) != '=' { AlphabetInverse(v, '='); }
    hide CharOf;
    t := EncodeGroup(chunk)[..|chunk| + 1];
  }

  // ----- Exactly when the decoders agree -----

  /** The first character, in reading order, outside the alphabet, not counting padding in the last two places
      of a group; `at` is the place of the first character. */
  function FirstWrong(s: string, at: nat): Option<char> {
    if s == [] then None
    else if Val(s[0]).None? && !(s[0] == '=' && at % 4 >= 2) then Some(s[0])
    else FirstWrong(s[1..], at + 1)
  }

  lemma {:induction false} FirstWrongConcat(a: string, b: string, at: nat)
    ensures FirstWrong(a + b, at) == if FirstWrong(a, at).Some? then FirstWrong(a, at) else FirstWrong(b, at + |a|)
  {
    hide Val;
    if a == [] {
      assert a + b == b;
    } else {
      FirstWrongConcat(a[1..], b, at + 1);
      assert (a + b)[1..] == a[1..] + b;
    }
  }

  lemma {:induction false} FirstBadConcat(a: string, b: string)
    ensures FirstBad(a + b) == if FirstBad(a).Some? then FirstBad(a) else FirstBad(b)
  {
    hide Val;
    if a == [] {
      assert a + b == b;
    } else {
      FirstBadConcat(a[1..], b);
      assert (a + b)[1..] == a[1..] + b;
    }
  }

  lemma FirstWrongOfGroup(g: string, at: nat)
    requires |g| == 4 && at % 4 == 0
    ensures DecodeGroup(g).Err? <==> FirstWrong(g, at).Some?
    ensures DecodeGroup(g).Err? ==> DecodeGroup(g).error == BadCharacter(FirstWrong(g, at).value)
  {
    NotInAlphabet();
    hide Val, GroupBytes;
    assert g[1..][1..] == g[2..] && g[2..][1..] == g[3..] && g[3..][1..] == [];
    assert FirstWrong(g[3..], at + 3) == if Val(g[3]).None? && g[3] != '=' then Some(g[3]) else None;
    assert FirstWrong(g[2..], at + 2)
        == if Val(g[2]).None? && g[2] != '=' then Some(g[2]) else FirstWrong(g[3..], at + 3);
    assert FirstWrong(g[1..], at + 1) == if Val(g[1]).None? then Some(g[1]) else FirstWrong(g[2..], at + 2);
    assert FirstWrong(g, at) == if Val(g[0]).None? then Some(g[0]) else FirstWrong(g[1..], at + 1);
  }

  /** The group decoder fails exactly with the first wrong character. */
  lemma {:induction false} DecodeFailsAt(s: string, at: nat)
    requires |s| % 4 == 0 && at % 4 == 0
    ensures match FirstWrong(s, at) {
              case None => DecodeGroups(s).Ok?
              case Some(c) => DecodeGroups(s) == Err(BadCharacter(c))
            }
  {
    hide DecodeGroup;
    if s != [] {
      hide FirstWrong;
      assert s[..4] + s[4..] == s;
      FirstWrongConcat(s[..4], s[4..], at);
      FirstWrongOfGroup(s[..4], at);
      DecodeFailsAt(s[4..], at + 4);
    }
  }

  /** The strip-padding decoder fails exactly with the first character outside the alphabet. */
  lemma {:induction false} StrippedFailsAt(t: string)
    ensures match FirstBad(t) {
              case None => StrippedGroups(t).Ok?
              case Some(c) => StrippedGroups(t) == Err(BadCharacter(c))
            }
  {
    if t != [] {
      hide FirstBad;
      var n := Min(4, |t|);
      assert t[..n] + t[n..] == t;
      FirstBadConcat(t[..n], t[n..]);
      StrippedFailsAt(t[n..]);
    }
  }

  lemma {:induction false} StripSplits(s: string)
    ensures |Strip(s)| <= |s| && s[..|Strip(s)|] == Strip(s)
    ensures forall i :: |Strip(s)| <= i < |s| ==> s[i] == '='
  {
    if s != [] && s[|s| - 1] == '=' { StripSplits(s[..|s| - 1]); }
  }

  lemma {:induction false} AllInAlphabet(t: string)
    requires FirstBad(t).None?
    ensures forall i :: 0 <= i < |t| ==> Val(t[i]).Some?
  {
    hide Val;
    if t != [] {
      AllInAlphabet(t[1..]);
      assert forall i :: 0 < i < |t| ==> t[i] == t[1..][i - 1];
    }
  }

  /** A wrong character anywhere is found, or one before it. */
  lemma {:induction false} WrongIsFound(s: string, at: nat, i: nat)
    requires i < |s| && Val(s[i]).None? && (s[i] == '=' ==> (at + i) % 4 < 2)
    ensures FirstWrong(s, at).Some?
  {
    hide Val;
    if i > 0 { WrongIsFound(s[1..], at + 1, i - 1); }
  }

  /** More than two padding characters reach into the first two places of a group. */
  lemma LongPaddingIsWrong(t: string, s: string)
    requires t <= s && |s| % 4 == 0 && |s| > |t| + 2
    requires forall i :: |t| <= i < |s| ==> s[i] == '='
    ensures FirstWrong(s, 0).Some?
  {
    NotInAlphabet();
    WrongIsFound(s, 0, |s| - 3);
  }

  /** The two decoders agree, on results and errors, if and only if the length is a multiple of four and
      either nothing but at most two padding characters at the end is outside the alphabet, or the first
      character outside it before the final padding is also the first that is not padding in the last two
      places of a group. */
  lemma DecodersAgreeIff(s: string)
    ensures ConnectionSpec(s) == Decode(s) <==>
              && |s| % 4 == 0
              && if FirstBad(Strip(s)).None? then |s| <= |Strip(s)| + 2 else FirstWrong(s, 0) == FirstBad(Strip(s))
  {
    hide FirstBad, FirstWrong, StrippedGroups, DecodeGroups, Strip, Val;
    var t := Strip(s);
    StripSplits(s);
    StrippedFailsAt(t);
    if |s| % 4 == 0 {
      DecodeFailsAt(s, 0);
      if FirstBad(t).None? {
        AllInAlphabet(t);
        NotInAlphabet();
        if |s| <= |t| + 2 { DecodersAgree(t, s); } else { LongPaddingIsWrong(t, s); }
      }
    }
  }

  /** Both decoders invert the encoder. */
  lemma BothDecodersInvert(b: Bytes)
    ensures Decode(Encode(b)) == ConnectionSpec(Encode(b)) == Ok(b)
  {
    RoundTrip(b);
    var t := EncodingsArePadded(b);
    DecodersAgree(t, Encode(b));
  }
}
