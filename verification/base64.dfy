/** Base64 with and without padding, in both alphabets of RFC 4648 sections 4 and 5 (perfetto/src/base/base64.cc). */
module Base64 {

  import opened Options
  import opened Sequences

  type Byte = x: nat | x < 256

  const PADDING := '='

  /** The standard alphabet. */
  function EncodeChar(v: nat): char
    requires v < 64
  {
    if v < 26 then ('A' as int + v) as char
    else if v < 52 then ('a' as int + v - 26) as char
    else if v < 62 then ('0' as int + v - 52) as char
    else if v == 62 then '+' else '/'
  }

  /** Both alphabets, and 0 for the padding. */
  function DecodeChar(c: char): (r: Option<nat>)
    ensures r.Some? ==> r.value < 64
  {
    if 'A' <= c <= 'Z' then Some(c as int - 'A' as int)
    else if 'a' <= c <= 'z' then Some(c as int - 'a' as int + 26)
    else if '0' <= c <= '9' then Some(c as int - '0' as int + 52)
    else if c == '+' || c == '-' then Some(62)
    else if c == '/' || c == '_' then Some(63)
    else if c == PADDING then Some(0)
    else None
  }

  const UPPER := "ABCDEFGHIJKLMNOPQRSTUVWXYZ"
  const LOWER := "abcdefghijklmnopqrstuvwxyz"
  const DIGITS := "0123456789"
  const ALPHABET := UPPER + LOWER + DIGITS + "+/"

  predicate Listed(c: char) {
    c in ALPHABET || c in "-_="
  }

  /** The characters that have a value are those of the alphabet, the two of the second one, and the padding. */
  lemma KnownCharacters(c: char)
    ensures DecodeChar(c).Some? <==> Listed(c)
  {
    ListedCharacters(c);
    InParts(UPPER, LOWER, DIGITS, "+/", c);
    hide UPPER, LOWER, DIGITS;
  }

  lemma ListedCharacters(c: char)
    ensures (c in UPPER <==> 'A' <= c <= 'Z') && (c in LOWER <==> 'a' <= c <= 'z') && (c in DIGITS <==> '0' <= c <= '9')
  {
  }

  lemma InParts(s: string, t: string, u: string, v: string, c: char)
    ensures c in s + t + u + v <==> c in s || c in t || c in u || c in v
  {
  }

  /** The value of a character is its place in the alphabet. */
  lemma CharacterValues(v: nat)
    requires v < 64
    ensures |ALPHABET| == 64 && EncodeChar(v) == ALPHABET[v] && DecodeChar(ALPHABET[v]) == Some(v)
    ensures DecodeChar('-') == Some(62) && DecodeChar('_') == Some(63) && DecodeChar('=') == Some(0)
  {
    PlaceInParts(UPPER, LOWER, DIGITS, "+/", v);
    LetterAt(v);
    if 26 <= v < 52 { LetterAt(v - 26); }
    if 52 <= v < 62 { DigitAt(v - 52); }
    assert |UPPER| == 26 && |LOWER| == 26 && |DIGITS| == 10;
    hide UPPER, LOWER, DIGITS;
  }

  lemma LetterAt(v: nat)
    ensures v < 26 ==> UPPER[v] as int == 65 + v && LOWER[v] as int == 97 + v
  {
  }

  lemma DigitAt(v: nat)
    ensures v < 10 ==> DIGITS[v] as int == 48 + v
  {
  }

  lemma PlaceInParts(s: string, t: string, u: string, w: string, v: nat)
    requires v < |s| + |t| + |u| + |w|
    ensures (s + t + u + w)[v] ==
              if v < |s| then s[v] else if v < |s| + |t| then t[v - |s|]
              else if v < |s| + |t| + |u| then u[v - |s| - |t|] else w[v - |s| - |t| - |u|]
  {
  }

  /** Four characters are the digits, to the base of 64, of the number that three bytes are to the base of 256. */
  lemma QuadValue(x: Byte, y: Byte, z: Byte)
    ensures x / 4 < 64 && x % 4 * 16 + y / 16 < 64 && y % 16 * 4 + z / 64 < 64 && z % 64 < 64
    ensures (((x / 4) * 64 + (x % 4 * 16 + y / 16)) * 64 + (y % 16 * 4 + z / 64)) * 64 + z % 64 ==
            (x * 256 + y) * 256 + z
  {
  }

  lemma GroupValue(d0: nat, d1: nat, d2: nat, d3: nat)
    requires d0 < 64 && d1 < 64 && d2 < 64 && d3 < 64
    ensures var g := GroupBytes(d0, d1, d2, d3);
            |g| == 3 && (g[0] as int * 256 + g[1]) * 256 + g[2] == ((d0 * 64 + d1) * 64 + d2) * 64 + d3
  {
    BytesOfGroup(d0, d1, d2, d3);
    hide GroupBytes;
    assert (d0 * 4 + d1 / 16) % 256 == d0 * 4 + d1 / 16;
    ShiftedOut(d1);
    ShiftedOut(d2);
    var a, b := d1 / 16, d1 % 16;
    var c, e := d2 / 4, d2 % 4;
    assert (b * 16 + c) % 256 == b * 16 + c && (e * 64 + d3) % 256 == e * 64 + d3;
    assert d1 == a * 16 + b && d2 == c * 4 + e;
  }

  lemma ShiftedOut(d: nat)
    ensures d * 16 % 256 == d % 16 * 16 && d * 64 % 256 == d % 4 * 64
  {
    assert d * 16 == d / 16 * 256 + d % 16 * 16;
    assert d * 64 == d / 4 * 256 + d % 4 * 64;
  }

  function EncSize(n: nat): nat { (n + 2) / 3 * 4 }

  function DecSize(n: nat): nat { (n + 3) / 4 * 3 }

  // ----- What the loops compute. Shifted bits that are joined by `|` do not overlap, so they are added.

  function Encoded(b: seq<Byte>): string {
    if b == [] then ""
    else if |b| == 1 then [EncodeChar(b[0] / 4), EncodeChar(b[0] % 4 * 16), PADDING, PADDING]
    else if |b| == 2 then
      [EncodeChar(b[0] / 4), EncodeChar(b[0] % 4 * 16 + b[1] / 16), EncodeChar(b[1] % 16 * 4), PADDING]
    else Quad(b[0], b[1], b[2]) + Encoded(b[3..])
  }

  function Quad(x: Byte, y: Byte, z: Byte): string {
    [EncodeChar(x / 4), EncodeChar(x % 4 * 16 + y / 16), EncodeChar(y % 16 * 4 + z / 64), EncodeChar(z % 64)]
  }

  /** Character `j` of the first group; only the last two can be padding that was left out. */
  function GroupChar(s: string, j: nat): char {
    if j < |s| then s[j] else if j < 2 then '\0' else PADDING
  }

  function GroupBytes(d0: nat, d1: nat, d2: nat, d3: nat): seq<Byte>
    requires d0 < 64 && d1 < 64 && d2 < 64 && d3 < 64
  {
    [(d0 * 4 + d1 / 16) % 256, (d1 * 16 % 256 + d2 / 4) % 256, (d2 * 64 % 256 + d3) % 256]
  }

  function Group(s: string): Option<seq<Byte>> {
    var d0, d1, d2, d3 := DecodeChar(GroupChar(s, 0)), DecodeChar(GroupChar(s, 1)), DecodeChar(GroupChar(s, 2)),
      DecodeChar(GroupChar(s, 3));
    if d0.None? || d1.None? || d2.None? || d3.None? then None
    else Some(GroupBytes(d0.value, d1.value, d2.value, d3.value))
  }

  function Tail(s: string): string {
    if |s| <= 4 then "" else s[4..]
  }

  /** The bytes of all groups, three for each. */
  function Groups(s: string): Option<seq<Byte>>
    decreases |s|
  {
    if s == "" then Some([])
    else
      match Group(s)
      case None => None
      case Some(g) =>
        match Groups(Tail(s))
        case None => None
        case Some(r) => Some(g + r)
  }

  function LastGroup(s: string): string
    decreases |s|
  {
    if |s| <= 4 then s else LastGroup(Tail(s))
  }

  /** The bytes that the padding of the last group takes away. */
  function Cut(s: string): nat {
    if s == "" then 0
    else
      (if GroupChar(LastGroup(s), 3) == PADDING then 1 else 0) +
      (if GroupChar(LastGroup(s), 2) == PADDING then 1 else 0)
  }

  lemma {:induction false} GroupsLength(s: string)
    ensures Groups(s).Some? ==> |Groups(s).value| == DecSize(|s|) && Cut(s) <= |Groups(s).value|
    decreases |s|
  {
    if s != "" {
      GroupsLength(Tail(s));
      CutAndSize(s);
      hide GroupChar, LastGroup, DecSize, Group, Tail, Cut;
      assert Groups(s).Some? ==> |Group(s).value| == 3 by {
        assert Group(s).Some? ==> |Group(s).value| == 3 by { GroupOfThree(s); }
      }
    }
  }

  lemma GroupOfThree(s: string)
    ensures Group(s).Some? ==> |Group(s).value| == 3
  {
  }

  /** What the last group loses, and the size, from one group to the next. */
  lemma CutAndSize(s: string)
    requires s != ""
    ensures DecSize(|s|) == 3 + DecSize(|Tail(s)|)
    ensures Cut(s) <= 2 && (Tail(s) != "" ==> Cut(s) == Cut(Tail(s)))
  {
  }

  lemma {:induction false} LastGroupIs(s: string)
    requires s != ""
    ensures LastGroup(s) == s[(|s| - 1) / 4 * 4..]
    decreases |s|
  {
    if |s| > 4 {
      LastGroupIs(Tail(s));
      assert Tail(s)[(|s| - 5) / 4 * 4..] == s[(|s| - 1) / 4 * 4..];
    }
  }

  lemma CutIs(s: string)
    requires s != "" && |s| % 4 != 1
    ensures var n := |s|;
            Cut(s) ==
              if n % 4 == 0 then (if s[n - 1] == '=' then 1 else 0) + (if s[n - 2] == '=' then 1 else 0)
              else if n % 4 == 3 then 1 + (if s[n - 1] == '=' then 1 else 0)
              else 2
  {
    LastGroupIs(s);
    hide LastGroup;
    var n, last := |s|, s[(|s| - 1) / 4 * 4..];
    assert |last| == if n % 4 == 0 then 4 else n % 4;
    assert last[|last| - 1] == s[n - 1] && last[|last| - 2] == s[n - 2];
  }

  /** How many bytes a text that is accepted stands for: padding counts at its last two places, written or left out. */
  lemma DecodedLength(s: string)
    requires s != "" && Decoded(s).Some?
    ensures var n := |s|;
            |Decoded(s).value| ==
              (n + 3) / 4 * 3 -
              (if n % 4 == 0 then (if s[n - 1] == '=' then 1 else 0) + (if s[n - 2] == '=' then 1 else 0)
               else if n % 4 == 3 then 1 + (if s[n - 1] == '=' then 1 else 0)
               else 2)
  {
    AcceptedIff(s);
    GroupsLength(s);
    CutIs(s);
    hide Groups, Cut, AllKnown;
  }

  /** Some encodings. */
  lemma Vectors()
    ensures Encoded([1]) == "AQ==" && Encoded([255, 254]) == "//4=" && Encoded([77, 97, 110]) == "TWFu"
  {
    assert Encoded([77, 97, 110]) == Quad(77, 97, 110) + Encoded([77, 97, 110][3..]);
    assert [77, 97, 110][3..] == [];
  }

  function Decoded(s: string): Option<seq<Byte>> {
    match Groups(s)
    case None => None
    case Some(g) => GroupsLength(s); Some(g[..|g| - Cut(s)])
  }

  // ----- Round trip

  lemma CharRoundTrip(v: nat)
    requires v < 64
    ensures DecodeChar(EncodeChar(v)) == Some(v) && EncodeChar(v) != PADDING
  {
  }

  /** The URL-safe characters stand for the same values. */
  predicate Alike(c: char, d: char) {
    c == d || (c == '+' && d == '-') || (c == '/' && d == '_')
  }

  /** `t` is `s` in either alphabet, with all, some or none of its padding. */
  ghost predicate Variant(s: string, t: string) {
    |t| <= |s| && (forall i :: 0 <= i < |t| ==> Alike(s[i], t[i])) && forall i :: |t| <= i < |s| ==> s[i] == PADDING
  }

  lemma {:induction false} EncodedLength(b: seq<Byte>)
    ensures |Encoded(b)| == EncSize(|b|)
  {
    if |b| >= 3 {
      EncodedLength(b[3..]);
      assert Encoded(b) == Quad(b[0], b[1], b[2]) + Encoded(b[3..]) && |Quad(b[0], b[1], b[2])| == 4;
      hide Encoded, Quad;
      assert EncSize(|b|) == 4 + EncSize(|b| - 3);
    } else {
      assert EncSize(|b|) == if b == [] then 0 else 4;
    }
  }

  lemma AlikeDecodes(c: char, d: char)
    requires Alike(c, d)
    ensures DecodeChar(c) == DecodeChar(d) && (c == PADDING <==> d == PADDING)
  {
  }

  lemma Join(a: nat, b: nat, c: nat, e: nat, f: nat, g: nat)
    requires a < 64 && b < 4 && c < 16 && e < 16 && f < 4 && g < 64
    ensures GroupBytes(a, b * 16 + c, e * 4 + f, g) == [a * 4 + b, c * 16 + e, f * 64 + g]
  {
    assert (b * 16 + c) / 16 == b && (e * 4 + f) / 4 == e;
    assert (b * 16 + c) * 16 % 256 == c * 16;
    assert (e * 4 + f) * 64 % 256 == f * 64;
  }

  lemma QuadRoundTrip(x: Byte, y: Byte, z: Byte)
    ensures GroupBytes(x / 4, x % 4 * 16 + y / 16, y % 16 * 4 + z / 64, z % 64) == [x, y, z]
  {
    Join(x / 4, x % 4, y / 16, y % 16, z / 64, z % 64);
  }

  /** The characters of a variant's group decode like those of the encoding. */
  lemma VariantGroup(s: string, t: string, j: nat)
    requires Variant(s, t) && 2 <= |t| && j < 4 && |s| >= 4
    ensures Alike(s[j], GroupChar(t, j)) && DecodeChar(GroupChar(t, j)) == DecodeChar(s[j])
    ensures GroupChar(t, j) == PADDING <==> s[j] == PADDING
  {
    if j < |t| { AlikeDecodes(s[j], t[j]); }
  }

  /** A group of a variant decodes to the three bytes behind its four characters. */
  lemma GroupRoundTrip(s: string, t: string, x: Byte, y: Byte, z: Byte)
    requires Variant(s, t) && 2 <= |t| && |s| >= 4
    requires DecodeChar(s[0]) == Some(x / 4) && DecodeChar(s[1]) == Some(x % 4 * 16 + y / 16)
    requires DecodeChar(s[2]) == Some(y % 16 * 4 + z / 64) && DecodeChar(s[3]) == Some(z % 64)
    ensures Group(t) == Some([x, y, z])
  {
    VariantGroup(s, t, 0);
    VariantGroup(s, t, 1);
    VariantGroup(s, t, 2);
    VariantGroup(s, t, 3);
    QuadRoundTrip(x, y, z);
    hide DecodeChar, GroupChar, GroupBytes;
  }

  lemma CharsRoundTrip(x: Byte, y: Byte, z: Byte)
    ensures DecodeChar(EncodeChar(x / 4)) == Some(x / 4) && EncodeChar(x / 4) != PADDING
    ensures DecodeChar(EncodeChar(x % 4 * 16 + y / 16)) == Some(x % 4 * 16 + y / 16) &&
            EncodeChar(x % 4 * 16 + y / 16) != PADDING
    ensures DecodeChar(EncodeChar(y % 16 * 4 + z / 64)) == Some(y % 16 * 4 + z / 64) &&
            EncodeChar(y % 16 * 4 + z / 64) != PADDING
    ensures DecodeChar(EncodeChar(z % 64)) == Some(z % 64) && EncodeChar(z % 64) != PADDING
  {
    CharRoundTrip(x / 4);
    CharRoundTrip(x % 4 * 16 + y / 16);
    CharRoundTrip(y % 16 * 4 + z / 64);
    CharRoundTrip(z % 64);
  }

  /** The bytes and the padding of one more group in front. */
  lemma DecodedStep(t: string, g: seq<Byte>, b: seq<Byte>)
    requires |t| > 4 && Group(t) == Some(g) && Decoded(t[4..]) == Some(b)
    ensures Decoded(t) == Some(g + b)
  {
    GroupsLength(t[4..]);
    var r := Groups(t[4..]).value;
    assert Groups(t) == Some(g + r) && Cut(t) == Cut(t[4..]);
    assert (g + r)[..|g + r| - Cut(t)] == g + r[..|r| - Cut(t)];
  }

  lemma DecodedOne(t: string, g: seq<Byte>)
    requires 0 < |t| <= 4 && Group(t) == Some(g)
    ensures |g| == 3 && Cut(t) <= 2 && Decoded(t) == Some(g[..3 - Cut(t)])
    ensures Cut(t) == (if GroupChar(t, 3) == PADDING then 1 else 0) + (if GroupChar(t, 2) == PADDING then 1 else 0)
  {
    assert Groups("") == Some([]);
    assert Groups(t) == Some(g) by { assert g + [] == g; }
    assert |g| == 3;
    hide Group, Groups, GroupChar;
  }

  /** Every encoding decodes to its bytes, also in the URL-safe alphabet and without padding. */
  lemma {:induction false} RoundTrip(b: seq<Byte>, t: string)
    requires Variant(Encoded(b), t)
    ensures Decoded(t) == Some(b)
    decreases |b|
  {
    hide *;
    if b == [] {
      NothingLeft(t);
    } else {
      var x, y, z := b[0], if |b| > 1 then b[1] else 0, if |b| > 2 then b[2] else 0;
      GroupOf(b, t, x, y, z);
      if |b| <= 3 {
        OnlyGroup(b, t, x, y, z);
      } else {
        QuadInFront(b, t);
        RoundTrip(b[3..], t[4..]);
        DecodedStep(t, [x, y, z], b[3..]);
        assert b == [x, y, z] + b[3..];
      }
    }
  }

  lemma NothingLeft(t: string)
    requires Variant(Encoded([]), t)
    ensures Decoded(t) == Some([])
  {
    assert Encoded([]) == "" && Decoded("") == Some([]);
  }

  lemma PaddingIsZero()
    ensures DecodeChar(PADDING) == Some(0)
  {
  }

  /** The first four characters of an encoding; missing bytes count as 0. */
  lemma FirstFour(b: seq<Byte>, x: Byte, y: Byte, z: Byte)
    requires b != [] && x == b[0] && y == (if |b| > 1 then b[1] else 0) && z == (if |b| > 2 then b[2] else 0)
    ensures var s := Encoded(b);
            && |s| >= 4 && s[0] == EncodeChar(x / 4) && s[1] == EncodeChar(x % 4 * 16 + y / 16)
            && s[2] == (if |b| > 1 then EncodeChar(y % 16 * 4 + z / 64) else PADDING)
            && s[3] == (if |b| > 2 then EncodeChar(z % 64) else PADDING)
            && (|b| >= 3 ==> s == s[..4] + Encoded(b[3..]))
  {
    hide EncodeChar;
    assert 0 / 16 == 0 && 0 / 64 == 0;
    if |b| >= 3 {
      assert Encoded(b) == Quad(x, y, z) + Encoded(b[3..]);
      assert Quad(x, y, z) == (Quad(x, y, z) + Encoded(b[3..]))[..4];
    }
  }

  lemma QuadInFront(b: seq<Byte>, t: string)
    requires |b| > 3 && Variant(Encoded(b), t)
    ensures |t| > 4 && Variant(Encoded(b[3..]), t[4..])
  {
    hide *;
    var s, r := Encoded(b), Encoded(b[3..]);
    var c := b[3..];
    FirstFour(b, b[0], b[1], b[2]);
    FirstFour(c, c[0], if |c| > 1 then c[1] else 0, if |c| > 2 then c[2] else 0);
    CharsRoundTrip(c[0], 0, 0);
    Shifted(s, r);
    InFront(s, r, t);
  }

  lemma Shifted(s: string, r: string)
    requires |s| >= 4 && s == s[..4] + r
    ensures |s| == |r| + 4 && forall i :: 0 <= i < |r| ==> r[i] == s[i + 4]
  {
  }

  lemma InFront(s: string, r: string, t: string)
    requires Variant(s, t) && |s| == |r| + 4 && |r| > 0 && s[4] != PADDING
    requires forall i :: 0 <= i < |r| ==> r[i] == s[i + 4]
    ensures |t| > 4 && Variant(r, t[4..])
  {
    hide Alike;
    forall i | 0 <= i < |t| - 4 ensures Alike(r[i], t[4..][i]) { assert Alike(s[i + 4], t[i + 4]); }
  }

  lemma GroupOf(b: seq<Byte>, t: string, x: Byte, y: Byte, z: Byte)
    requires b != [] && Variant(Encoded(b), t)
    requires x == b[0] && y == (if |b| > 1 then b[1] else 0) && z == (if |b| > 2 then b[2] else 0)
    ensures |t| >= 2 && Group(t) == Some([x, y, z])
  {
    hide *;
    var s := Encoded(b);
    CharsRoundTrip(x, y, z);
    FirstFour(b, x, y, z);
    PaddingIsZero();
    ZeroBits(y, z);
    LongEnough(s, t);
    GroupRoundTrip(s, t, x, y, z);
  }

  lemma ZeroBits(y: Byte, z: Byte)
    ensures y == 0 && z == 0 ==> y % 16 * 4 + z / 64 == 0
    ensures z == 0 ==> z % 64 == 0
  {
  }

  lemma LongEnough(s: string, t: string)
    requires Variant(s, t)
    ensures |t| <= |s|
    ensures |s| >= 2 && s[0] != PADDING && s[1] != PADDING ==> |t| >= 2
  {
  }

  lemma OnlyGroup(b: seq<Byte>, t: string, x: Byte, y: Byte, z: Byte)
    requires 0 < |b| <= 3 && Variant(Encoded(b), t) && 2 <= |t| && Group(t) == Some([x, y, z])
    requires x == b[0] && y == (if |b| > 1 then b[1] else 0) && z == (if |b| > 2 then b[2] else 0)
    ensures Decoded(t) == Some(b)
  {
    hide *;
    var s := Encoded(b);
    CharsRoundTrip(x, y, z);
    FirstFour(b, x, y, z);
    EncodedLength(b);
    assert |s| == 4 by { OneGroup(|b|); }
    LongEnough(s, t);
    VariantGroup(s, t, 2);
    VariantGroup(s, t, 3);
    DecodedOne(t, [x, y, z]);
    assert [x, y, z][..|b|] == b;
  }

  lemma OneGroup(n: nat)
    requires 0 < n <= 3
    ensures EncSize(n) == 4
  {
  }

  predicate Known(s: string, i: nat) {
    i < |s| ==> Listed(s[i])
  }

  lemma GroupAccepted(s: string)
    requires s != ""
    ensures Group(s).Some? <==> |s| != 1 && Known(s, 0) && Known(s, 1) && Known(s, 2) && Known(s, 3)
  {
    PaddingIsZero();
    assert DecodeChar('\0').None?;
    forall j | 0 <= j < |s| { KnownCharacters(s[j]); }
    hide DecodeChar, Listed;
  }

  ghost predicate AllKnown(s: string) {
    forall i :: 0 <= i < |s| ==> Known(s, i)
  }

  /** A text is accepted exactly if its length is not 1 modulo 4 and all its characters are known. */
  lemma {:induction false} AcceptedIff(s: string)
    ensures Decoded(s).Some? <==> |s| % 4 != 1 && AllKnown(s)
    decreases |s|
  {
    hide *;
    if s == "" {
      NothingAccepted();
    } else {
      TailShorter(s);
      GroupAccepted(s);
      AcceptedFrom(s);
      AcceptedIff(Tail(s));
      KnownFrom(s);
    }
  }

  lemma NothingAccepted()
    ensures Decoded("").Some? && AllKnown("")
  {
    hide Known;
  }

  lemma TailShorter(s: string)
    ensures |Tail(s)| == if |s| <= 4 then 0 else |s| - 4
  {
  }

  lemma AcceptedFrom(s: string)
    requires s != ""
    ensures Decoded(s).Some? <==> Group(s).Some? && Decoded(Tail(s)).Some?
  {
    hide Group, DecodeChar, Tail, Cut;
  }

  /** All characters are known if those of the first group are, and those behind it. */
  lemma KnownFrom(s: string)
    ensures AllKnown(s) <==> Known(s, 0) && Known(s, 1) && Known(s, 2) && Known(s, 3) && AllKnown(Tail(s))
  {
    hide Listed;
    TailShorter(s);
    forall i | 4 <= i < |s| ensures Known(s, i) <==> Known(Tail(s), i - 4) { KnownTail(s, i); }
    forall i | 0 <= i < |Tail(s)| ensures Known(Tail(s), i) <==> Known(s, i + 4) { KnownTail(s, i + 4); }
    assert forall i :: i >= |s| ==> Known(s, i);
    hide Known, Tail;
  }

  lemma KnownTail(s: string, i: nat)
    requires 4 <= i < |s|
    ensures Known(s, i) <==> Known(Tail(s), i - 4)
  {
  }

  // ----- The loops

  lemma SizeStep(n: nat)
    requires n > 0
    ensures EncSize(n) == 4 + EncSize(n - Min(3, n))
  {
  }

  lemma EncodedSplit(b: seq<Byte>)
    requires b != []
    ensures |Encoded(b)| >= 4 && Encoded(b) == Encoded(b)[..4] + Encoded(b[Min(3, |b|)..])
    ensures EncSize(|b|) == 4 + EncSize(|b| - Min(3, |b|))
  {
    SizeStep(|b|);
    MinIs(3, |b|);
    hide EncSize, Min, EncodeChar;
    FirstFour(b, b[0], if |b| > 1 then b[1] else 0, if |b| > 2 then b[2] else 0);
    if |b| < 3 {
      assert b[|b|..] == [] && Encoded([]) == "" && |Encoded(b)| == 4;
    }
  }

  /** One group of the encoding loop. */
  method EncodeGroup(src: seq<Byte>, rd0: nat, dst: array<char>, wr: nat) returns (rd: nat)
    requires rd0 < |src| && wr + 4 <= dst.Length
    modifies dst
    ensures rd == rd0 + Min(3, |src| - rd0)
    ensures |Encoded(src[rd0..])| >= 4 && dst[wr..wr + 4] == Encoded(src[rd0..])[..4]
    ensures forall k :: 0 <= k < dst.Length && !(wr <= k < wr + 4) ==> dst[k] == old(dst[k])
  {
    hide *;
    ghost var rest := src[rd0..];
    FirstFour(rest, rest[0], if |rest| > 1 then rest[1] else 0, if |rest| > 2 then rest[2] else 0);
    rd := rd0;
    var s0, s1, s2 := src[rd], 0, 0;
    Bits(s0, s1, s2);
    rd := rd + 1;
    dst[wr] := EncodeChar(s0 / 4);
    var carry0 := s0 % 4 * 16;
    if rd < |src| {
      s1 := src[rd];
      Bits(s0, s1, s2);
      rd := rd + 1;
      dst[wr + 1] := EncodeChar(carry0 + s1 / 16);
    } else {
      dst[wr + 1] := EncodeChar(carry0);
      dst[wr + 2] := PADDING;
      dst[wr + 3] := PADDING;
      MinIs(3, |src| - rd0);
      return;
    }
    var carry1 := s1 % 16 * 4;
    if rd < |src| {
      s2 := src[rd];
      Bits(s0, s1, s2);
      rd := rd + 1;
      dst[wr + 2] := EncodeChar(carry1 + s2 / 64);
    } else {
      dst[wr + 2] := EncodeChar(carry1);
      dst[wr + 3] := PADDING;
      MinIs(3, |src| - rd0);
      return;
    }
    dst[wr + 3] := EncodeChar(s2 % 64);
    MinIs(3, |src| - rd0);
  }

  lemma MinIs(a: nat, b: nat)
    ensures Min(a, b) == if a < b then a else b
  {
  }

  lemma Bits(x: Byte, y: Byte, z: Byte)
    ensures x / 4 < 64 && x % 4 * 16 < 64 && x % 4 * 16 + y / 16 < 64 && y % 16 * 4 < 64 && y % 16 * 4 + z / 64 < 64 &&
            z % 64 < 64
    ensures y == 0 ==> y / 16 == 0
    ensures z == 0 ==> z / 64 == 0
  {
  }

  method Base64Encode(src: seq<Byte>, dst: array<char>, dstSize: nat) returns (n: int)
    requires dstSize <= dst.Length
    modifies dst
    ensures n == if dstSize < EncSize(|src|) then -1 else EncSize(|src|)
    ensures n == -1 ==> dst[..] == old(dst[..])
    ensures n >= 0 ==> n <= dstSize && dst[..n] == Encoded(src)
    ensures n >= 0 ==> forall k :: n <= k < dst.Length ==> dst[k] == old(dst[k])
  {
    hide *;
    var size := EncSize(|src|);
    if dstSize < size { return -1; }
    EncodedLength(src);
    NothingEncoded();
    var rd, wr := 0, 0;
    assert src[0..] == src && dst[..wr] + Encoded(src) == Encoded(src);
    while rd < |src|
      invariant rd <= |src| && wr + EncSize(|src| - rd) == size
      invariant dst[..wr] + Encoded(src[rd..]) == Encoded(src)
      invariant forall k :: size <= k < dst.Length ==> dst[k] == old(dst[k])
      decreases |src| - rd
    {
      ghost var done, rest := dst[..wr], src[rd..];
      EncodedSplit(rest);
      ghost var rd0 := rd;
      rd := EncodeGroup(src, rd, dst, wr);
      MinIs(3, |src| - rd0);
      assert rest[rd - rd0..] == src[rd..];
      GroupWritten(dst[..], done, wr, Encoded(rest), Encoded(src[rd..]));
      wr := wr + 4;
    }
    assert src[rd..] == [];
    return size;
  }

  lemma GroupWritten(d: string, done: string, wr: nat, e: string, r: string)
    requires wr + 4 <= |d| && d[..wr] == done && |e| >= 4 && d[wr..wr + 4] == e[..4] && e == e[..4] + r
    ensures d[..wr + 4] + r == done + e
  {
    assert d[..wr + 4] == done + d[wr..wr + 4];
    Assoc(done, e[..4], r);
  }

  lemma NothingEncoded()
    ensures Encoded([]) == "" && EncSize(0) == 0
  {
  }

  /** Reads one group of characters, up to the first unknown one. */
  method ReadGroup(src: string, rd: nat) returns (s: string, d: seq<nat>)
    requires rd < |src|
    ensures |d| <= 4 && (|d| == 4 <==> Group(src[rd..]).Some?) && forall j :: 0 <= j < |d| ==> d[j] < 64
    ensures |d| == 4 ==> Group(src[rd..]) == Some(GroupBytes(d[0], d[1], d[2], d[3])) && |s| == 4
    ensures |d| == 4 ==> s[2] == GroupChar(src[rd..], 2) && s[3] == GroupChar(src[rd..], 3)
  {
    s, d := "", [];
    ghost var rest := src[rd..];
    while |d| < 4
      invariant |s| == |d| <= 4
      invariant forall j :: 0 <= j < |d| ==> s[j] == GroupChar(rest, j) && DecodeChar(s[j]) == Some(d[j]) && d[j] < 64
      decreases 4 - |d|
    {
      var j := |d|;
      var c := if rd + j < |src| then src[rd + j] else if j < 2 then '\0' else PADDING;
      assert c == GroupChar(rest, j);
      hide DecodeChar, GroupChar;
      var v := DecodeChar(c);
      if v.None? { return; }
      s := s + [c];
      d := d + [v.value];
    }
    assert DecodeChar(s[0]) == Some(d[0]) && DecodeChar(s[1]) == Some(d[1]) && DecodeChar(s[2]) == Some(d[2]) &&
      DecodeChar(s[3]) == Some(d[3]);
  }

  /** What is decoded so far, and the padding characters read last. */
  ghost predicate Progress(src: string, rest: string, done: seq<Byte>, s: string) {
    && (match Groups(rest)
        case None => Groups(src).None?
        case Some(r) => Groups(src) == Some(done + r))
    && |done| + DecSize(|rest|) == DecSize(|src|)
    && (if rest != "" || src == "" then Cut(src) == Cut(rest)
        else |s| == 4 && Cut(src) == (if s[3] == PADDING then 1 else 0) + (if s[2] == PADDING then 1 else 0))
  }

  lemma CutStep(rest: string)
    requires rest != ""
    ensures Tail(rest) != "" ==> Cut(rest) == Cut(Tail(rest))
    ensures Tail(rest) == "" ==>
              Cut(rest) ==
                (if GroupChar(rest, 3) == PADDING then 1 else 0) + (if GroupChar(rest, 2) == PADDING then 1 else 0)
    ensures DecSize(|rest|) == 3 + DecSize(|Tail(rest)|)
  {
  }

  lemma NextGroup(src: string, rest: string, done: seq<Byte>, s0: string, s: string, g: seq<Byte>)
    requires Progress(src, rest, done, s0) && rest != "" && Group(rest) == Some(g) && |g| == 3 && |s| == 4
    requires s[2] == GroupChar(rest, 2) && s[3] == GroupChar(rest, 3)
    ensures Progress(src, Tail(rest), done + g, s)
  {
    CutStep(rest);
    hide Group, GroupChar, Cut, Tail, DecSize;
    if Groups(Tail(rest)).Some? { Assoc(done, g, Groups(Tail(rest)).value); }
  }

  /** One group of the decoding loop. */
  method DecodeGroup(src: string, rd: nat, dst: array<Byte>, wr: nat) returns (ok: bool, s: string)
    requires rd < |src| && wr + 3 <= dst.Length
    modifies dst
    ensures ok <==> Group(src[rd..]).Some?
    ensures ok ==> |s| == 4 && s[2] == GroupChar(src[rd..], 2) && s[3] == GroupChar(src[rd..], 3)
    ensures ok ==> Group(src[rd..]) == Some(dst[wr..wr + 3])
    ensures forall k :: 0 <= k < dst.Length && !(wr <= k < wr + 3) ==> dst[k] == old(dst[k])
  {
    hide *;
    var d;
    s, d := ReadGroup(src, rd);
    ok := |d| == 4;
    if ok {
      BytesOfGroup(d[0], d[1], d[2], d[3]);
      dst[wr], dst[wr + 1], dst[wr + 2] := (d[0] * 4 + d[1] / 16) % 256, (d[1] * 16 % 256 + d[2] / 4) % 256,
        (d[2] * 64 % 256 + d[3]) % 256;
      assert dst[wr..wr + 3] == [dst[wr], dst[wr + 1], dst[wr + 2]];
    }
  }

  /** Returns -1 for a short buffer or a text that is not Base64, and else the number of bytes decoded. */
  method Base64Decode(src: string, dst: array<Byte>, dstSize: nat) returns (n: int)
    requires dstSize <= dst.Length
    modifies dst
    ensures n == -1 <==> dstSize < DecSize(|src|) || Decoded(src).None?
    ensures n != -1 ==> 0 <= n <= dst.Length && Decoded(src) == Some(dst[..n])
    ensures forall k :: DecSize(|src|) <= k < dst.Length ==> dst[k] == old(dst[k])
  {
    if dstSize < DecSize(|src|) { return -1; }
    var rd, wr := 0, 0;
    var s := ['\0', '\0', '\0', '\0'];
    assert src[0..] == src && dst[..wr] == [] && s[2] != PADDING && s[3] != PADDING;
    StartProgress(src, s);
    hide *;
    while rd < |src|
      invariant |s| == 4 && (rd == 0 ==> s[2] != PADDING && s[3] != PADDING)
      invariant rd <= |src| && wr <= dst.Length && Progress(src, src[rd..], dst[..wr], s)
      invariant forall k :: DecSize(|src|) <= k < dst.Length ==> dst[k] == old(dst[k])
      decreases |src| - rd
    {
      ghost var rest, done, s0 := src[rd..], dst[..wr], s;
      Room(src, rest, done, s0);
      var ok, c := DecodeGroup(src, rd, dst, wr);
      if !ok {
        BadGroup(src, rest, done, s0);
        return -1;
      }
      s := c;
      assert dst[..wr] == done && dst[..][wr..wr + 3] == dst[wr..wr + 3];
      NextStep(src, rd, s0, s, dst[..], wr);
      wr := wr + 3;
      rd := if rd + 4 < |src| then rd + 4 else |src|;
    }
    assert src[rd..] == "";
    var cut := (if s[3] == PADDING then 1 else 0) + (if s[2] == PADDING then 1 else 0);
    AllDecoded(src, dst[..], wr, s, cut);
    return wr - cut;
  }

  lemma NextStep(src: string, rd: nat, s0: string, s: string, d: seq<Byte>, wr: nat)
    requires rd < |src| && wr + 3 <= |d| && Progress(src, src[rd..], d[..wr], s0) &&
             Group(src[rd..]) == Some(d[wr..wr + 3])
    requires |s| == 4 && s[2] == GroupChar(src[rd..], 2) && s[3] == GroupChar(src[rd..], 3)
    ensures Progress(src, src[if rd + 4 < |src| then rd + 4 else |src|..], d[..wr + 3], s)
  {
    hide *;
    var rest, g := src[rd..], d[wr..wr + 3];
    NextGroup(src, rest, d[..wr], s0, s, g);
    TailIs(rest);
    assert Tail(rest) == src[if rd + 4 < |src| then rd + 4 else |src|..];
    assert d[..wr + 3] == d[..wr] + g;
  }

  lemma StartProgress(src: string, s: string)
    ensures Progress(src, src, [], s)
  {
    if Groups(src).Some? { assert [] + Groups(src).value == Groups(src).value; }
  }

  lemma BadGroup(src: string, rest: string, done: seq<Byte>, s: string)
    requires Progress(src, rest, done, s) && rest != "" && Group(rest).None?
    ensures Decoded(src).None?
  {
  }

  lemma Room(src: string, rest: string, done: seq<Byte>, s: string)
    requires Progress(src, rest, done, s) && rest != ""
    ensures |done| + 3 <= DecSize(|src|)
  {
  }

  lemma BytesOfGroup(d0: nat, d1: nat, d2: nat, d3: nat)
    requires d0 < 64 && d1 < 64 && d2 < 64 && d3 < 64
    ensures GroupBytes(d0, d1, d2, d3) ==
            [(d0 * 4 + d1 / 16) % 256, (d1 * 16 % 256 + d2 / 4) % 256, (d2 * 64 % 256 + d3) % 256]
  {
  }

  lemma TailIs(s: string)
    ensures Tail(s) == if |s| <= 4 then "" else s[4..]
  {
  }

  lemma AllDecoded(src: string, d: seq<Byte>, wr: nat, s: string, cut: nat)
    requires wr <= |d| && Progress(src, "", d[..wr], s) && |s| == 4 &&
             (src == "" ==> s[2] != PADDING && s[3] != PADDING)
    requires cut == (if s[3] == PADDING then 1 else 0) + (if s[2] == PADDING then 1 else 0)
    ensures cut <= wr && Decoded(src) == Some(d[..wr - cut])
  {
    var done := d[..wr];
    assert done + [] == done;
    GroupsLength(src);
    assert d[..wr - cut] == done[..|done| - cut];
  }
}
