/** The compact text form of note identifiers
    (src/usagebassoon/storage_model.py, `note_id_for_session`, `normalize_note_id`). */
module NoteId {
  import opened Wrappers

  type Bits = seq<bool>

  /** The 16 bytes of a UUID, most significant bit first. */
  type Uuid = u: Bits | |u| == 128 witness seq(128, _ => false)

  /** Bits 48 to 51, defined only for the variant 10 in bits 64 and 65 (sections
      4.1 and 4.2 of RFC 9562). */
  function Version(u: Uuid): Option<nat> {
    if u[64] && !u[65]
    then Some(Digit(u[48]) * 8 + Digit(u[49]) * 4 + Digit(u[50]) * 2 + Digit(u[51]))
    else None
  }

  type Sextet = c: nat | c < 64

  function Digit(b: bool): nat {
    if b then 1 else 0
  }

  // ----- the URL-safe alphabet (section 5 of RFC 4648) -----

  function Letter(c: Sextet): char {
    if c < 26 then 'A' + c as char
    else if c < 52 then 'a' + (c - 26) as char
    else if c < 62 then '0' + (c - 52) as char
    else if c == 62 then '-' else '_'
  }

  function Index(x: char): Option<Sextet> {
    if 'A' <= x <= 'Z' then Some((x - 'A') as nat)
    else if 'a' <= x <= 'z' then Some((x - 'a') as nat + 26)
    else if '0' <= x <= '9' then Some((x - '0') as nat + 52)
    else if x == '-' then Some(62)
    else if x == '_' then Some(63)
    else None
  }

  lemma LettersRoundTrip(c: Sextet, x: char)
    ensures Index(Letter(c)) == Some(c)
    ensures Index(x).Some? ==> Letter(Index(x).value) == x
  {
  }

  // ----- six bits to a letter -----

  function Value(b: Bits): Sextet
    requires |b| == 6
  {
    Digit(b[0]) * 32 + Digit(b[1]) * 16 + Digit(b[2]) * 8 + Digit(b[3]) * 4 + Digit(b[4]) * 2 + Digit(b[5])
  }

  function Rest(c: nat, unit: nat): nat {
    if c >= unit then c - unit else c
  }

  function BitsOf(c: Sextet): (b: Bits)
    ensures |b| == 6
  {
    var r5 := Rest(c, 32);
    var r4 := Rest(r5, 16);
    var r3 := Rest(r4, 8);
    var r2 := Rest(r3, 4);
    [c >= 32, r5 >= 16, r4 >= 8, r3 >= 4, r2 >= 2, Rest(r2, 2) >= 1]
  }

  lemma SextetBits(c: Sextet)
    ensures Value(BitsOf(c)) == c
  {
  }

  lemma BitsSextet(b: Bits)
    requires |b| == 6
    ensures BitsOf(Value(b)) == b
  {
    var c := BitsOf(Value(b));
    assert c[0] == b[0] && c[1] == b[1] && c[2] == b[2] && c[3] == b[3] && c[4] == b[4] && c[5] == b[5];
  }

  /** Six bits at a time, each group encoded. */
  function Pack(bits: Bits, encode: Bits -> Sextet): (s: seq<Sextet>)
    requires |bits| % 6 == 0
    ensures |s| == |bits| / 6
  {
    if bits == [] then [] else Pack(bits[..|bits| - 6], encode) + [encode(bits[|bits| - 6..])]
  }

  function Unpack(s: seq<Sextet>, decode: Sextet -> Bits): Bits {
    if s == [] then [] else Unpack(s[..|s| - 1], decode) + decode(s[|s| - 1])
  }

  ghost predicate Inverses(encode: Bits -> Sextet, decode: Sextet -> Bits) {
    && (forall b: Bits | |b| == 6 :: decode(encode(b)) == b)
    && (forall c: Sextet :: |decode(c)| == 6 && encode(decode(c)) == c)
  }

  lemma UnpackLast(init: seq<Sextet>, last: Sextet, decode: Sextet -> Bits)
    ensures Unpack(init + [last], decode) == Unpack(init, decode) + decode(last)
  {
    assert (init + [last])[..|init|] == init;
  }

  lemma PackLast(init: Bits, last: Bits, encode: Bits -> Sextet)
    requires |init| % 6 == 0 && |last| == 6
    ensures Pack(init + last, encode) == Pack(init, encode) + [encode(last)]
  {
    var bits := init + last;
    assert bits[..|bits| - 6] == init && bits[|bits| - 6..] == last;
  }

  lemma {:induction false} UnpackedLength(s: seq<Sextet>, encode: Bits -> Sextet, decode: Sextet -> Bits)
    requires Inverses(encode, decode)
    ensures |Unpack(s, decode)| == 6 * |s|
  {
    if s != [] {
      UnpackedLength(s[..|s| - 1], encode, decode);
    }
  }

  lemma PackedLast(init: Bits, last: Bits, encode: Bits -> Sextet, decode: Sextet -> Bits)
    requires |init| % 6 == 0 && |last| == 6
    ensures Unpack(Pack(init + last, encode), decode) == Unpack(Pack(init, encode), decode) + decode(encode(last))
  {
    PackLast(init, last, encode);
    UnpackLast(Pack(init, encode), encode(last), decode);
  }

  lemma {:induction false} PackedUnpacks(bits: Bits, encode: Bits -> Sextet, decode: Sextet -> Bits)
    requires |bits| % 6 == 0 && Inverses(encode, decode)
    ensures Unpack(Pack(bits, encode), decode) == bits
  {
    if bits != [] {
      var init, last := bits[..|bits| - 6], bits[|bits| - 6..];
      PackedUnpacks(init, encode, decode);
      PackedLast(init, last, encode, decode);
      assert bits == init + last;
    }
  }

  lemma {:induction false} UnpackedPacks(s: seq<Sextet>, encode: Bits -> Sextet, decode: Sextet -> Bits)
    requires Inverses(encode, decode) && |Unpack(s, decode)| == 6 * |s|
    ensures Pack(Unpack(s, decode), encode) == s
  {
    if s != [] {
      var init, last := s[..|s| - 1], s[|s| - 1];
      UnpackedLength(init, encode, decode);
      UnpackedPacks(init, encode, decode);
      PackLast(Unpack(init, decode), decode(last), encode);
      assert s == init + [last];
    }
  }

  const ENCODE: Bits -> Sextet := (b: Bits) => if |b| == 6 then Value(b) else 0
  const DECODE: Sextet -> Bits := (c: Sextet) => BitsOf(c)

  lemma SextetsInvert()
    ensures Inverses(ENCODE, DECODE)
  {
    forall b: Bits | |b| == 6 ensures DECODE(ENCODE(b)) == b {
      BitsSextet(b);
    }
    forall c: Sextet ensures |DECODE(c)| == 6 && ENCODE(DECODE(c)) == c {
      SextetBits(c);
    }
  }

  function Letters(s: seq<Sextet>): (text: string)
    ensures |text| == |s|
  {
    seq(|s|, i requires 0 <= i < |s| => Letter(s[i]))
  }

  predicate Spelled(text: string) {
    forall i | 0 <= i < |text| :: Index(text[i]).Some?
  }

  function Indices(text: string): (s: seq<Sextet>)
    requires Spelled(text)
    ensures |s| == |text|
  {
    seq(|text|, i requires 0 <= i < |text| => Index(text[i]).value)
  }

  lemma IndicesInvertLetters(s: seq<Sextet>)
    ensures Spelled(Letters(s)) && Indices(Letters(s)) == s
  {
    forall i | 0 <= i < |s| ensures Index(Letters(s)[i]) == Some(s[i]) {
      LettersRoundTrip(s[i], ' ');
    }
  }

  lemma LettersInvertIndices(text: string)
    requires Spelled(text)
    ensures Letters(Indices(text)) == text
  {
    forall i | 0 <= i < |text| ensures Letter(Indices(text)[i]) == text[i] {
      LettersRoundTrip(0, text[i]);
    }
  }

  function Spell(bits: Bits): (text: string)
    requires |bits| % 6 == 0
    ensures |text| == |bits| / 6
  {
    Letters(Pack(bits, ENCODE))
  }

  function Read(text: string): (bits: Bits)
    requires Spelled(text)
    ensures |bits| == |text| * 6
  {
    SextetsInvert();
    UnpackedLength(Indices(text), ENCODE, DECODE);
    Unpack(Indices(text), DECODE)
  }

  lemma ReadInvertsSpell(bits: Bits)
    requires |bits| % 6 == 0
    ensures Spelled(Spell(bits)) && Read(Spell(bits)) == bits
  {
    IndicesInvertLetters(Pack(bits, ENCODE));
    SextetsInvert();
    PackedUnpacks(bits, ENCODE, DECODE);
  }

  lemma SpellInvertsRead(text: string)
    requires Spelled(text)
    ensures Spell(Read(text)) == text
  {
    SextetsInvert();
    UnpackedLength(Indices(text), ENCODE, DECODE);
    UnpackedPacks(Indices(text), ENCODE, DECODE);
    LettersInvertIndices(text);
  }

  // ----- 128 bits to 22 letters -----

  const PAD: Bits := [false, false, false, false]

  /** Base64url without its padding characters: the last letter carries the last
      two bits and four pad bits. */
  function Compact(u: Uuid): (text: string)
    ensures |text| == 22
  {
    Spell(u + PAD)
  }

  predicate CompactShape(text: string) {
    |text| == 22 && Spelled(text)
  }

  /** Decoding drops the pad bits, whatever they are. */
  function Decode(text: string): Uuid
    requires CompactShape(text)
  {
    Read(text)[..128]
  }

  predicate PadBitsZero(text: string)
    requires CompactShape(text)
  {
    Read(text)[128..] == [false, false, false, false]
  }

  // ----- note identifiers -----

  datatype Error = NoncanonicalEncoding | NotAUuid | NotVersion5

  function NoteIdOf(u: Uuid): string {
    "n_" + Compact(u)
  }

  /** `standard` stands for the UUID constructor's own reading of other texts. */
  function Normalize(standard: string -> Option<Uuid>, text: string): Result<string, Error> {
    var value := if "n_" <= text then text[2..] else text;
    var u :-
      if CompactShape(value) then
        if Compact(Decode(value)) != value then Failure(NoncanonicalEncoding) else Success(Decode(value))
      else
        var parsed := standard(value);
        if parsed.None? then Failure(NotAUuid) else Success(parsed.value);
    if Version(u) != Some(5) then Failure(NotVersion5) else Success(NoteIdOf(u))
  }

  lemma CompactDecodes(u: Uuid)
    ensures CompactShape(Compact(u)) && Decode(Compact(u)) == u
  {
    ReadInvertsSpell(u + PAD);
    assert (u + PAD)[..128] == u;
  }

  /** The ends of the alphabet's runs; inside a run the characters follow each other. */
  lemma AlphabetRuns(c: Sextet)
    ensures Letter(0) == 'A' && Letter(25) == 'Z' && Letter(26) == 'a' && Letter(51) == 'z'
    ensures Letter(52) == '0' && Letter(61) == '9' && Letter(62) == '-' && Letter(63) == '_'
    ensures c < 61 && c != 25 && c != 51 ==> Letter(c + 1) as int == Letter(c) as int + 1
  {
  }

  lemma {:induction false} PackedAt(bits: Bits, encode: Bits -> Sextet, i: nat)
    requires |bits| % 6 == 0 && 6 * i < |bits|
    ensures Pack(bits, encode)[i] == encode(bits[6 * i..6 * i + 6])
  {
    var init := bits[..|bits| - 6];
    assert Pack(bits, encode) == Pack(init, encode) + [encode(bits[|bits| - 6..])];
    if 6 * i < |init| {
      PackedAt(init, encode, i);
      assert init[6 * i..6 * i + 6] == bits[6 * i..6 * i + 6];
    } else {
      assert 6 * i == |init|;
      assert bits[6 * i..6 * i + 6] == bits[|bits| - 6..];
    }
  }

  /** Base64url written out: letter `i` is the one whose value in the alphabet the
      bits from 6 * i on give, most significant first; four zero bits follow the UUID. */
  lemma CompactSpellsBits(u: Uuid, i: nat)
    requires i < 22
    ensures var bits := u + [false, false, false, false];
      var n := (if bits[6 * i] then 32 else 0) + (if bits[6 * i + 1] then 16 else 0) + (if bits[6 * i + 2] then 8 else 0)
             + (if bits[6 * i + 3] then 4 else 0) + (if bits[6 * i + 4] then 2 else 0) + (if bits[6 * i + 5] then 1 else 0);
      Index(Compact(u)[i]) == Some(n)
  {
    var bits := u + PAD;
    PackedAt(bits, ENCODE, i);
    LettersRoundTrip(Value(bits[6 * i..6 * i + 6]), ' ');
  }

  /** Every printed identifier of a version 5 UUID normalizes to itself. */
  lemma PrintedIdIsNormal(standard: string -> Option<Uuid>, u: Uuid)
    requires Version(u) == Some(5)
    ensures Normalize(standard, NoteIdOf(u)) == Success(NoteIdOf(u))
  {
    assert NoteIdOf(u)[2..] == Compact(u);
    CompactDecodes(u);
  }

  /** Printed identifiers of different UUIDs differ. */
  lemma PrintingIsInjective(u: Uuid, v: Uuid)
    requires NoteIdOf(u) == NoteIdOf(v)
    ensures u == v
  {
    assert NoteIdOf(u)[2..] == Compact(u) && NoteIdOf(v)[2..] == Compact(v);
    CompactDecodes(u);
    CompactDecodes(v);
  }

  /** What normalizing returns is the printed identifier of a version 5 UUID, and
      normalizing it again changes nothing. */
  lemma NormalizeIsIdempotent(standard: string -> Option<Uuid>, text: string)
    requires Normalize(standard, text).Success?
    ensures exists u: Uuid :: Version(u) == Some(5) && Normalize(standard, text).value == NoteIdOf(u)
    ensures Normalize(standard, Normalize(standard, text).value) == Normalize(standard, text)
  {
    var u: Uuid :| Version(u) == Some(5) && Normalize(standard, text) == Success(NoteIdOf(u));
    PrintedIdIsNormal(standard, u);
  }

  lemma CanonicalMeansPadBitsZero(text: string)
    requires CompactShape(text)
    ensures text == Compact(Decode(text)) <==> PadBitsZero(text)
  {
    SpellInvertsRead(text);
    ReadInvertsSpell(Decode(text) + PAD);
    assert Read(text) == Decode(text) + Read(text)[128..];
    assert (Decode(text) + PAD)[128..] == PAD;
  }

  /** Of all prefixed compact texts that decode to a version 5 UUID exactly one is
      accepted: the one whose pad bits are zero (section 3.5 of RFC 4648). */
  lemma OneSpellingPerId(standard: string -> Option<Uuid>, text: string)
    requires CompactShape(text)
    requires Version(Decode(text)) == Some(5)
    ensures var r := Normalize(standard, "n_" + text);
      && (r.Success? <==> text == Compact(Decode(text)))
      && (r.Success? <==> PadBitsZero(text))
      && (r.Failure? ==> r.error == NoncanonicalEncoding)
  {
    assert ("n_" + text)[2..] == text;
    CanonicalMeansPadBitsZero(text);
  }

  predicate InAlphabet(x: char) {
    'A' <= x <= 'Z' || 'a' <= x <= 'z' || '0' <= x <= '9' || x == '-' || x == '_'
  }

  /** Any other text, with or without the prefix, is left to the UUID constructor: what
      it refuses is no identifier, and of what it reads exactly version 5 is accepted,
      in its printed form. */
  lemma StandardTextNormalizes(standard: string -> Option<Uuid>, text: string, prefixed: bool)
    requires |text| != 22 || exists i :: 0 <= i < 22 && !InAlphabet(text[i])
    requires !prefixed ==> !("n_" <= text)
    ensures var r := Normalize(standard, if prefixed then "n_" + text else text);
      match standard(text)
      case None => r == Failure(NotAUuid)
      case Some(u) => r == if Version(u) == Some(5) then Success(NoteIdOf(u)) else Failure(NotVersion5)
  {
    assert ("n_" + text)[2..] == text;
    if |text| == 22 {
      var i :| 0 <= i < 22 && !InAlphabet(text[i]);
      assert Index(text[i]).None?;
    }
  }

  /** Version 5 is written in six bits: the variant 10 and the version 0101. */
  lemma VersionFiveExactly(u: Uuid)
    ensures Version(u) == Some(5) <==>
      u[64] && !u[65] && !u[48] && u[49] && !u[50] && u[51]
  {
  }

  /** Without the prefix a printed form is accepted exactly when it does not start
      with the prefix's own letters: those are stripped and the rest is too short. */
  lemma BarePrintedForm(standard: string -> Option<Uuid>, u: Uuid)
    requires Version(u) == Some(5)
    requires standard(Compact(u)[2..]).None?
    ensures Normalize(standard, Compact(u)) == Success(NoteIdOf(u)) <==> !("n_" <= Compact(u))
  {
    CompactDecodes(u);
  }
}
