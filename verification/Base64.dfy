/** The checkpoint bitmap's text form: base64 as in section 4 of RFC 4648. */
module Base64 {
  import opened Bytes

  // ---------------------------------------------------------------- the alphabet

  /** The letter for a six-bit value. */
  function Letter(v: bv8): (c: char)
    requires v < 64
    ensures Value(c) == Some(v)
    ensures IsLetter(c)
  {
    var n := v as int;
    if n < 26 then 'A' + (n as char)
    else if n < 52 then 'a' + ((n - 26) as char)
    else if n < 62 then '0' + ((n - 52) as char)
    else if n == 62 then '+' else '/'
  }

  /** The standard alphabet: three runs of consecutive letters, and two signs. */
  lemma AlphabetRuns(v: bv8)
    requires v < 63
    ensures Letter(0) == 'A' && Letter(25) == 'Z' && Letter(26) == 'a' && Letter(51) == 'z'
    ensures Letter(52) == '0' && Letter(61) == '9' && Letter(62) == '+' && Letter(63) == '/'
    ensures v !in {25, 51, 61, 62} ==> Letter(v + 1) as int == Letter(v) as int + 1
  {
    hide Value;
    NextInt(v);
  }

  lemma NextInt(v: bv8)
    requires v < 63
    ensures (v + 1) as int == v as int + 1
  {
  }

  predicate IsLetter(c: char) {
    'A' <= c <= 'Z' || 'a' <= c <= 'z' || '0' <= c <= '9' || c == '+' || c == '/'
  }

  /** The position of a letter in the alphabet. */
  function Value(c: char): (v: Option<bv8>)
    ensures v.Some? <==> IsLetter(c)
    ensures v.Some? ==> v.value < 64
  {
    if 'A' <= c <= 'Z' then Some((c as int - 'A' as int) as bv8)
    else if 'a' <= c <= 'z' then Some((c as int - 'a' as int + 26) as bv8)
    else if '0' <= c <= '9' then Some((c as int - '0' as int + 52) as bv8)
    else if c == '+' then Some(62)
    else if c == '/' then Some(63)
    else None
  }

  // ---------------------------------------------------------------- encoding

  const PAD: char := '='

  function First(a: bv8): (v: bv8)
    ensures v < 64
  {
    a >> 2
  }

  function Second(a: bv8, b: bv8): (v: bv8)
    ensures v < 64
  {
    ((a & 0x03) << 4) | (b >> 4)
  }

  function Third(b: bv8, c: bv8): (v: bv8)
    ensures v < 64
  {
    ((b & 0x0f) << 2) | (c >> 6)
  }

  function Fourth(c: bv8): (v: bv8)
    ensures v < 64
  {
    c & 0x3f
  }

  /** The six-bit values of a byte string, the last one filled up with zero bits. */
  function Sextets(bytes: ByteString): (vs: seq<bv8>)
    ensures forall i :: 0 <= i < |vs| ==> vs[i] < 64
  {
    match |bytes|
    case 0 => []
    case 1 => [First(bytes[0]), Second(bytes[0], 0)]
    case 2 => [First(bytes[0]), Second(bytes[0], bytes[1]), Third(bytes[1], 0)]
    case _ =>
      [First(bytes[0]), Second(bytes[0], bytes[1]), Third(bytes[1], bytes[2]), Fourth(bytes[2])] + Sextets(bytes[3..])
  }

  function Spell(vs: seq<bv8>): (s: string)
    requires forall i :: 0 <= i < |vs| ==> vs[i] < 64
    ensures |s| == |vs| && forall i :: 0 <= i < |vs| ==> s[i] == Letter(vs[i])
  {
    seq(|vs|, i requires 0 <= i < |vs| => Letter(vs[i]))
  }

  /** The letters that carry data, without padding. */
  function Letters(bytes: ByteString): string {
    Spell(Sextets(bytes))
  }

  function Padding(n: nat): string {
    if n % 3 == 0 then [] else if n % 3 == 1 then [PAD, PAD] else [PAD]
  }

  function Encode(bytes: ByteString): string {
    Letters(bytes) + Padding(|bytes|)
  }

  method BytesToBase64(bytes: ByteString) returns (output: string)
    ensures output == Encode(bytes)
  {
    hide First, Second, Third, Fourth, Letter, Encode;
    EncodeNothing();
    output := [];
    var index := 0;
    while index < |bytes|
      invariant 0 <= index && (index < |bytes| ==> index % 3 == 0)
      invariant if index < |bytes| then output + Encode(bytes[index..]) == Encode(bytes) else output == Encode(bytes)
    {
      ghost var before, rest := output, bytes[index..];
      var a := bytes[index];
      var b := if index + 1 < |bytes| then bytes[index + 1] else 0;
      var c := if index + 2 < |bytes| then bytes[index + 2] else 0;
      var group := [Letter(First(a)), Letter(Second(a, b)),
                    if index + 1 < |bytes| then Letter(Third(b, c)) else PAD,
                    if index + 2 < |bytes| then Letter(Fourth(c)) else PAD];
      output := output + group;
      FirstGroup(rest, a, b, c, group);
      if index + 3 < |bytes| {
        assert rest[3..] == bytes[index + 3..];
        assert output + Encode(rest[3..]) == before + (group + Encode(rest[3..]));
      } else {
        assert output == before + group;
      }
      index := index + 3;
    }
  }

  lemma FirstGroup(rest: ByteString, a: bv8, b: bv8, c: bv8, group: string)
    requires |rest| > 0 && a == rest[0]
    requires b == (if 1 < |rest| then rest[1] else 0) && c == (if 2 < |rest| then rest[2] else 0)
    requires group == [Letter(First(a)), Letter(Second(a, b)),
                       if 1 < |rest| then Letter(Third(b, c)) else PAD,
                       if 2 < |rest| then Letter(Fourth(c)) else PAD]
    ensures Encode(rest) == if |rest| <= 3 then group else group + Encode(rest[3..])
  {
    hide First, Second, Third, Fourth, Letter, Encode;
    if |rest| >= 3 {
      FullGroup(rest);
      if |rest| == 3 {
        assert rest[3..] == [];
        EncodeNothing();
        assert group + [] == group;
      }
    } else {
      ShortGroup(rest);
    }
  }

  lemma EncodeNothing()
    ensures Encode([]) == []
  {
  }

  lemma FullGroup(rest: ByteString)
    requires |rest| >= 3
    ensures Encode(rest) ==
            [Letter(First(rest[0])), Letter(Second(rest[0], rest[1])), Letter(Third(rest[1], rest[2])),
             Letter(Fourth(rest[2]))]
            + Encode(rest[3..])
  {
    hide First, Second, Third, Fourth, Letter, Padding;
    PaddingSkips(|rest|);
    SpellFour(First(rest[0]), Second(rest[0], rest[1]), Third(rest[1], rest[2]), Fourth(rest[2]), Sextets(rest[3..]));
  }

  lemma ShortGroup(rest: ByteString)
    requires 1 <= |rest| <= 2
    ensures Encode(rest) == [Letter(First(rest[0])), Letter(Second(rest[0], if |rest| == 2 then rest[1] else 0)),
                             if |rest| == 2 then Letter(Third(rest[1], 0)) else PAD, PAD]
  {
    hide *;
    if |rest| == 1 {
      OneByte(rest[0]);
      assert rest == [rest[0]];
    } else {
      TwoBytes(rest[0], rest[1]);
      assert rest == [rest[0], rest[1]];
    }
  }

  lemma OneByte(a: bv8)
    ensures Encode([a]) == [Letter(First(a)), Letter(Second(a, 0)), PAD, PAD]
  {
    hide First, Second, Letter, Spell, Sextets;
    SpellThree(First(a), Second(a, 0), 0);
    ShortSextets(a, 0);
  }

  lemma TwoBytes(a: bv8, b: bv8)
    ensures Encode([a, b]) == [Letter(First(a)), Letter(Second(a, b)), Letter(Third(b, 0)), PAD]
  {
    hide First, Second, Third, Letter, Spell, Sextets;
    SpellThree(First(a), Second(a, b), Third(b, 0));
    ShortSextets(a, b);
  }

  lemma ShortSextets(a: bv8, b: bv8)
    ensures Sextets([a]) == [First(a), Second(a, 0)]
    ensures Sextets([a, b]) == [First(a), Second(a, b), Third(b, 0)]
  {
    hide First, Second, Third;
  }

  lemma SpellThree(v1: bv8, v2: bv8, v3: bv8)
    requires v1 < 64 && v2 < 64 && v3 < 64
    ensures Spell([v1, v2]) == [Letter(v1), Letter(v2)]
    ensures Spell([v1, v2, v3]) == [Letter(v1), Letter(v2), Letter(v3)]
  {
    hide Letter;
  }

  lemma PaddingSkips(n: nat)
    requires n >= 3
    ensures Padding(n) == Padding(n - 3)
  {
  }

  lemma SpellFour(v1: bv8, v2: bv8, v3: bv8, v4: bv8, more: seq<bv8>)
    requires v1 < 64 && v2 < 64 && v3 < 64 && v4 < 64 && forall i :: 0 <= i < |more| ==> more[i] < 64
    ensures Spell([v1, v2, v3, v4] + more) == [Letter(v1), Letter(v2), Letter(v3), Letter(v4)] + Spell(more)
  {
    hide Letter, Spell;
    SpellSplits([v1, v2, v3, v4], more);
    SpellSplits([v1, v2, v3], [v4]);
    SpellThree(v1, v2, v3);
    SpellOne(v4);
    assert [v1, v2, v3] + [v4] == [v1, v2, v3, v4];
  }

  lemma SpellSplits(vs: seq<bv8>, more: seq<bv8>)
    requires forall i :: 0 <= i < |vs| ==> vs[i] < 64
    requires forall i :: 0 <= i < |more| ==> more[i] < 64
    ensures Spell(vs + more) == Spell(vs) + Spell(more)
  {
    hide Letter;
  }

  lemma SpellOne(v: bv8)
    requires v < 64
    ensures Spell([v]) == [Letter(v)]
  {
    hide Letter;
  }

  // ---------------------------------------------------------------- decoding

  /** The decoder's loop state. The accumulator is a 32-bit word that is never masked, so on long
      input its high bits hold letters long since written out. */
  datatype Decoding = Decoding(accumulator: bv32, bits: nat, bytes: ByteString)

  /** `accumulator >> bits` for the three shifts that occur; only the low byte of the result is used,
      which a signed shift leaves the same. */
  function LowByte(accumulator: bv32, bits: nat): bv8 {
    (match bits
     case 0 => accumulator & 0xff
     case 2 => (accumulator >> 2) & 0xff
     case _ => (accumulator >> 4) & 0xff) as bv8
  }

  function Append(z: bv32, v: bv8): bv32 {
    (z << 6) | (v as bv32)
  }

  function Feed(st: Decoding, v: bv8): (next: Decoding)
    requires st.bits in {0, 2, 4, 6}
    ensures next.bits in {0, 2, 4, 6}
  {
    var accumulator := Append(st.accumulator, v);
    var bits := st.bits + 6;
    if bits >= 8 then Decoding(accumulator, bits - 8, st.bytes + [LowByte(accumulator, bits - 8)])
    else Decoding(accumulator, bits, st.bytes)
  }

  function FeedAll(st: Decoding, clean: string): (next: Decoding)
    requires st.bits in {0, 2, 4, 6}
    ensures next.bits in {0, 2, 4, 6}
    decreases |clean|
  {
    if clean == [] || Value(clean[0]).None? then st
    else FeedAll(Feed(st, Value(clean[0]).value), clean[1..])
  }

  /** The text without its trailing padding. */
  function Clean(text: string): (clean: string)
    ensures clean <= text
    ensures forall i :: |clean| <= i < |text| ==> text[i] == PAD
  {
    if text != [] && text[|text| - 1] == PAD then Clean(text[..|text| - 1]) else text
  }

  /** Letters, then at most two pads, in a multiple of four characters. */
  predicate WellFormed(text: string) {
    && |text| % 4 == 0
    && |text| - |Clean(text)| <= 2
    && forall i :: 0 <= i < |Clean(text)| ==> IsLetter(Clean(text)[i])
  }

  function Decode(text: string): Option<ByteString> {
    if WellFormed(text) then Some(FeedAll(Decoding(0, 0, []), Clean(text)).bytes) else None
  }

  method Base64ToBytes(text: string) returns (r: Option<ByteString>)
    ensures r == Decode(text)
  {
    if !WellFormed(text) {
      return None;
    }
    var clean := Clean(text);
    var st := Decoding(0, 0, []);
    var i := 0;
    while i < |clean|
      invariant 0 <= i <= |clean| && st.bits in {0, 2, 4, 6}
      invariant FeedAll(st, clean[i..]) == FeedAll(Decoding(0, 0, []), clean)
    {
      var value := Value(clean[i]);
      assert IsLetter(clean[i]);
      assert clean[i..][1..] == clean[i + 1..];
      st := Feed(st, value.value);
      i := i + 1;
    }
    return Some(st.bytes);
  }

  // ---------------------------------------------------------------- the round trip

  /** Four letters give back their three bytes, whatever the accumulator still holds. */
  lemma GroupBits(z: bv32, a: bv8, b: bv8, c: bv8)
    ensures var z2 := Append(Append(z, First(a)), Second(a, b));
            var z3 := Append(z2, Third(b, c));
            LowByte(z2, 4) == a && LowByte(z3, 2) == b && LowByte(Append(z3, Fourth(c)), 0) == c
  {
  }

  function FeedValues(st: Decoding, vs: seq<bv8>): (next: Decoding)
    requires st.bits in {0, 2, 4, 6}
    ensures next.bits in {0, 2, 4, 6}
    decreases |vs|
  {
    if vs == [] then st else FeedValues(Feed(st, vs[0]), vs[1..])
  }

  lemma {:induction false} FeedSpelled(st: Decoding, vs: seq<bv8>)
    requires st.bits in {0, 2, 4, 6} && forall i :: 0 <= i < |vs| ==> vs[i] < 64
    ensures FeedAll(st, Spell(vs)) == FeedValues(st, vs)
    decreases |vs|
  {
    if vs != [] {
      assert Spell(vs)[1..] == Spell(vs[1..]);
      FeedSpelled(Feed(st, vs[0]), vs[1..]);
    }
  }

  lemma FeedNext(st: Decoding, v: bv8, rest: seq<bv8>)
    requires st.bits in {0, 2, 4, 6}
    ensures FeedValues(st, [v] + rest) == FeedValues(Feed(st, v), rest)
  {
    assert ([v] + rest)[1..] == rest;
  }

  lemma {:induction false} FeedSextets(st: Decoding, bytes: ByteString)
    requires st.bits == 0
    ensures FeedValues(st, Sextets(bytes)).bytes == st.bytes + bytes
    decreases |bytes|
  {
    if |bytes| >= 3 {
      var next := FeedGroup(st, bytes[0], bytes[1], bytes[2], Sextets(bytes[3..]));
      FeedSextets(next, bytes[3..]);
      assert st.bytes + [bytes[0], bytes[1], bytes[2]] + bytes[3..] == st.bytes + bytes;
    } else if |bytes| == 2 {
      FeedTwo(st, bytes[0], bytes[1]);
      assert bytes == [bytes[0], bytes[1]];
    } else if |bytes| == 1 {
      FeedOne(st, bytes[0]);
      assert bytes == [bytes[0]];
    }
  }

  /** Feeding a group of values to a decoder that owes no bits appends the group's bytes. */
  lemma FeedGroup(st: Decoding, a: bv8, b: bv8, c: bv8, rest: seq<bv8>) returns (next: Decoding)
    requires st.bits == 0
    ensures next.bits == 0 && next.bytes == st.bytes + [a, b, c]
    ensures FeedValues(st, [First(a), Second(a, b), Third(b, c), Fourth(c)] + rest) == FeedValues(next, rest)
  {
    hide First, Second, Third, Fourth;
    next := FeedFour(st, First(a), Second(a, b), Third(b, c), Fourth(c), rest);
    GroupBits(st.accumulator, a, b, c);
  }

  lemma FeedFour(st: Decoding, v1: bv8, v2: bv8, v3: bv8, v4: bv8, rest: seq<bv8>) returns (next: Decoding)
    requires st.bits == 0
    ensures next.bits == 0
    ensures var z2 := Append(Append(st.accumulator, v1), v2);
            next.bytes == st.bytes + [LowByte(z2, 4)] + [LowByte(Append(z2, v3), 2)]
              + [LowByte(Append(Append(z2, v3), v4), 0)]
    ensures FeedValues(st, [v1, v2, v3, v4] + rest) == FeedValues(next, rest)
  {
    hide LowByte, Append;
    var s1 := Feed(st, v1);
    var s2 := Feed(s1, v2);
    var s3 := Feed(s2, v3);
    next := Feed(s3, v4);
    assert [v1, v2, v3, v4] + rest == [v1] + ([v2] + ([v3] + ([v4] + rest)));
    FeedNext(st, v1, [v2] + ([v3] + ([v4] + rest)));
    FeedNext(s1, v2, [v3] + ([v4] + rest));
    FeedNext(s2, v3, [v4] + rest);
    FeedNext(s3, v4, rest);
  }

  lemma FeedOne(st: Decoding, a: bv8)
    requires st.bits == 0
    ensures FeedValues(st, [First(a), Second(a, 0)]).bytes == st.bytes + [a]
  {
    hide First, Second, Third, Fourth, LowByte, Append;
    FeedNext(st, First(a), [Second(a, 0)]);
    FeedNext(Feed(st, First(a)), Second(a, 0), []);
    assert [First(a)] + [Second(a, 0)] == [First(a), Second(a, 0)] && [Second(a, 0)] + [] == [Second(a, 0)];
    GroupBits(st.accumulator, a, 0, 0);
  }

  lemma FeedTwo(st: Decoding, a: bv8, b: bv8)
    requires st.bits == 0
    ensures FeedValues(st, [First(a), Second(a, b), Third(b, 0)]).bytes == st.bytes + [a, b]
  {
    hide First, Second, Third, Fourth, LowByte, Append;
    var s1 := Feed(st, First(a));
    assert [First(a), Second(a, b), Third(b, 0)] == [First(a)] + ([Second(a, b)] + ([Third(b, 0)] + []));
    FeedNext(st, First(a), [Second(a, b)] + ([Third(b, 0)] + []));
    FeedNext(s1, Second(a, b), [Third(b, 0)] + []);
    FeedNext(Feed(s1, Second(a, b)), Third(b, 0), []);
    GroupBits(st.accumulator, a, b, 0);
  }

  lemma LettersShape(bytes: ByteString)
    ensures forall i :: 0 <= i < |Letters(bytes)| ==> IsLetter(Letters(bytes)[i])
    ensures |Letters(bytes)| + |Padding(|bytes|)| == (|bytes| + 2) / 3 * 4
  {
    SextetCount(bytes);
  }

  lemma {:induction false} SextetCount(bytes: ByteString)
    ensures |Sextets(bytes)| + |Padding(|bytes|)| == (|bytes| + 2) / 3 * 4
  {
    hide First, Second, Third, Fourth, Padding;
    if |bytes| >= 3 {
      SextetCount(bytes[3..]);
      assert |Sextets(bytes)| == 4 + |Sextets(bytes[3..])|;
      PaddingSkips(|bytes|);
      GroupSkips(|bytes|);
    } else {
      ShortPadding(|bytes|);
    }
  }

  lemma GroupSkips(n: nat)
    requires n >= 3
    ensures (n + 2) / 3 * 4 == 4 + (n - 3 + 2) / 3 * 4
  {
  }

  lemma ShortPadding(n: nat)
    requires n < 3
    ensures |Padding(n)| == if n == 0 then 0 else 3 - n
    ensures (n + 2) / 3 * 4 == if n == 0 then 0 else 4
  {
  }

  lemma {:induction false} CleanOf(letters: string, pad: string)
    requires forall i :: 0 <= i < |letters| ==> letters[i] != PAD
    requires forall i :: 0 <= i < |pad| ==> pad[i] == PAD
    ensures Clean(letters + pad) == letters
  {
    if pad == [] {
      assert letters + pad == letters;
    } else {
      assert (letters + pad)[..|letters + pad| - 1] == letters + pad[..|pad| - 1];
      CleanOf(letters, pad[..|pad| - 1]);
    }
  }

  lemma EncodeIsWellFormed(bytes: ByteString)
    ensures WellFormed(Encode(bytes)) && Clean(Encode(bytes)) == Letters(bytes)
    ensures |Encode(bytes)| == (|bytes| + 2) / 3 * 4
  {
    hide Letters, Padding, Clean;
    LettersShape(bytes);
    PaddingShape(|bytes|);
    CleanOf(Letters(bytes), Padding(|bytes|));
  }

  lemma PaddingShape(n: nat)
    ensures |Padding(n)| <= 2 && forall i :: 0 <= i < |Padding(n)| ==> Padding(n)[i] == PAD
  {
  }

  /** Letters of the alphabet, and then this many pads. */
  predicate Padded(text: string, pads: nat) {
    && pads <= |text|
    && (forall i :: |text| - pads <= i < |text| ==> text[i] == '=')
    && forall i :: 0 <= i < |text| - pads ==> Plain(text[i])
  }

  /** What decodes at all: letters, then at most two pads, in a multiple of four characters. */
  lemma DecodesIff(text: string)
    ensures Decode(text).Some? <==> |text| % 4 == 0 && exists pads: nat :: pads <= 2 && Padded(text, pads)
  {
    hide FeedAll;
    var clean := Clean(text);
    if Decode(text).Some? {
      assert forall i :: 0 <= i < |clean| ==> clean[i] == text[i];
      assert Padded(text, |text| - |clean|);
    }
    if pads: nat :| pads <= 2 && Padded(text, pads) {
      PaddedIsClean(text, pads);
    }
  }

  lemma PaddedIsClean(text: string, pads: nat)
    requires Padded(text, pads)
    ensures Clean(text) == text[..|text| - pads]
  {
    var letters, tail := text[..|text| - pads], text[|text| - pads..];
    assert text == letters + tail;
    CleanOf(letters, tail);
  }

  predicate Plain(c: char) {
    'A' <= c <= 'Z' || 'a' <= c <= 'z' || '0' <= c <= '9' || c in {'+', '/'}
  }

  /** Decoding an encoding gives the bytes back, for every byte string. */
  lemma RoundTrip(bytes: ByteString)
    ensures Decode(Encode(bytes)) == Some(bytes)
    ensures |Encode(bytes)| == (|bytes| + 2) / 3 * 4
  {
    EncodeIsWellFormed(bytes);
    FeedSpelled(Decoding(0, 0, []), Sextets(bytes));
    FeedSextets(Decoding(0, 0, []), bytes);
    assert [] + bytes == bytes;
  }

  /** Distinct byte strings have distinct encodings. */
  lemma EncodeIsInjective(a: ByteString, b: ByteString)
    requires Encode(a) == Encode(b)
    ensures a == b
  {
    RoundTrip(a);
    RoundTrip(b);
  }
}
