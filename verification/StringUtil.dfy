/** Boost_Searcher/limonp/StringUtil.hpp: the two pairs of UTF-8 converters, 32-bit and 16-bit,
    and their agreement with the decoder of Unicode.hpp. */
module StringUtil {
  import opened Wrappers
  import opened Unicode

  const RUNE_LIMIT: int := 0x10_0000

  type Unit16 = u: int | 0 <= u < 0x1_0000

  // ---------------------------------------------------------------- specification

  /** The runes a byte string denotes, read rune by rune from the front. */
  function RunesIn(s: seq<Byte>): Option<seq<Rune>>
    decreases |s|
  {
    if s == [] then Some([])
    else
      var rp := DecodeUTF8ToRune(s);
      if rp.len == 0 then None
      else match RunesIn(s[rp.len..])
        case None => None
        case Some(rest) => Some([rp.rune] + rest)
  }

  /** The runes read before the first malformed one. */
  function LeadingRunes(s: seq<Byte>): seq<Rune>
    decreases |s|
  {
    if s == [] then []
    else
      var rp := DecodeUTF8ToRune(s);
      if rp.len == 0 then [] else [rp.rune] + LeadingRunes(s[rp.len..])
  }

  /** No rune of the string takes four bytes. */
  predicate Short(s: seq<Byte>)
    decreases |s|
  {
    s != [] ==>
      var rp := DecodeUTF8ToRune(s);
      rp.len != 0 ==> rp.len <= 3 && Short(s[rp.len..])
  }

  lemma {:induction false} LeadingIsAll(s: seq<Byte>)
    ensures RunesIn(s).Some? ==> LeadingRunes(s) == RunesIn(s).value
    decreases |s|
  {
    hide DecodeUTF8ToRune;
    if s != [] && DecodeUTF8ToRune(s).len != 0 {
      LeadingIsAll(s[DecodeUTF8ToRune(s).len..]);
    }
  }

  /** Both decoders accept the same strings and read the same runes. */
  lemma {:induction false} DecodersAgree(s: seq<Byte>, i: nat, j: nat)
    requires i <= |s|
    ensures DecodeFrom(s, i, j).Some? == RunesIn(s[i..]).Some?
    ensures DecodeFrom(s, i, j).Some? ==> RunesOf(DecodeFrom(s, i, j).value) == RunesIn(s[i..]).value
    decreases |s| - i
  {
    hide DecodeUTF8ToRune;
    if i < |s| {
      var rp := DecodeUTF8ToRune(s[i..]);
      if rp.len != 0 {
        DecodersAgree(s, i + rp.len, j + 1);
        assert s[i..][rp.len..] == s[i + rp.len..];
      }
    }
  }

  // ---------------------------------------------------------------- decoding

  /** The decoder's four cases, in terms of the whole string and a position in it. */
  lemma RuneAt(s: seq<Byte>, i: nat)
    requires i < |s|
    ensures DecodeUTF8ToRune(s[i..]) ==
            if s[i] < 0x80 then RuneStrLite(s[i], 1)
            else if s[i] <= 0xdf && i + 1 < |s| then RuneStrLite(Join(s[i] % 0x20, s[i + 1]), 2)
            else if s[i] <= 0xef && i + 2 < |s| then RuneStrLite(Join(Join(s[i] % 0x10, s[i + 1]), s[i + 2]), 3)
            else if s[i] <= 0xf7 && i + 3 < |s| then
              RuneStrLite(Join(Join(Join(s[i] % 8, s[i + 1]), s[i + 2]), s[i + 3]), 4)
            else RuneStrLite(0, 0)
  {
    hide Join;
  }

  lemma Nothing()
    ensures RunesIn([]) == Some([]) && LeadingRunes([]) == [] && Short([]) && Encode([]) == []
  {
  }

  lemma DecodeStops(s: seq<Byte>, i: nat)
    requires i < |s| && DecodeUTF8ToRune(s[i..]).len == 0
    ensures RunesIn(s[i..]).None? && LeadingRunes(s[i..]) == []
  {
  }

  /** One step of a decoder that is at byte `i`. */
  lemma DecodeStep(s: seq<Byte>, i: nat, rune: Rune, len: nat)
    requires i < |s| && DecodeUTF8ToRune(s[i..]) == RuneStrLite(rune, len) && len != 0
    ensures RunesIn(s[i..]).Some? == RunesIn(s[i + len..]).Some?
    ensures RunesIn(s[i..]).Some? ==> RunesIn(s[i..]).value == [rune] + RunesIn(s[i + len..]).value
    ensures LeadingRunes(s[i..]) == [rune] + LeadingRunes(s[i + len..])
    ensures Short(s[i..]) == (len <= 3 && Short(s[i + len..]))
  {
    assert s[i..][len..] == s[i + len..];
  }

  method Utf8ToUnicode32(s: seq<Byte>) returns (ok: bool, vec: seq<Rune>)
    ensures ok == RunesIn(s).Some?
    ensures vec == LeadingRunes(s)
  {
    hide RunesIn, LeadingRunes, DecodeUTF8ToRune, Join;
    vec := [];
    var i := 0;
    while i < |s|
      invariant 0 <= i <= |s|
      invariant RunesIn(s).Some? == RunesIn(s[i..]).Some?
      invariant LeadingRunes(s) == vec + LeadingRunes(s[i..])
    {
      var tmp: nat;
      ghost var from := i;
      RuneAt(s, i);
      if s[i] < 0x80 {
        tmp := s[i];
        i := i + 1;
      } else if s[i] <= 0xdf && i + 1 < |s| {
        tmp := s[i] % 0x20;
        tmp := Join(tmp, s[i + 1]);
        i := i + 2;
      } else if s[i] <= 0xef && i + 2 < |s| {
        tmp := s[i] % 0x10;
        tmp := Join(tmp, s[i + 1]);
        tmp := Join(tmp, s[i + 2]);
        i := i + 3;
      } else if s[i] <= 0xf7 && i + 3 < |s| {
        tmp := s[i] % 8;
        tmp := Join(tmp, s[i + 1]);
        tmp := Join(tmp, s[i + 2]);
        tmp := Join(tmp, s[i + 3]);
        i := i + 4;
      } else {
        DecodeStops(s, i);
        return false, vec;
      }
      DecodeStep(s, from, tmp, i - from);
      vec := vec + [tmp];
    }
    Nothing();
    assert s[i..] == [];
    ok := true;
  }

  /** Quotient and remainder are unique. */
  lemma Divides(x: int, n: int, q: int, r: int)
    requires x == n * q + r && 0 <= r < n
    ensures x / n == q && x % n == r
  {
    DividesAtMost(n, x / n, x % n, q, r);
    DividesAtMost(n, q, r, x / n, x % n);
  }

  lemma DividesAtMost(n: int, q: int, r: int, q': int, r': int)
    requires n * q + r == n * q' + r' && 0 <= r < n && 0 <= r' < n
    ensures q <= q'
  {
    if q' < q {
      Distributes(n, q, q');
      Grows(n, q - q');
    }
  }

  lemma Distributes(n: int, a: int, b: int)
    ensures n * (a - b) == n * a - n * b
  {
  }

  lemma {:induction false} Grows(n: int, d: int)
    requires n > 0 && d > 0
    ensures n * d >= n
    decreases d
  {
    if d > 1 {
      Grows(n, d - 1);
      Distributes(n, d, 1);
    }
  }

  /** The bits of a byte that the 16-bit decoder puts in its high and in its low byte. */
  lemma SplitsBits(b: Byte)
    ensures b % 0x20 == b / 4 % 8 * 4 + b % 4
    ensures b % 0x40 == b / 4 % 0x10 * 4 + b % 4
  {
    var q := b / 4;
    assert b == 4 * q + b % 4 && q == 8 * (q / 8) + q % 8 && q == 0x10 * (q / 0x10) + q % 0x10;
    Divides(b, 0x20, q / 8, q % 8 * 4 + b % 4);
    Divides(b, 0x40, q / 0x10, q % 0x10 * 4 + b % 4);
  }

  /** The 16-bit decoder assembles a high and a low byte instead of shifting. */
  function Unit16Of2(b0: Byte, b1: Byte): (u: Unit16)
    ensures u == Join(b0 % 0x20, b1)
  {
    var ch1 := b0 / 4 % 8;
    var ch2 := b1 % 0x40 + b0 % 4 * 0x40;
    SplitsBits(b0);
    ch1 * 0x100 + ch2
  }

  function Unit16Of3(b0: Byte, b1: Byte, b2: Byte): (u: Unit16)
    ensures u == Join(Join(b0 % 0x10, b1), b2)
  {
    var ch1 := b0 % 0x10 * 0x10 + b1 / 4 % 0x10;
    var ch2 := b1 % 4 * 0x40 + b2 % 0x40;
    SplitsBits(b1);
    ch1 * 0x100 + ch2
  }

  method Utf8ToUnicode(s: seq<Byte>) returns (ok: bool, vec: seq<Unit16>)
    ensures ok == (RunesIn(s).Some? && Short(s))
    ensures ok ==> vec == RunesIn(s).value
  {
    hide RunesIn, Short, LeadingRunes, DecodeUTF8ToRune, Join, Unit16Of2, Unit16Of3;
    vec := [];
    var i := 0;
    while i < |s|
      invariant 0 <= i <= |s|
      invariant RunesIn(s).Some? == RunesIn(s[i..]).Some?
      invariant Short(s) == Short(s[i..])
      invariant RunesIn(s).Some? ==> RunesIn(s).value == vec + RunesIn(s[i..]).value
    {
      var unit: Unit16;
      ghost var from := i;
      RuneAt(s, i);
      if s[i] < 0x80 {
        unit := s[i];
        i := i + 1;
      } else if s[i] <= 0xdf && i + 1 < |s| {
        unit := Unit16Of2(s[i], s[i + 1]);
        i := i + 2;
      } else if s[i] <= 0xef && i + 2 < |s| {
        unit := Unit16Of3(s[i], s[i + 1], s[i + 2]);
        i := i + 3;
      } else {
        if DecodeUTF8ToRune(s[i..]).len == 0 {
          DecodeStops(s, i);
        } else {
          DecodeStep(s, i, DecodeUTF8ToRune(s[i..]).rune, DecodeUTF8ToRune(s[i..]).len);
        }
        return false, vec;
      }
      DecodeStep(s, from, unit, i - from);
      vec := vec + [unit];
    }
    Nothing();
    assert s[i..] == [];
    ok := true;
  }

  // ---------------------------------------------------------------- encoding

  function EncodeRune(ui: Rune): seq<Byte> {
    if ui <= 0x7f then
      [ui]
    else if ui <= 0x7ff then
      [ui / 0x40 % 0x20 + 0xc0, ui % 0x40 + 0x80]
    else if ui <= 0xffff then
      [ui / 0x1000 % 0x10 + 0xe0, ui / 0x40 % 0x40 + 0x80, ui % 0x40 + 0x80]
    else
      [ui / 0x4_0000 % 4 + 0xf0, ui / 0x1000 % 0x40 + 0x80, ui / 0x40 % 0x40 + 0x80, ui % 0x40 + 0x80]
  }

  function Encode(runes: seq<Rune>): seq<Byte> {
    if runes == [] then [] else EncodeRune(runes[0]) + Encode(runes[1..])
  }

  lemma {:induction false} EncodeSnoc(runes: seq<Rune>, r: Rune)
    ensures Encode(runes + [r]) == Encode(runes) + EncodeRune(r)
  {
    hide EncodeRune;
    if runes == [] {
      assert [r][1..] == [] && runes + [r] == [r];
      assert Encode([]) == [];
    } else {
      EncodeSnoc(runes[1..], r);
      assert (runes + [r])[1..] == runes[1..] + [r];
    }
  }

  method Unicode32ToUtf8(runes: seq<Rune>) returns (res: seq<Byte>)
    ensures res == Encode(runes)
  {
    hide Encode;
    res := [];
    Nothing();
    var begin := 0;
    while begin != |runes|
      invariant 0 <= begin <= |runes|
      invariant res == Encode(runes[..begin])
    {
      var ui: int := runes[begin];
      EncodeSnoc(runes[..begin], runes[begin]);
      assert runes[..begin + 1] == runes[..begin] + [runes[begin]];
      if ui <= 0x7f {
        res := res + [ui];
      } else if ui <= 0x7ff {
        assert EncodeRune(ui) == [ui / 0x40 % 0x20 + 0xc0] + [ui % 0x40 + 0x80];
        res := res + [ui / 0x40 % 0x20 + 0xc0];
        res := res + [ui % 0x40 + 0x80];
      } else if ui <= 0xffff {
        assert EncodeRune(ui) == [ui / 0x1000 % 0x10 + 0xe0] + [ui / 0x40 % 0x40 + 0x80] + [ui % 0x40 + 0x80];
        res := res + [ui / 0x1000 % 0x10 + 0xe0];
        res := res + [ui / 0x40 % 0x40 + 0x80];
        res := res + [ui % 0x40 + 0x80];
      } else {
        assert EncodeRune(ui) == [ui / 0x4_0000 % 4 + 0xf0] + [ui / 0x1000 % 0x40 + 0x80] + [ui / 0x40 % 0x40 + 0x80] + [ui % 0x40 + 0x80];
        res := res + [ui / 0x4_0000 % 4 + 0xf0];
        res := res + [ui / 0x1000 % 0x40 + 0x80];
        res := res + [ui / 0x40 % 0x40 + 0x80];
        res := res + [ui % 0x40 + 0x80];
      }
      begin := begin + 1;
    }
    assert runes[..|runes|] == runes;
  }

  method UnicodeToUtf8(units: seq<Unit16>) returns (res: seq<Byte>)
    ensures res == Encode(units)
  {
    hide Encode;
    res := [];
    Nothing();
    var begin := 0;
    while begin != |units|
      invariant 0 <= begin <= |units|
      invariant res == Encode(units[..begin])
    {
      var ui: int := units[begin];
      EncodeSnoc(units[..begin], units[begin]);
      assert units[..begin + 1] == units[..begin] + [units[begin]];
      if ui <= 0x7f {
        res := res + [ui];
      } else if ui <= 0x7ff {
        assert EncodeRune(ui) == [ui / 0x40 % 0x20 + 0xc0] + [ui % 0x40 + 0x80];
        res := res + [ui / 0x40 % 0x20 + 0xc0];
        res := res + [ui % 0x40 + 0x80];
      } else {
        assert EncodeRune(ui) == [ui / 0x1000 % 0x10 + 0xe0] + [ui / 0x40 % 0x40 + 0x80] + [ui % 0x40 + 0x80];
        res := res + [ui / 0x1000 % 0x10 + 0xe0];
        res := res + [ui / 0x40 % 0x40 + 0x80];
        res := res + [ui % 0x40 + 0x80];
      }
      begin := begin + 1;
    }
    assert units[..|units|] == units;
  }

  // ---------------------------------------------------------------- round trip

  /** What is left of a rune: the two high bits kept of a four-byte lead lose everything from bit 20 on. */
  function Truncated(ui: Rune): Rune {
    ui % 0x10_0000
  }

  function AllTruncated(runes: seq<Rune>): (r: seq<Rune>)
    ensures |r| == |runes|
    ensures forall i :: 0 <= i < |r| ==> r[i] == Truncated(runes[i])
  {
    seq(|runes|, i requires 0 <= i < |runes| => Truncated(runes[i]))
  }

  /** Joining six bits takes them apart again. */
  lemma Joined(high: nat, b: Byte)
    ensures Join(high, b) / 0x40 == high && Join(high, b) % 0x40 == b % 0x40
  {
    Divides(Join(high, b), 0x40, high, b % 0x40);
  }

  /** A continuation byte carries the low six bits. */
  lemma JoinsBack(x: nat)
    ensures Join(x / 0x40, x % 0x40 + 0x80) == x
  {
    Divides(x % 0x40 + 0x80, 0x40, 2, x % 0x40);
  }

  lemma SixBitsMore(ui: nat)
    ensures ui / 0x1000 == ui / 0x40 / 0x40
    ensures ui / 0x4_0000 == ui / 0x40 / 0x40 / 0x40
  {
    var a, b, c := ui % 0x40, ui / 0x40 % 0x40, ui / 0x40 / 0x40 % 0x40;
    assert ui == 0x40 * (ui / 0x40) + a && ui / 0x40 == 0x40 * (ui / 0x40 / 0x40) + b;
    assert ui / 0x40 / 0x40 == 0x40 * (ui / 0x40 / 0x40 / 0x40) + c;
    Divides(ui, 0x1000, ui / 0x40 / 0x40, 0x40 * b + a);
    Divides(ui, 0x4_0000, ui / 0x40 / 0x40 / 0x40, 0x1000 * c + 0x40 * b + a);
  }

  lemma TwoBytes(ui: nat)
    requires 0x80 <= ui <= 0x7ff
    ensures Join((ui / 0x40 % 0x20 + 0xc0) % 0x20, ui % 0x40 + 0x80) == ui
  {
    var h := ui / 0x40;
    JoinsBack(ui);
    hide Join;
    assert h < 0x20 && h % 0x20 == h;
    Divides(h + 0xc0, 0x20, 6, h);
  }

  lemma ThreeBytes(ui: nat)
    requires 0x800 <= ui <= 0xffff
    ensures Join(Join((ui / 0x1000 % 0x10 + 0xe0) % 0x10, ui / 0x40 % 0x40 + 0x80), ui % 0x40 + 0x80) == ui
  {
    var h := ui / 0x1000;
    SixBitsMore(ui);
    JoinsBack(ui);
    JoinsBack(ui / 0x40);
    hide Join;
    assert h < 0x10 && h % 0x10 == h;
    Divides(h + 0xe0, 0x10, 14, h);
  }

  /** The two bits kept of the lead cut the rune off at twenty. */
  lemma FourBytes(ui: nat)
    ensures Join(Join(Join((ui / 0x4_0000 % 4 + 0xf0) % 8, ui / 0x1000 % 0x40 + 0x80), ui / 0x40 % 0x40 + 0x80), ui % 0x40 + 0x80) == ui % 0x10_0000
  {
    var h := ui / 0x4_0000;
    var c := h % 4;
    SixBitsMore(ui);
    Divides(c + 0xf0, 8, 30, c);
    JoinsLow(c, ui / 0x1000);
    JoinsLow(0x40 * c + ui / 0x1000 % 0x40, ui / 0x40);
    JoinsLow(0x40 * (0x40 * c + ui / 0x1000 % 0x40) + ui / 0x40 % 0x40, ui);
    hide Join;
    var q, r := h / 4, 0x4_0000 * c + ui % 0x4_0000;
    assert ui == 0x4_0000 * h + ui % 0x4_0000 && h == 4 * q + c;
    Divides(ui, 0x10_0000, q, r);
    LowEighteen(ui);
  }

  lemma JoinsLow(high: nat, x: nat)
    ensures Join(high, x % 0x40 + 0x80) == high * 0x40 + x % 0x40
  {
    Divides(x % 0x40 + 0x80, 0x40, 2, x % 0x40);
  }

  lemma LowEighteen(ui: nat)
    ensures ui % 0x4_0000 == 0x1000 * (ui / 0x1000 % 0x40) + 0x40 * (ui / 0x40 % 0x40) + ui % 0x40
  {
    var a, b, c := ui % 0x40, ui / 0x40 % 0x40, ui / 0x40 / 0x40 % 0x40;
    SixBitsMore(ui);
    assert ui == 0x40 * (ui / 0x40) + a && ui / 0x40 == 0x40 * (ui / 0x40 / 0x40) + b;
    assert ui / 0x40 / 0x40 == 0x40 * (ui / 0x40 / 0x40 / 0x40) + c;
    Divides(ui, 0x4_0000, ui / 0x40 / 0x40 / 0x40, 0x1000 * c + 0x40 * b + a);
  }

  /** The lead byte announces as many bytes as there are. */
  predicate LeadFits(e: seq<Byte>) {
    match |e|
    case 1 => e[0] < 0x80
    case 2 => 0x80 <= e[0] <= 0xdf
    case 3 => 0xdf < e[0] <= 0xef
    case 4 => 0xef < e[0] <= 0xf7
    case _ => false
  }

  function Payload(e: seq<Byte>): nat
    requires LeadFits(e)
  {
    match |e|
    case 1 => e[0]
    case 2 => Join(e[0] % 0x20, e[1])
    case 3 => Join(Join(e[0] % 0x10, e[1]), e[2])
    case _ => Join(Join(Join(e[0] % 8, e[1]), e[2]), e[3])
  }

  lemma DecodeBytes(s: seq<Byte>, e: seq<Byte>)
    requires LeadFits(e) && e <= s
    ensures DecodeUTF8ToRune(s).rune == Payload(e) && DecodeUTF8ToRune(s).len == |e|
  {
    hide Join;
  }

  lemma EncodedPayload(ui: Rune)
    ensures LeadFits(EncodeRune(ui)) && Payload(EncodeRune(ui)) == Truncated(ui)
  {
    hide Join;
    if ui <= 0x7f {
    } else if ui <= 0x7ff {
      TwoBytes(ui);
    } else if ui <= 0xffff {
      ThreeBytes(ui);
    } else {
      FourBytes(ui);
    }
  }

  lemma DecodeEncodeRune(ui: Rune, rest: seq<Byte>)
    ensures DecodeUTF8ToRune(EncodeRune(ui) + rest) == RuneStrLite(Truncated(ui), |EncodeRune(ui)|)
  {
    hide *;
    EncodedPayload(ui);
    DecodeBytes(EncodeRune(ui) + rest, EncodeRune(ui));
  }

  /** Every encoded string decodes, each rune to its low twenty bits. */
  lemma {:induction false} DecodeEncode(runes: seq<Rune>)
    ensures RunesIn(Encode(runes)) == Some(AllTruncated(runes))
  {
    if runes != [] {
      var e, rest := EncodeRune(runes[0]), Encode(runes[1..]);
      DecodeEncodeRune(runes[0], rest);
      DecodeEncode(runes[1..]);
      assert (e + rest)[|e|..] == rest;
      assert AllTruncated(runes) == [Truncated(runes[0])] + AllTruncated(runes[1..]);
    }
  }

  lemma TruncationLosesNothingExactly(runes: seq<Rune>)
    ensures AllTruncated(runes) == runes <==> forall i :: 0 <= i < |runes| ==> runes[i] < RUNE_LIMIT
  {
    var back := AllTruncated(runes);
    if i :| 0 <= i < |runes| && RUNE_LIMIT <= runes[i] {
      assert back[i] != runes[i];
    }
  }

  /** The round trip holds exactly for the runes below `RUNE_LIMIT`, not for all of Unicode. */
  lemma RoundTripExactly(runes: seq<Rune>)
    ensures RunesIn(Encode(runes)) == Some(runes) <==> forall i :: 0 <= i < |runes| ==> runes[i] < RUNE_LIMIT
  {
    hide *;
    DecodeEncode(runes);
    TruncationLosesNothingExactly(runes);
  }

  /** U+10FFFF is a Unicode character, and it comes back as another one. */
  lemma LastUnicodeCharacterIsLost()
    ensures RunesIn(Encode([0x10_FFFF])) == Some([0xFFFF])
  {
    hide RunesIn, Encode;
    DecodeEncode([0x10_FFFF]);
    assert AllTruncated([0x10_FFFF]) == [0xFFFF];
  }

  lemma {:induction false} EncodeShort(units: seq<Unit16>)
    ensures Short(Encode(units))
  {
    if units != [] {
      var e, rest := EncodeRune(units[0]), Encode(units[1..]);
      DecodeEncodeRune(units[0], rest);
      EncodeShort(units[1..]);
      assert (e + rest)[|e|..] == rest;
    }
  }

  /** Without the four-byte form nothing is lost: 16-bit units always come back. */
  method RoundTrip16(units: seq<Unit16>) returns (ok: bool, back: seq<Unit16>)
    ensures ok && back == units
  {
    var bytes := UnicodeToUtf8(units);
    EncodeShort(units);
    RoundTripExactly(units);
    ok, back := Utf8ToUnicode(bytes);
  }

  // ---------------------------------------------------------------- encoding after decoding

  predicate IsTail(b: Byte) {
    0x80 <= b <= 0xbf
  }

  /** The bytes of one rune in the only form that the encoder writes: that of section 4 of RFC 3629, with surrogates
      and without plane 16. */
  predicate IsShortest(e: seq<Byte>) {
    match |e|
    case 1 => e[0] <= 0x7f
    case 2 => 0xc2 <= e[0] <= 0xdf && IsTail(e[1])
    case 3 => 0xe0 <= e[0] <= 0xef && IsTail(e[1]) && IsTail(e[2]) && (e[0] == 0xe0 ==> 0xa0 <= e[1])
    case 4 => 0xf0 <= e[0] <= 0xf3 && IsTail(e[1]) && IsTail(e[2]) && IsTail(e[3]) && (e[0] == 0xf0 ==> 0x90 <= e[1])
    case _ => false
  }

  /** Every rune of the string is in that form. */
  predicate IsCanonical(s: seq<Byte>)
    decreases |s|
  {
    s != [] ==>
      var rp := DecodeUTF8ToRune(s);
      rp.len != 0 && IsShortest(s[..rp.len]) && IsCanonical(s[rp.len..])
  }

  lemma TailBits(b: Byte)
    ensures b % 0x40 + 0x80 == b <==> IsTail(b)
    ensures IsTail(b) ==> b % 0x40 == b - 0x80
  {
  }

  lemma EncodedLength(r: Rune)
    ensures |EncodeRune(r)| == if r <= 0x7f then 1 else if r <= 0x7ff then 2 else if r <= 0xffff then 3 else 4
  {
  }

  lemma ShortestTwo(e: seq<Byte>)
    requires |e| == 2 && 0x80 <= e[0] <= 0xdf
    ensures EncodeRune(Join(e[0] % 0x20, e[1])) == e <==> IsShortest(e)
  {
    var h: nat := e[0] % 0x20;
    var r := Join(h, e[1]);
    Joined(h, e[1]);
    TailBits(e[1]);
    EncodedLength(r);
    assert r > 0x7f <==> h >= 2;
    assert h % 0x20 == h;
    assert r > 0x7f ==> EncodeRune(r) == [h + 0xc0, e[1] % 0x40 + 0x80];
    hide EncodeRune, Join;
    assert h + 0xc0 == e[0] <==> 0xc0 <= e[0];
  }

  /** The three bytes of a rune, from its digits to base 64. */
  lemma EncodeThree(h: nat, a: nat, b: nat)
    requires h < 0x10 && a < 0x40 && b < 0x40
    ensures var r := (h * 0x40 + a) * 0x40 + b;
            && r <= 0xffff
            && (r > 0x7ff <==> h > 0 || a >= 0x20)
            && (r > 0x7ff ==> EncodeRune(r) == [h + 0xe0, a + 0x80, b + 0x80])
            && (r <= 0x7ff ==> |EncodeRune(r)| < 3)
  {
    var m := h * 0x40 + a;
    var r := m * 0x40 + b;
    Divides(r, 0x40, m, b);
    Divides(m, 0x40, h, a);
    SixBitsMore(r);
  }

  lemma EncodeFour(h: nat, a: nat, b: nat, c: nat)
    requires h < 8 && a < 0x40 && b < 0x40 && c < 0x40
    ensures var r := ((h * 0x40 + a) * 0x40 + b) * 0x40 + c;
            && r < 0x20_0000
            && (r > 0xffff <==> h > 0 || a >= 0x10)
            && (r > 0xffff ==> EncodeRune(r) == [h % 4 + 0xf0, a + 0x80, b + 0x80, c + 0x80])
            && (r <= 0xffff ==> |EncodeRune(r)| < 4)
  {
    var l := h * 0x40 + a;
    var m := l * 0x40 + b;
    var r := m * 0x40 + c;
    Divides(r, 0x40, m, c);
    Divides(m, 0x40, l, b);
    Divides(l, 0x40, h, a);
    SixBitsMore(r);
  }

  lemma ShortestThree(e: seq<Byte>)
    requires |e| == 3 && 0xe0 <= e[0] <= 0xef
    ensures Join(Join(e[0] % 0x10, e[1]), e[2]) <= 0xffff
    ensures EncodeRune(Join(Join(e[0] % 0x10, e[1]), e[2])) == e <==> IsShortest(e)
  {
    hide EncodeRune;
    Divides(e[0], 0x10, 14, e[0] - 0xe0);
    EncodeThree(e[0] - 0xe0, e[1] % 0x40, e[2] % 0x40);
    TailBits(e[1]);
    TailBits(e[2]);
  }

  lemma ShortestFour(e: seq<Byte>)
    requires |e| == 4 && 0xf0 <= e[0] <= 0xf7
    ensures Join(Join(Join(e[0] % 8, e[1]), e[2]), e[3]) < 0x20_0000
    ensures EncodeRune(Join(Join(Join(e[0] % 8, e[1]), e[2]), e[3])) == e <==> IsShortest(e)
  {
    hide EncodeRune;
    Divides(e[0], 8, 30, e[0] - 0xf0);
    EncodeFour(e[0] - 0xf0, e[1] % 0x40, e[2] % 0x40, e[3] % 0x40);
    TailBits(e[1]);
    TailBits(e[2]);
    TailBits(e[3]);
  }

  /** Encoding the first rune again gives back its bytes exactly if they are in shortest form. */
  lemma ReEncodesRune(s: seq<Byte>)
    requires s != [] && DecodeUTF8ToRune(s).len != 0
    ensures var rp := DecodeUTF8ToRune(s);
            EncodeRune(rp.rune) == s[..rp.len] <==> IsShortest(s[..rp.len])
  {
    hide EncodeRune, Join;
    assert s[0..] == s;
    RuneAt(s, 0);
    var rp := DecodeUTF8ToRune(s);
    var e := s[..rp.len];
    if s[0] < 0x80 {
      OneByte(s[0]);
      assert e == [s[0]];
    } else if rp.len == 2 {
      ShortestTwo(e);
    } else if rp.len == 3 {
      ShortestThree(e);
    } else {
      ShortestFour(e);
    }
  }

  lemma OneByte(b: Byte)
    requires b < 0x80
    ensures EncodeRune(b) == [b]
  {
  }

  /** Encoding a decoded string gives it back if and only if every rune of it was in shortest form. */
  lemma {:induction false} EncodeDecodeExactly(s: seq<Byte>)
    requires RunesIn(s).Some?
    ensures Encode(RunesIn(s).value) == s <==> IsCanonical(s)
    decreases |s|
  {
    hide DecodeUTF8ToRune, EncodeRune, IsShortest;
    if s != [] {
      var rp := DecodeUTF8ToRune(s);
      var rest := s[rp.len..];
      var e, more := EncodeRune(rp.rune), Encode(RunesIn(rest).value);
      EncodeDecodeExactly(rest);
      ReEncodesRune(s);
      DecodeEncodeRune(rp.rune, more);
      EncodeCons(rp.rune, RunesIn(rest).value);
      hide Encode, RunesIn;
      assert s == s[..rp.len] + rest;
      if e + more == s {
        assert (e + more)[..|e|] == e && (e + more)[|e|..] == more;
      }
    }
  }

  lemma EncodeCons(r: Rune, runes: seq<Rune>)
    ensures Encode([r] + runes) == EncodeRune(r) + Encode(runes)
  {
    assert ([r] + runes)[1..] == runes;
  }

  /** So the encoder and the decoder are inverse bijections between the runes below `RUNE_LIMIT` and those strings. */
  lemma EncodedIsCanonical(runes: seq<Rune>)
    requires forall i :: 0 <= i < |runes| ==> runes[i] < RUNE_LIMIT
    ensures IsCanonical(Encode(runes))
  {
    RoundTripExactly(runes);
    hide *;
    EncodeDecodeExactly(Encode(runes));
  }

  /** The two 32-bit decoders on one string: same verdict, and the same runes when it is good. */
  method DecodeBothWays(s: seq<Byte>) returns (ok1: bool, runes: seq<Rune>, ok2: bool, strs: seq<RuneStr>)
    requires |s| < UINT32
    ensures ok1 == ok2
    ensures ok2 ==> runes == RunesOf(strs)
  {
    ok1, runes := Utf8ToUnicode32(s);
    ok2, strs := DecodeUTF8RunesInString(s);
    DecodersAgree(s, 0, 0);
    LeadingIsAll(s);
    assert s[0..] == s;
  }
}
