/** Padded Base64 as RFC 4648 defines it: section 4 (Std) and section 5 (Url). */
module Base64 {
  import opened Common

  datatype Alphabet = Std | Url

  const PAD: uint8 := 61

  type Sextet = n: nat | n < 64

  function EncodeChar(a: Alphabet, v: Sextet): uint8 {
    if v < 26 then (65 + v) as uint8
    else if v < 52 then (97 + v - 26) as uint8
    else if v < 62 then (48 + v - 52) as uint8
    else if v == 62 then (if a.Std? then 43 else 45)
    else (if a.Std? then 47 else 95)
  }

  function DecodeChar(a: Alphabet, c: uint8): Option<Sextet> {
    var n := c as int;
    if 65 <= n <= 90 then Some(n - 65)
    else if 97 <= n <= 122 then Some(n - 97 + 26)
    else if 48 <= n <= 57 then Some(n - 48 + 52)
    else if n == (if a.Std? then 43 else 45) then Some(62)
    else if n == (if a.Std? then 47 else 95) then Some(63)
    else None
  }

  function First(b: uint8): Sextet { b as int / 4 }
  function Second(b: uint8, c: uint8): Sextet { b as int % 4 * 16 + c as int / 16 }
  function Third(c: uint8, d: uint8): Sextet { c as int % 16 * 4 + d as int / 64 }
  function Fourth(d: uint8): Sextet { d as int % 64 }

  function Encode(a: Alphabet, x: Bytes): Bytes {
    if x == [] then []
    else if |x| == 1 then
      [EncodeChar(a, First(x[0])), EncodeChar(a, Second(x[0], 0)), PAD, PAD]
    else if |x| == 2 then
      [EncodeChar(a, First(x[0])), EncodeChar(a, Second(x[0], x[1])), EncodeChar(a, Third(x[1], 0)), PAD]
    else
      [EncodeChar(a, First(x[0])), EncodeChar(a, Second(x[0], x[1])),
       EncodeChar(a, Third(x[1], x[2])), EncodeChar(a, Fourth(x[2]))] + Encode(a, x[3..])
  }

  function Byte1(u: Sextet, v: Sextet): uint8 { (u * 4 + v / 16) as uint8 }
  function Byte2(v: Sextet, w: Sextet): uint8 { (v % 16 * 16 + w / 4) as uint8 }
  function Byte3(w: Sextet, z: Sextet): uint8 { (w % 4 * 64 + z) as uint8 }

  /** Decodes text without line breaks. As Go's non-strict decoder, it ignores leftover bits before padding. */
  function DecodeText(a: Alphabet, s: Bytes): Option<Bytes> {
    if s == [] then Some([])
    else if |s| < 4 then None
    else
      var u, v := DecodeChar(a, s[0]), DecodeChar(a, s[1]);
      if u.None? || v.None? then None
      else if s[2] == PAD then
        if s[3] == PAD && |s| == 4 then Some([Byte1(u.value, v.value)]) else None
      else
        var w := DecodeChar(a, s[2]);
        if w.None? then None
        else if s[3] == PAD then
          if |s| == 4 then Some([Byte1(u.value, v.value), Byte2(v.value, w.value)]) else None
        else
          var z, rest := DecodeChar(a, s[3]), DecodeText(a, s[4..]);
          if z.None? || rest.None? then None
          else Some([Byte1(u.value, v.value), Byte2(v.value, w.value), Byte3(w.value, z.value)] + rest.value)
  }

  predicate LineBreak(c: uint8) {
    c == 10 || c == 13
  }

  function StripLineBreaks(s: Bytes): Bytes {
    if s == [] then []
    else if LineBreak(s[0]) then StripLineBreaks(s[1..])
    else [s[0]] + StripLineBreaks(s[1..])
  }

  /** DecodeString, which skips line breaks anywhere. */
  function Decode(a: Alphabet, s: Bytes): Option<Bytes> {
    DecodeText(a, StripLineBreaks(s))
  }

  lemma DecodeEncodeChar(a: Alphabet, v: Sextet)
    ensures DecodeChar(a, EncodeChar(a, v)) == Some(v)
    ensures EncodeChar(a, v) != PAD && !LineBreak(EncodeChar(a, v))
  {
  }

  lemma BytesOfSextets(b: uint8, c: uint8, d: uint8)
    ensures Byte1(First(b), Second(b, c)) == b
    ensures Byte2(Second(b, c), Third(c, d)) == c
    ensures Byte3(Third(c, d), Fourth(d)) == d
  {
  }

  lemma {:induction false} StripEncoded(a: Alphabet, x: Bytes)
    ensures StripLineBreaks(Encode(a, x)) == Encode(a, x)
  {
    StripNothing(Encode(a, x)) by { EncodedHasNoBreaks(a, x); }
  }

  lemma {:induction false} StripNothing(s: Bytes)
    requires forall i :: 0 <= i < |s| ==> !LineBreak(s[i])
    ensures StripLineBreaks(s) == s
  {
    if s != [] {
      StripNothing(s[1..]);
    }
  }

  lemma {:induction false} EncodedHasNoBreaks(a: Alphabet, x: Bytes)
    ensures forall i :: 0 <= i < |Encode(a, x)| ==> !LineBreak(Encode(a, x)[i])
  {
    if |x| >= 3 {
      EncodedHasNoBreaks(a, x[3..]);
    }
  }

  lemma {:induction false} StripConcat(s: Bytes, t: Bytes)
    ensures StripLineBreaks(s + t) == StripLineBreaks(s) + StripLineBreaks(t)
  {
    if s == [] {
      assert s + t == t;
    } else {
      StripConcat(s[1..], t);
      assert (s + t)[1..] == s[1..] + t;
    }
  }

  lemma DecodeQuad(a: Alphabet, u: Sextet, v: Sextet, w: Sextet, z: Sextet, rest: Bytes)
    requires DecodeText(a, rest).Some?
    ensures DecodeText(a, [EncodeChar(a, u), EncodeChar(a, v), EncodeChar(a, w), EncodeChar(a, z)] + rest)
            == Some([Byte1(u, v), Byte2(v, w), Byte3(w, z)] + DecodeText(a, rest).value)
    ensures DecodeText(a, [EncodeChar(a, u), EncodeChar(a, v), EncodeChar(a, w), PAD])
            == Some([Byte1(u, v), Byte2(v, w)])
    ensures DecodeText(a, [EncodeChar(a, u), EncodeChar(a, v), PAD, PAD]) == Some([Byte1(u, v)])
  {
    DecodeEncodeChar(a, u);
    DecodeEncodeChar(a, v);
    DecodeEncodeChar(a, w);
    DecodeEncodeChar(a, z);
    hide EncodeChar, DecodeChar, Byte1, Byte2, Byte3;
    var s := [EncodeChar(a, u), EncodeChar(a, v), EncodeChar(a, w), EncodeChar(a, z)] + rest;
    assert s[4..] == rest;
  }

  /** Decoding inverts encoding in the same alphabet. */
  lemma {:induction false} RoundTrip(a: Alphabet, x: Bytes)
    ensures DecodeText(a, Encode(a, x)) == Some(x)
    decreases |x|
  {
    hide DecodeText, EncodeChar, First, Second, Third, Fourth, Byte1, Byte2, Byte3;
    if x == [] {
      DecodeEmpty(a);
    } else if |x| == 1 {
      DecodeEmpty(a);
      DecodeQuad(a, First(x[0]), Second(x[0], 0), 0, 0, []);
      BytesOfSextets(x[0], 0, 0);
      assert x == [x[0]];
    } else if |x| == 2 {
      DecodeEmpty(a);
      DecodeQuad(a, First(x[0]), Second(x[0], x[1]), Third(x[1], 0), 0, []);
      BytesOfSextets(x[0], x[1], 0);
      assert x == [x[0], x[1]];
    } else {
      RoundTrip(a, x[3..]);
      DecodeQuad(a, First(x[0]), Second(x[0], x[1]), Third(x[1], x[2]), Fourth(x[2]), Encode(a, x[3..]));
      BytesOfSextets(x[0], x[1], x[2]);
      assert x == [x[0], x[1], x[2]] + x[3..];
    }
  }

  // ---------------------------------------------------------------- exactly what decodes

  /** `c` stands for a sextet with the same leading bits as `v`: the same after division by `d`. */
  ghost predicate Leads(a: Alphabet, c: uint8, v: Sextet, d: nat)
    requires d > 0
  {
    exists u: Sextet :: c == EncodeChar(a, u) && u / d == v / d
  }

  /** `s` is the encoding of `x`, but for the bits that padding leaves over. */
  ghost predicate Spells(a: Alphabet, s: Bytes, x: Bytes) {
    if x == [] then s == []
    else
      && |s| >= 4 && s[0] == EncodeChar(a, First(x[0]))
      && if |x| == 1 then |s| == 4 && Leads(a, s[1], Second(x[0], 0), 16) && s[2] == PAD && s[3] == PAD
         else
           && s[1] == EncodeChar(a, Second(x[0], x[1]))
           && if |x| == 2 then |s| == 4 && Leads(a, s[2], Third(x[1], 0), 4) && s[3] == PAD
              else
                && s[2] == EncodeChar(a, Third(x[1], x[2])) && s[3] == EncodeChar(a, Fourth(x[2]))
                && Spells(a, s[4..], x[3..])
  }

  lemma EncodeDecodeChar(a: Alphabet, c: uint8)
    ensures DecodeChar(a, c).Some? ==> EncodeChar(a, DecodeChar(a, c).value) == c && c != PAD
  {
  }

  lemma SextetsOfBytes(u: Sextet, v: Sextet, w: Sextet, z: Sextet)
    ensures First(Byte1(u, v)) == u
    ensures Second(Byte1(u, v), Byte2(v, w)) == v
    ensures Third(Byte2(v, w), Byte3(w, z)) == w
    ensures Fourth(Byte3(w, z)) == z
    ensures Second(Byte1(u, v), 0) / 16 == v / 16
    ensures Third(Byte2(v, w), 0) / 4 == w / 4
  {
  }

  /** A byte read from sextets with the same leading bits. */
  lemma LeadingFour(v: Sextet, b: uint8)
    requires v / 16 == Second(b, 0) / 16
    ensures Byte1(First(b), v) == b
  {
    assert Second(b, 0) / 16 == b as int % 4;
  }

  lemma LeadingTwo(b: uint8, w: Sextet, c: uint8)
    requires w / 4 == Third(c, 0) / 4
    ensures Byte2(Second(b, c), w) == c
  {
    assert Third(c, 0) / 4 == c as int % 16;
    assert Second(b, c) % 16 == c as int / 16;
  }

  /** What decodes spells the result. */
  lemma {:induction false} DecodedSpells(a: Alphabet, s: Bytes)
    ensures DecodeText(a, s).Some? ==> Spells(a, s, DecodeText(a, s).value)
  {
    if DecodeText(a, s).Some? && s != [] {
      var u, v := DecodeChar(a, s[0]).value, DecodeChar(a, s[1]).value;
      var w := if s[2] == PAD then 0 else DecodeChar(a, s[2]).value;
      var z := if s[3] == PAD then 0 else DecodeChar(a, s[3]).value;
      EncodeDecodeChar(a, s[0]);
      EncodeDecodeChar(a, s[1]);
      EncodeDecodeChar(a, s[2]);
      EncodeDecodeChar(a, s[3]);
      SextetsOfBytes(u, v, w, z);
      hide EncodeChar, DecodeChar, First, Second, Third, Fourth, Byte1, Byte2, Byte3;
      assert s[1] == EncodeChar(a, v);
      if s[2] != PAD && s[3] != PAD {
        DecodedSpells(a, s[4..]);
        assert DecodeText(a, s).value[3..] == DecodeText(a, s[4..]).value;
      } else if s[2] != PAD {
        assert s[2] == EncodeChar(a, w);
      }
    }
  }

  /** What spells some bytes decodes to them. */
  lemma {:induction false} SpelledDecodes(a: Alphabet, s: Bytes, x: Bytes)
    requires Spells(a, s, x)
    ensures DecodeText(a, s) == Some(x)
    decreases |x|
  {
    hide EncodeChar, DecodeChar, DecodeText, First, Second, Third, Fourth, Byte1, Byte2, Byte3;
    DecodeEmpty(a);
    if |x| == 1 {
      var v: Sextet :| s[1] == EncodeChar(a, v) && v / 16 == Second(x[0], 0) / 16;
      DecodeQuad(a, First(x[0]), v, 0, 0, []);
      LeadingFour(v, x[0]);
      assert s == [s[0], s[1], s[2], s[3]] && x == [x[0]];
    } else if |x| == 2 {
      var v := Second(x[0], x[1]);
      var w: Sextet :| s[2] == EncodeChar(a, w) && w / 4 == Third(x[1], 0) / 4;
      DecodeQuad(a, First(x[0]), v, w, 0, []);
      LeadingTwo(x[0], w, x[1]);
      BytesOfSextets(x[0], x[1], 0);
      assert s == [s[0], s[1], s[2], s[3]] && x == [x[0], x[1]];
    } else if |x| > 2 {
      SpelledDecodes(a, s[4..], x[3..]);
      DecodeQuad(a, First(x[0]), Second(x[0], x[1]), Third(x[1], x[2]), Fourth(x[2]), s[4..]);
      BytesOfSextets(x[0], x[1], x[2]);
      assert s == [s[0], s[1], s[2], s[3]] + s[4..] && x == [x[0], x[1], x[2]] + x[3..];
    }
  }

  lemma DecodeEmpty(a: Alphabet)
    ensures DecodeText(a, []) == Some([])
  {
  }

  /** Text that both alphabets accept decodes the same way in both. */
  lemma {:induction false} AlphabetsAgree(s: Bytes)
    requires DecodeText(Std, s).Some? && DecodeText(Url, s).Some?
    ensures DecodeText(Std, s) == DecodeText(Url, s)
  {
    if s != [] {
      forall c: uint8 | DecodeChar(Std, c).Some? && DecodeChar(Url, c).Some?
        ensures DecodeChar(Std, c) == DecodeChar(Url, c)
      {
      }
      hide DecodeChar, Byte1, Byte2, Byte3;
      if |s| > 4 {
        AlphabetsAgree(s[4..]);
      }
    }
  }
}

/** Decoding provider values. */
module Decoding {
  import opened Common
  import Base64

  datatype Strategy = Base64 | Base64URL | Plain | Unset | Auto | Unsupported

  function OrError(r: Option<Bytes>): Result<Bytes> {
    match r
    case Some(x) => Ok(x)
    case None => Err("illegal base64 data")
  }

  function Decode(strategy: Strategy, x: Bytes): (r: Result<Bytes>)
    ensures strategy.Auto? ==> r.Ok?
    decreases if strategy.Auto? then 1 else 0
  {
    match strategy
    case Base64 => OrError(Base64.Decode(Base64.Std, x))
    case Base64URL => OrError(Base64.Decode(Base64.Url, x))
    case Plain => Ok(x)
    case Unset => Ok(x)
    case Auto =>
      var std := Decode(Base64, x);
      if std.Ok? then std
      else
        var url := Decode(Base64URL, x);
        if url.Ok? then url else Decode(Plain, x)
    case Unsupported => Err("decoding strategy is not supported")
  }

  /** The two decoders accept exactly the text, with line breaks anywhere, that spells some bytes. */
  lemma DecodesExactly(strategy: Strategy, x: Bytes, y: Bytes)
    requires strategy.Base64? || strategy.Base64URL?
    ensures var a := if strategy.Base64? then Base64.Std else Base64.Url;
            Decode(strategy, x) == Ok(y) <==> Base64.Spells(a, Base64.StripLineBreaks(x), y)
  {
    var a := if strategy.Base64? then Base64.Std else Base64.Url;
    var s := Base64.StripLineBreaks(x);
    Base64.DecodedSpells(a, s);
    if Base64.Spells(a, s, y) {
      Base64.SpelledDecodes(a, s, y);
    }
  }

  /** A newline or carriage return makes no difference to the two decoders; any other byte is read. */
  lemma BreaksIgnored(strategy: Strategy, s: Bytes, c: uint8, t: Bytes)
    requires strategy.Base64? || strategy.Base64URL?
    ensures c == 10 || c == 13 ==> Decode(strategy, s + [c] + t) == Decode(strategy, s + t)
    ensures c != 10 && c != 13 ==> Base64.StripLineBreaks([c]) == [c]
  {
    Base64.StripConcat(s + [c], t);
    Base64.StripConcat(s, [c]);
    Base64.StripConcat(s, t);
    assert [c][1..] == [];
    assert Base64.StripLineBreaks([c]) == if c == 10 || c == 13 then [] else [c];
    assert Base64.StripLineBreaks(s) + [] == Base64.StripLineBreaks(s);
  }

  /** What neither alphabet accepts Auto leaves as it is, as the strategies without an encoding do. */
  lemma OtherwiseUnchanged(x: Bytes)
    ensures Decode(Base64, x).Err? && Decode(Base64URL, x).Err? ==> Decode(Auto, x) == Ok(x)
    ensures Decode(Plain, x) == Ok(x) && Decode(Unset, x) == Ok(x)
    ensures Decode(Unsupported, x).Err?
  {
  }

  /** Auto inverts the section 4 encoding. */
  lemma AutoInvertsStd(x: Bytes)
    ensures Decode(Auto, Base64.Encode(Base64.Std, x)) == Ok(x)
  {
    Base64.StripEncoded(Base64.Std, x);
    Base64.RoundTrip(Base64.Std, x);
  }

  /** Auto inverts the section 5 encoding, although it tries section 4 first. */
  lemma AutoInvertsUrl(x: Bytes)
    ensures Decode(Auto, Base64.Encode(Base64.Url, x)) == Ok(x)
  {
    var s := Base64.Encode(Base64.Url, x);
    Base64.StripEncoded(Base64.Url, x);
    Base64.RoundTrip(Base64.Url, x);
    if Base64.DecodeText(Base64.Std, s).Some? {
      Base64.AlphabetsAgree(s);
    }
  }

  /** The order in which Auto tries the two alphabets makes no difference on any input. */
  lemma AutoOrderIrrelevant(x: Bytes)
    requires Decode(Base64URL, x).Ok?
    ensures Decode(Auto, x) == Decode(Base64URL, x)
  {
    if Decode(Base64, x).Ok? {
      Base64.AlphabetsAgree(Base64.StripLineBreaks(x));
    }
  }

  /** DecodeMap: all values decoded, or an error if one cannot be. */
  method DecodeMap(strategy: Strategy, m: SecretData) returns (r: Result<SecretData>)
    ensures r.Ok? <==> forall k <- m :: Decode(strategy, m[k]).Ok?
    ensures r.Ok? ==> r.value.Keys == m.Keys && forall k <- m :: Decode(strategy, m[k]) == Ok(r.value[k])
  {
    hide Decode;
    var out: SecretData := map[];
    var todo := m.Keys;
    while todo != {}
      invariant todo <= m.Keys && out.Keys == m.Keys - todo
      invariant forall k <- out :: Decode(strategy, m[k]) == Ok(out[k])
      decreases todo
    {
      var k :| k in todo;
      todo := todo - {k};
      var val := Decode(strategy, m[k]);
      if val.Err? {
        return Err(val.msg);
      }
      out := out[k := val.value];
    }
    return Ok(out);
  }
}
