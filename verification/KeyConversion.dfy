/**
  Converting provider keys into valid Secret keys. Strings are sequences of code points;
  which of them are letters or numbers is a parameter, known only to include what the
  escapes themselves are written with.
 */
module KeyConversion {
  import opened Common

  datatype Strategy = Default | Unicode | Other

  type CharClass = char -> bool

  /** The letters and digits that escapes use count as letters or numbers. */
  ghost predicate CoversEscapes(alnum: CharClass) {
    alnum('U') && forall d: nat | d < 16 :: alnum(HexDigit(d))
  }

  predicate ValidChar(alnum: CharClass, c: char) {
    alnum(c) || c == '-' || c == '.' || c == '_'
  }

  ghost predicate ValidKey(alnum: CharClass, s: string) {
    forall i :: 0 <= i < |s| ==> ValidChar(alnum, s[i])
  }

  // ---------------------------------------------------------------- hexadecimal

  function HexDigit(d: nat): char
    requires d < 16
  {
    "0123456789abcdef"[d]
  }

  predicate IsHexDigit(c: char) {
    '0' <= c <= '9' || 'a' <= c <= 'f'
  }

  function DigitValue(c: char): nat {
    if '0' <= c <= '9' then c as int - '0' as int
    else if 'a' <= c <= 'f' then c as int - 'a' as int + 10
    else 0
  }

  function Hex(n: nat): (s: string)
    ensures |s| >= 1
  {
    if n < 16 then [HexDigit(n)] else Hex(n / 16) + [HexDigit(n % 16)]
  }

  /** The verb %04x. */
  function Hex4(n: nat): string {
    var s := Hex(n);
    seq(if |s| < 4 then 4 - |s| else 0, _ => '0') + s
  }

  function FromHex(s: string): nat {
    if s == "" then 0 else 16 * FromHex(s[..|s| - 1]) + DigitValue(s[|s| - 1])
  }

  lemma HexDigitValue(d: nat)
    requires d < 16
    ensures DigitValue(HexDigit(d)) == d && IsHexDigit(HexDigit(d))
  {
  }

  lemma {:induction false} FromHexOfHex(n: nat)
    ensures FromHex(Hex(n)) == n
  {
    if n < 16 {
      HexDigitValue(n);
      assert [HexDigit(n)][..0] == "";
    } else {
      FromHexOfHex(n / 16);
      HexDigitValue(n % 16);
      assert Hex(n)[..|Hex(n)| - 1] == Hex(n / 16);
    }
  }

  lemma {:induction false} FromHexPadded(zeros: string, s: string)
    requires forall i :: 0 <= i < |zeros| ==> zeros[i] == '0'
    ensures FromHex(zeros + s) == FromHex(s)
  {
    if s != "" {
      FromHexPadded(zeros, s[..|s| - 1]);
      assert (zeros + s)[..|zeros + s| - 1] == zeros + s[..|s| - 1];
    } else if zeros != "" {
      FromHexPadded(zeros[..|zeros| - 1], "");
      assert zeros + s == zeros;
      assert zeros[..|zeros| - 1] + "" == zeros[..|zeros| - 1];
    }
  }

  ghost predicate HexText(alnum: CharClass, s: string) {
    forall i :: 0 <= i < |s| ==> alnum(s[i]) && IsHexDigit(s[i])
  }

  /** Hex(n) is made of hex digits, and of at most `d` of them below 16^d. */
  lemma {:induction false} HexChars(alnum: CharClass, n: nat)
    requires CoversEscapes(alnum)
    ensures HexText(alnum, Hex(n))
    ensures n < 0x1000000 ==> |Hex(n)| <= 6
    ensures n < 0x100000 ==> |Hex(n)| <= 5
    ensures n < 0x10000 ==> |Hex(n)| <= 4
    ensures n < 0x1000 ==> |Hex(n)| <= 3
    ensures n < 0x100 ==> |Hex(n)| <= 2
  {
    if n < 16 {
      HexDigitValue(n);
    } else {
      HexChars(alnum, n / 16);
      HexDigitValue(n % 16);
    }
  }

  lemma Hex4Chars(alnum: CharClass, c: char)
    requires CoversEscapes(alnum)
    ensures HexText(alnum, Hex4(c as int))
    ensures 4 <= |Hex4(c as int)| <= 6
    ensures FromHex(Hex4(c as int)) == c as int
  {
    var n := c as int;
    HexChars(alnum, n);
    FromHexOfHex(n);
    var zeros := seq(if |Hex(n)| < 4 then 4 - |Hex(n)| else 0, _ => '0');
    FromHexPadded(zeros, Hex(n));
    assert HexDigit(0) == '0';
  }

  // ---------------------------------------------------------------- convert

  function EscapeOf(c: char): string {
    "_U" + Hex4(c as int) + "_"
  }

  function ConvertChar(alnum: CharClass, strategy: Strategy, c: char): string {
    if ValidChar(alnum, c) then [c]
    else
      match strategy
      case Default => "_"
      case Unicode => EscapeOf(c)
      case Other => [c]
  }

  function Converted(alnum: CharClass, strategy: Strategy, s: string): string {
    if s == "" then "" else ConvertChar(alnum, strategy, s[0]) + Converted(alnum, strategy, s[1..])
  }

  function Join(parts: seq<string>): string {
    if parts == [] then "" else parts[0] + Join(parts[1..])
  }

  lemma {:induction false} JoinConverted(alnum: CharClass, strategy: Strategy, s: string, parts: seq<string>)
    requires |parts| == |s| && forall i :: 0 <= i < |s| ==> parts[i] == ConvertChar(alnum, strategy, s[i])
    ensures Join(parts) == Converted(alnum, strategy, s)
  {
    if s != "" {
      JoinConverted(alnum, strategy, s[1..], parts[1..]);
    }
  }

  method Convert(alnum: CharClass, strategy: Strategy, str: string) returns (r: string)
    ensures r == Converted(alnum, strategy, str)
  {
    var newName := new string[|str|];
    for rk := 0 to |str|
      invariant forall i :: 0 <= i < rk ==> newName[i] == ConvertChar(alnum, strategy, str[i])
    {
      var rv := str[rk];
      if !alnum(rv) && rv != '-' && rv != '.' && rv != '_' {
        match strategy {
          case Default => newName[rk] := "_";
          case Unicode => newName[rk] := "_U" + Hex4(rv as int) + "_";
          case Other => newName[rk] := [rv];
        }
      } else {
        newName[rk] := [rv];
      }
    }
    r := Join(newName[..]);
    JoinConverted(alnum, strategy, str, newName[..]);
  }

  /** A valid key is left alone. */
  lemma {:induction false} ValidUnchanged(alnum: CharClass, strategy: Strategy, s: string)
    requires ValidKey(alnum, s)
    ensures Converted(alnum, strategy, s) == s
  {
    if s != "" {
      assert ValidChar(alnum, s[0]);
      assert ValidKey(alnum, s[1..]);
      ValidUnchanged(alnum, strategy, s[1..]);
    }
  }

  /** The Default and Unicode strategies always give a valid key. */
  lemma {:induction false} ConvertedIsValid(alnum: CharClass, strategy: Strategy, s: string)
    requires CoversEscapes(alnum) && !strategy.Other?
    ensures ValidKey(alnum, Converted(alnum, strategy, s))
  {
    hide ConvertChar, ValidChar, CoversEscapes;
    if s != "" {
      ConvertedIsValid(alnum, strategy, s[1..]);
      ConvertCharIsValid(alnum, strategy, s[0]);
    }
  }

  lemma ConvertCharIsValid(alnum: CharClass, strategy: Strategy, c: char)
    requires CoversEscapes(alnum) && !strategy.Other?
    ensures ValidKey(alnum, ConvertChar(alnum, strategy, c))
  {
    hide Hex4;
    Hex4Chars(alnum, c);
  }

  /** The Default strategy puts one underscore for each invalid character and keeps the others. */
  lemma {:induction false} DefaultCharByChar(alnum: CharClass, s: string, i: nat)
    requires i < |s|
    ensures |Converted(alnum, Default, s)| == |s|
    ensures var c := s[i];
            Converted(alnum, Default, s)[i] == if alnum(c) || c == '-' || c == '.' || c == '_' then c else '_'
  {
    hide Hex4;
    if |s| > 1 {
      DefaultCharByChar(alnum, s[1..], if i == 0 then 0 else i - 1);
    }
  }

  /** Other strategies change nothing. */
  lemma {:induction false} OtherUnchanged(alnum: CharClass, s: string)
    ensures Converted(alnum, Other, s) == s
  {
    hide Hex4;
    if s != "" {
      OtherUnchanged(alnum, s[1..]);
    }
  }

  // ---------------------------------------------------------------- undoing the Unicode strategy

  function FirstUnderscore(s: string): (n: nat)
    ensures n <= |s| && '_' !in s[..n] && (n < |s| ==> s[n] == '_')
  {
    if s == "" || s[0] == '_' then 0 else 1 + FirstUnderscore(s[1..])
  }

  predicate IsCodePoint(n: nat) {
    n < 0xD800 || 0xE000 <= n < 0x110000
  }

  /** An escape begins with "_U" and a digit. */
  predicate OpensEscape(s: string) {
    |s| >= 3 && s[0] == '_' && s[1] == 'U' && IsHexDigit(s[2])
  }

  ghost predicate EscapeFree(s: string) {
    forall i :: 0 <= i < |s| ==> !OpensEscape(s[i..])
  }

  /** Reads back a Unicode-strategy conversion: "_U" and a digit open an escape "_U<hex>_". */
  function Unescape(s: string): Option<string> {
    if s == "" then Some("")
    else if !OpensEscape(s) then
      match Unescape(s[1..])
      case Some(t) => Some([s[0]] + t)
      case None => None
    else
      var n := FirstUnderscore(s[1..]);
      var code := FromHex(s[2..1 + n]);
      if n == |s| - 1 || !IsCodePoint(code) then None
      else
        match Unescape(s[n + 2..])
        case Some(t) => Some([code as char] + t)
        case None => None
  }

  lemma UnescapeEscape(alnum: CharClass, c: char, rest: string)
    requires CoversEscapes(alnum) && Unescape(rest).Some?
    ensures Unescape(EscapeOf(c) + rest) == Some([c] + Unescape(rest).value)
  {
    hide Hex4, FromHex, CoversEscapes, FirstUnderscore;
    Hex4Chars(alnum, c);
    var h := Hex4(c as int);
    var s := EscapeOf(c) + rest;
    assert s[1..] == ("U" + h) + ("_" + rest);
    FirstUnderscoreAt("U" + h, rest);
    var n := FirstUnderscore(s[1..]);
    assert s[2..1 + n] == h;
    assert s[n + 2..] == rest;
  }

  lemma FirstUnderscoreAt(head: string, rest: string)
    requires '_' !in head
    ensures FirstUnderscore(head + ("_" + rest)) == |head|
  {
    var s := head + ("_" + rest);
    assert s[|head|] == '_';
    assert forall i :: 0 <= i < |head| ==> s[i] == head[i] && s[i] != '_';
  }

  /** A conversion starts with the first character, or with the underscore of its escape. */
  lemma ConvertedHead(alnum: CharClass, s: string)
    ensures s == "" <==> Converted(alnum, Unicode, s) == ""
    ensures s != "" ==> Converted(alnum, Unicode, s)[0] == if ValidChar(alnum, s[0]) then s[0] else '_'
  {
  }

  /** Conversion opens no escape where a valid character stood, unless the string itself does. */
  lemma OpensNone(alnum: CharClass, s: string)
    requires CoversEscapes(alnum) && s != "" && ValidChar(alnum, s[0]) && !OpensEscape(s)
    ensures !OpensEscape(Converted(alnum, Unicode, s))
  {
    hide Hex4, EscapeOf;
    ConvertedHead(alnum, s[1..]);
    if |s| > 1 && s[0] == '_' && s[1] == 'U' {
      assert Converted(alnum, Unicode, s[1..]) == ConvertChar(alnum, Unicode, 'U') + Converted(alnum, Unicode, s[2..]);
      ConvertedHead(alnum, s[2..]);
    }
  }

  /** The decoder recovers every string that does not itself open an escape. */
  lemma {:induction false} UnicodeRoundTrip(alnum: CharClass, s: string)
    requires CoversEscapes(alnum) && EscapeFree(s)
    ensures Unescape(Converted(alnum, Unicode, s)) == Some(s)
  {
    hide OpensEscape, EscapeOf, CoversEscapes;
    if s != "" {
      var rest := Converted(alnum, Unicode, s[1..]);
      assert !OpensEscape(s) by { assert s[0..] == s; }
      assert forall i :: 0 <= i < |s| - 1 ==> s[1..][i..] == s[i + 1..];
      UnicodeRoundTrip(alnum, s[1..]);
      assert s == [s[0]] + s[1..];
      if ValidChar(alnum, s[0]) {
        OpensNone(alnum, s);
        assert ([s[0]] + rest)[1..] == rest;
      } else {
        UnescapeEscape(alnum, s[0], rest);
      }
    }
  }

  // ---------------------------------------------------------------- which keys can collide

  lemma {:induction false} ConvertedConcat(alnum: CharClass, strategy: Strategy, s: string, t: string)
    ensures Converted(alnum, strategy, s + t) == Converted(alnum, strategy, s) + Converted(alnum, strategy, t)
  {
    hide ConvertChar;
    if s == "" {
      assert s + t == t;
    } else {
      ConvertedConcat(alnum, strategy, s[1..], t);
      assert (s + t)[1..] == s[1..] + t;
    }
  }

  ghost predicate EscapeAt(alnum: CharClass, s: string, i: nat, c: char) {
    !ValidChar(alnum, c) && i <= |s| && EscapeOf(c) <= s[i..]
  }

  /** The escape of some invalid character is written out in `s`. */
  ghost predicate WritesEscape(alnum: CharClass, s: string) {
    exists i: nat, c: char :: EscapeAt(alnum, s, i, c)
  }

  /** Some other key is converted to the same text. */
  ghost predicate Ambiguous(alnum: CharClass, k: string) {
    exists l: string :: l != k && Converted(alnum, Unicode, l) == Converted(alnum, Unicode, k)
  }

  lemma EscapeIsValid(alnum: CharClass, c: char)
    requires CoversEscapes(alnum)
    ensures ValidKey(alnum, EscapeOf(c)) && Converted(alnum, Unicode, EscapeOf(c)) == EscapeOf(c)
    ensures |EscapeOf(c)| > 1
  {
    Hex4Chars(alnum, c);
    ValidUnchanged(alnum, Unicode, EscapeOf(c));
  }

  /** The character and its escape, in the same surroundings, become one text. */
  lemma EscapeAndCharacter(alnum: CharClass, a: string, c: char, b: string)
    requires CoversEscapes(alnum) && !ValidChar(alnum, c)
    ensures Converted(alnum, Unicode, a + [c] + b) == Converted(alnum, Unicode, a + EscapeOf(c) + b)
  {
    hide EscapeOf, Converted;
    EscapeIsValid(alnum, c);
    ConvertedOne(alnum, c);
    ConvertedConcat(alnum, Unicode, a + [c], b);
    ConvertedConcat(alnum, Unicode, a, [c]);
    ConvertedConcat(alnum, Unicode, a + EscapeOf(c), b);
    ConvertedConcat(alnum, Unicode, a, EscapeOf(c));
  }

  lemma ConvertedOne(alnum: CharClass, c: char)
    ensures Converted(alnum, Unicode, [c]) == ConvertChar(alnum, Unicode, c)
  {
    hide ConvertChar;
    assert [c][1..] == "";
  }

  /** A key shares its text with another exactly when it has an invalid character or writes out an escape of one. */
  lemma AmbiguousExactly(alnum: CharClass, k: string)
    requires CoversEscapes(alnum)
    ensures Ambiguous(alnum, k) <==> !ValidKey(alnum, k) || WritesEscape(alnum, k)
  {
    hide EscapeOf, CoversEscapes, Converted, EscapeAt;
    if !ValidKey(alnum, k) {
      var l := Converted(alnum, Unicode, k);
      ConvertedIsValid(alnum, Unicode, k);
      ValidUnchanged(alnum, Unicode, l);
      assert l != k && Converted(alnum, Unicode, l) == Converted(alnum, Unicode, k);
    } else if WritesEscape(alnum, k) {
      var i: nat, c: char :| EscapeAt(alnum, k, i, c);
      WrittenEscapeIsAmbiguous(alnum, k, i, c);
    } else if Ambiguous(alnum, k) {
      var l :| l != k && Converted(alnum, Unicode, l) == Converted(alnum, Unicode, k);
      ValidUnchanged(alnum, Unicode, k);
      OthersWriteEscapes(alnum, l, k);
    }
  }

  lemma WrittenEscapeIsAmbiguous(alnum: CharClass, k: string, i: nat, c: char)
    requires CoversEscapes(alnum) && EscapeAt(alnum, k, i, c)
    ensures Ambiguous(alnum, k)
  {
    hide EscapeOf, CoversEscapes, Converted;
    var e := EscapeOf(c);
    var a, b := k[..i], k[i..][|e|..];
    EscapeIsValid(alnum, c);
    EscapeAndCharacter(alnum, a, c, b);
    assert a + e + b == k;
    assert |a + [c] + b| != |k|;
  }

  /** Only a string with an invalid character is converted to another one, and that writes out its escape. */
  lemma OthersWriteEscapes(alnum: CharClass, l: string, k: string)
    requires CoversEscapes(alnum) && Converted(alnum, Unicode, l) == k && l != k
    ensures WritesEscape(alnum, k)
  {
    hide EscapeOf, CoversEscapes;
    if ValidKey(alnum, l) {
      ValidUnchanged(alnum, Unicode, l);
    } else {
      var i :| 0 <= i < |l| && !ValidChar(alnum, l[i]);
      var a, b := Converted(alnum, Unicode, l[..i]), Converted(alnum, Unicode, l[i + 1..]);
      assert l == l[..i] + l[i..] && l[i..][1..] == l[i + 1..];
      ConvertedConcat(alnum, Unicode, l[..i], l[i..]);
      assert k == a + (EscapeOf(l[i]) + b);
      assert k[|a|..] == EscapeOf(l[i]) + b;
      assert EscapeAt(alnum, k, |a|, l[i]);
    }
  }

  // ---------------------------------------------------------------- whole maps

  ghost predicate Collides(alnum: CharClass, strategy: Strategy, m: SecretData) {
    exists k <- m, l <- m :: k != l && Converted(alnum, strategy, k) == Converted(alnum, strategy, l)
  }

  /** `out` is `m` with its keys converted. */
  ghost predicate Relabelled(alnum: CharClass, strategy: Strategy, m: SecretData, out: SecretData) {
    && (forall k <- m :: Converted(alnum, strategy, k) in out && out[Converted(alnum, strategy, k)] == m[k])
    && (forall o <- out :: exists k <- m :: Converted(alnum, strategy, k) == o)
  }

  /** ConvertKeys fails exactly on a collision, and otherwise relabels. */
  ghost predicate ConvertResult(alnum: CharClass, strategy: Strategy, m: SecretData, r: Result<SecretData>) {
    && (r.Err? <==> Collides(alnum, strategy, m))
    && (r.Ok? ==> Relabelled(alnum, strategy, m, r.value))
  }

  /** One more entry: a collision if its key is taken, else still a relabelling. */
  lemma ConvertOneMore(alnum: CharClass, strategy: Strategy, done: SecretData, out: SecretData, k: string, v: Bytes)
    requires !Collides(alnum, strategy, done) && Relabelled(alnum, strategy, done, out) && k !in done
    ensures var key := Converted(alnum, strategy, k);
            if key in out then Collides(alnum, strategy, done[k := v])
            else !Collides(alnum, strategy, done[k := v]) && Relabelled(alnum, strategy, done[k := v], out[key := v])
  {
    hide Converted;
    var key, done' := Converted(alnum, strategy, k), done[k := v];
    if key in out {
      var l :| l in done && Converted(alnum, strategy, l) == key;
      assert l in done' && k in done' && l != k;
    }
  }

  lemma CollidesMonotone(alnum: CharClass, strategy: Strategy, part: SecretData, m: SecretData)
    requires Collides(alnum, strategy, part) && part.Keys <= m.Keys
    ensures Collides(alnum, strategy, m)
  {
  }

  method ConvertKeys(alnum: CharClass, strategy: Strategy, m: SecretData) returns (r: Result<SecretData>)
    ensures ConvertResult(alnum, strategy, m, r)
  {
    hide Converted, Collides, Relabelled;
    var out: SecretData := map[];
    var todo := m.Keys;
    ghost var done: SecretData := map[];
    ConvertNothing(alnum, strategy);
    while todo != {}
      invariant todo <= m.Keys && done == map k | k in m && k !in todo :: m[k]
      invariant !Collides(alnum, strategy, done) && Relabelled(alnum, strategy, done, out)
      decreases todo
    {
      var k :| k in todo;
      todo := todo - {k};
      var key := Convert(alnum, strategy, k);
      ConvertOneMore(alnum, strategy, done, out, k, m[k]);
      done := done[k := m[k]];
      if key in out {
        CollidesMonotone(alnum, strategy, done, m);
        return Err("secret name collision during conversion");
      }
      out := out[key := m[k]];
    }
    assert done == m;
    return Ok(out);
  }

  lemma ConvertNothing(alnum: CharClass, strategy: Strategy)
    ensures !Collides(alnum, strategy, map[]) && Relabelled(alnum, strategy, map[], map[])
  {
  }

  /** The result does not depend on the order in which the map is walked. */
  lemma ConvertKeysDeterministic(alnum: CharClass, strategy: Strategy, m: SecretData,
                                 r: Result<SecretData>, r': Result<SecretData>)
    requires ConvertResult(alnum, strategy, m, r) && ConvertResult(alnum, strategy, m, r')
    ensures r.Ok? == r'.Ok? && (r.Ok? ==> r.value == r'.value)
  {
  }

  /** How many keys hold the value `v`. */
  ghost function Holders(m: SecretData, v: Bytes): set<string> {
    set k <- m | m[k] == v
  }

  lemma {:induction false} ImageSize(keys: set<string>, f: string -> string, image: set<string>)
    requires forall k <- keys, l <- keys :: f(k) == f(l) ==> k == l
    requires forall k <- keys :: f(k) in image
    requires forall o <- image :: exists k <- keys :: f(k) == o
    ensures |image| == |keys|
  {
    if keys == {} {
      assert image == {};
    } else {
      var k :| k in keys;
      ImageSize(keys - {k}, f, image - {f(k)});
    }
  }

  /** A successful conversion keeps the number of entries and the multiset of values. */
  lemma ConvertKeysConserves(alnum: CharClass, strategy: Strategy, m: SecretData, out: SecretData)
    requires ConvertResult(alnum, strategy, m, Ok(out))
    ensures |out| == |m|
    ensures forall v: Bytes :: |Holders(out, v)| == |Holders(m, v)|
  {
    var f := k => Converted(alnum, strategy, k);
    ImageSize(m.Keys, f, out.Keys);
    forall v: Bytes
      ensures |Holders(out, v)| == |Holders(m, v)|
    {
      forall o <- Holders(out, v)
        ensures exists k <- Holders(m, v) :: f(k) == o
      {
        var k :| k in m && Converted(alnum, strategy, k) == o;
        assert k in Holders(m, v) && f(k) == o;
      }
      ImageSize(Holders(m, v), f, Holders(out, v));
    }
  }

  ghost predicate ValidKeys(alnum: CharClass, m: SecretData) {
    forall k <- m :: ValidKey(alnum, k)
  }

  /** Default and Unicode conversions pass ValidateKeys, and converting again changes nothing. */
  lemma ConvertKeysFixedPoint(
      alnum: CharClass, strategy: Strategy, m: SecretData, out: SecretData, r: Result<SecretData>)
    requires CoversEscapes(alnum) && !strategy.Other?
    requires ConvertResult(alnum, strategy, m, Ok(out))
    requires ConvertResult(alnum, strategy, out, r)
    ensures ValidKeys(alnum, out) && r == Ok(out)
  {
    hide Converted, CoversEscapes;
    forall o <- out
      ensures ValidKey(alnum, o) && Converted(alnum, strategy, o) == o
    {
      var k :| k in m && Converted(alnum, strategy, k) == o;
      ConvertedIsValid(alnum, strategy, k);
      ValidUnchanged(alnum, strategy, o);
    }
    assert r.Ok? ==> r.value == out;
  }

  /** The Unicode strategy never collides on keys that open no escape, such as DB_PASSWORD. */
  lemma UnicodeNeverCollides(alnum: CharClass, m: SecretData, r: Result<SecretData>)
    requires CoversEscapes(alnum) && forall k <- m :: EscapeFree(k)
    requires ConvertResult(alnum, Unicode, m, r)
    ensures r.Ok?
  {
    forall k <- m { UnicodeRoundTrip(alnum, k); }
  }

  /** In particular on underscore-free keys. */
  lemma UnderscoreFreeNeverCollides(alnum: CharClass, m: SecretData, r: Result<SecretData>)
    requires CoversEscapes(alnum) && forall k <- m :: '_' !in k
    requires ConvertResult(alnum, Unicode, m, r)
    ensures r.Ok?
  {
    UnicodeNeverCollides(alnum, m, r);
  }

  /** With underscores it may: an escape written out and the character it stands for. */
  lemma UnderscoresCollide(alnum: CharClass, v: Bytes, w: Bytes, r: Result<SecretData>)
    requires CoversEscapes(alnum) && !alnum(' ')
    requires ConvertResult(alnum, Unicode, map[" " := v, "_U0020_" := w], r)
    ensures r.Err?
  {
    hide Converted;
    var m, space, escaped := map[" " := v, "_U0020_" := w], " ", "_U0020_";
    SpaceEscaped(alnum);
    assert space in m && escaped in m && space[0] != escaped[0];
  }

  lemma SpaceEscaped(alnum: CharClass)
    requires CoversEscapes(alnum) && !alnum(' ')
    ensures Converted(alnum, Unicode, " ") == "_U0020_" == Converted(alnum, Unicode, "_U0020_")
  {
    var e := "_U0020_";
    assert HexDigit(2) == '2' && HexDigit(0) == '0';
    assert Hex(32) == "20";
    assert Hex4(32) == "0020";
    ValidUnchanged(alnum, Unicode, e);
  }

  method ValidateKeys(alnum: CharClass, m: SecretData) returns (ok: bool)
    ensures ok <==> ValidKeys(alnum, m)
  {
    var todo := m.Keys;
    while todo != {}
      invariant todo <= m.Keys
      invariant forall k | k in m && k !in todo :: ValidKey(alnum, k)
      decreases todo
    {
      var key :| key in todo;
      todo := todo - {key};
      for i := 0 to |key|
        invariant forall j :: 0 <= j < i ==> ValidChar(alnum, key[j])
      {
        if !alnum(key[i]) && key[i] != '-' && key[i] != '.' && key[i] != '_' {
          return false;
        }
      }
    }
    return true;
  }
}
