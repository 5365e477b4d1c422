/** The text that ObjectHash digests: fmt's rendering of a Secret's data. */
module DataHash {
  import opened Common

  function Digit(n: nat): char
    requires n < 10
  {
    '0' + n as char
  }

  /** A byte in decimal. */
  function Decimal(b: uint8): (s: string)
    ensures s != [] && ' ' !in s && ']' !in s
  {
    var n := b as int;
    if n < 10 then [Digit(n)]
    else if n < 100 then [Digit(n / 10), Digit(n % 10)]
    else [Digit(n / 100), Digit(n / 10 % 10), Digit(n % 10)]
  }

  /** What follows an item: nothing, or a space and the other items. */
  function Spaced(rest: string): string {
    if rest == "" then "" else " " + rest
  }

  /** Bytes in decimal, with single spaces between them. */
  function Numbers(bytes: Bytes): (s: string)
    ensures ']' !in s && (s == "" <==> bytes == [])
  {
    if bytes == [] then "" else Decimal(bytes[0]) + Spaced(Numbers(bytes[1..]))
  }

  function Entry(k: string, bytes: Bytes): (s: string)
    ensures s != ""
  {
    k + ":[" + Numbers(bytes) + "]"
  }

  /** The entries of `m` in the order of `keys`, with single spaces between them. */
  function Entries(m: SecretData, keys: seq<string>): (s: string)
    requires forall k <- keys :: k in m
    ensures s == "" <==> keys == []
  {
    if keys == [] then "" else Entry(keys[0], m[keys[0]]) + Spaced(Entries(m, keys[1..]))
  }

  ghost predicate Lists(keys: seq<string>, m: SecretData) {
    NoRepeats(keys) && forall k :: k in keys <==> k in m
  }

  function Bracketed(entries: string): string {
    "map[" + entries + "]"
  }

  ghost predicate PrintsAs(m: SecretData, keys: seq<string>, text: string) {
    Lists(keys, m) && text == Bracketed(Entries(m, keys))
  }

  /** `text` is what `%+v` may print for `m`; fmt fixes one order of the keys. */
  ghost predicate Prints(m: SecretData, text: string) {
    exists keys :: PrintsAs(m, keys, text)
  }

  predicate KeyChar(c: char) {
    'a' <= c <= 'z' || 'A' <= c <= 'Z' || '0' <= c <= '9' || c == '-' || c == '_' || c == '.'
  }

  /** The keys the API server accepts in a Secret. */
  predicate AcceptedKeys(m: SecretData) {
    forall k <- m :: k != "" && forall c <- k :: KeyChar(c)
  }

  ghost predicate Ended(c: char, x: string) {
    x == "" || x[0] == c
  }

  /** A text is cut in one way only at its first `c`, or at its end. */
  lemma {:induction false} CutUnique(a: string, x: string, b: string, y: string, c: char)
    requires c !in a && c !in b && Ended(c, x) && Ended(c, y)
    requires a + x == b + y
    ensures a == b && x == y
  {
    if a == "" || b == "" {
      assert a == "" ==> a + x == x;
      assert b == "" ==> b + y == y;
    } else {
      assert a[0] == (a + x)[0] == (b + y)[0] == b[0];
      assert a[1..] + x == (a + x)[1..] == (b + y)[1..] == b[1..] + y;
      CutUnique(a[1..], x, b[1..], y, c);
      assert a == [a[0]] + a[1..] && b == [b[0]] + b[1..];
    }
  }

  lemma SpacedUnique(x: string, y: string)
    ensures Ended(' ', Spaced(x))
    ensures Spaced(x) == Spaced(y) ==> x == y
  {
    assert x != "" ==> Spaced(x)[1..] == x;
    assert y != "" ==> Spaced(y)[1..] == y;
  }

  lemma DecimalInjective(a: uint8, b: uint8)
    requires Decimal(a) == Decimal(b)
    ensures a == b
  {
  }

  lemma {:induction false} NumbersInjective(a: Bytes, b: Bytes)
    requires Numbers(a) == Numbers(b)
    ensures a == b
  {
    hide Decimal, Spaced, Ended;
    if a != [] && b != [] {
      var x, y := Numbers(a[1..]), Numbers(b[1..]);
      SpacedUnique(x, y);
      SpacedUnique(y, x);
      CutUnique(Decimal(a[0]), Spaced(x), Decimal(b[0]), Spaced(y), ' ');
      DecimalInjective(a[0], b[0]);
      NumbersInjective(a[1..], b[1..]);
      assert a == [a[0]] + a[1..] && b == [b[0]] + b[1..];
    }
  }

  lemma EntryInjective(k: string, bs: Bytes, x: string, l: string, cs: Bytes, y: string)
    requires ':' !in k && ':' !in l
    requires Entry(k, bs) + x == Entry(l, cs) + y
    ensures k == l && bs == cs && x == y
  {
    hide Numbers;
    var p, q := Numbers(bs), Numbers(cs);
    assert Entry(k, bs) + x == k + (":[" + p + "]" + x);
    assert Entry(l, cs) + y == l + (":[" + q + "]" + y);
    CutUnique(k, ":[" + p + "]" + x, l, ":[" + q + "]" + y, ':');
    assert p + ("]" + x) == (":[" + p + "]" + x)[2..];
    assert q + ("]" + y) == (":[" + q + "]" + y)[2..];
    CutUnique(p, "]" + x, q, "]" + y, ']');
    assert x == ("]" + x)[1..] && y == ("]" + y)[1..];
    NumbersInjective(bs, cs);
  }

  lemma {:induction false} EntriesInjective(m: SecretData, n: SecretData, ks: seq<string>, ls: seq<string>)
    requires (forall k <- ks :: k in m && ':' !in k) && (forall k <- ls :: k in n && ':' !in k)
    requires Entries(m, ks) == Entries(n, ls)
    ensures ks == ls && forall k <- ks :: m[k] == n[k]
  {
    hide Entry, Spaced;
    if ks != [] && ls != [] {
      var x, y := Entries(m, ks[1..]), Entries(n, ls[1..]);
      EntryInjective(ks[0], m[ks[0]], Spaced(x), ls[0], n[ls[0]], Spaced(y));
      SpacedUnique(x, y);
      EntriesInjective(m, n, ks[1..], ls[1..]);
      assert ks == [ks[0]] + ks[1..] && ls == [ls[0]] + ls[1..];
    }
  }

  lemma BracketedInjective(x: string, y: string)
    requires Bracketed(x) == Bracketed(y)
    ensures x == y
  {
    assert x == Bracketed(x)[4..][..|x|] && y == Bracketed(y)[4..][..|x|];
  }

  /** Two data maps the API server accepts never print the same text, in whatever key order. */
  lemma PrintedTextIdentifies(m: SecretData, n: SecretData, text: string)
    requires AcceptedKeys(m) && AcceptedKeys(n) && Prints(m, text) && Prints(n, text)
    ensures m == n
  {
    hide Entries, Bracketed;
    var ks :| PrintsAs(m, ks, text);
    var ls :| PrintsAs(n, ls, text);
    BracketedInjective(Entries(m, ks), Entries(n, ls));
    EntriesInjective(m, n, ks, ls);
  }
}
