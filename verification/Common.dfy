/** Datatypes shared by the model. */
module Common {

  datatype Option<+T> = None | Some(value: T)

  /** Number of bytes of the UTF-8 encoding of a text. */
  function Utf8Length(s: string): nat {
    if s == [] then 0 else Utf8Width(s[0]) + Utf8Length(s[1..])
  }

  function Utf8Width(c: char): nat {
    var code := c as int;
    if code < 0x80 then 1 else if code < 0x800 then 2 else if code < 0x10000 then 3 else 4
  }

  lemma {:induction false} Utf8Append(a: string, b: string)
    ensures Utf8Length(a + b) == Utf8Length(a) + Utf8Length(b)
  {
    if a == "" {
      assert a + b == b;
    } else {
      assert (a + b)[1..] == a[1..] + b;
      Utf8Append(a[1..], b);
    }
  }

  lemma {:induction false} AsciiLength(s: string)
    requires forall i | 0 <= i < |s| :: ' ' <= s[i] <= '~'
    ensures Utf8Length(s) == |s|
  {
    if s != "" {
      AsciiLength(s[1..]);
    }
  }

  /** The bytes of one character, by the table of section 3 of RFC 3629. */
  function Utf8Bytes(c: char): seq<int> {
    var code := c as int;
    if code < 0x80 then [code]
    else if code < 0x800 then [0xC0 + code / 0x40, 0x80 + code % 0x40]
    else if code < 0x10000 then [0xE0 + code / 0x1000, 0x80 + code / 0x40 % 0x40, 0x80 + code % 0x40]
    else [0xF0 + code / 0x40000, 0x80 + code / 0x1000 % 0x40, 0x80 + code / 0x40 % 0x40, 0x80 + code % 0x40]
  }

  function Utf8(s: string): seq<int> { if s == "" then [] else Utf8Bytes(s[0]) + Utf8(s[1..]) }

  /** The first byte tells how many there are. */
  lemma LeadTellsWidth(c: char)
    ensures |Utf8Bytes(c)| == Utf8Width(c)
    ensures var lead := Utf8Bytes(c)[0];
      Utf8Width(c) == if lead < 0x80 then 1 else if lead < 0xE0 then 2 else if lead < 0xF0 then 3 else 4
  {
  }

  function Decoded(b: seq<int>): int
    requires 1 <= |b| <= 4
  {
    if |b| == 1 then b[0]
    else if |b| == 2 then (b[0] - 0xC0) * 0x40 + (b[1] - 0x80)
    else if |b| == 3 then (b[0] - 0xE0) * 0x1000 + (b[1] - 0x80) * 0x40 + (b[2] - 0x80)
    else (b[0] - 0xF0) * 0x40000 + (b[1] - 0x80) * 0x1000 + (b[2] - 0x80) * 0x40 + (b[3] - 0x80)
  }

  /** Digits to the base 64. */
  lemma Sextets(n: nat)
    ensures n == n / 0x40 * 0x40 + n % 0x40
    ensures n / 0x40 / 0x40 == n / 0x1000 && n / 0x1000 / 0x40 == n / 0x40000
  {
  }

  lemma CharDecodes(c: char)
    ensures Decoded(Utf8Bytes(c)) == c as int
  {
    var code := c as int;
    Sextets(code);
    Sextets(code / 0x40);
    Sextets(code / 0x1000);
  }

  lemma FirstDecodes(c: char, d: char, x: seq<int>, y: seq<int>)
    requires Utf8Bytes(c) + x == Utf8Bytes(d) + y
    ensures c == d && x == y
  {
    var a, b := Utf8Bytes(c), Utf8Bytes(d);
    LeadTellsWidth(c);
    LeadTellsWidth(d);
    SameFront(a, b, x, y);
    CharDecodes(c);
    CharDecodes(d);
  }

  lemma SameFront<T>(a: seq<T>, b: seq<T>, x: seq<T>, y: seq<T>)
    requires a + x == b + y && a != [] && b != []
    ensures a[0] == b[0]
    ensures |a| == |b| ==> a == b && x == y
  {
    assert (a + x)[0] == a[0] && (b + y)[0] == b[0];
    assert (a + x)[..|a|] == a && (b + y)[..|b|] == b;
    assert (a + x)[|a|..] == x && (b + y)[|b|..] == y;
  }

  /** The lengths that the limits count are those of an encoding that no two texts share. */
  lemma {:induction false} Utf8Exact(a: string, b: string)
    ensures |Utf8(a)| == Utf8Length(a) && |Utf8(b)| == Utf8Length(b)
    ensures Utf8(a) == Utf8(b) ==> a == b
  {
    if a == "" && b == "" {
    } else if a == "" {
      Utf8Exact(a, b[1..]);
    } else if b == "" {
      Utf8Exact(a[1..], b);
    } else {
      Utf8Exact(a[1..], b[1..]);
      if Utf8(a) == Utf8(b) {
        FirstDecodes(a[0], b[0], Utf8(a[1..]), Utf8(b[1..]));
        assert a == [a[0]] + a[1..] && b == [b[0]] + b[1..];
      }
    }
  }

  // ---- sequences ------------------------------------------------------------------------------

  lemma PrefixTake<T>(few: seq<T>, all: seq<T>)
    requires few <= all
    ensures all[..|few|] == few
  {
  }

  lemma PlusAssociates<T>(a: seq<T>, b: seq<T>, c: seq<T>)
    ensures a + (b + c) == (a + b) + c
  {
  }

  lemma SlicesOfAppended<T>(s: seq<T>, x: T, k: nat)
    requires k < |s|
    ensures (s + [x])[..k] == s[..k] && (s + [x])[k + 1..] == s[k + 1..] + [x]
  {
  }

  lemma AppendedLast<T>(s: seq<T>, x: T)
    ensures (s + [x])[..|s|] == s && (s + [x])[|s| + 1..] == []
  {
  }
}
