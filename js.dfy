/** The few JavaScript built-ins the bot relies on, with their semantics written out:
    truthiness of an optional string, ASCII `toLowerCase`, the `\s` character class and
    `trim`, `String.prototype.length` (UTF-16 code units), `Array.prototype.slice(-k)` and
    `reverse`. */
module JsSemantics {

  datatype Option<+T> = None | Some(value: T)

  /** A request field or environment value that is either absent (undefined/null) or a string;
      JavaScript treats it as true exactly when it is a non-empty string. */
  predicate Truthy(v: Option<string>) {
    v.Some? && v.value != ""
  }

  /** `toLowerCase` on ASCII: 'A'..'Z' become 'a'..'z'; every other character is kept. */
  function LowerChar(c: char): (d: char)
    ensures 'A' <= c <= 'Z' ==> d as int == c as int + 32
    ensures !('A' <= c <= 'Z') ==> d == c
    ensures !('A' <= d <= 'Z')
  {
    if 'A' <= c <= 'Z' then (c as int + 32) as char else c
  }

  function Lower(s: string): (r: string)
    ensures |r| == |s|
    ensures forall i :: 0 <= i < |s| ==> r[i] == LowerChar(s[i])
  {
    seq(|s|, i requires 0 <= i < |s| => LowerChar(s[i]))
  }

  /** The characters matched by `\s` and removed by `trim`: WhiteSpace and LineTerminator of
      ECMAScript (TAB, VT, FF, SP, NBSP, ZWNBSP, the other Zs characters, LF, CR, LS, PS). */
  predicate IsSpace(c: char) {
    c == '\t' || c == '\n' || c == '\U{000B}' || c == '\U{000C}' || c == '\r' || c == ' '
    || c == '\U{00A0}' || c == '\U{1680}' || ('\U{2000}' <= c <= '\U{200A}')
    || c == '\U{2028}' || c == '\U{2029}' || c == '\U{202F}' || c == '\U{205F}'
    || c == '\U{3000}' || c == '\U{FEFF}'
  }

  /** `String.prototype.length`: characters outside the Basic Multilingual Plane take two
      UTF-16 code units (a surrogate pair), every other character one. */
  function Utf16Length(s: string): (n: nat)
    ensures |s| <= n <= 2 * |s|
  {
    if s == [] then 0
    else (if s[|s| - 1] as int > 0xFFFF then 2 else 1) + Utf16Length(s[..|s| - 1])
  }

  lemma {:induction false} Utf16LengthAppend(a: string, b: string)
    ensures Utf16Length(a + b) == Utf16Length(a) + Utf16Length(b)
    decreases |b|
  {
    if b == [] {
      assert a + b == a;
    } else {
      var b' := b[..|b| - 1];
      assert (a + b)[..|a + b| - 1] == a + b';
      assert (a + b)[|a + b| - 1] == b[|b| - 1];
      Utf16LengthAppend(a, b');
    }
  }

  /** `s.slice(-k)`: a negative start counts from the end (clamped at 0); `-0` is 0, so
      `slice(-0)` is the whole sequence. */
  function SliceFromEnd<T>(s: seq<T>, k: int): (r: seq<T>)
    ensures k > 0 ==> r == s[if k <= |s| then |s| - k else 0..]
    ensures k <= 0 ==> r == s[if -k <= |s| then -k else |s|..]
  {
    var start := -k;
    var from := if start < 0 then (if |s| + start > 0 then |s| + start else 0)
                else (if start < |s| then start else |s|);
    s[from..]
  }

  function Reverse<T>(s: seq<T>): (r: seq<T>)
    ensures |r| == |s|
    ensures forall i :: 0 <= i < |s| ==> r[i] == s[|s| - 1 - i]
  {
    if s == [] then [] else [s[|s| - 1]] + Reverse(s[..|s| - 1])
  }

  newtype byte = x: int | 0 <= x < 256

  /** The UTF-8 encoding of one character: one byte below U+0080, then two, three or four,
      a lead byte marking the length followed by continuation bytes of six bits each. */
  function Utf8Char(c: char): (bs: seq<byte>)
    ensures 1 <= |bs| <= 4
  {
    var n := c as int;
    var q1 := n / 64;
    var q2 := q1 / 64;
    var q3 := q2 / 64;
    if n < 0x80 then [n as byte]
    else if n < 0x800 then [(0xC0 + q1) as byte, (0x80 + n % 64) as byte]
    else if n < 0x10000 then [(0xE0 + q2) as byte, (0x80 + q1 % 64) as byte, (0x80 + n % 64) as byte]
    else [(0xF0 + q3) as byte, (0x80 + q2 % 64) as byte, (0x80 + q1 % 64) as byte, (0x80 + n % 64) as byte]
  }

  /** `Buffer.from(s)`: the UTF-8 encoding of the string. */
  function Utf8(s: string): (bs: seq<byte>)
    ensures |bs| >= |s|
    decreases |s|
  {
    if s == [] then [] else Utf8Char(s[0]) + Utf8(s[1..])
  }

  /** The lead byte fixes how many bytes a character takes. */
  lemma Utf8Lead(c: char, d: char)
    requires Utf8Char(c)[0] == Utf8Char(d)[0]
    ensures |Utf8Char(c)| == |Utf8Char(d)|
  {
  }

  /** Six low bits and the rest determine a number. */
  lemma Split64(n: int, m: int)
    requires n / 64 == m / 64 && n % 64 == m % 64
    ensures n == m
  {
  }

  /** A character's encoding is decoded back from its bytes. */
  lemma Utf8CharInjective(c: char, d: char)
    requires Utf8Char(c) == Utf8Char(d)
    ensures c == d
  {
    var n, m := c as int, d as int;
    var bc, bd := Utf8Char(c), Utf8Char(d);
    assert bc[0] == bd[0];
    Utf8Lead(c, d);
    var k := |bc|;
    assert bc[k - 1] == bd[k - 1];
    if k == 2 {
      Split64(n, m);
    } else if k == 3 {
      assert bc[1] == bd[1];
      Split64(n / 64, m / 64);
      Split64(n, m);
    } else if k == 4 {
      assert bc[1] == bd[1] && bc[2] == bd[2];
      Split64(n / 64 / 64, m / 64 / 64);
      Split64(n / 64, m / 64);
      Split64(n, m);
    }
  }

  /** No character's encoding is a proper prefix of another's, so the first character and
      the rest are read back from the front of an encoding. */
  lemma Utf8CharPrefix(c: char, d: char, x: seq<byte>, y: seq<byte>)
    requires Utf8Char(c) + x == Utf8Char(d) + y
    ensures c == d && x == y
  {
    assert Utf8Char(c)[0] == (Utf8Char(c) + x)[0] == (Utf8Char(d) + y)[0] == Utf8Char(d)[0];
    Utf8Lead(c, d);
    var k := |Utf8Char(c)|;
    assert Utf8Char(c) == (Utf8Char(c) + x)[..k] == (Utf8Char(d) + y)[..k] == Utf8Char(d);
    Utf8CharInjective(c, d);
    assert x == (Utf8Char(c) + x)[k..] == (Utf8Char(d) + y)[k..] == y;
  }

  /** Different strings have different encodings. */
  lemma {:induction false} Utf8Injective(a: string, b: string)
    requires Utf8(a) == Utf8(b)
    ensures a == b
    decreases |a|
  {
    if a != [] && b != [] {
      Utf8CharPrefix(a[0], b[0], Utf8(a[1..]), Utf8(b[1..]));
      Utf8Injective(a[1..], b[1..]);
      assert a == [a[0]] + a[1..] && b == [b[0]] + b[1..];
    }
  }

  /** `Array.prototype.join(sep)`: the items with `sep` between consecutive ones. */
  function Join(xs: seq<string>, sep: string): string
    decreases |xs|
  {
    if xs == [] then []
    else if |xs| == 1 then xs[0]
    else xs[0] + sep + Join(xs[1..], sep)
  }

  /** Joining one more item appends the separator and the item. */
  lemma {:induction false} JoinSnoc(xs: seq<string>, x: string, sep: string)
    requires xs != []
    ensures Join(xs + [x], sep) == Join(xs, sep) + sep + x
    decreases |xs|
  {
    if |xs| > 1 {
      assert (xs + [x])[1..] == xs[1..] + [x];
      JoinSnoc(xs[1..], x, sep);
    } else {
      assert (xs + [x])[1..] == [x];
    }
  }
}
