/** The JavaScript string operations the core relies on: `trim`, `includes`,
    `substring(0, n)`, `join`, number-to-string in template literals, and
    `encodeURIComponent`. Strings are sequences of Unicode scalar values. */
module Text {

  /** The characters `String.prototype.trim` removes: ECMAScript WhiteSpace
      (tab, vertical tab, form feed, space, no-break space, byte order mark,
      the Unicode space separators) and LineTerminator (LF, CR, U+2028, U+2029). */
  predicate IsWhitespace(c: char) {
    || c == '\t' || c == '\n' || c == '\U{B}' || c == '\U{C}' || c == '\r' || c == ' '
    || c == '\U{A0}' || c == '\U{1680}' || ('\U{2000}' <= c <= '\U{200A}')
    || c == '\U{2028}' || c == '\U{2029}' || c == '\U{202F}' || c == '\U{205F}'
    || c == '\U{3000}' || c == '\U{FEFF}'
  }

  predicate AllWhitespace(s: string) {
    forall i :: 0 <= i < |s| ==> IsWhitespace(s[i])
  }

  predicate EndsWith(s: string, t: string) {
    |t| <= |s| && s[|s| - |t|..] == t
  }

  /** Drops the leading whitespace: what is left is a suffix of `s` that does
      not start with whitespace, and everything dropped was whitespace. */
  function TrimStart(s: string): (r: string)
    ensures |r| <= |s| && r == s[|s| - |r|..]
    ensures AllWhitespace(s[..|s| - |r|])
    ensures r == [] || !IsWhitespace(r[0])
  {
    if s != [] && IsWhitespace(s[0]) then TrimStart(s[1..]) else s
  }

  /** Drops the trailing whitespace: what is left is a prefix of `s` that does
      not end with whitespace, and everything dropped was whitespace. */
  function TrimEnd(s: string): (r: string)
    ensures |r| <= |s| && r == s[..|r|]
    ensures AllWhitespace(s[|r|..])
    ensures r == [] || !IsWhitespace(r[|r| - 1])
  {
    if s != [] && IsWhitespace(s[|s| - 1]) then TrimEnd(s[..|s| - 1]) else s
  }

  /** How many whitespace characters `s` starts with. */
  function LeadingWhitespace(s: string): (n: nat)
    ensures n <= |s| && AllWhitespace(s[..n])
    ensures n == |s| || !IsWhitespace(s[n])
  {
    if s != [] && IsWhitespace(s[0]) then
      var n := 1 + LeadingWhitespace(s[1..]);
      assert s[..n] == [s[0]] + s[1..][..n - 1];
      n
    else 0
  }

  /** Dropping the leading whitespace drops exactly that many characters. */
  lemma {:induction false} TrimStartDropsLeading(s: string)
    ensures TrimStart(s) == s[LeadingWhitespace(s)..]
    decreases |s|
  {
    if s != [] && IsWhitespace(s[0]) {
      TrimStartDropsLeading(s[1..]);
      assert s[1..][LeadingWhitespace(s[1..])..] == s[1 + LeadingWhitespace(s[1..])..];
    }
  }

  /** `String.prototype.trim`: the input with the whitespace at both ends cut
      away, empty exactly when the input is all whitespace. */
  function Trim(s: string): (r: string)
    ensures TrimmedFrom(s, r)
    ensures r == [] <==> AllWhitespace(s)
  {
    TrimSlice(s);
    TrimEmptyIff(s);
    TrimEnd(TrimStart(s))
  }

  /** `r` is `s` with its surrounding whitespace cut away: the slice that
      starts after the leading whitespace, followed in `s` only by whitespace,
      with no whitespace at either of its own ends. */
  predicate TrimmedFrom(s: string, r: string) {
    var k := LeadingWhitespace(s);
    && k + |r| <= |s| && r == s[k..k + |r|] && AllWhitespace(s[k + |r|..])
    && (r == [] || (!IsWhitespace(r[0]) && !IsWhitespace(r[|r| - 1])))
  }

  lemma TrimSlice(s: string)
    ensures TrimmedFrom(s, TrimEnd(TrimStart(s)))
  {
    TrimStartDropsLeading(s);
    TrimmedSlice(s, TrimStart(s), TrimEnd(TrimStart(s)));
  }

  /** Cutting whitespace off the end of the suffix `t` of `s` leaves a slice
      of `s` followed only by whitespace. */
  lemma TrimmedSlice(s: string, t: string, r: string)
    requires t == s[LeadingWhitespace(s)..] && (t == [] || !IsWhitespace(t[0]))
    requires |r| <= |t| && r == t[..|r|] && AllWhitespace(t[|r|..])
    requires r == [] || !IsWhitespace(r[|r| - 1])
    ensures TrimmedFrom(s, r)
  {
    var k := LeadingWhitespace(s);
    assert t[|r|..] == s[k + |r|..];
  }

  lemma TrimEmptyIff(s: string)
    ensures TrimEnd(TrimStart(s)) == [] <==> AllWhitespace(s)
  {
    var t := TrimStart(s);
    var r := TrimEnd(t);
    assert t != [] ==> r != [] && r[0] == t[0];
    if t != [] {
      assert s[|s| - |t|] == t[0];
    } else {
      assert s[..|s|] == s;
    }
  }

  lemma {:induction false} TrimStartAppend(d: string, x: string)
    requires !AllWhitespace(d)
    ensures TrimStart(d + x) == TrimStart(d) + x
    decreases |d|
  {
    assert d != [];
    assert (d + x)[0] == d[0];
    if IsWhitespace(d[0]) {
      assert (d + x)[1..] == d[1..] + x;
      assert !AllWhitespace(d[1..]) by {
        var i :| 0 <= i < |d| && !IsWhitespace(d[i]);
        assert i > 0 && d[1..][i - 1] == d[i];
      }
      TrimStartAppend(d[1..], x);
    }
  }

  /** Appending text never removes what trimming the end kept. */
  lemma {:induction false} TrimEndPrefix(y: string, x: string)
    ensures TrimEnd(y) <= TrimEnd(y + x)
    decreases |x|
  {
    if x == [] {
      assert y + x == y;
    } else {
      var yx := y + x;
      assert yx[|yx| - 1] == x[|x| - 1];
      if IsWhitespace(x[|x| - 1]) {
        assert yx[..|yx| - 1] == y + x[..|x| - 1];
        TrimEndPrefix(y, x[..|x| - 1]);
      } else {
        assert TrimEnd(yx) == yx;
        assert TrimEnd(y) <= y;
      }
    }
  }

  /** When `d` holds some non-whitespace character, `trim(d)` is a prefix of
      `trim(d + x)` whatever `x` is. */
  lemma {:induction false} TrimPrefix(d: string, x: string)
    requires !AllWhitespace(d)
    ensures Trim(d) <= Trim(d + x)
  {
    TrimStartAppend(d, x);
    TrimEndPrefix(TrimStart(d), x);
  }

  lemma {:induction false} TrimStartKeepsTail(x: string, t: string)
    requires t != [] && !IsWhitespace(t[0])
    ensures EndsWith(TrimStart(x + t), t)
    decreases |x|
  {
    if x == [] {
      assert x + t == t;
    } else {
      assert (x + t)[0] == x[0];
      if IsWhitespace(x[0]) {
        assert (x + t)[1..] == x[1..] + t;
        TrimStartKeepsTail(x[1..], t);
      } else {
        assert TrimStart(x + t) == x + t;
        assert (x + t)[|x + t| - |t|..] == t;
      }
    }
  }

  /** A tail that starts and ends with non-whitespace survives `trim`. */
  lemma {:induction false} TrimEndsWith(x: string, t: string)
    requires t != [] && !IsWhitespace(t[0]) && !IsWhitespace(t[|t| - 1])
    ensures EndsWith(Trim(x + t), t)
  {
    TrimStartKeepsTail(x, t);
    var z := TrimStart(x + t);
    assert z[|z| - 1] == t[|t| - 1];
    assert TrimEnd(z) == z;
  }

  /** `s.includes(sub)`. */
  predicate Contains(s: string, sub: string)
    decreases |s|
  {
    sub <= s || (s != [] && Contains(s[1..], sub))
  }

  /** `s.substring(0, n)`. */
  function Take(s: string, n: nat): (r: string)
    ensures r <= s && |r| == (if |s| < n then |s| else n)
  {
    if |s| <= n then s else s[..n]
  }

  /** `xs.join(sep)`. */
  function Join(xs: seq<string>, sep: string): string
  {
    if xs == [] then "" else if |xs| == 1 then xs[0] else xs[0] + sep + Join(xs[1..], sep)
  }

  /** The three parts of a concatenation sit where they were put. */
  lemma Slots(a: string, b: string, c: string)
    ensures (a + b + c)[..|a|] == a && (a + b + c)[|a|..|a| + |b|] == b
    ensures (a + b + c)[|a| + |b|..] == c && EndsWith(a + b + c, c)
  {
  }

  /** A join begins with the first element. */
  lemma JoinStartsWith(xs: seq<string>, sep: string)
    requires xs != []
    ensures xs[0] <= Join(xs, sep)
  {
  }

  /** Joining one more element appends the separator and that element. */
  lemma {:induction false} JoinSnoc(xs: seq<string>, y: string, sep: string)
    requires xs != []
    ensures Join(xs + [y], sep) == Join(xs, sep) + sep + y
    decreases |xs|
  {
    if |xs| == 1 {
      assert (xs + [y])[1..] == [y];
    } else {
      assert (xs + [y])[0] == xs[0];
      assert (xs + [y])[1..] == xs[1..] + [y];
      JoinSnoc(xs[1..], y, sep);
    }
  }

  /** Joining a non-empty list gives "" exactly when the list is `[""]` and the
      separator is non-empty. */
  lemma {:induction false} JoinEmpty(xs: seq<string>, sep: string)
    requires xs != [] && sep != ""
    ensures Join(xs, sep) == "" <==> xs == [""]
  {
    if |xs| > 1 {
      assert |Join(xs, sep)| >= |sep|;
    }
  }

  function DigitChar(d: nat): char
    requires d < 10
  {
    "0123456789"[d]
  }

  /** A natural number in decimal, as a template literal prints it. */
  function NatToString(n: nat): (r: string)
    ensures r != []
    ensures forall i :: 0 <= i < |r| ==> '0' <= r[i] <= '9'
  {
    if n < 10 then [DigitChar(n)] else NatToString(n / 10) + [DigitChar(n % 10)]
  }

  function IntToString(n: int): string {
    if n < 0 then "-" + NatToString(-n) else NatToString(n)
  }

  /** The characters `encodeURIComponent` leaves as they are. */
  predicate IsUnreserved(c: char) {
    ('A' <= c <= 'Z') || ('a' <= c <= 'z') || ('0' <= c <= '9') || c in "-_.!~*'()"
  }

  /** The UTF-8 encoding of one Unicode scalar value. */
  function Utf8(c: char): (bytes: seq<nat>)
    ensures 1 <= |bytes| <= 4
    ensures forall i :: 0 <= i < |bytes| ==> bytes[i] < 256
  {
    var cp := c as int;
    if cp < 0x80 then [cp]
    else if cp < 0x800 then [0xC0 + cp / 0x40, 0x80 + cp % 0x40]
    else if cp < 0x10000 then [0xE0 + cp / 0x1000, 0x80 + (cp / 0x40) % 0x40, 0x80 + cp % 0x40]
    else [0xF0 + cp / 0x40000, 0x80 + (cp / 0x1000) % 0x40, 0x80 + (cp / 0x40) % 0x40, 0x80 + cp % 0x40]
  }

  function HexDigit(d: nat): (c: char)
    requires d < 16
    ensures IsUnreserved(c)
  {
    "0123456789ABCDEF"[d]
  }

  function PercentBytes(bytes: seq<nat>): (r: string)
    requires forall i :: 0 <= i < |bytes| ==> bytes[i] < 256
    ensures forall i :: 0 <= i < |r| ==> IsUnreserved(r[i]) || r[i] == '%'
  {
    if bytes == [] then []
    else ['%', HexDigit(bytes[0] / 16), HexDigit(bytes[0] % 16)] + PercentBytes(bytes[1..])
  }

  /** `encodeURIComponent`: the output holds only unreserved characters and
      the `%` of escapes, so it can never carry a `&`, `=` or `#` of its own. */
  function EncodeUriComponent(s: string): (r: string)
    ensures forall i :: 0 <= i < |r| ==> IsUnreserved(r[i]) || r[i] == '%'
  {
    if s == [] then []
    else (if IsUnreserved(s[0]) then [s[0]] else PercentBytes(Utf8(s[0]))) + EncodeUriComponent(s[1..])
  }

  /** A string of unreserved characters is encoded as itself. */
  lemma {:induction false} EncodeUnreservedIdentity(s: string)
    requires forall i :: 0 <= i < |s| ==> IsUnreserved(s[i])
    ensures EncodeUriComponent(s) == s
  {
    if s != [] {
      EncodeUnreservedIdentity(s[1..]);
    }
  }
}
