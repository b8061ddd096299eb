/**
 * The browser's `btoa` and `atob` (src/lib/vscode.ts:69,114): Base64 with the
 * alphabet of section 4 of RFC 4648 over byte strings, one character per
 * byte. `btoa` refuses characters above U+00FF; `atob` is the
 * forgiving-base64 decode of the WHATWG Infra standard: ASCII whitespace is
 * dropped, one or two `=` are taken off a length divisible by 4, and a
 * length of 1 modulo 4 or any other character is a failure.
 */
module Base64 {
  import opened Wrappers

  /** The Base64 digit of value `v` (table 1 of RFC 4648). */
  function Digit(v: nat): (c: char)
    requires v < 64
  {
    if v < 26 then ('A' as int + v) as char
    else if v < 52 then ('a' as int + v - 26) as char
    else if v < 62 then ('0' as int + v - 52) as char
    else if v == 62 then '+'
    else '/'
  }

  /** The value of a Base64 digit, or -1 for any other character. */
  function DigitValue(c: char): (v: int)
    ensures -1 <= v < 64
  {
    if 'A' <= c <= 'Z' then c as int - 'A' as int
    else if 'a' <= c <= 'z' then c as int - 'a' as int + 26
    else if '0' <= c <= '9' then c as int - '0' as int + 52
    else if c == '+' then 62
    else if c == '/' then 63
    else -1
  }

  predicate IsDigit(c: char) {
    DigitValue(c) >= 0
  }

  /** Reading a digit gives back its value. */
  lemma DigitValueOfDigit(v: nat)
    requires v < 64
    ensures DigitValue(Digit(v)) == v
  {
  }

  /** Every character is below U+0100: a string of bytes. */
  predicate IsByteString(s: string) {
    forall i :: 0 <= i < |s| ==> s[i] as int < 256
  }

  predicate AllDigits(d: string) {
    forall i :: 0 <= i < |d| ==> IsDigit(d[i])
  }

  /** The digits for one to three bytes: the 6-bit groups of their bits, the last one filled with zeros. */
  function GroupDigits(b0: nat, b1: nat, b2: nat, n: nat): (d: string)
    requires b0 < 256 && b1 < 256 && b2 < 256 && 1 <= n <= 3
    ensures |d| == n + 1 && AllDigits(d)
  {
    var d0, d1 := Digit(b0 / 4), Digit(b0 % 4 * 16 + b1 / 16);
    DigitValueOfDigit(b0 / 4);
    DigitValueOfDigit(b0 % 4 * 16 + b1 / 16);
    DigitValueOfDigit(b1 % 16 * 4 + b2 / 64);
    DigitValueOfDigit(b2 % 64);
    if n == 1 then [d0, d1]
    else if n == 2 then [d0, d1, Digit(b1 % 16 * 4 + b2 / 64)]
    else [d0, d1, Digit(b1 % 16 * 4 + b2 / 64), Digit(b2 % 64)]
  }

  /** The digits of a byte string without padding: four per three bytes, then two or three for what is left. */
  function Digits(s: string): (d: string)
    requires IsByteString(s)
    ensures |d| == |s| / 3 * 4 + (if |s| % 3 == 0 then 0 else |s| % 3 + 1)
    ensures AllDigits(d)
    decreases |s|
  {
    if |s| == 0 then ""
    else if |s| < 3 then
      GroupDigits(s[0] as int, if |s| == 2 then s[1] as int else 0, 0, |s|)
    else
      var g := GroupDigits(s[0] as int, s[1] as int, s[2] as int, 3);
      var rest := Digits(s[3..]);
      assert forall i :: 4 <= i < |g + rest| ==> (g + rest)[i] == rest[i - 4];
      g + rest
  }

  /** The `=` that fill the last group of four. */
  function Padding(n: nat): string {
    if n % 3 == 1 then "==" else if n % 3 == 2 then "=" else ""
  }

  /** Base64 encoding of a byte string. */
  function Encode(s: string): string
    requires IsByteString(s)
  {
    Digits(s) + Padding(|s|)
  }

  /** An encoding is whole groups of four: the digits of the full groups, then the last group's digits and padding. */
  lemma EncodeLength(s: string)
    requires IsByteString(s)
    ensures |Encode(s)| % 4 == 0
  {
    var q, m := |s| / 3, |s| % 3;
    assert |Digits(s)| == q * 4 + (if m == 0 then 0 else m + 1);
    assert |Padding(|s|)| == if m == 1 then 2 else if m == 2 then 1 else 0;
    assert |Encode(s)| == q * 4 + (if m == 0 then 0 else 4);
  }

  /** `btoa(s)`: the encoding, or `None` where the browser throws because a character is above U+00FF. */
  function Btoa(s: string): (r: Option<string>)
    ensures r.None? <==> exists i :: 0 <= i < |s| && s[i] as int >= 256
    ensures r.Some? ==> |r.value| % 4 == 0
  {
    if IsByteString(s) then EncodeLength(s); Some(Encode(s)) else None
  }

  /** ASCII whitespace of the Infra standard: tab, line feed, form feed, carriage return, space. */
  predicate IsAsciiWhitespace(c: char) {
    c == '\t' || c == '\n' || c == '\U{000C}' || c == '\r' || c == ' '
  }

  function StripWhitespace(s: string): (r: string)
    ensures |r| <= |s|
    ensures forall i :: 0 <= i < |r| ==> !IsAsciiWhitespace(r[i])
    ensures forall c :: c in r <==> c in s && !IsAsciiWhitespace(c)
  {
    if |s| == 0 then ""
    else if IsAsciiWhitespace(s[|s| - 1]) then StripWhitespace(s[..|s| - 1])
    else StripWhitespace(s[..|s| - 1]) + [s[|s| - 1]]
  }

  /** One character: whitespace is dropped, anything else kept. */
  lemma StripWhitespaceOne(c: char)
    ensures StripWhitespace([c]) == if IsAsciiWhitespace(c) then "" else [c]
  {
    assert [c][..0] == "";
  }

  /** Whitespace is dropped piece by piece: the kept characters stay in order, each once. */
  lemma {:induction false} StripWhitespaceConcat(a: string, b: string)
    ensures StripWhitespace(a + b) == StripWhitespace(a) + StripWhitespace(b)
    decreases |b|
  {
    if |b| == 0 {
      assert a + b == a;
    } else {
      var b' := b[..|b| - 1];
      assert (a + b)[..|a + b| - 1] == a + b';
      assert (a + b)[|a + b| - 1] == b[|b| - 1];
      StripWhitespaceConcat(a, b');
    }
  }

  /** Takes one or two trailing `=` off a text whose length is divisible by 4. */
  function StripPadding(s: string): (r: string)
    ensures |r| <= |s| <= |r| + 2 && s[..|r|] == r
    ensures forall i :: |r| <= i < |s| ==> s[i] == '='
    ensures |s| % 4 != 0 ==> r == s
    ensures |s| % 4 == 0 && |s| >= 1 && s[|s| - 1] == '=' ==> |r| < |s|
    ensures |s| % 4 == 0 && |s| >= 2 && s[|s| - 2] == '=' && s[|s| - 1] == '=' ==> |r| == |s| - 2
  {
    if |s| % 4 == 0 && |s| >= 2 && s[|s| - 2] == '=' && s[|s| - 1] == '=' then s[..|s| - 2]
    else if |s| % 4 == 0 && |s| >= 1 && s[|s| - 1] == '=' then s[..|s| - 1]
    else s
  }

  /** The bytes of a run of digits: three per four digits, then one for two digits or two for three, leftover bits dropped. */
  function DecodeDigits(d: string): (s: string)
    requires AllDigits(d) && |d| % 4 != 1
    ensures IsByteString(s)
    decreases |d|
  {
    if |d| == 0 then ""
    else
      var v0, v1 := DigitValue(d[0]), DigitValue(d[1]);
      var b0 := (v0 * 4 + v1 / 16) as char;
      if |d| == 2 then [b0]
      else
        var v2 := DigitValue(d[2]);
        var b1 := (v1 % 16 * 16 + v2 / 4) as char;
        if |d| == 3 then [b0, b1]
        else
          var b2 := (v2 % 4 * 64 + DigitValue(d[3])) as char;
          [b0, b1, b2] + DecodeDigits(d[4..])
  }

  /** `atob(s)`: the forgiving-base64 decode, or `None` where the browser throws. */
  function Atob(s: string): (r: Option<string>)
    ensures r.Some? ==> IsByteString(r.value)
  {
    var d := StripPadding(StripWhitespace(s));
    if |d| % 4 == 1 || !AllDigits(d) then None else Some(DecodeDigits(d))
  }

  /** A run of whitespace is dropped whole. */
  lemma {:induction false} StripAllWhitespace(w: string)
    requires forall i :: 0 <= i < |w| ==> IsAsciiWhitespace(w[i])
    ensures StripWhitespace(w) == ""
    decreases |w|
  {
    if |w| > 0 {
      StripAllWhitespace(w[..|w| - 1]);
    }
  }

  /** A run of whitespace between two texts is dropped whole. */
  lemma StripWhitespaceRun(a: string, w: string, b: string)
    requires forall i :: 0 <= i < |w| ==> IsAsciiWhitespace(w[i])
    ensures StripWhitespace(a + w + b) == StripWhitespace(a + b)
  {
    StripAllWhitespace(w);
    StripWhitespaceConcat(a + w, b);
    StripWhitespaceConcat(a, w);
    assert StripWhitespace(a) + "" == StripWhitespace(a);
    StripWhitespaceConcat(a, b);
  }

  /** Whitespace anywhere in the input does not change what `atob` gives, `atob("QQ==\n")` included. */
  lemma AtobIgnoresWhitespace(a: string, w: string, b: string)
    requires forall i :: 0 <= i < |w| ==> IsAsciiWhitespace(w[i])
    ensures Atob(a + w + b) == Atob(a + b)
  {
    StripWhitespaceRun(a, w, b);
  }

  /** Text without whitespace is left as it is. */
  lemma {:induction false} StripWhitespaceKeeps(s: string)
    requires forall i :: 0 <= i < |s| ==> !IsAsciiWhitespace(s[i])
    ensures StripWhitespace(s) == s
    decreases |s|
  {
    if |s| > 0 {
      StripWhitespaceKeeps(s[..|s| - 1]);
      assert s == s[..|s| - 1] + [s[|s| - 1]];
    }
  }

  /** A Base64 digit is not whitespace and not `=`. */
  lemma DigitIsPlain(c: char)
    requires IsDigit(c)
    ensures !IsAsciiWhitespace(c) && c != '='
  {
  }

  /** The padding comes off again, leaving the digits. */
  lemma StripPaddingOfEncode(s: string)
    requires IsByteString(s)
    ensures StripPadding(Encode(s)) == Digits(s)
  {
    var d := Digits(s);
    assert |s| / 3 * 4 % 4 == 0;
    if |s| % 3 == 1 {
      StripTwo(d);
    } else if |s| % 3 == 2 {
      StripOne(d);
    } else {
      StripNone(d);
      assert Encode(s) == d;
    }
  }

  lemma StripTwo(d: string)
    requires AllDigits(d) && |d| % 4 == 2
    ensures StripPadding(d + "==") == d
  {
    var e := d + "==";
    assert e[|e| - 2] == '=' && e[|e| - 1] == '=';
    assert e[..|e| - 2] == d;
  }

  lemma StripOne(d: string)
    requires AllDigits(d) && |d| % 4 == 3
    ensures StripPadding(d + "=") == d
  {
    var e := d + "=";
    DigitIsPlain(d[|d| - 1]);
    assert e[|e| - 2] == d[|d| - 1] && e[|e| - 1] == '=';
    assert e[..|e| - 1] == d;
  }

  lemma StripNone(d: string)
    requires AllDigits(d) && |d| % 4 == 0
    ensures StripPadding(d) == d
  {
    if |d| > 0 {
      DigitIsPlain(d[|d| - 1]);
    }
  }

  /** The bits of three bytes regrouped as four 6-bit values, and back. */
  lemma RegroupBits(b0: nat, b1: nat, b2: nat)
    requires b0 < 256 && b1 < 256 && b2 < 256
    ensures (b0 / 4) * 4 + (b0 % 4 * 16 + b1 / 16) / 16 == b0
    ensures (b0 % 4 * 16 + b1 / 16) % 16 * 16 + (b1 % 16 * 4 + b2 / 64) / 4 == b1
    ensures (b1 % 16 * 4 + b2 / 64) % 4 * 64 + b2 % 64 == b2
  {
  }

  /** The four digit values of a group. */
  lemma GroupValues(b0: nat, b1: nat, b2: nat, n: nat)
    requires b0 < 256 && b1 < 256 && b2 < 256 && 1 <= n <= 3
    ensures var g := GroupDigits(b0, b1, b2, n);
      && DigitValue(g[0]) == b0 / 4
      && DigitValue(g[1]) == b0 % 4 * 16 + b1 / 16
      && (n >= 2 ==> DigitValue(g[2]) == b1 % 16 * 4 + b2 / 64)
      && (n == 3 ==> DigitValue(g[3]) == b2 % 64)
  {
    DigitValueOfDigit(b0 / 4);
    DigitValueOfDigit(b0 % 4 * 16 + b1 / 16);
    DigitValueOfDigit(b1 % 16 * 4 + b2 / 64);
    DigitValueOfDigit(b2 % 64);
  }

  /** Decoding the digits of a whole group, then the rest, gives back its three bytes, then the rest's. */
  lemma DecodeFullGroup(b0: nat, b1: nat, b2: nat, rest: string)
    requires b0 < 256 && b1 < 256 && b2 < 256
    requires AllDigits(rest) && |rest| % 4 != 1
    ensures var d := GroupDigits(b0, b1, b2, 3) + rest;
      AllDigits(d) && |d| % 4 != 1 &&
      DecodeDigits(d) == [b0 as char, b1 as char, b2 as char] + DecodeDigits(rest)
  {
    var g := GroupDigits(b0, b1, b2, 3);
    var d := g + rest;
    assert forall i :: 0 <= i < |g| ==> d[i] == g[i];
    assert d[4..] == rest;
    GroupValues(b0, b1, b2, 3);
    RegroupBits(b0, b1, b2);
  }

  /** Decoding the digits of a last, short group gives back its one or two bytes. */
  lemma DecodeShortGroup(b0: nat, b1: nat, n: nat)
    requires b0 < 256 && b1 < 256 && 1 <= n <= 2 && (n == 1 ==> b1 == 0)
    ensures var d := GroupDigits(b0, b1, 0, n);
      AllDigits(d) && |d| % 4 != 1 &&
      DecodeDigits(d) == [b0 as char, b1 as char][..n]
  {
    GroupValues(b0, b1, 0, n);
    RegroupBits(b0, b1, 0);
  }

  /** A byte string of one or two characters is its one short group. */
  lemma DecodeShortString(s: string)
    requires IsByteString(s) && 1 <= |s| < 3
    ensures |Digits(s)| % 4 != 1 && DecodeDigits(Digits(s)) == s
  {
    var b1 := if |s| == 2 then s[1] as int else 0;
    DecodeShortGroup(s[0] as int, b1, |s|);
    assert [s[0], b1 as char][..|s|] == s;
  }

  /** Decoding the digits of a byte string gives the byte string back. */
  lemma {:induction false} DecodeDigitsOfDigits(s: string)
    requires IsByteString(s)
    ensures |Digits(s)| % 4 != 1 && DecodeDigits(Digits(s)) == s
    decreases |s|
  {
    if |s| == 0 {
    } else if |s| < 3 {
      DecodeShortString(s);
    } else {
      var rest := s[3..];
      DecodeDigitsOfDigits(rest);
      DecodeFullGroup(s[0] as int, s[1] as int, s[2] as int, Digits(rest));
      assert s == [s[0], s[1], s[2]] + rest;
    }
  }

  /** `atob(btoa(s)) == s` for every string `btoa` accepts. */
  lemma AtobOfBtoa(s: string)
    requires Btoa(s).Some?
    ensures Atob(Btoa(s).value) == Some(s)
  {
    var e := Encode(s);
    var d := Digits(s);
    forall i | 0 <= i < |e| ensures !IsAsciiWhitespace(e[i]) {
      if i < |d| {
        DigitIsPlain(d[i]);
      }
    }
    StripWhitespaceKeeps(e);
    StripPaddingOfEncode(s);
    DecodeDigitsOfDigits(s);
  }

  /** `atob(undefined)` reads the nine letters of `"undefined"`, which no Base64 text has. */
  lemma AtobOfUndefinedFails()
    ensures Atob("undefined") == None
  {
    var u := "undefined";
    StripWhitespaceKeeps(u);
    assert |u| % 4 == 1 && StripPadding(u) == u;
  }
}
