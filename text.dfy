/**
 * Character and string helpers shared by the model: ASCII digits and decimal
 * values, zero padding, ECMAScript whitespace and `trim`, and ASCII case folding.
 */
module Text {

  predicate IsDigit(c: char) {
    '0' <= c <= '9'
  }

  predicate AllDigits(s: string) {
    forall i :: 0 <= i < |s| ==> IsDigit(s[i])
  }

  function DigitValue(c: char): (d: nat)
    requires IsDigit(c)
    ensures d < 10
  {
    (c as int) - ('0' as int)
  }

  function DigitChar(d: nat): (c: char)
    requires d < 10
    ensures IsDigit(c) && DigitValue(c) == d
  {
    (('0' as int) + d) as char
  }

  /** The value of a string of decimal digits (the source's `Number(digits)`). */
  function DecimalValue(s: string): nat
    requires AllDigits(s)
  {
    if s == [] then 0 else DecimalValue(s[..|s| - 1]) * 10 + DigitValue(s[|s| - 1])
  }

  /** The decimal rendering of `n`, without leading zeros (the source's `${n}`). */
  function NatToString(n: nat): (r: string)
    ensures |r| >= 1 && AllDigits(r)
    ensures r[0] == '0' ==> n == 0 && r == "0"
  {
    if n < 10 then [DigitChar(n)] else NatToString(n / 10) + [DigitChar(n % 10)]
  }

  lemma {:induction false} DecimalValueOfNatToString(n: nat)
    ensures DecimalValue(NatToString(n)) == n
  {
    if n >= 10 {
      var s := NatToString(n);
      assert s[..|s| - 1] == NatToString(n / 10);
      DecimalValueOfNatToString(n / 10);
    }
  }

  /** Prefixing zeros does not change a decimal value. */
  lemma {:induction false} DecimalValueZeroPrefix(s: string, k: nat)
    requires AllDigits(s)
    ensures AllDigits(seq(k, _ => '0') + s)
    ensures DecimalValue(seq(k, _ => '0') + s) == DecimalValue(s)
  {
    var z := seq(k, _ => '0');
    if s == [] {
      assert z + s == z;
      ZerosValue(k);
    } else {
      var t := z + s;
      assert t[..|t| - 1] == z + s[..|s| - 1];
      DecimalValueZeroPrefix(s[..|s| - 1], k);
    }
  }

  lemma {:induction false} ZerosValue(k: nat)
    ensures AllDigits(seq(k, _ => '0')) && DecimalValue(seq(k, _ => '0')) == 0
  {
    if k > 0 {
      assert seq(k, _ => '0')[..k - 1] == seq(k - 1, _ => '0');
      ZerosValue(k - 1);
    }
  }

  /** `s.padStart(width, '0')` for a string of digits. */
  function PadZeros(s: string, width: nat): (r: string)
    ensures |r| == if |s| >= width then |s| else width
    ensures AllDigits(s) ==> AllDigits(r)
    ensures r[|r| - |s|..] == s
  {
    if |s| >= width then s else seq(width - |s|, _ => '0') + s
  }

  lemma PadZerosValue(s: string, width: nat)
    requires AllDigits(s)
    ensures AllDigits(PadZeros(s, width)) && DecimalValue(PadZeros(s, width)) == DecimalValue(s)
  {
    if |s| < width {
      DecimalValueZeroPrefix(s, width - |s|);
    }
  }

  /** ECMAScript LineTerminator: the characters `.` in a regular expression does not match. */
  predicate IsLineTerminator(c: char) {
    c == '\n' || c == '\r' || c as int == 0x2028 || c as int == 0x2029
  }

  /** ECMAScript WhiteSpace or LineTerminator: what `String.prototype.trim` removes. */
  predicate IsWhitespace(c: char) {
    || IsLineTerminator(c)
    || c == ' ' || c == '\t' || c as int == 0x0B || c as int == 0x0C
    || c as int == 0xA0 || c as int == 0x1680 || 0x2000 <= c as int <= 0x200A
    || c as int == 0x202F || c as int == 0x205F || c as int == 0x3000 || c as int == 0xFEFF
  }

  function TrimStart(s: string): (r: string)
    ensures |r| <= |s| && r == s[|s| - |r|..]
    ensures r != [] ==> !IsWhitespace(r[0])
    ensures forall k :: 0 <= k < |s| - |r| ==> IsWhitespace(s[k])
  {
    if s != [] && IsWhitespace(s[0]) then TrimStart(s[1..]) else s
  }

  function TrimEnd(s: string): (r: string)
    ensures |r| <= |s| && r == s[..|r|]
    ensures r != [] ==> !IsWhitespace(r[|r| - 1])
    ensures forall k :: |r| <= k < |s| ==> IsWhitespace(s[k])
  {
    if s != [] && IsWhitespace(s[|s| - 1]) then TrimEnd(s[..|s| - 1]) else s
  }

  /** `String.prototype.trim`. */
  function Trim(s: string): string {
    TrimEnd(TrimStart(s))
  }

  /** A string with no whitespace at either end is its own trim. */
  lemma TrimOfTrimmed(s: string)
    requires s != [] ==> !IsWhitespace(s[0]) && !IsWhitespace(s[|s| - 1])
    ensures Trim(s) == s
  {
  }

  predicate AllWhitespace(s: string) {
    forall i :: 0 <= i < |s| ==> IsWhitespace(s[i])
  }

  lemma {:induction false} TrimStartPrefix(ws: string, t: string)
    requires AllWhitespace(ws) && (t != [] ==> !IsWhitespace(t[0]))
    ensures TrimStart(ws + t) == t
  {
    if ws != [] {
      assert (ws + t)[1..] == ws[1..] + t;
      TrimStartPrefix(ws[1..], t);
    }
  }

  lemma {:induction false} TrimEndSuffix(t: string, ws: string)
    requires AllWhitespace(ws) && (t != [] ==> !IsWhitespace(t[|t| - 1]))
    ensures TrimEnd(t + ws) == t
  {
    if ws != [] {
      assert (t + ws)[..|t + ws| - 1] == t + ws[..|ws| - 1];
      TrimEndSuffix(t, ws[..|ws| - 1]);
    } else {
      assert t + ws == t;
    }
  }

  /** `trim` removes exactly the whitespace around a text that has none at its ends. */
  lemma TrimSurrounded(before: string, t: string, after: string)
    requires AllWhitespace(before) && AllWhitespace(after)
    requires t != [] ==> !IsWhitespace(t[0]) && !IsWhitespace(t[|t| - 1])
    ensures Trim(before + t + after) == t
  {
    if t == [] {
      var w := before + after;
      assert before + t + after == w + [];
      TrimStartPrefix(w, []);
    } else {
      assert before + t + after == before + (t + after);
      TrimStartPrefix(before, t + after);
      TrimEndSuffix(t, after);
    }
  }

  lemma TrimStartParts(s: string) returns (a: string)
    ensures AllWhitespace(a) && s == a + TrimStart(s)
  {
    var u := TrimStart(s);
    var k := |s| - |u|;
    a := s[..k];
    assert s == a + s[k..];
    assert AllWhitespace(a) by {
      forall i | 0 <= i < k ensures IsWhitespace(a[i]) {
        assert a[i] == s[i];
      }
    }
  }

  lemma TrimEndParts(u: string) returns (b: string)
    ensures AllWhitespace(b) && u == TrimEnd(u) + b
  {
    var t := TrimEnd(u);
    b := u[|t|..];
    assert AllWhitespace(b) by {
      forall i | 0 <= i < |b| ensures IsWhitespace(b[i]) {
        assert b[i] == u[|t| + i];
      }
    }
  }

  /** Every string is its trim with whitespace around it. */
  lemma TrimParts(s: string) returns (a: string, b: string)
    ensures AllWhitespace(a) && AllWhitespace(b)
    ensures s == a + Trim(s) + b
    ensures Trim(s) != [] ==> !IsWhitespace(Trim(s)[0]) && !IsWhitespace(Trim(s)[|Trim(s)| - 1])
  {
    var u := TrimStart(s);
    var t := TrimEnd(u);
    assert t == Trim(s);
    a := TrimStartParts(s);
    b := TrimEndParts(u);
    ConcatAssoc(s, a, u, t, b);
    TrimEnds(u, t);
  }

  /** The trim of a string with no leading whitespace has none at either end. */
  lemma TrimEnds(u: string, t: string)
    requires u != [] ==> !IsWhitespace(u[0])
    requires t == TrimEnd(u)
    ensures t != [] ==> !IsWhitespace(t[0]) && !IsWhitespace(t[|t| - 1])
  {
    if t != [] {
      assert t[0] == u[0];
    }
  }

  lemma ConcatAssoc(s: string, a: string, u: string, t: string, b: string)
    requires s == a + u && u == t + b
    ensures s == a + t + b
  {
  }

  lemma ConcatChain(r: string, a: string, x: string, b: string, y: string, c: string, z: string)
    requires r == a + x && x == b + y && y == c + z
    ensures r == a + b + c + z
  {
    ConcatAssoc(x, b, y, c, z);
    assert r == a + (b + c + z);
  }

  lemma ConcatRegroup(before: string, a: string, t: string, b: string, after: string)
    ensures before + (a + t + b) + after == (before + a) + t + (b + after)
  {
  }

  lemma AllWhitespaceConcat(x: string, y: string)
    requires AllWhitespace(x) && AllWhitespace(y)
    ensures AllWhitespace(x + y)
  {
  }

  /** Whitespace added around a string does not change its trim. */
  lemma TrimAbsorbsPadding(before: string, s: string, after: string)
    requires AllWhitespace(before) && AllWhitespace(after)
    ensures Trim(before + s + after) == Trim(s)
  {
    var t := Trim(s);
    var a, b := TrimParts(s);
    AllWhitespaceConcat(before, a);
    AllWhitespaceConcat(b, after);
    ConcatRegroup(before, a, t, b, after);
    TrimSurrounded(before + a, t, b + after);
  }

  function LowerChar(c: char): (d: char)
    ensures 'A' <= c <= 'Z' ==> 'a' <= d <= 'z'
    ensures !('A' <= c <= 'Z') ==> d == c
  {
    if 'A' <= c <= 'Z' then (c as int + 32) as char else c
  }

  /** ASCII lower-casing of every character. */
  function LowerAscii(s: string): (r: string)
    ensures |r| == |s|
    ensures forall i :: 0 <= i < |s| ==> r[i] == LowerChar(s[i])
  {
    seq(|s|, i requires 0 <= i < |s| => LowerChar(s[i]))
  }

  function UpperChar(c: char): (d: char)
    ensures 'a' <= c <= 'z' ==> 'A' <= d <= 'Z'
    ensures !('a' <= c <= 'z') ==> d == c
  {
    if 'a' <= c <= 'z' then (c as int - 32) as char else c
  }

  /** ASCII upper-casing of every character. */
  function UpperAscii(s: string): (r: string)
    ensures |r| == |s|
    ensures forall i :: 0 <= i < |s| ==> r[i] == UpperChar(s[i])
  {
    seq(|s|, i requires 0 <= i < |s| => UpperChar(s[i]))
  }
}
