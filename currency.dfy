/**
 * The salary currency code (App.jsx, lines 377-379 and 405-406): trimmed, cut
 * to three characters, upper-cased, and "USD" when nothing is left.
 *
 * `String.prototype.toUpperCase` is modelled on Basic Latin and Latin-1, the
 * range where it can lengthen a string: `ß` becomes `SS`.
 */
module Currency {
  import opened Text

  const DefaultCurrency := "USD"

  /** The full upper-case mapping of one character, on Basic Latin and Latin-1. */
  function UpperCase(c: char): (u: string)
    ensures 1 <= |u| <= 2
    ensures |u| == 2 <==> c == 'ß'
    ensures forall i :: 0 <= i < |u| ==> !('a' <= u[i] <= 'z')
  {
    if 'a' <= c <= 'z' then [(c as int - 32) as char]
    else if c == 'ß' then "SS"
    else if c as int == 0xB5 then [0x39C as char]
    else if 0xE0 <= c as int <= 0xFE && c as int != 0xF7 then [(c as int - 0x20) as char]
    else if c as int == 0xFF then [0x178 as char]
    else [c]
  }

  /** `toUpperCase`: each character replaced by its upper-case form. */
  function UpperString(s: string): (u: string)
    ensures |u| >= |s|
    ensures forall i :: 0 <= i < |u| ==> !('a' <= u[i] <= 'z')
  {
    if s == [] then [] else UpperCase(s[0]) + UpperString(s[1..])
  }

  lemma {:induction false} UpperStringAppend(a: string, b: string)
    ensures UpperString(a + b) == UpperString(a) + UpperString(b)
  {
    if a != [] {
      assert (a + b)[1..] == a[1..] + b;
      UpperStringAppend(a[1..], b);
    } else {
      assert a + b == b;
    }
  }

  /** Without `ß`, upper-casing keeps the length. */
  lemma {:induction false} UpperStringLength(s: string)
    requires forall i :: 0 <= i < |s| ==> s[i] != 'ß'
    ensures |UpperString(s)| == |s|
  {
    if s != [] {
      UpperStringLength(s[1..]);
    }
  }

  /** `slice(0, 3)`. */
  function Slice3(s: string): (r: string)
    ensures |r| <= 3 && |r| <= |s| && r == s[..|r|]
    ensures |s| >= 3 ==> |r| == 3
    ensures |s| < 3 ==> r == s
  {
    if |s| <= 3 then s else s[..3]
  }

  /** The normalised currency exactly as the source writes it: slice, then upper-case. */
  function NormalizeCurrencyAsWritten(salaryCurrency: string): (code: string)
    ensures code != ""
    ensures Trim(salaryCurrency) == "" ==> code == DefaultCurrency
    ensures Trim(salaryCurrency) != "" ==> code == UpperString(Slice3(Trim(salaryCurrency)))
  {
    var u := UpperString(Slice3(Trim(salaryCurrency)));
    if u == "" then DefaultCurrency else u
  }

  /** A code that starts with `ß` comes out four characters long. */
  lemma AsWrittenCanExceedThree(salaryCurrency: string)
    requires salaryCurrency == "ßab"
    ensures NormalizeCurrencyAsWritten(salaryCurrency) == "SSAB"
    ensures |NormalizeCurrencyAsWritten(salaryCurrency)| == 4
  {
    TrimOfTrimmed(salaryCurrency);
    assert Slice3(salaryCurrency) == salaryCurrency;
    assert UpperString("b") == "B" by {
      assert "b"[1..] == "";
    }
    assert UpperString("ab") == "AB" by {
      assert "ab"[1..] == "b";
    }
    assert UpperString(salaryCurrency) == "SSAB" by {
      assert salaryCurrency[1..] == "ab";
      assert UpperCase('ß') == "SS";
    }
  }

  /** At most the first three characters of an upper-cased code, or the default when it is empty. */
  function CodeOrDefault(full: string): (code: string)
    requires forall i :: 0 <= i < |full| ==> !('a' <= full[i] <= 'z')
    ensures 1 <= |code| <= 3
    ensures forall i :: 0 <= i < |code| ==> !('a' <= code[i] <= 'z')
    ensures full == "" ==> code == DefaultCurrency
    ensures full != "" ==> code <= full && (|full| >= 3 ==> |code| == 3) && (|full| < 3 ==> code == full)
  {
    var u := Slice3(full);
    assert forall i :: 0 <= i < |u| ==> u[i] == full[i];
    if u == "" then DefaultCurrency else u
  }

  /**
   * The normalised currency as evidently intended: upper-case, then cut to
   * three characters, so the code is never longer than three.
   */
  function NormalizeCurrency(salaryCurrency: string): (code: string)
    ensures 1 <= |code| <= 3
    ensures forall i :: 0 <= i < |code| ==> !('a' <= code[i] <= 'z')
    ensures Trim(salaryCurrency) == "" ==> code == DefaultCurrency
    ensures Trim(salaryCurrency) != "" ==>
            var full := UpperString(Trim(salaryCurrency));
            code <= full && (|full| >= 3 ==> |code| == 3) && (|full| < 3 ==> code == full)
  {
    CodeOrDefault(UpperString(Trim(salaryCurrency)))
  }

  /** The corrected code is the as-written code cut back to three characters. */
  lemma CorrectedCutsAsWritten(salaryCurrency: string)
    ensures NormalizeCurrency(salaryCurrency) == Slice3(NormalizeCurrencyAsWritten(salaryCurrency))
  {
    var t := Trim(salaryCurrency);
    if |t| > 3 {
      assert t == t[..3] + t[3..];
      UpperStringAppend(t[..3], t[3..]);
      var head := UpperString(t[..3]);
      assert UpperString(t)[..3] == head[..3];
    }
  }

  /** Without an `ß` among the first three characters, both orders give the same code. */
  lemma SameCodeWithoutSharpS(salaryCurrency: string)
    requires var s := Slice3(Trim(salaryCurrency)); forall i :: 0 <= i < |s| ==> s[i] != 'ß'
    ensures NormalizeCurrency(salaryCurrency) == NormalizeCurrencyAsWritten(salaryCurrency)
  {
    CorrectedCutsAsWritten(salaryCurrency);
    UpperStringLength(Slice3(Trim(salaryCurrency)));
  }
}
