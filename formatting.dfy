/** The two live input formatters of the address form, as functions of the
    field's current value: the CEP mask and the upper-casing of the UF field.
    The handlers that write their results back into the form are in module
    Submission.
 */
module Formatting {
  import opened JsString
  import opened Validation

  function Min(a: int, b: int): int {
    if a <= b then a else b
  }

  /** `s.substring(start, end)`: both bounds are clamped to the length, and
      swapped when `start` exceeds `end`. */
  function Substring(s: string, start: nat, end: nat): (r: string)
    ensures |r| == if Min(start, |s|) <= Min(end, |s|) then Min(end, |s|) - Min(start, |s|)
                   else Min(start, |s|) - Min(end, |s|)
    ensures start <= end <= |s| ==> r == s[start..end]
    ensures start <= |s| <= end ==> r == s[start..]
  {
    var a, b := Min(start, |s|), Min(end, |s|);
    if a <= b then s[a..b] else s[b..a]
  }

  /** With the bounds reversed, `substring` gives the same piece as with them
      in order. */
  lemma SubstringSwap(s: string, start: nat, end: nat)
    ensures Substring(s, start, end) == Substring(s, end, start)
  {
  }

  /** The CEP mask: the new field value for the raw one. Only digits survive,
      a hyphen sits at index 5 exactly when more than five digits were
      typed, it is never the last character, and at most 5 + 1 + 3
      characters remain. */
  function MaskCep(raw: string): (r: string)
    ensures |r| <= 9 && |r| != 6
    ensures forall i :: 0 <= i < |r| && i != 5 ==> IsAsciiDigit(r[i])
    ensures |r| > 5 <==> |OnlyDigits(raw)| > 5
    ensures |r| > 5 ==> r[5] == '-'
    ensures |r| == Min(|OnlyDigits(raw)|, 8) + (if |OnlyDigits(raw)| > 5 then 1 else 0)
  {
    var value := OnlyDigits(raw);
    if |value| > 5 then Substring(value, 0, 5) + "-" + Substring(value, 5, 8)
    else value
  }

  /** The digits the mask keeps are the first (at most eight) digits typed. */
  lemma MaskCepKeepsDigitPrefix(raw: string)
    ensures OnlyDigits(MaskCep(raw)) == OnlyDigits(raw)[..Min(|OnlyDigits(raw)|, 8)]
  {
    var d := OnlyDigits(raw);
    var k := Min(|d|, 8);
    if |d| > 5 {
      var head, tail := d[..5], d[5..k];
      assert MaskCep(raw) == head + "-" + tail;
      OnlyDigitsConcat(head + "-", tail);
      OnlyDigitsConcat(head, "-");
      OnlyDigitsOfDigits(head);
      OnlyDigitsOfDigits(tail);
      assert OnlyDigits("-") == [];
      assert head + tail == d[..k];
    } else {
      OnlyDigitsOfDigits(d);
      assert d[..k] == d;
    }
  }

  /** Masking an already masked value changes nothing. */
  lemma MaskCepIdempotent(raw: string)
    ensures MaskCep(MaskCep(raw)) == MaskCep(raw)
  {
    var d := OnlyDigits(raw);
    var k := Min(|d|, 8);
    var r := MaskCep(raw);
    MaskCepKeepsDigitPrefix(raw);
    var e := d[..k];
    assert OnlyDigits(r) == e;
    if |d| > 5 {
      assert e[..5] == d[..5] && e[5..Min(|e|, 8)] == d[5..k];
    } else {
      assert e == d;
    }
  }

  /** A value already in the `00000-000` format is left as it is. */
  lemma MaskCepKeepsFormatted(s: string)
    requires IsCepShape(s)
    ensures MaskCep(s) == s
  {
    var head, tail := s[..5], s[6..];
    assert s == head + "-" + tail;
    assert AllDigits(head) && AllDigits(tail) by {
      assert forall i :: 0 <= i < 5 ==> head[i] == s[i];
      assert forall i :: 0 <= i < 3 ==> tail[i] == s[i + 6];
    }
    OnlyDigitsConcat(head + "-", tail);
    OnlyDigitsConcat(head, "-");
    OnlyDigitsOfDigits(head);
    OnlyDigitsOfDigits(tail);
    assert OnlyDigits("-") == [];
    var d := head + tail;
    assert OnlyDigits(s) == d;
    assert d[..5] == head && d[5..8] == tail;
  }

  /** What `validarCEP` then says of a masked value: it is accepted exactly
      when at least eight digits were typed, it is missing when none were,
      and badly formatted otherwise. */
  lemma MaskCepValidation(raw: string)
    ensures ValidarCEP(MaskCep(raw)) == Valid <==> |OnlyDigits(raw)| >= 8
    ensures ValidarCEP(MaskCep(raw)) == Invalid(CepRequired) <==> |OnlyDigits(raw)| == 0
    ensures ValidarCEP(MaskCep(raw)) == Invalid(CepFormat) <==> 1 <= |OnlyDigits(raw)| <= 7
  {
  }

  /** Upper-casing the UF field twice is upper-casing it once. */
  lemma {:induction false} UpperCaseIdempotent(s: string)
    ensures ToUpperCase(ToUpperCase(s)) == ToUpperCase(s)
  {
    var u := ToUpperCase(s);
    assert forall i :: 0 <= i < |s| ==> UpperChar(u[i]) == u[i];
  }

  predicate IsAsciiLetter(c: char) {
    IsAsciiUpper(c) || IsAsciiLower(c)
  }

  /** A character upper-cases into `A`-`Z` exactly when it is an ASCII letter. */
  lemma UpperCharIsUpperIff(c: char)
    ensures IsAsciiUpper(UpperChar(c)) <==> IsAsciiLetter(c)
  {
    if IsAsciiLower(c) {
      assert 'A' as int <= UpperChar(c) as int <= 'Z' as int;
    }
  }

  /** Two characters upper-case into a well-formed UF exactly when both are
      ASCII letters; no other length ever does. */
  lemma UpperCaseUfShape(s: string)
    ensures IsUfShape(ToUpperCase(s)) <==> |s| == 2 && IsAsciiLetter(s[0]) && IsAsciiLetter(s[1])
  {
    if |s| == 2 {
      var u := ToUpperCase(s);
      UpperCharIsUpperIff(s[0]);
      UpperCharIsUpperIff(s[1]);
      assert u[0] == UpperChar(s[0]) && u[1] == UpperChar(s[1]);
    }
  }

  /** After the UF handler, `validarUF` accepts the value exactly when two
      ASCII letters, of either case, were typed. */
  lemma UpperCaseUfValid(s: string)
    ensures ValidarUF(ToUpperCase(s)) == Valid <==> |s| == 2 && IsAsciiLetter(s[0]) && IsAsciiLetter(s[1])
  {
    UpperCaseUfShape(s);
  }
}
