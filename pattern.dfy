/** The three regular expressions of the form script. Each is anchored at
    both ends (`^…$`, no `m` flag) and is either a fixed run of character
    classes (`/^(\d{5})-(\d{3})$/`, `/^[A-Z]{2}$/`) or one class repeated one
    or more times (`/^\d+$/`), so `RegExp.prototype.test` on them is a plain
    scan of the string. The capture groups of the CEP pattern do not change
    what `test` answers and are not modelled.
 */
module Pattern {
  import opened JsString

  datatype CharClass = Digit | UpperLatin | Literal(c: char)

  predicate InClass(k: CharClass, c: char) {
    match k
    case Digit => IsAsciiDigit(c)
    case UpperLatin => IsAsciiUpper(c)
    case Literal(l) => c == l
  }

  /** An anchored pattern: exactly the given classes, one character each, or
      one class one or more times. */
  datatype Regex = Exactly(classes: seq<CharClass>) | OneOrMore(k: CharClass)

  /** `/^(\d{5})-(\d{3})$/` */
  const CepRegex: Regex :=
    Exactly([Digit, Digit, Digit, Digit, Digit, Literal('-'), Digit, Digit, Digit])

  /** `/^\d+$/` */
  const NumeroRegex: Regex := OneOrMore(Digit)

  /** `/^[A-Z]{2}$/` */
  const UfRegex: Regex := Exactly([UpperLatin, UpperLatin])

  function MatchesRun(ks: seq<CharClass>, s: string): bool {
    if ks == [] then s == []
    else s != [] && InClass(ks[0], s[0]) && MatchesRun(ks[1..], s[1..])
  }

  function MatchesStar(k: CharClass, s: string): bool {
    s == [] || (InClass(k, s[0]) && MatchesStar(k, s[1..]))
  }

  /** `re.test(s)` for an anchored pattern. */
  function Test(re: Regex, s: string): bool {
    match re
    case Exactly(ks) => MatchesRun(ks, s)
    case OneOrMore(k) => s != [] && MatchesStar(k, s)
  }

  /** A run of classes matches exactly the strings of its length whose every
      character is in the class at the same position. */
  lemma {:induction false} MatchesRunIff(ks: seq<CharClass>, s: string)
    ensures MatchesRun(ks, s) <==> |s| == |ks| && forall i :: 0 <= i < |s| ==> InClass(ks[i], s[i])
  {
    if ks != [] && s != [] {
      MatchesRunIff(ks[1..], s[1..]);
      if |s| == |ks| && forall i :: 0 <= i < |s| ==> InClass(ks[i], s[i]) {
        forall i | 0 <= i < |s| - 1 ensures InClass(ks[1..][i], s[1..][i]) {
          assert ks[1..][i] == ks[i + 1] && s[1..][i] == s[i + 1];
        }
      }
      if MatchesRun(ks, s) {
        forall i | 0 <= i < |s| ensures InClass(ks[i], s[i]) {
          if i > 0 {
            assert ks[1..][i - 1] == ks[i] && s[1..][i - 1] == s[i];
          }
        }
      }
    }
  }

  /** A repeated class matches exactly the strings whose every character is
      in it. */
  lemma {:induction false} MatchesStarIff(k: CharClass, s: string)
    ensures MatchesStar(k, s) <==> forall i :: 0 <= i < |s| ==> InClass(k, s[i])
  {
    if s != [] {
      MatchesStarIff(k, s[1..]);
      assert forall i :: 0 < i < |s| ==> s[1..][i - 1] == s[i];
    }
  }

  /** `/^(\d{5})-(\d{3})$/.test(s)`: nine characters, a hyphen at index 5 and
      ASCII digits everywhere else. */
  lemma CepRegexIff(s: string)
    ensures Test(CepRegex, s) <==>
      |s| == 9 && s[5] == '-' && forall i :: 0 <= i < 9 && i != 5 ==> IsAsciiDigit(s[i])
  {
    MatchesRunIff(CepRegex.classes, s);
  }

  /** `/^\d+$/.test(s)`: at least one character, all of them ASCII digits. */
  lemma NumeroRegexIff(s: string)
    ensures Test(NumeroRegex, s) <==> s != [] && AllDigits(s)
  {
    MatchesStarIff(Digit, s);
  }

  /** `/^[A-Z]{2}$/.test(s)`: exactly two characters, both in `A`-`Z`. */
  lemma UfRegexIff(s: string)
    ensures Test(UfRegex, s) <==> |s| == 2 && IsAsciiUpper(s[0]) && IsAsciiUpper(s[1])
  {
    MatchesRunIff(UfRegex.classes, s);
  }
}
