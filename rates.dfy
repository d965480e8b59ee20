/**
 * The text stage of `convert_string_to_float`: a Brazilian-formatted price
 * such as `R$ 5.123,45` loses its currency symbols and its thousands
 * separators, and its decimal comma becomes a decimal point, so that
 * Python's `float()` can read it.
 */
module Rates {
  import opened PyStr

  /** The characters of the regex class `[R$]`. */
  const CurrencySymbols: set<char> := {'R', '$'}

  /** `col.str.replace('[R$]', "", regex=True)`: every `R` and `$`, wherever it stands. */
  function StripCurrencySymbols(s: string): string {
    RemoveChars(s, CurrencySymbols)
  }

  /**
   * The three replacements in order: `[R$]` -> "", then `.` -> "", then
   * `,` -> `.`; the last two are literal (`regex=False`).
   */
  function NormalizeRate(s: string): string {
    ReplaceAll(ReplaceAll(StripCurrencySymbols(s), ".", ""), ",", ".")
  }

  /** What happens to one character: symbols and dots go, a comma becomes a dot. */
  function RateChar(c: char): string {
    if c == 'R' || c == '$' || c == '.' then []
    else if c == ',' then "."
    else [c]
  }

  /** The reference definition: RateChar applied to every character. */
  function RateChars(s: string): string {
    if s == [] then [] else RateChar(s[0]) + RateChars(s[1..])
  }

  /** RateChars works character by character, so it distributes over `+`. */
  lemma {:induction false} RateCharsConcat(a: string, b: string)
    ensures RateChars(a + b) == RateChars(a) + RateChars(b)
  {
    if a == [] {
      assert a + b == b;
    } else {
      assert (a + b)[0] == a[0] && (a + b)[1..] == a[1..] + b;
      RateCharsConcat(a[1..], b);
    }
  }

  lemma {:induction false} ReplaceCharConcat(a: string, b: string, c: char, rep: string)
    ensures ReplaceChar(a + b, c, rep) == ReplaceChar(a, c, rep) + ReplaceChar(b, c, rep)
  {
    if a == [] {
      assert a + b == b;
    } else {
      assert (a + b)[0] == a[0] && (a + b)[1..] == a[1..] + b;
      ReplaceCharConcat(a[1..], b, c, rep);
    }
  }

  /** The three passes, each a character-wise map, make one character-wise map. */
  lemma {:induction false} PassesAreRateChars(s: string)
    ensures ReplaceChar(ReplaceChar(RemoveChars(s, CurrencySymbols), '.', ""), ',', ".") == RateChars(s)
  {
    if s != [] {
      var head := if s[0] in CurrencySymbols then [] else [s[0]];
      var tail := RemoveChars(s[1..], CurrencySymbols);
      assert RemoveChars(s, CurrencySymbols) == head + tail;
      ReplaceCharConcat(head, tail, '.', "");
      var head' := ReplaceChar(head, '.', "");
      ReplaceCharConcat(head', ReplaceChar(tail, '.', ""), ',', ".");
      PassesAreRateChars(s[1..]);
      assert ReplaceChar(ReplaceChar(head, '.', ""), ',', ".") == RateChar(s[0]);
    }
  }

  /** The source's three replacements are the character-wise map RateChars. */
  lemma NormalizeRateIsRateChars(s: string)
    ensures NormalizeRate(s) == RateChars(s)
  {
    var stripped := StripCurrencySymbols(s);
    ReplaceAllOneChar(stripped, '.', "");
    ReplaceAllOneChar(ReplaceChar(stripped, '.', ""), ',', ".");
    PassesAreRateChars(s);
  }

  /** One character out for every `R`, `$` and `.`; every other character stays. */
  lemma {:induction false} RateCharsLength(s: string)
    ensures |RateChars(s)| == |s| - Count(s, 'R') - Count(s, '$') - Count(s, '.')
  {
    if s != [] {
      RateCharsLength(s[1..]);
    }
  }

  /** No `R`, `$` or `,` is left, and there is one `.` for every `,` of the input. */
  lemma {:induction false} RateCharsSeparators(s: string)
    ensures 'R' !in RateChars(s) && '$' !in RateChars(s) && ',' !in RateChars(s)
    ensures Count(RateChars(s), '.') == Count(s, ',')
  {
    if s != [] {
      RateCharsSeparators(s[1..]);
      CountConcat(RateChar(s[0]), RateChars(s[1..]), '.');
    }
  }

  lemma {:induction false} CountConcat(a: string, b: string, c: char)
    ensures Count(a + b, c) == Count(a, c) + Count(b, c)
  {
    if a == [] {
      assert a + b == b;
    } else {
      assert (a + b)[0] == a[0] && (a + b)[1..] == a[1..] + b;
      CountConcat(a[1..], b, c);
    }
  }

  /** Apart from the decimal point, the output is the input's other characters in their order. */
  lemma {:induction false} RateCharsKeepsDigits(s: string)
    ensures RemoveChars(RateChars(s), {'.'}) == RemoveChars(s, {'R', '$', '.', ','})
  {
    if s != [] {
      RateCharsKeepsDigits(s[1..]);
      RemoveCharsConcat(RateChar(s[0]), RateChars(s[1..]), {'.'});
    }
  }

  /** The properties of the rate text stage, stated on the source's own composition. */
  lemma NormalizeRateProperties(s: string)
    ensures var r := NormalizeRate(s);
            |r| == |s| - Count(s, 'R') - Count(s, '$') - Count(s, '.')
            && 'R' !in r && '$' !in r && ',' !in r
            && Count(r, '.') == Count(s, ',')
            && RemoveChars(r, {'.'}) == RemoveChars(s, {'R', '$', '.', ','})
  {
    NormalizeRateIsRateChars(s);
    RateCharsLength(s);
    RateCharsSeparators(s);
    RateCharsKeepsDigits(s);
  }
}
