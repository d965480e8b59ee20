/**
 * The Python `str` operations the core relies on, over `seq<char>`: the
 * lexicographic order of `<` and `<=`, `re.split` on one character,
 * `sep.join`, `str.replace`, deleting the characters of a class, and the
 * zero-padded decimal numerals that `%04d` / `%02d` write.
 */
module PyStr {

  /** Python `a < b` on strings: code point by code point, a proper prefix first. */
  predicate Below(a: string, b: string) {
    if a == [] then b != []
    else if b == [] then false
    else if a[0] != b[0] then a[0] < b[0]
    else Below(a[1..], b[1..])
  }

  /** Python `a <= b` on strings. */
  predicate AtMost(a: string, b: string) {
    a == b || Below(a, b)
  }

  /** Exactly one of a < b, a == b, b < a holds. */
  lemma {:induction false} BelowTrichotomy(a: string, b: string)
    ensures Below(a, b) || a == b || Below(b, a)
    ensures !(Below(a, b) && Below(b, a))
    ensures !(Below(a, b) && a == b)
  {
    if a != [] && b != [] && a[0] == b[0] {
      BelowTrichotomy(a[1..], b[1..]);
      if a[1..] == b[1..] {
        assert a == [a[0]] + a[1..] && b == [b[0]] + b[1..];
      }
    }
  }

  /** Python `a > b` is exactly `not a <= b`. */
  lemma AtMostNegation(a: string, b: string)
    ensures !AtMost(a, b) <==> Below(b, a)
  {
    BelowTrichotomy(a, b);
  }

  /** Equal-length heads decide the order unless they are equal. */
  lemma {:induction false} BelowConcat(x: string, u: string, y: string, v: string)
    requires |x| == |y|
    ensures Below(x + u, y + v) <==> Below(x, y) || (x == y && Below(u, v))
  {
    if x == [] {
      assert x + u == u && y + v == v;
    } else {
      assert (x + u)[0] == x[0] && (y + v)[0] == y[0];
      assert (x + u)[1..] == x[1..] + u && (y + v)[1..] == y[1..] + v;
      BelowConcat(x[1..], u, y[1..], v);
      if x[0] == y[0] && x[1..] == y[1..] {
        assert x == [x[0]] + x[1..] && y == [y[0]] + y[1..];
      }
    }
  }

  predicate IsDigit(c: char) {
    '0' <= c <= '9'
  }

  function Pow10(w: nat): (p: nat)
    ensures p >= 1
  {
    if w == 0 then 1 else 10 * Pow10(w - 1)
  }

  function Digit(k: int): (c: char)
    requires 0 <= k < 10
    ensures IsDigit(c)
  {
    ('0' as int + k) as char
  }

  /** n written in decimal with zero padding to exactly w digits (`'%0*d' % (w, n)`). */
  function Pad(n: nat, w: nat): (s: string)
    requires n < Pow10(w)
    ensures |s| == w
    ensures forall i :: 0 <= i < |s| ==> IsDigit(s[i])
  {
    if w == 0 then "" else Pad(n / 10, w - 1) + [Digit(n % 10)]
  }

  /** The value of a string of decimal digits (`int(s)` on digits only). */
  function DigitsValue(s: string): int
    requires forall i :: 0 <= i < |s| ==> IsDigit(s[i])
  {
    if s == [] then 0 else DigitsValue(s[..|s| - 1]) * 10 + (s[|s| - 1] as int - '0' as int)
  }

  /** Reading a padded numeral back gives the number. */
  lemma {:induction false} PadValue(n: nat, w: nat)
    requires n < Pow10(w)
    ensures DigitsValue(Pad(n, w)) == n
  {
    if w > 0 {
      var s := Pad(n, w);
      assert s[..|s| - 1] == Pad(n / 10, w - 1);
      PadValue(n / 10, w - 1);
    }
  }

  lemma PadInjective(a: nat, b: nat, w: nat)
    requires a < Pow10(w) && b < Pow10(w)
    ensures Pad(a, w) == Pad(b, w) <==> a == b
  {
    if Pad(a, w) == Pad(b, w) {
      PadValue(a, w);
      PadValue(b, w);
    }
  }

  /** On numerals of one width, string order is numeric order. */
  lemma {:induction false} PadBelow(a: nat, b: nat, w: nat)
    requires a < Pow10(w) && b < Pow10(w)
    ensures Below(Pad(a, w), Pad(b, w)) <==> a < b
  {
    if w > 0 {
      var x, y := Pad(a / 10, w - 1), Pad(b / 10, w - 1);
      var u, v := [Digit(a % 10)], [Digit(b % 10)];
      BelowConcat(x, u, y, v);
      PadBelow(a / 10, b / 10, w - 1);
      PadInjective(a / 10, b / 10, w - 1);
      assert Below(u, v) <==> a % 10 < b % 10;
    }
  }

  /** `re.split(sep, s)` for a one-character pattern: the pieces between separators. */
  function Split(s: string, sep: char): (parts: seq<string>)
    ensures |parts| >= 1
  {
    if s == [] then [[]]
    else
      var rest := Split(s[1..], sep);
      if s[0] == sep then [[]] + rest
      else [[s[0]] + rest[0]] + rest[1..]
  }

  lemma {:induction false} SplitNone(a: string, sep: char)
    requires sep !in a
    ensures Split(a, sep) == [a]
  {
    if a != [] {
      SplitNone(a[1..], sep);
      assert a == [a[0]] + a[1..];
    }
  }

  lemma {:induction false} SplitAt(a: string, sep: char, b: string)
    requires sep !in a
    ensures Split(a + [sep] + b, sep) == [a] + Split(b, sep)
  {
    var s := a + [sep] + b;
    if a == [] {
      assert s[1..] == b;
    } else {
      assert s[1..] == a[1..] + [sep] + b;
      SplitAt(a[1..], sep, b);
      assert a == [a[0]] + a[1..];
    }
  }

  /** `sep.join(parts)`. */
  function JoinWith(parts: seq<string>, sep: string): string {
    if |parts| == 0 then ""
    else if |parts| == 1 then parts[0]
    else parts[0] + sep + JoinWith(parts[1..], sep)
  }

  /** `parts[::-1]`. */
  function Reversed<T>(parts: seq<T>): (r: seq<T>)
    ensures |r| == |parts|
  {
    if parts == [] then [] else Reversed(parts[1..]) + [parts[0]]
  }

  /**
   * `s.replace(pat, rep)`: scanning from the left, each occurrence of pat
   * that does not overlap an earlier replaced one becomes rep.
   */
  function ReplaceAll(s: string, pat: string, rep: string): string
    requires pat != []
    decreases |s|
  {
    if |s| < |pat| then s
    else if s[..|pat|] == pat then rep + ReplaceAll(s[|pat|..], pat, rep)
    else [s[0]] + ReplaceAll(s[1..], pat, rep)
  }

  /** Each character c of s becomes rep, the others are kept: a character-wise map. */
  function ReplaceChar(s: string, c: char, rep: string): string {
    if s == [] then [] else (if s[0] == c then rep else [s[0]]) + ReplaceChar(s[1..], c, rep)
  }

  /** With a one-character pattern, `str.replace` is the character-wise map. */
  lemma {:induction false} ReplaceAllOneChar(s: string, c: char, rep: string)
    ensures ReplaceAll(s, [c], rep) == ReplaceChar(s, c, rep)
  {
    if s != [] {
      ReplaceAllOneChar(s[1..], c, rep);
    }
  }

  /** `re.sub('[...]', '', s)`: delete every character in the class. */
  function RemoveChars(s: string, chars: set<char>): string {
    if s == [] then [] else (if s[0] in chars then [] else [s[0]]) + RemoveChars(s[1..], chars)
  }

  lemma {:induction false} RemoveCharsConcat(a: string, b: string, chars: set<char>)
    ensures RemoveChars(a + b, chars) == RemoveChars(a, chars) + RemoveChars(b, chars)
  {
    if a == [] {
      assert a + b == b;
    } else {
      assert (a + b)[0] == a[0] && (a + b)[1..] == a[1..] + b;
      RemoveCharsConcat(a[1..], b, chars);
    }
  }

  lemma {:induction false} RemoveCharsNone(a: string, chars: set<char>)
    requires forall i :: 0 <= i < |a| ==> a[i] !in chars
    ensures RemoveChars(a, chars) == a
  {
    if a != [] {
      RemoveCharsNone(a[1..], chars);
      assert a == [a[0]] + a[1..];
    }
  }

  /** Occurrences of c in s. */
  function Count(s: string, c: char): nat {
    if s == [] then 0 else (if s[0] == c then 1 else 0) + Count(s[1..], c)
  }
}
