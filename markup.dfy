/**
 * `trata_html`: the markup normalisation applied to a fetched page before it
 * is parsed. Runs of whitespace become single spaces and leading and
 * trailing whitespace goes (`" ".join(s.split())`), then every `> <` becomes
 * `><`, so that the pretty-printing between tags leaves no text nodes.
 */
module Markup {
  import opened PyStr

  /** Python `c.isspace()`: the characters `str.split()` splits on. */
  predicate IsSpace(c: char) {
    c == ' ' || '\t' <= c <= '\r' || '\U{1c}' <= c <= '\U{1f}' || c == '\U{85}' || c == '\U{a0}'
    || c == '\U{1680}' || '\U{2000}' <= c <= '\U{200a}' || c == '\U{2028}' || c == '\U{2029}'
    || c == '\U{202f}' || c == '\U{205f}' || c == '\U{3000}'
  }

  // ---------------------------------------------------------------- s.split()

  /** s without its leading whitespace. */
  function DropSpaces(s: string): (t: string)
    ensures |t| <= |s| && t == s[|s| - |t|..]
    ensures t == [] || !IsSpace(t[0])
  {
    if s != [] && IsSpace(s[0]) then DropSpaces(s[1..]) else s
  }

  /** The longest prefix of s without whitespace. */
  function LeadingWord(s: string): (w: string)
    ensures |w| <= |s| && w == s[..|w|]
    ensures forall i :: 0 <= i < |w| ==> !IsSpace(w[i])
    ensures |w| < |s| ==> IsSpace(s[|w|])
    ensures s != [] && !IsSpace(s[0]) ==> |w| >= 1
  {
    if s == [] || IsSpace(s[0]) then [] else [s[0]] + LeadingWord(s[1..])
  }

  /** `s.split()`: the maximal runs of non-whitespace characters, in order. */
  function Words(s: string): seq<string>
    decreases |s|
  {
    var t := DropSpaces(s);
    if t == [] then []
    else
      var w := LeadingWord(t);
      [w] + Words(t[|w|..])
  }

  // ------------------------------------------------------------ the operation

  /** `s.replace('> <', '><')`. */
  function CloseTagGaps(s: string): string {
    ReplaceAll(s, "> <", "><")
  }

  /** `trata_html(s)`: `" ".join(s.split()).replace('> <', '><')`. */
  function NormalizeMarkup(s: string): string {
    CloseTagGaps(JoinWith(Words(s), " "))
  }

  // ------------------------------------------------ properties of the output

  predicate IsWord(w: string) {
    w != [] && forall i :: 0 <= i < |w| ==> !IsSpace(w[i])
  }

  /** The only whitespace character is the plain space. */
  predicate OnlyPlainSpaces(t: string) {
    forall i :: 0 <= i < |t| && IsSpace(t[i]) ==> t[i] == ' '
  }

  predicate NoDoubleSpace(t: string) {
    forall i :: 0 <= i < |t| - 1 ==> !(IsSpace(t[i]) && IsSpace(t[i + 1]))
  }

  /** No leading and no trailing whitespace. */
  predicate Trimmed(t: string) {
    t == [] || (!IsSpace(t[0]) && !IsSpace(t[|t| - 1]))
  }

  predicate Normal(t: string) {
    OnlyPlainSpaces(t) && NoDoubleSpace(t) && Trimmed(t)
  }

  /** No occurrence of `> <`. */
  predicate NoTagGap(t: string) {
    forall i :: 0 <= i < |t| - 2 ==> !(t[i] == '>' && t[i + 1] == ' ' && t[i + 2] == '<')
  }

  /** The non-whitespace characters of s, in order. */
  function NonSpace(s: string): string {
    if s == [] then [] else (if IsSpace(s[0]) then [] else [s[0]]) + NonSpace(s[1..])
  }

  function Concat(ws: seq<string>): string {
    if ws == [] then [] else ws[0] + Concat(ws[1..])
  }

  // ------------------------------------------------------------ NonSpace

  lemma {:induction false} NonSpaceConcat(a: string, b: string)
    ensures NonSpace(a + b) == NonSpace(a) + NonSpace(b)
  {
    if a == [] {
      assert a + b == b;
    } else {
      var c, rest := a[0], a[1..];
      assert a == [c] + rest && a + b == [c] + (rest + b);
      NonSpaceCons(c, rest + b);
      NonSpaceCons(c, rest);
      NonSpaceConcat(rest, b);
    }
  }

  lemma NonSpaceCons(c: char, t: string)
    ensures NonSpace([c] + t) == (if IsSpace(c) then [] else [c]) + NonSpace(t)
  {
    assert ([c] + t)[1..] == t;
  }

  lemma {:induction false} NonSpaceOfWord(w: string)
    requires forall i :: 0 <= i < |w| ==> !IsSpace(w[i])
    ensures NonSpace(w) == w
  {
    if w != [] {
      NonSpaceOfWord(w[1..]);
      assert w == [w[0]] + w[1..];
    }
  }

  lemma {:induction false} NonSpaceDropSpaces(s: string)
    ensures NonSpace(DropSpaces(s)) == NonSpace(s)
  {
    if s != [] && IsSpace(s[0]) {
      NonSpaceDropSpaces(s[1..]);
    }
  }

  // ------------------------------------------------------------ s.split()

  /** Every piece `s.split()` returns is a non-empty run without whitespace. */
  lemma {:induction false} WordsAreWords(s: string)
    ensures forall i :: 0 <= i < |Words(s)| ==> IsWord(Words(s)[i])
    decreases |s|
  {
    var t := DropSpaces(s);
    if t != [] {
      var w := LeadingWord(t);
      var rest := Words(t[|w|..]);
      WordsAreWords(t[|w|..]);
      var ws := Words(s);
      assert ws == [w] + rest;
      forall i | 0 <= i < |ws| ensures IsWord(ws[i]) {
        if i > 0 {
          assert ws[i] == rest[i - 1];
        }
      }
    }
  }

  /** `s.split()` does not look at leading whitespace. */
  lemma WordsDropSpaces(s: string)
    ensures Words(s) == Words(DropSpaces(s))
  {
    var t := DropSpaces(s);
    assert DropSpaces(t) == t;
  }

  lemma ConcatCons(w: string, ws: seq<string>)
    ensures Concat([w] + ws) == w + Concat(ws)
  {
    assert ([w] + ws)[1..] == ws;
  }

  /** The non-whitespace text of a word followed by more text. */
  lemma NonSpaceAfterWord(t: string)
    ensures NonSpace(t) == LeadingWord(t) + NonSpace(t[|LeadingWord(t)|..])
  {
    var w := LeadingWord(t);
    assert t == w + t[|w|..];
    NonSpaceConcat(w, t[|w|..]);
    NonSpaceOfWord(w);
  }

  /** `s.split()` drops exactly the whitespace: its pieces concatenate to NonSpace(s). */
  lemma {:induction false} WordsKeepText(s: string)
    ensures Concat(Words(s)) == NonSpace(s)
    decreases |s|
  {
    var t := DropSpaces(s);
    NonSpaceDropSpaces(s);
    WordsDropSpaces(s);
    if t != [] {
      var w := LeadingWord(t);
      var rest := t[|w|..];
      WordsFirst(t);
      WordsKeepText(rest);
      ConcatCons(w, Words(rest));
      NonSpaceAfterWord(t);
    }
  }

  // ------------------------------------------------------ " ".join(words)

  lemma {:induction false} JoinFirst(ws: seq<string>)
    requires |ws| >= 1 && forall i :: 0 <= i < |ws| ==> IsWord(ws[i])
    ensures var j := JoinWith(ws, " "); |j| >= |ws[0]| && j[..|ws[0]|] == ws[0]
  {
    if |ws| > 1 {
      assert JoinWith(ws, " ") == ws[0] + (" " + JoinWith(ws[1..], " "));
    }
  }

  lemma {:induction false} JoinLast(ws: seq<string>)
    requires |ws| >= 1 && forall i :: 0 <= i < |ws| ==> IsWord(ws[i])
    ensures var j := JoinWith(ws, " "); j != [] && !IsSpace(j[|j| - 1])
  {
    if |ws| > 1 {
      JoinLast(ws[1..]);
      var tail := JoinWith(ws[1..], " ");
      assert JoinWith(ws, " ") == (ws[0] + " ") + tail;
    } else {
      assert IsWord(ws[0]);
    }
  }

  /** Words joined by single spaces are in normal form. */
  lemma {:induction false} JoinNormal(ws: seq<string>)
    requires forall i :: 0 <= i < |ws| ==> IsWord(ws[i])
    ensures Normal(JoinWith(ws, " "))
  {
    if |ws| == 1 {
      assert IsWord(ws[0]);
    } else if |ws| > 1 {
      var w := ws[0];
      assert IsWord(w);
      var j := JoinWith(ws[1..], " ");
      JoinNormal(ws[1..]);
      JoinFirst(ws[1..]);
      JoinLast(ws[1..]);
      assert IsWord(ws[1..][0]);
      assert !IsSpace(j[0]);
      var t := JoinWith(ws, " ");
      assert t == w + " " + j;
      assert forall i :: 0 <= i < |w| ==> t[i] == w[i];
      assert t[|w|] == ' ';
      assert forall i :: |w| < i < |t| ==> t[i] == j[i - |w| - 1];
      assert OnlyPlainSpaces(t) by {
        forall i | 0 <= i < |t| && IsSpace(t[i]) ensures t[i] == ' ' {
          if i > |w| {
            assert t[i] == j[i - |w| - 1];
          }
        }
      }
      assert NoDoubleSpace(t) by {
        forall i | 0 <= i < |t| - 1 ensures !(IsSpace(t[i]) && IsSpace(t[i + 1])) {
          if i > |w| {
            assert t[i] == j[i - |w| - 1] && t[i + 1] == j[i - |w|];
          } else if i == |w| {
            assert t[i + 1] == j[0];
          }
        }
      }
      assert t[|t| - 1] == j[|j| - 1];
    }
  }

  /** The non-whitespace text of the joined words is their concatenation. */
  lemma {:induction false} JoinKeepsText(ws: seq<string>)
    requires forall i :: 0 <= i < |ws| ==> IsWord(ws[i])
    ensures NonSpace(JoinWith(ws, " ")) == Concat(ws)
  {
    if |ws| == 1 {
      assert IsWord(ws[0]);
      NonSpaceOfWord(ws[0]);
      assert ws[1..] == [];
    } else if |ws| > 1 {
      assert IsWord(ws[0]);
      var j := JoinWith(ws[1..], " ");
      JoinKeepsText(ws[1..]);
      NonSpaceOfWord(ws[0]);
      NonSpaceConcat(ws[0] + " ", j);
      NonSpaceConcat(ws[0], " ");
    }
  }

  /** In normal text a whitespace character is an inner plain space followed by normal text. */
  lemma NormalAfterSpace(t: string, k: int)
    requires Normal(t) && 0 <= k < |t| && IsSpace(t[k])
    ensures 0 < k < |t| - 1 && t[k] == ' '
    ensures Normal(t[k + 1..])
  {
    var u := t[k + 1..];
    assert forall i :: 0 <= i < |u| ==> u[i] == t[k + 1 + i];
  }

  /** `s.split()` ignores whitespace in front. */
  lemma WordsAfterSpace(c: char, u: string)
    requires IsSpace(c)
    ensures Words([c] + u) == Words(u)
  {
    assert ([c] + u)[1..] == u;
    assert DropSpaces([c] + u) == DropSpaces(u);
  }

  /** On text that starts with a word, `s.split()` takes that word first. */
  lemma WordsFirst(t: string)
    requires t != [] && !IsSpace(t[0])
    ensures Words(t) == [LeadingWord(t)] + Words(t[|LeadingWord(t)|..])
  {
    assert DropSpaces(t) == t;
  }

  /** A word followed by a space: `s.split()` takes the word and goes on after the space. */
  lemma WordsAfterWord(t: string, w: string, u: string)
    requires t != [] && !IsSpace(t[0]) && w == LeadingWord(t)
    requires |w| < |t| && t[|w|] == ' ' && u == t[|w| + 1..]
    ensures t == w + " " + u && Words(t) == [w] + Words(u)
  {
    WordsFirst(t);
    var tail := t[|w|..];
    assert tail == [' '] + u;
    WordsAfterSpace(' ', u);
    assert t == w + tail;
  }

  /** Normal text is a word, then either nothing or a space and normal text. */
  lemma NormalSplit(t: string) returns (w: string, u: string)
    requires Normal(t) && t != []
    ensures w == LeadingWord(t)
    ensures |w| == |t| ==> Words(t) == [w] && t == w
    ensures |w| < |t| ==> t == w + " " + u && Normal(u) && u != [] && Words(t) == [w] + Words(u)
  {
    assert !IsSpace(t[0]);
    w := LeadingWord(t);
    u := [];
    if |w| < |t| {
      u := t[|w| + 1..];
      WordThenSpace(t, w, u);
    } else {
      SingleWord(t);
    }
  }

  /** Normal text longer than its first word goes on with a space and normal text. */
  lemma WordThenSpace(t: string, w: string, u: string)
    requires Normal(t) && t != [] && w == LeadingWord(t) && |w| < |t| && u == t[|w| + 1..]
    ensures t == w + " " + u && Normal(u) && u != [] && Words(t) == [w] + Words(u)
  {
    NormalAfterSpace(t, |w|);
    WordsAfterWord(t, w, u);
  }

  /** Text without whitespace is one word. */
  lemma SingleWord(t: string)
    requires t != [] && !IsSpace(t[0]) && |LeadingWord(t)| == |t|
    ensures Words(t) == [t] && LeadingWord(t) == t
  {
    var w := LeadingWord(t);
    assert w == t[..|t|] == t;
    WordsFirst(t);
    var rest := t[|w|..];
    assert rest == [];
    WordsEmpty(rest);
  }

  lemma WordsEmpty(s: string)
    requires s == []
    ensures Words(s) == []
  {
    assert DropSpaces(s) == [];
  }

  /** On normal text, collapsing whitespace changes nothing. */
  lemma {:induction false} CollapseNormal(t: string)
    requires Normal(t)
    ensures JoinWith(Words(t), " ") == t
    decreases |t|
  {
    if t != [] {
      var w, u := NormalSplit(t);
      if |w| < |t| {
        var ws := Words(t);
        WordsFirst(u);
        assert Words(u) != [];
        calc {
          JoinWith(ws, " ");
          ws[0] + " " + JoinWith(ws[1..], " ");
          { assert ws[1..] == Words(u); }
          w + " " + JoinWith(Words(u), " ");
          { CollapseNormal(u); }
          w + " " + u;
        }
      }
    }
  }

  // ------------------------------------------------- s.replace('> <', '><')

  /** Replacing keeps the first and the last character. */
  lemma {:induction false} CloseTagGapsEnds(s: string)
    ensures var r := CloseTagGaps(s); s != [] ==> r != [] && r[0] == s[0] && r[|r| - 1] == s[|s| - 1]
    decreases |s|
  {
    if |s| >= 3 {
      if s[..3] == "> <" {
        CloseTagGapsEnds(s[3..]);
        assert CloseTagGaps(s) == "><" + CloseTagGaps(s[3..]);
        assert s[0] == '>' && s[2] == '<';
        if |s| == 3 {
          assert s[3..] == [];
        }
      } else {
        CloseTagGapsEnds(s[1..]);
        assert CloseTagGaps(s) == [s[0]] + CloseTagGaps(s[1..]);
      }
    }
  }

  /** Replacing keeps the second character when the first is not `>`. */
  lemma CloseTagGapsSecond(s: string)
    requires |s| >= 2 && s[0] != '>'
    ensures var r := CloseTagGaps(s); |r| >= 2 && r[1] == s[1]
  {
    if |s| >= 3 {
      assert s[..3] != "> <";
      CloseTagGapsEnds(s[1..]);
    }
  }

  /** Every character of the result occurs in s. */
  lemma {:induction false} CloseTagGapsChars(s: string)
    ensures forall i :: 0 <= i < |CloseTagGaps(s)| ==> CloseTagGaps(s)[i] in s
    decreases |s|
  {
    if |s| >= 3 {
      var r := CloseTagGaps(s);
      if s[..3] == "> <" {
        CloseTagGapsChars(s[3..]);
        assert s[0] == '>' && s[2] == '<';
        assert forall i :: 2 <= i < |r| ==> r[i] == CloseTagGaps(s[3..])[i - 2];
      } else {
        CloseTagGapsChars(s[1..]);
        assert forall i :: 1 <= i < |r| ==> r[i] == CloseTagGaps(s[1..])[i - 1];
      }
    }
  }

  lemma {:induction false} CloseTagGapsNoDouble(s: string)
    requires NoDoubleSpace(s)
    ensures NoDoubleSpace(CloseTagGaps(s))
    decreases |s|
  {
    if |s| >= 3 {
      var r := CloseTagGaps(s);
      if s[..3] == "> <" {
        var r' := CloseTagGaps(s[3..]);
        assert NoDoubleSpace(s[3..]) by {
          assert forall i :: 0 <= i < |s| - 3 ==> s[3..][i] == s[i + 3];
        }
        CloseTagGapsNoDouble(s[3..]);
        assert r == "><" + r';
        forall i | 0 <= i < |r| - 1 ensures !(IsSpace(r[i]) && IsSpace(r[i + 1])) {
          if i >= 2 {
            assert r[i] == r'[i - 2] && r[i + 1] == r'[i - 1];
          }
        }
      } else {
        var r' := CloseTagGaps(s[1..]);
        assert NoDoubleSpace(s[1..]) by {
          assert forall i :: 0 <= i < |s| - 1 ==> s[1..][i] == s[i + 1];
        }
        CloseTagGapsNoDouble(s[1..]);
        CloseTagGapsEnds(s[1..]);
        assert r == [s[0]] + r';
        forall i | 0 <= i < |r| - 1 ensures !(IsSpace(r[i]) && IsSpace(r[i + 1])) {
          if i >= 1 {
            assert r[i] == r'[i - 1] && r[i + 1] == r'[i];
          } else {
            assert r[1] == s[1];
          }
        }
      }
    }
  }

  /** No `> <` survives the replacement. */
  lemma {:induction false} CloseTagGapsNoGap(s: string)
    ensures NoTagGap(CloseTagGaps(s))
    decreases |s|
  {
    if |s| >= 3 {
      var r := CloseTagGaps(s);
      if s[..3] == "> <" {
        var r' := CloseTagGaps(s[3..]);
        CloseTagGapsNoGap(s[3..]);
        assert r == "><" + r';
        forall i | 0 <= i < |r| - 2 ensures !(r[i] == '>' && r[i + 1] == ' ' && r[i + 2] == '<') {
          if i >= 2 {
            assert r[i] == r'[i - 2] && r[i + 1] == r'[i - 1] && r[i + 2] == r'[i];
          }
        }
      } else {
        var r' := CloseTagGaps(s[1..]);
        CloseTagGapsNoGap(s[1..]);
        assert r == [s[0]] + r';
        forall i | 0 <= i < |r| - 2 ensures !(r[i] == '>' && r[i + 1] == ' ' && r[i + 2] == '<') {
          if i >= 1 {
            assert r[i] == r'[i - 1] && r[i + 1] == r'[i] && r[i + 2] == r'[i + 1];
          } else {
            CloseTagGapsEnds(s[1..]);
            if s[1] == ' ' {
              CloseTagGapsSecond(s[1..]);
            }
          }
        }
      }
    }
  }

  /** The replacement deletes spaces only. */
  lemma {:induction false} CloseTagGapsKeepsText(s: string)
    ensures NonSpace(CloseTagGaps(s)) == NonSpace(s)
    decreases |s|
  {
    if |s| >= 3 {
      if s[..3] == "> <" {
        CloseTagGapsKeepsText(s[3..]);
        NonSpaceConcat("><", CloseTagGaps(s[3..]));
        assert s == s[..3] + s[3..];
        NonSpaceConcat(s[..3], s[3..]);
        assert NonSpace("> <") == "><";
      } else {
        CloseTagGapsKeepsText(s[1..]);
      }
    }
  }

  /** Text without `> <` is left as it is. */
  lemma {:induction false} CloseTagGapsFixed(s: string)
    requires NoTagGap(s)
    ensures CloseTagGaps(s) == s
    decreases |s|
  {
    if |s| >= 3 {
      assert s[..3] != "> <" by {
        assert !(s[0] == '>' && s[1] == ' ' && s[2] == '<');
      }
      assert NoTagGap(s[1..]) by {
        assert forall i :: 0 <= i < |s| - 1 ==> s[1..][i] == s[i + 1];
      }
      CloseTagGapsFixed(s[1..]);
      assert s == [s[0]] + s[1..];
    }
  }

  /** Replacing keeps the normal form. */
  lemma CloseTagGapsNormal(s: string)
    requires Normal(s)
    ensures Normal(CloseTagGaps(s))
  {
    var r := CloseTagGaps(s);
    CloseTagGapsNoDouble(s);
    CloseTagGapsEnds(s);
    CloseTagGapsChars(s);
    assert OnlyPlainSpaces(r) by {
      forall i | 0 <= i < |r| && IsSpace(r[i]) ensures r[i] == ' ' {
        var j :| 0 <= j < |s| && s[j] == r[i];
      }
    }
  }

  // ------------------------------------------------------ trata_html(s)

  /**
   * The output holds no whitespace but single plain spaces, none at either
   * end, and no `> <`.
   */
  lemma NormalizeMarkupShape(s: string)
    ensures var r := NormalizeMarkup(s);
            OnlyPlainSpaces(r) && NoDoubleSpace(r) && Trimmed(r) && NoTagGap(r)
  {
    WordsAreWords(s);
    JoinNormal(Words(s));
    CloseTagGapsNormal(JoinWith(Words(s), " "));
    CloseTagGapsNoGap(JoinWith(Words(s), " "));
  }

  /** The non-whitespace characters of s appear unchanged and in order. */
  lemma NormalizeMarkupKeepsText(s: string)
    ensures NonSpace(NormalizeMarkup(s)) == NonSpace(s)
  {
    WordsAreWords(s);
    WordsKeepText(s);
    JoinKeepsText(Words(s));
    CloseTagGapsKeepsText(JoinWith(Words(s), " "));
  }

  /** Normalising twice is normalising once. */
  lemma NormalizeMarkupIdempotent(s: string)
    ensures NormalizeMarkup(NormalizeMarkup(s)) == NormalizeMarkup(s)
  {
    var t := NormalizeMarkup(s);
    NormalizeMarkupShape(s);
    CollapseNormal(t);
    CloseTagGapsFixed(t);
  }
}
