/**
  Splitting a document into words the way Go's `bufio.ScanWords` does:
  a word is a maximal run of characters that are not white space.
*/
module Tokenizer {

  /** The white-space characters `bufio.ScanWords` splits on. */
  predicate IsSpace(c: char) {
    || c == ' ' || c == '\t' || c == '\n' || c == '\U{000B}' || c == '\U{000C}' || c == '\r'
    || c == '\U{0085}' || c == '\U{00A0}'
    || ('\U{2000}' <= c <= '\U{200A}')
    || c == '\U{1680}' || c == '\U{2028}' || c == '\U{2029}' || c == '\U{202F}' || c == '\U{205F}' || c == '\U{3000}'
  }

  /** A word: non-empty, with no white space in it. */
  ghost predicate IsWord(w: string) {
    |w| > 0 && forall i :: 0 <= i < |w| ==> !IsSpace(w[i])
  }

  /** The length of the run of non-space characters at the front of `s`. */
  function WordLength(s: string): (n: nat)
    ensures n <= |s|
    ensures forall i :: 0 <= i < n ==> !IsSpace(s[i])
    ensures n == |s| || IsSpace(s[n])
  {
    if s == [] || IsSpace(s[0]) then 0 else 1 + WordLength(s[1..])
  }

  /** The words of `s`, in the order the scanner returns them. */
  function Tokens(s: string): seq<string>
    decreases |s|
  {
    if s == [] then []
    else if IsSpace(s[0]) then Tokens(s[1..])
    else
      var n := WordLength(s);
      [s[..n]] + Tokens(s[n..])
  }

  /** `s` with every white-space character removed. */
  function RemoveSpaces(s: string): string {
    if s == [] then []
    else (if IsSpace(s[0]) then [] else [s[0]]) + RemoveSpaces(s[1..])
  }

  /** The words one after another, with nothing between them. */
  function Concat(ws: seq<string>): string {
    if ws == [] then [] else ws[0] + Concat(ws[1..])
  }

  /** The words separated by single blanks. */
  function Join(ws: seq<string>): string {
    if ws == [] then []
    else if |ws| == 1 then ws[0]
    else ws[0] + " " + Join(ws[1..])
  }

  /** Every token is a word. */
  lemma {:induction false} TokensAreWords(s: string)
    ensures forall t :: t in Tokens(s) ==> IsWord(t)
    decreases |s|
  {
    if s != [] {
      if IsSpace(s[0]) {
        TokensAreWords(s[1..]);
      } else {
        var n := WordLength(s);
        TokensAreWords(s[n..]);
      }
    }
  }

  lemma {:induction false} RemoveSpacesOfWord(s: string, n: nat)
    requires n <= |s|
    requires forall i :: 0 <= i < n ==> !IsSpace(s[i])
    ensures RemoveSpaces(s) == s[..n] + RemoveSpaces(s[n..])
    decreases n
  {
    if n > 0 {
      RemoveSpacesOfWord(s[1..], n - 1);
      assert s[1..][..n - 1] == s[1..n];
      assert s[1..][n - 1..] == s[n..];
      assert s[..n] == [s[0]] + s[1..n];
    }
  }

  /** Splitting loses no character except white space: the words, put back together, are the text without its white space. */
  lemma {:induction false} TokensKeepText(s: string)
    ensures Concat(Tokens(s)) == RemoveSpaces(s)
    decreases |s|
  {
    if s != [] {
      if IsSpace(s[0]) {
        TokensKeepText(s[1..]);
      } else {
        var n := WordLength(s);
        TokensKeepText(s[n..]);
        RemoveSpacesOfWord(s, n);
        assert Tokens(s)[1..] == Tokens(s[n..]);
      }
    }
  }

  lemma {:induction false} WordLengthOfWordThen(w: string, r: string)
    requires forall i :: 0 <= i < |w| ==> !IsSpace(w[i])
    requires r == [] || IsSpace(r[0])
    ensures WordLength(w + r) == |w|
    decreases |w|
  {
    if w != [] {
      assert (w + r)[1..] == w[1..] + r;
      WordLengthOfWordThen(w[1..], r);
    }
  }

  /** Splitting undoes joining: words joined with blanks split back into the same words. */
  lemma {:induction false} TokensOfJoin(ws: seq<string>)
    requires forall w :: w in ws ==> IsWord(w)
    ensures Tokens(Join(ws)) == ws
    decreases |ws|
  {
    if ws != [] {
      var w := ws[0];
      assert IsWord(w);
      if |ws| == 1 {
        WordLengthOfWordThen(w, []);
        assert w + [] == w;
        assert w[|w|..] == [];
      } else {
        var rest := Join(ws[1..]);
        var s := w + " " + rest;
        WordLengthOfWordThen(w, " " + rest);
        assert w + " " + rest == w + (" " + rest);
        assert s[..|w|] == w;
        assert s[|w|..] == " " + rest;
        assert (" " + rest)[1..] == rest;
        TokensOfJoin(ws[1..]);
      }
    }
  }

  lemma {:induction false} WordLengthBeforeSpace(a: string, r: string)
    requires r != [] && IsSpace(r[0])
    ensures WordLength(a + r) == WordLength(a)
    decreases |a|
  {
    if a != [] && !IsSpace(a[0]) {
      assert (a + r)[1..] == a[1..] + r;
      WordLengthBeforeSpace(a[1..], r);
    }
  }

  /** No word spans white space: splitting at a white-space character splits the words there. */
  lemma {:induction false} TokensSplitAtSpace(a: string, c: char, b: string)
    requires IsSpace(c)
    ensures Tokens(a + [c] + b) == Tokens(a) + Tokens(b)
    decreases |a|
  {
    var s := a + [c] + b;
    if a == [] {
      assert s == [c] + b;
      assert s[1..] == b;
    } else if IsSpace(a[0]) {
      assert s[1..] == a[1..] + [c] + b;
      TokensSplitAtSpace(a[1..], c, b);
    } else {
      assert s == a + ([c] + b);
      WordLengthBeforeSpace(a, [c] + b);
      var n := WordLength(a);
      assert s[..n] == a[..n];
      assert s[n..] == a[n..] + [c] + b;
      TokensSplitAtSpace(a[n..], c, b);
    }
  }
}
