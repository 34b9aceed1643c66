/**
 * `real_title_case`: split the text on whitespace, title-case each word that
 * begins with a letter, leave the others (such as `4v4`) alone, and join the
 * words with single spaces. Characters are treated as ASCII.
 */
module TitleCase {
  import opened PyText

  /** `c.isspace()` for ASCII: tab to carriage return, the four separators 28 to 31, and space. */
  predicate IsSpace(c: char) {
    (9 <= c as int <= 13) || (28 <= c as int <= 32)
  }

  predicate NoSpace(w: string) { forall i :: 0 <= i < |w| ==> !IsSpace(w[i]) }

  /** A word as `str.split()` yields it: not empty and without whitespace. */
  predicate IsWord(w: string) { |w| > 0 && NoSpace(w) }

  /** The length of the run of non-space characters that `s` begins with. */
  function WordLength(s: string): (n: nat)
    ensures n <= |s|
    ensures forall i :: 0 <= i < n ==> !IsSpace(s[i])
    ensures n < |s| ==> IsSpace(s[n])
  {
    if s == [] || IsSpace(s[0]) then 0 else 1 + WordLength(s[1..])
  }

  /** `s.split()`: the maximal runs of non-space characters, in order. */
  function SplitWords(s: string): (words: seq<string>)
    ensures forall i :: 0 <= i < |words| ==> IsWord(words[i])
    decreases |s|
  {
    if s == [] then []
    else if IsSpace(s[0]) then SplitWords(s[1..])
    else
      var n := WordLength(s);
      [s[..n]] + SplitWords(s[n..])
  }

  /** `" ".join(words)`. */
  function Join(words: seq<string>): string {
    if words == [] then ""
    else if |words| == 1 then words[0]
    else words[0] + " " + Join(words[1..])
  }

  /** A word followed by more text that starts with a space splits off exactly. */
  lemma {:induction false} WordLengthOfWord(w: string, rest: string)
    requires NoSpace(w)
    requires rest == [] || IsSpace(rest[0])
    ensures WordLength(w + rest) == |w|
  {
    if w != [] {
      assert (w + rest)[1..] == w[1..] + rest;
      WordLengthOfWord(w[1..], rest);
    } else {
      assert w + rest == rest;
    }
  }

  /** Splitting the joined words gives the words back: `" ".join` loses nothing `split` needs. */
  lemma {:induction false} SplitJoin(words: seq<string>)
    requires forall i :: 0 <= i < |words| ==> IsWord(words[i])
    ensures SplitWords(Join(words)) == words
  {
    if words == [] {
    } else if |words| == 1 {
      var w := words[0];
      WordLengthOfWord(w, []);
      assert w + [] == w;
      assert w[..|w|] == w && w[|w|..] == [];
    } else {
      var w, rest := words[0], Join(words[1..]);
      var s := w + " " + rest;
      assert s == w + (" " + rest);
      WordLengthOfWord(w, " " + rest);
      assert s[..|w|] == w;
      assert s[|w|..] == " " + rest;
      assert (" " + rest)[1..] == rest;
      SplitJoin(words[1..]);
      assert words == [w] + words[1..];
    }
  }

  /** `str.title()` on the rest of a word, `prevCased` telling whether the character before was a letter. */
  function TitleFrom(w: string, prevCased: bool): (t: string)
    ensures |t| == |w|
  {
    if w == [] then []
    else [if prevCased then LowerChar(w[0]) else UpperChar(w[0])] + TitleFrom(w[1..], IsAlpha(w[0]))
  }

  /** `word.title()`: a letter is upper case after a non-letter (or at the start), lower case after a letter. */
  function Title(w: string): (t: string)
    ensures |t| == |w|
  {
    TitleFrom(w, false)
  }

  /** What `str.title()` does to each character, stated position by position. */
  lemma {:induction false} TitleFromPointwise(w: string, prevCased: bool)
    ensures |w| > 0 ==> TitleFrom(w, prevCased)[0] == if prevCased then LowerChar(w[0]) else UpperChar(w[0])
    ensures forall i {:trigger TitleFrom(w, prevCased)[i]} :: 1 <= i < |w| ==>
      TitleFrom(w, prevCased)[i] == if IsAlpha(w[i - 1]) then LowerChar(w[i]) else UpperChar(w[i])
  {
    if w != [] {
      TitleFromPointwise(w[1..], IsAlpha(w[0]));
      var t := TitleFrom(w, prevCased);
      forall i | 1 <= i < |w|
        ensures t[i] == if IsAlpha(w[i - 1]) then LowerChar(w[i]) else UpperChar(w[i])
      {
        assert t[i] == TitleFrom(w[1..], IsAlpha(w[0]))[i - 1];
        assert w[1..][i - 1] == w[i];
        if i > 1 {
          assert w[1..][i - 2] == w[i - 1];
        }
      }
    }
  }

  /** Title-casing an already title-cased word changes nothing. */
  lemma {:induction false} TitleFromIdempotent(w: string, prevCased: bool)
    ensures TitleFrom(TitleFrom(w, prevCased), prevCased) == TitleFrom(w, prevCased)
  {
    if w != [] {
      var t := TitleFrom(w, prevCased);
      assert t[1..] == TitleFrom(w[1..], IsAlpha(w[0]));
      assert IsAlpha(t[0]) == IsAlpha(w[0]);
      TitleFromIdempotent(w[1..], IsAlpha(w[0]));
    }
  }

  /** The comprehension's test: title-case a word only when its first character is a letter. */
  function TitleIfAlpha(w: string): (t: string)
    ensures |t| == |w|
    ensures |w| > 0 ==> IsAlpha(t[0]) == IsAlpha(w[0])
    ensures |w| == 0 || !IsAlpha(w[0]) ==> t == w
  {
    if |w| > 0 && IsAlpha(w[0]) then Title(w) else w
  }

  /** Title-casing keeps a word a word, and doing it twice is doing it once. */
  lemma TitleIfAlphaWord(w: string)
    requires IsWord(w)
    ensures IsWord(TitleIfAlpha(w))
    ensures TitleIfAlpha(TitleIfAlpha(w)) == TitleIfAlpha(w)
  {
    if IsAlpha(w[0]) {
      TitleFromPointwise(w, false);
      var t := TitleFrom(w, false);
      forall i | 0 <= i < |t| ensures !IsSpace(t[i]) {
        assert !IsSpace(w[i]);
        assert t[i] == LowerChar(w[i]) || t[i] == UpperChar(w[i]);
        assert !IsSpace(LowerChar(w[i])) && !IsSpace(UpperChar(w[i]));
      }
      TitleFromIdempotent(w, false);
    }
  }

  function TitleWords(words: seq<string>): (titled: seq<string>)
    requires forall i :: 0 <= i < |words| ==> IsWord(words[i])
    ensures |titled| == |words|
    ensures forall i :: 0 <= i < |words| ==> titled[i] == TitleIfAlpha(words[i])
  {
    if words == [] then [] else [TitleIfAlpha(words[0])] + TitleWords(words[1..])
  }

  /**
   * `real_title_case(text)`: the result splits into exactly the words of
   * `text`, each title-cased when it begins with a letter and untouched
   * otherwise.
   */
  function RealTitleCase(text: string): (r: string)
    ensures |SplitWords(r)| == |SplitWords(text)|
    ensures forall i :: 0 <= i < |SplitWords(text)| ==> SplitWords(r)[i] == TitleIfAlpha(SplitWords(text)[i])
  {
    var words := SplitWords(text);
    var titled := TitleWords(words);
    assert forall i :: 0 <= i < |titled| ==> IsWord(titled[i]) by {
      forall i | 0 <= i < |titled| ensures IsWord(titled[i]) {
        TitleIfAlphaWord(words[i]);
      }
    }
    SplitJoin(titled);
    Join(titled)
  }

  /** Applying `real_title_case` twice gives what applying it once gives. */
  lemma RealTitleCaseIdempotent(text: string)
    ensures RealTitleCase(RealTitleCase(text)) == RealTitleCase(text)
  {
    var words := SplitWords(text);
    var titled := TitleWords(words);
    forall i | 0 <= i < |titled| ensures IsWord(titled[i]) {
      TitleIfAlphaWord(words[i]);
    }
    SplitJoin(titled);
    var again := TitleWords(titled);
    forall i | 0 <= i < |titled| ensures again[i] == titled[i] {
      TitleIfAlphaWord(words[i]);
    }
    assert again == titled;
  }

  /** "4v4 solos" becomes "4v4 Solos": the word that starts with a digit is left alone. */
  // The literal input comes in through `requires`, so the verifier unfolds the definitions on it only as far as the proof asks.
  lemma RealTitleCaseExample(text: string)
    requires text == "4v4 solos"
    ensures RealTitleCase(text) == "4v4 Solos"
  {
    var words, titled := ["4v4", "solos"], ["4v4", "Solos"];
    JoinExample(words, text);
    SplitJoin(words);
    TitleWordsExample(words, titled);
    JoinExample(titled, "4v4 Solos");
  }

  lemma JoinExample(words: seq<string>, text: string)
    requires |words| == 2 && text == words[0] + " " + words[1]
    ensures Join(words) == text
  {
    assert words[1..] == [words[1]];
  }

  // The literal input comes in through `requires`, so the verifier unfolds the definitions on it only as far as the proof asks.
  lemma TitleWordsExample(words: seq<string>, titled: seq<string>)
    requires words == ["4v4", "solos"] && titled == ["4v4", "Solos"]
    ensures TitleWords(words) == titled
  {
    assert TitleIfAlpha(words[0]) == titled[0];
    assert TitleIfAlpha(words[1]) == titled[1] by {
      TitleSolos();
    }
  }

  lemma TitleSolos()
    ensures Title("solos") == "Solos"
  {
    var t := TitleFrom("solos", false);
    TitleFromPointwise("solos", false);
    assert t[0] == UpperChar('s') == 'S';
    assert t[1] == LowerChar('o') == 'o';
    assert t[2] == LowerChar('l') == 'l';
    assert t[3] == LowerChar('o') == 'o';
    assert t[4] == LowerChar('s') == 's';
  }
}
