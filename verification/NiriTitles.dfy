/** Window titles as the niri backend keeps them: on one line, with single spaces between words. */
module NiriTitles {

  predicate IsGap(ch: char) {
    ch == ' ' || '\t' <= ch <= '\r'
  }

  /** The first place from `i` on that is (or is not) a gap. */
  function Skip(text: string, i: nat, gaps: bool): (end: nat)
    requires i <= |text|
    ensures i <= end <= |text|
    ensures forall k :: i <= k < end ==> IsGap(text[k]) == gaps
    ensures end < |text| ==> IsGap(text[end]) != gaps
    decreases |text| - i
  {
    if i < |text| && IsGap(text[i]) == gaps then Skip(text, i + 1, gaps) else i
  }

  function Spaced(out: string, word: string): string {
    if out == "" then word else out + " " + word
  }

  /** The words of `text` from `i` on, joined to `out` with single spaces. */
  function WordsOnto(text: string, i: nat, out: string): string
    requires i <= |text|
    decreases |text| - i
  {
    var word := Skip(text, i, true);
    var end := Skip(text, word, false);
    if end == word then out else WordsOnto(text, end, Spaced(out, text[word..end]))
  }

  function OneLine(text: string): string {
    WordsOnto(text, 0, "")
  }

  method Advance(text: string, from: nat, gaps: bool) returns (i: nat)
    requires from <= |text|
    ensures i == Skip(text, from, gaps)
  {
    i := from;
    while i < |text| && IsGap(text[i]) == gaps
      invariant from <= i <= |text| && Skip(text, from, gaps) == Skip(text, i, gaps)
    {
      i := i + 1;
    }
  }

  method TitleOneLine(text: string) returns (out: string)
    ensures out == OneLine(text)
  {
    hide Skip, IsGap, WordsOnto;
    out := "";
    var i := 0;
    while i < |text|
      invariant 0 <= i <= |text| && OneLine(text) == WordsOnto(text, i, out)
      decreases |text| - i
    {
      WordsStep(text, i, out);
      var word := Advance(text, i, true);
      i := Advance(text, word, false);
      if i == word {
        return;
      }
      ghost var before := out;
      if out != "" {
        out := out + " ";
      }
      out := out + text[word..i];
      assert out == Spaced(before, text[word..i]);
    }
    NothingLeft(text, out);
  }

  lemma WordsStep(text: string, i: nat, out: string)
    requires i <= |text|
    ensures var word := Skip(text, i, true);
            var end := Skip(text, word, false);
            WordsOnto(text, i, out) == if end == word then out else WordsOnto(text, end, Spaced(out, text[word..end]))
  {
  }

  lemma NothingLeft(text: string, out: string)
    ensures WordsOnto(text, |text|, out) == out
  {
  }

  /** Every gap is one space between two other characters. */
  ghost predicate SingleSpaces(s: string) {
    forall k :: 0 <= k < |s| && IsGap(s[k]) ==>
      s[k] == ' ' && 0 < k < |s| - 1 && !IsGap(s[k - 1]) && !IsGap(s[k + 1])
  }

  function Solid(s: string): string {
    if s == "" then "" else Solid(s[..|s| - 1]) + (if IsGap(s[|s| - 1]) then "" else [s[|s| - 1]])
  }

  lemma {:induction false} SolidConcat(a: string, b: string)
    ensures Solid(a + b) == Solid(a) + Solid(b)
    decreases |b|
  {
    if b == "" {
      assert a + b == a;
    } else {
      SolidConcat(a, b[..|b| - 1]);
      assert (a + b)[..|a + b| - 1] == a + b[..|b| - 1];
    }
  }

  lemma {:induction false} SolidOf(s: string, gaps: bool)
    requires forall k :: 0 <= k < |s| ==> IsGap(s[k]) == gaps
    ensures Solid(s) == if gaps then "" else s
    decreases |s|
  {
    if s != "" {
      SolidOf(s[..|s| - 1], gaps);
    }
  }

  lemma SpacedSolid(out: string, word: string)
    requires forall k :: 0 <= k < |word| ==> !IsGap(word[k])
    ensures Solid(Spaced(out, word)) == Solid(out) + word
  {
    hide Solid;
    SolidOf(word, false);
    SolidOf(" ", true);
    SolidOf("", true);
    SolidConcat(out, " ");
    SolidConcat(out + " ", word);
    assert Solid(out) + "" == Solid(out) && "" + word == word;
  }

  lemma SpacedSingle(out: string, word: string)
    requires SingleSpaces(out) && word != "" && forall k :: 0 <= k < |word| ==> !IsGap(word[k])
    ensures SingleSpaces(Spaced(out, word))
  {
    if out != "" {
      assert !IsGap(out[|out| - 1]);
      var s, n := Spaced(out, word), |out|;
      forall k | 0 <= k < |s| && IsGap(s[k])
        ensures s[k] == ' ' && 0 < k < |s| - 1 && !IsGap(s[k - 1]) && !IsGap(s[k + 1])
      {
        if k < n {
          assert s[k] == out[k] && s[k - 1] == out[k - 1] && s[k + 1] == out[k + 1];
        } else if k == n {
          assert s[k] == ' ' && s[k - 1] == out[n - 1] && s[k + 1] == word[0];
        }
      }
    }
  }

  /** The next word and what follows it hold every character left that is no gap. */
  lemma NextWord(text: string, i: nat)
    requires i <= |text|
    ensures var word := Skip(text, i, true);
            var end := Skip(text, word, false);
            Solid(text[i..]) == text[word..end] + Solid(text[end..])
  {
    hide Solid, Skip;
    var word := Skip(text, i, true);
    var end := Skip(text, word, false);
    SolidOf(text[i..word], true);
    SolidOf(text[word..end], false);
    SolidConcat(text[i..word], text[word..]);
    SolidConcat(text[word..end], text[end..]);
    assert text[i..] == text[i..word] + text[word..];
    assert text[word..] == text[word..end] + text[end..];
    assert "" + Solid(text[word..]) == Solid(text[word..]);
  }

  lemma {:induction false} WordsOntoKeeps(text: string, i: nat, out: string)
    requires i <= |text| && SingleSpaces(out)
    ensures SingleSpaces(WordsOnto(text, i, out))
    ensures Solid(WordsOnto(text, i, out)) == Solid(out) + Solid(text[i..])
    decreases |text| - i
  {
    hide Solid, SingleSpaces, Spaced, Skip, IsGap;
    var word := Skip(text, i, true);
    var end := Skip(text, word, false);
    NextWord(text, i);
    if end == word {
      AllGaps(text, word);
      assert text[word..end] + "" == "" && Solid(out) + "" == Solid(out);
    } else {
      SpacedSolid(out, text[word..end]);
      SpacedSingle(out, text[word..end]);
      WordsOntoKeeps(text, end, Spaced(out, text[word..end]));
      assert (Solid(out) + text[word..end]) + Solid(text[end..]) == Solid(out) + (text[word..end] + Solid(text[end..]));
    }
  }

  /** No word starts where the gaps end: the text is over. */
  lemma AllGaps(text: string, word: nat)
    requires word <= |text| && Skip(text, word, false) == word && (word < |text| ==> !IsGap(text[word]))
    ensures word == |text| && Solid(text[word..]) == ""
  {
  }

  /** A title is kept on one line: its words are all there, in order, with single spaces between them. */
  lemma TitleKeepsItsWords(text: string)
    ensures SingleSpaces(OneLine(text)) && Solid(OneLine(text)) == Solid(text)
  {
    WordsOntoKeeps(text, 0, "");
    assert text[0..] == text && Solid("") + Solid(text) == Solid(text);
  }

  /** What counts as white space. */
  lemma GapsAre(ch: char)
    ensures IsGap(ch) <==> ch in {' ', '\t', '\n', 11 as char, 12 as char, '\r'}
  {
  }
}
