// Normalising text to lower-case words, as document validation compares it.
module Tokens {
  import opened Sequences

  /** The Unicode tables of `char::is_alphanumeric` and `char::to_lowercase`. */
  datatype Alphabet = Alphabet(alphanumeric: char -> bool, lower: char -> string)
  {
    /** All that is needed of lower-casing: it never deletes a character and never
        makes a space. It may well produce characters that are not alphanumeric. */
    ghost predicate Usable() {
      forall c :: alphanumeric(c) ==> lower(c) != "" && ' ' !in lower(c)
    }

    function Lower(s: string): string {
      if s == [] then [] else Lower(s[..|s| - 1]) + lower(s[|s| - 1])
    }

    /** The length of the alphanumeric run at the start of `text`. */
    function Run(text: string): (n: nat)
      ensures n <= |text|
      ensures forall i :: 0 <= i < n ==> alphanumeric(text[i])
      ensures n < |text| ==> !alphanumeric(text[n])
    {
      if text == [] || !alphanumeric(text[0]) then 0 else 1 + Run(text[1..])
    }

    /** The maximal alphanumeric runs, lower-cased. */
    function Words(text: string): seq<string> {
      if text == [] then []
      else if !alphanumeric(text[0]) then Words(text[1..])
      else [Lower(text[..Run(text)])] + Words(text[Run(text)..])
    }
  }

  function Spaced(words: seq<string>): string {
    if words == [] then ""
    else if |words| == 1 then words[0]
    else Spaced(words[..|words| - 1]) + " " + words[|words| - 1]
  }

  /** One more character at the end starts a word, lengthens the last word, or
      changes nothing. */
  function Grown(a: Alphabet, text: string, c: char): seq<string> {
    var words := a.Words(text);
    if !a.alphanumeric(c) then words
    else if text == [] || !a.alphanumeric(text[|text| - 1]) || words == [] then words + [a.lower(c)]
    else words[|words| - 1 := words[|words| - 1] + a.lower(c)]
  }

  lemma {:induction false} LowerSnoc(a: Alphabet, s: string, c: char)
    ensures a.Lower(s + [c]) == a.Lower(s) + a.lower(c)
  {
    assert (s + [c])[..|s|] == s;
  }

  lemma {:induction false} WordsSnoc(a: Alphabet, text: string, c: char)
    ensures a.Words(text + [c]) == Grown(a, text, c)
    ensures text != [] && a.alphanumeric(text[|text| - 1]) ==> a.Words(text) != []
    decreases |text|
  {
    var longer := text + [c];
    if text == [] {
      assert longer == [c];
      WordsOfOne(a, c);
    } else if !a.alphanumeric(text[0]) {
      assert longer[1..] == text[1..] + [c];
      WordsSnoc(a, text[1..], c);
    } else {
      var n := a.Run(text);
      RunSnoc(a, text, c);
      if n < |text| {
        assert longer[..n] == text[..n] && longer[n..] == text[n..] + [c];
        WordsSnoc(a, text[n..], c);
        GrownBehind(a, text, n, a.Lower(text[..n]), c);
      } else {
        RunGrown(a, text, c);
      }
    }
  }

  /** What happens at the end of a text does not concern its first word. */
  lemma GrownBehind(a: Alphabet, text: string, n: nat, w: string, c: char)
    requires n < |text| && a.Words(text) == [w] + a.Words(text[n..])
    requires a.alphanumeric(text[|text| - 1]) ==> a.Words(text[n..]) != []
    ensures Grown(a, text, c) == [w] + Grown(a, text[n..], c)
  {
    assert text[n..][|text| - n - 1] == text[|text| - 1];
  }

  lemma WordsOfOne(a: Alphabet, c: char)
    ensures a.Words([c]) == if a.alphanumeric(c) then [a.lower(c)] else []
  {
    var one := [c];
    assert one[1..] == [];
    if a.alphanumeric(c) {
      assert a.Run(one) == 1 && one[..1] == [] + [c];
      LowerSnoc(a, [], c);
      assert a.Lower([]) + a.lower(c) == a.lower(c);
      assert a.Words(one) == [a.lower(c)] + a.Words([]);
    }
  }

  /** The text is one alphanumeric run. */
  lemma RunGrown(a: Alphabet, text: string, c: char)
    requires text != [] && a.Run(text) == |text|
    ensures a.Words(text) == [a.Lower(text)]
    ensures a.Words(text + [c]) == Grown(a, text, c)
  {
    var n := |text|;
    var longer := text + [c];
    RunSnoc(a, text, c);
    assert text[..n] == text && text[n..] == [];
    assert a.Words(text) == [a.Lower(text)] + a.Words([]);
    if a.alphanumeric(c) {
      assert longer[..n + 1] == longer && longer[n + 1..] == [];
      LowerSnoc(a, text, c);
      assert a.Words(longer) == [a.Lower(longer)] + a.Words([]);
    } else {
      assert longer[..n] == text && longer[n..] == [c];
      WordsOfOne(a, c);
      assert a.Words(longer) == [a.Lower(text)] + a.Words([c]);
    }
  }

  lemma {:induction false} RunSnoc(a: Alphabet, text: string, c: char)
    ensures a.Run(text + [c]) ==
              if a.Run(text) < |text| then a.Run(text) else if a.alphanumeric(c) then |text| + 1 else |text|
  {
    var longer := text + [c];
    if text == [] {
      assert longer[1..] == [];
      assert a.Run([]) == 0;
    } else if a.alphanumeric(text[0]) {
      assert longer[1..] == text[1..] + [c];
      RunSnoc(a, text[1..], c);
    } else {
      assert a.Run(text) == 0;
    }
  }

  lemma {:induction false} WordsNonempty(a: Alphabet, text: string)
    requires a.Usable()
    ensures forall i :: 0 <= i < |a.Words(text)| ==> a.Words(text)[i] != "" && ' ' !in a.Words(text)[i]
    decreases |text|
  {
    if text == [] {
    } else {
      if a.alphanumeric(text[0]) {
        LowerUsable(a, text[..a.Run(text)]);
        WordsNonempty(a, text[a.Run(text)..]);
      } else {
        WordsNonempty(a, text[1..]);
      }
    }
  }

  lemma {:induction false} LowerUsable(a: Alphabet, s: string)
    requires a.Usable() && forall i :: 0 <= i < |s| ==> a.alphanumeric(s[i])
    ensures ' ' !in a.Lower(s) && (s != "" ==> a.Lower(s) != "")
  {
    if s == [] {
    } else {
      LowerUsable(a, s[..|s| - 1]);
    }
  }

  /** What one more character does to the normal form. */
  lemma SpacedStep(a: Alphabet, seen: string, c: char)
    requires a.Usable()
    ensures var before := Spaced(a.Words(seen));
      Spaced(a.Words(seen + [c])) ==
        if !a.alphanumeric(c) then before
        else if before != "" && seen != [] && !a.alphanumeric(seen[|seen| - 1]) then before + " " + a.lower(c)
        else before + a.lower(c)
  {
    var words := a.Words(seen);
    WordsSnoc(a, seen, c);
    WordsNonempty(a, seen);
    SpacedEmpty(words);
    SpacedMore(words, a.lower(c));
    if words != [] { SpacedLonger(words, a.lower(c)); }
    assert Spaced([]) == "" && "" + a.lower(c) == a.lower(c);
  }

  /** `normalized_tokens`: one pass with a pending-space flag. */
  method NormalizedTokens(a: Alphabet, text: string) returns (normalized: string)
    requires a.Usable()
    ensures normalized == Spaced(a.Words(text))
  {
    normalized := "";
    var pendingSpace := false;
    for i := 0 to |text|
      invariant normalized == Spaced(a.Words(text[..i]))
      invariant pendingSpace <==> i > 0 && !a.alphanumeric(text[i - 1])
    {
      var character := text[i];
      assert text[..i + 1] == text[..i] + [character];
      SpacedStep(a, text[..i], character);
      if a.alphanumeric(character) {
        if pendingSpace && normalized != "" {
          normalized := normalized + " ";
        }
        normalized := normalized + a.lower(character);
        pendingSpace := false;
      } else {
        pendingSpace := true;
      }
    }
    assert text[..|text|] == text;
  }

  lemma SpacedEmpty(words: seq<string>)
    requires Solid(words)
    ensures Spaced(words) == "" <==> words == []
  {
  }

  lemma SpacedMore(words: seq<string>, w: string)
    ensures Spaced(words + [w]) == if words == [] then w else Spaced(words) + " " + w
  {
    assert (words + [w])[..|words|] == words;
  }

  lemma SpacedLonger(words: seq<string>, x: string)
    requires words != []
    ensures Spaced(words[|words| - 1 := words[|words| - 1] + x]) == Spaced(words) + x
  {
    var n := |words| - 1;
    assert words[n := words[n] + x][..n] == words[..n];
    assert Spaced(words[..n]) + " " + (words[n] + x) == Spaced(words[..n]) + " " + words[n] + x;
  }

  /** Two texts normalise to the same string exactly when they have the same words. */
  lemma SameNormalForm(a: Alphabet, s: string, t: string)
    requires a.Usable()
    ensures Spaced(a.Words(s)) == Spaced(a.Words(t)) <==> a.Words(s) == a.Words(t)
  {
    WordsNonempty(a, s);
    WordsNonempty(a, t);
    if Spaced(a.Words(s)) == Spaced(a.Words(t)) { SpacedUnique(a.Words(s), a.Words(t)); }
  }

  predicate Solid(words: seq<string>) {
    forall i :: 0 <= i < |words| ==> words[i] != "" && ' ' !in words[i]
  }

  /** The same text read from the front. */
  lemma {:induction false} SpacedFront(words: seq<string>)
    requires words != []
    ensures Spaced(words) == words[0] + if |words| == 1 then "" else " " + Spaced(words[1..])
  {
    if |words| > 1 {
      SpacedFront(words[..|words| - 1]);
      assert words[..|words| - 1][1..] == words[1..][..|words| - 2];
    }
  }

  lemma {:induction false} SpacedUnique(v: seq<string>, w: seq<string>)
    requires Solid(v) && Solid(w) && Spaced(v) == Spaced(w)
    ensures v == w
  {
    if v == [] || w == [] {
      if v != [] { SpacedFront(v); }
      if w != [] { SpacedFront(w); }
    } else {
      SpacedFront(v);
      SpacedFront(w);
      var r := if |v| == 1 then "" else " " + Spaced(v[1..]);
      var s := if |w| == 1 then "" else " " + Spaced(w[1..]);
      SplitUnique(c => c != ' ', v[0], w[0], r, s);
      assert |v| > 1 ==> r[1..] == Spaced(v[1..]);
      assert |w| > 1 ==> s[1..] == Spaced(w[1..]);
      if |v| > 1 && |w| > 1 { SpacedUnique(v[1..], w[1..]); }
      assert v == [v[0]] + v[1..] && w == [w[0]] + w[1..];
    }
  }
}
