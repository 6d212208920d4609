/**
 * `ChipComponent`: a dismissible label whose avatar shows initials derived
 * from the label. The one computation of the component is the getter
 * `firstLetters`: a falsy label gives the empty string; otherwise the label is
 * split at white space, the first code unit of every token is appended to an
 * accumulator that starts empty, and the result is upper-cased and cut to two
 * code units.
 */
module Chip {
  import opened JsString

  datatype Option<+T> = None | Some(value: T)

  /**
   * The `label` input. `None` stands for `null` and `undefined`; both, like the
   * empty string, are falsy in JavaScript.
   */
  type Label = Option<Str>

  /**
   * The `reduce` of the getter, started from `acc`: a left fold that appends
   * `slice(0, 1)` of each token, its first code unit if it has one. It only
   * appends: the accumulator stays a prefix, and each token adds at most one
   * code unit.
   */
  function Reduce(acc: Str, words: seq<Str>): (r: Str)
    ensures |acc| <= |r| <= |acc| + |words|
    ensures r[..|acc|] == acc
    decreases |words|
  {
    if words == [] then acc
    else Reduce(acc + Prefix(words[0], 1), words[1..])
  }

  /** The same concatenation written as a right fold, without an accumulator. */
  function Firsts(words: seq<Str>): (r: Str)
    ensures |r| <= |words|
  {
    if words == [] then [] else Prefix(words[0], 1) + Firsts(words[1..])
  }

  /** The words that are not empty, in order. */
  function NonEmpty(words: seq<Str>): (r: seq<Str>)
    ensures |r| <= |words|
    ensures forall i :: 0 <= i < |r| ==> r[i] != []
  {
    if words == [] then []
    else (if words[0] == [] then [] else [words[0]]) + NonEmpty(words[1..])
  }

  /** The getter `firstLetters`: the initials of the label, at most two code units. */
  function FirstLetters(text: Label): (r: Str)
    ensures |r| <= 2
    ensures text == None || text == Some([]) ==> r == []
  {
    match text
    case None => []
    case Some(s) =>
      if s == [] then [] else Prefix(ToUpperCase(Reduce([], Split(s))), 2)
  }

  /** The words of a label: the non-empty tokens of `split(/\s/)`. */
  function Words(s: Str): (r: seq<Str>) { NonEmpty(Split(s)) }

  /** The words joined by single spaces. */
  function JoinSpaced(words: seq<Str>): (r: Str)
    decreases |words|
  {
    if words == [] then []
    else if |words| == 1 then words[0]
    else words[0] + [0x20] + JoinSpaced(words[1..])
  }

  // ---------------------------------------------------------------------------
  // The fold
  // ---------------------------------------------------------------------------

  /** The left fold of `reduce` appends the right fold to its accumulator. */
  lemma {:induction false} ReduceIsFirsts(acc: Str, words: seq<Str>)
    ensures Reduce(acc, words) == acc + Firsts(words)
    decreases |words|
  {
    if words != [] {
      ReduceIsFirsts(acc + Prefix(words[0], 1), words[1..]);
      assert (acc + Prefix(words[0], 1)) + Firsts(words[1..])
          == acc + (Prefix(words[0], 1) + Firsts(words[1..]));
    }
  }

  /** The concatenation holds exactly the first code unit of each non-empty word. */
  lemma {:induction false} FirstsOfNonEmpty(words: seq<Str>)
    ensures |Firsts(words)| == |NonEmpty(words)|
    ensures forall i :: 0 <= i < |NonEmpty(words)| ==> Firsts(words)[i] == NonEmpty(words)[i][0]
  {
    if words != [] {
      FirstsOfNonEmpty(words[1..]);
    }
  }

  lemma {:induction false} NonEmptyAppend(a: seq<Str>, b: seq<Str>)
    ensures NonEmpty(a + b) == NonEmpty(a) + NonEmpty(b)
  {
    if a != [] {
      assert (a + b)[1..] == a[1..] + b;
      NonEmptyAppend(a[1..], b);
    } else {
      assert a + b == b;
    }
  }

  lemma {:induction false} NonEmptyOfNonEmpty(words: seq<Str>)
    requires forall i :: 0 <= i < |words| ==> words[i] != []
    ensures NonEmpty(words) == words
  {
    if words != [] {
      NonEmptyOfNonEmpty(words[1..]);
      assert words == [words[0]] + words[1..];
    }
  }

  // ---------------------------------------------------------------------------
  // What firstLetters computes
  // ---------------------------------------------------------------------------

  /**
   * For a present label, the result is the upper-cased first code unit of each
   * of the first two (or fewer) words, in order; empty tokens count for nothing.
   */
  lemma FirstLettersOfWords(s: Str)
    ensures |FirstLetters(Some(s))| == Min(2, |Words(s)|)
    ensures forall i :: 0 <= i < |FirstLetters(Some(s))| ==>
              FirstLetters(Some(s))[i] == UpperUnit(Words(s)[i][0])
  {
    ReduceIsFirsts([], Split(s));
    FirstsOfNonEmpty(Split(s));
    assert [] + Firsts(Split(s)) == Firsts(Split(s));
    if s == [] {
      assert Split(s) == [[]];
      assert Firsts(Split(s)) == [];
    }
  }

  /** Two labels with the same words have the same initials. */
  lemma SameWordsSameLetters(s: Str, t: Str)
    requires Words(s) == Words(t)
    ensures FirstLetters(Some(s)) == FirstLetters(Some(t))
  {
    FirstLettersOfWords(s);
    FirstLettersOfWords(t);
  }

  /**
   * Every code unit of the result is the first of a word, so it is not white
   * space, and is upper-cased, so it is no lower-case ASCII letter.
   */
  lemma FirstLettersUpperNoWs(text: Label)
    ensures forall i :: 0 <= i < |FirstLetters(text)| ==>
              !IsAsciiLower(FirstLetters(text)[i]) && !IsWs(FirstLetters(text)[i])
  {
    if text.Some? {
      var s := text.value;
      FirstLettersOfWords(s);
      forall i | 0 <= i < |FirstLetters(text)|
        ensures !IsWs(FirstLetters(text)[i])
      {
        var w := Words(s)[i];
        SplitTokensNoWs(s);
        NonEmptyTokensNoWs(Split(s));
        assert !IsWs(w[0]);
      }
    }
  }

  lemma {:induction false} NonEmptyTokensNoWs(words: seq<Str>)
    requires forall i :: 0 <= i < |words| ==> NoWs(words[i])
    ensures forall i :: 0 <= i < |NonEmpty(words)| ==> NoWs(NonEmpty(words)[i])
  {
    if words != [] {
      NonEmptyTokensNoWs(words[1..]);
    }
  }

  /** A single word gives its own first code unit, upper-cased. */
  lemma SingleWord(w: Str)
    requires w != [] && NoWs(w)
    ensures FirstLetters(Some(w)) == [UpperUnit(w[0])]
  {
    SplitNoWs(w);
    assert NonEmpty([w]) == [w];
    FirstLettersOfWords(w);
  }

  /** Two words separated by one white-space code unit give both first code units. */
  lemma TwoWords(a: Str, sep: CodeUnit, b: Str)
    requires a != [] && NoWs(a) && b != [] && NoWs(b) && IsWs(sep)
    ensures FirstLetters(Some(a + [sep] + b)) == [UpperUnit(a[0]), UpperUnit(b[0])]
  {
    SplitAppendWs(a, sep, b);
    SplitNoWs(a);
    SplitNoWs(b);
    NonEmptyOfNonEmpty([a, b]);
    assert [a] + [b] == [a, b];
    FirstLettersOfWords(a + [sep] + b);
  }

  /**
   * Once a label has two words, whatever follows a white-space code unit
   * after it is dropped: "Hello big world" gives the same as "Hello big".
   */
  lemma LaterWordsDropped(s: Str, sep: CodeUnit, rest: Str)
    requires |Words(s)| >= 2 && IsWs(sep)
    ensures FirstLetters(Some(s + [sep] + rest)) == FirstLetters(Some(s))
  {
    var t := s + [sep] + rest;
    SplitAppendWs(s, sep, rest);
    NonEmptyAppend(Split(s), Split(rest));
    assert Words(t) == Words(s) + Words(rest);
    FirstLettersOfWords(s);
    FirstLettersOfWords(t);
  }

  lemma {:induction false} SplitJoinSpaced(words: seq<Str>)
    requires words != []
    requires forall i :: 0 <= i < |words| ==> NoWs(words[i])
    ensures Split(JoinSpaced(words)) == words
    decreases |words|
  {
    SplitNoWs(words[0]);
    if |words| > 1 {
      SplitJoinSpaced(words[1..]);
      SplitAppendWs(words[0], 0x20, JoinSpaced(words[1..]));
      assert words == [words[0]] + words[1..];
    }
  }

  /**
   * Leading, trailing and repeated white space, of any kind, changes nothing:
   * a label gives the same initials as its words joined by single spaces.
   */
  lemma WhitespaceNormalised(s: Str)
    ensures FirstLetters(Some(s)) == FirstLetters(Some(JoinSpaced(Words(s))))
  {
    var w := Words(s);
    SplitTokensNoWs(s);
    NonEmptyTokensNoWs(Split(s));
    if w == [] {
      FirstLettersOfWords(s);
    } else {
      SplitJoinSpaced(w);
      NonEmptyOfNonEmpty(w);
      SameWordsSameLetters(s, JoinSpaced(w));
    }
  }

  /**
   * The same stated on the pieces of a label: tokens without white space with
   * white-space separators between them give the initials of the non-empty
   * tokens joined by single spaces.
   */
  lemma LayoutIrrelevant(tokens: seq<Str>, seps: Str)
    requires |tokens| == |seps| + 1
    requires forall i :: 0 <= i < |tokens| ==> NoWs(tokens[i])
    requires AllWs(seps)
    ensures FirstLetters(Some(Interleave(tokens, seps)))
         == FirstLetters(Some(JoinSpaced(NonEmpty(tokens))))
  {
    SplitInterleave(tokens, seps);
    WhitespaceNormalised(Interleave(tokens, seps));
  }

  /** Two words with one space before, two between and one after. */
  lemma IrregularSpacing(a: Str, b: Str)
    requires a != [] && NoWs(a) && b != [] && NoWs(b)
    ensures FirstLetters(Some([0x20] + a + [0x20, 0x20] + b + [0x20]))
         == [UpperUnit(a[0]), UpperUnit(b[0])]
  {
    var tokens: seq<Str> := [[], a, [], b, []];
    var seps: Str := [0x20, 0x20, 0x20, 0x20];
    assert Interleave(tokens, seps) == [0x20] + a + [0x20, 0x20] + b + [0x20];
    assert NonEmpty(tokens[4..]) == [];
    assert NonEmpty(tokens[3..]) == [b];
    assert NonEmpty(tokens[2..]) == [b];
    assert NonEmpty(tokens[1..]) == [a, b];
    LayoutIrrelevant(tokens, seps);
    TwoWords(a, 0x20, b);
  }
}
