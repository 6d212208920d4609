/**
 * The examples of the doc comment above `ChipComponent.firstLetters`, and one
 * with irregular spacing, each derived from the general lemmas of `Chip`.
 * Each example takes the label as a parameter fixed by its requires clause:
 * applied to a literal directly, `FirstLetters` would be evaluated on it.
 */
module ChipExamples {
  import opened JsString
  import opened Chip

  /** The code units of the string literals used below. */
  lemma Spellings()
    ensures Units("Hello") == [72, 101, 108, 108, 111]
    ensures Units("Hello world") == [72, 101, 108, 108, 111, 32, 119, 111, 114, 108, 100]
    ensures Units("Hello big world")
         == [72, 101, 108, 108, 111, 32, 98, 105, 103, 32, 119, 111, 114, 108, 100]
    ensures Units(" Hello  world ")
         == [32, 72, 101, 108, 108, 111, 32, 32, 119, 111, 114, 108, 100, 32]
    ensures Units("H") == [72] && Units("HW") == [72, 87] && Units("HB") == [72, 66]
  {
  }

  /** `null -> ''`, and the empty label gives the same. */
  lemma ExampleAbsent()
    ensures FirstLetters(None) == Units("") && FirstLetters(Some(Units(""))) == Units("")
  {
  }

  /** `Hello -> H`. */
  lemma ExampleHello(s: Str)
    requires s == Units("Hello")
    ensures FirstLetters(Some(s)) == Units("H")
  {
    Spellings();
    SingleWord(s);
  }

  /** `Hello world -> HW`. */
  lemma ExampleHelloWorld(s: Str)
    requires s == Units("Hello world")
    ensures FirstLetters(Some(s)) == Units("HW")
  {
    Spellings();
    var h: Str, w: Str := [72, 101, 108, 108, 111], [119, 111, 114, 108, 100];
    assert s == h + [0x20] + w;
    TwoWords(h, 0x20, w);
  }

  /** `Hello big world -> HB`: the third word is dropped. */
  lemma ExampleHelloBigWorld(s: Str)
    requires s == Units("Hello big world")
    ensures FirstLetters(Some(s)) == Units("HB")
  {
    Spellings();
    var h: Str, b: Str, w: Str := [72, 101, 108, 108, 111], [98, 105, 103], [119, 111, 114, 108, 100];
    assert s == (h + [0x20] + b) + [0x20] + w;
    TwoWords(h, 0x20, b);
    FirstLettersOfWords(h + [0x20] + b);
    LaterWordsDropped(h + [0x20] + b, 0x20, w);
  }

  /** ` Hello  world  -> HW`: one space before, two between, one after. */
  lemma ExampleIrregularSpacing(s: Str)
    requires s == Units(" Hello  world ")
    ensures FirstLetters(Some(s)) == Units("HW")
  {
    Spellings();
    var h: Str, w: Str := [72, 101, 108, 108, 111], [119, 111, 114, 108, 100];
    assert s == [0x20] + h + [0x20, 0x20] + w + [0x20];
    IrregularSpacing(h, w);
  }
}
