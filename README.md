# Chip initials

A model of the one computation in this set of Angular UI components: the
`firstLetters` getter of `ChipComponent`, which turns the chip's `label` into
the initials shown in its avatar. A missing or empty label gives the empty
string. Otherwise the label is split at every single white-space code unit
(`split(/\s/)`). The first code unit of each token is appended in order; empty
tokens add nothing (`reduce` with `word.slice(0, 1)`). The result is
upper-cased (`toUpperCase()`) and then cut to at most two code units
(`slice(0, 2)`).

Files:

- `js_string.dfy`, module `JsString`: the JavaScript string primitives the
  getter uses. A JavaScript string is a sequence of UTF-16 code units (`Str`).
  `IsWs` is the `\s` class of ECMA-262 (section 22.2.2.9), written out code
  point by code point. `Split` is `split(/\s/)`, `Prefix` is `slice(0, n)` and
  `ToUpperCase` is `toUpperCase()` restricted to ASCII. `Split` is pinned down
  by `Interleave`, which puts the separators back: the two are inverse in both
  directions.
- `chip.dfy`, module `Chip`: the label (`Option<Str>`, where `None` is `null`
  or `undefined`), the `reduce` fold, `FirstLetters`, and the properties of
  the getter.
- `chip_examples.dfy`, module `ChipExamples`: the examples from the getter's
  doc comment and one with irregular spacing, derived from the general lemmas.

A word contributes its first UTF-16 code unit (`slice(0, 1)`). For a
character outside the Basic Multilingual Plane that is a lone high surrogate,
and the model, which works on code units, gives the same. The label is cut at
every `\s` code unit (tab, newline, no-break space, ...), not only at spaces.

Purity holds by construction: `FirstLetters` is a Dafny function of the label
alone, so the same label always gives the same initials.

## Model

| member | source | states |
|---|---|---|
| `JsString.IsWs` | src/app/chip/chip.component.ts:29 | the `\s` class: within ASCII exactly TAB..CR and SPACE, and never a surrogate code unit, so a cut never falls inside a surrogate pair |
| `JsString.SplitFrom` | src/app/chip/chip.component.ts:29 | scanning a label yields exactly one more token than the label has white-space code units |
| `JsString.Split` | src/app/chip/chip.component.ts:29 | `split(/\s/)` yields one more token than there are white-space code units, so `''` gives one empty token |
| `JsString.SplitTokensNoWs` | src/app/chip/chip.component.ts:29 | no token produced by `split(/\s/)` contains a white-space code unit |
| `JsString.InterleaveSplit` | src/app/chip/chip.component.ts:29 | putting the separators back between the tokens of `split(/\s/)` restores the label, so nothing is lost or reordered |
| `JsString.SplitInterleave` | src/app/chip/chip.component.ts:29 | any white-space-free tokens joined by white-space separators split back into exactly those tokens, so the split is the unique such decomposition |
| `JsString.SplitAppendWs` | src/app/chip/chip.component.ts:29 | splitting `a + w + b` at a white-space code unit `w` gives the tokens of `a` followed by the tokens of `b` |
| `JsString.SplitNoWs` | src/app/chip/chip.component.ts:29 | a label without white space is a single token |
| `JsString.Prefix` | src/app/chip/chip.component.ts:30-32 | `slice(0, n)` is the prefix of length `min(n, length)` |
| `JsString.UpperUnit` | src/app/chip/chip.component.ts:31 | the case mapping turns `a`..`z` into `A`..`Z`, leaves every other code unit alone, never yields a lower-case ASCII letter and keeps white space and non-white space apart |
| `JsString.ToUpperCase` | src/app/chip/chip.component.ts:31 | `toUpperCase()` keeps the length and maps each code unit by the ASCII case mapping |
| `JsString.UpperThenPrefix` | src/app/chip/chip.component.ts:31-32 | under the ASCII mapping, upper-casing and then cutting equals cutting and then upper-casing |
| `Chip.Reduce` | src/app/chip/chip.component.ts:30 | the `reduce` fold only appends: its accumulator stays a prefix of the result, and each token adds at most one code unit |
| `Chip.ReduceIsFirsts` | src/app/chip/chip.component.ts:30 | the left fold of `reduce`, started from any accumulator, appends the first code units of the words, in order, to that accumulator |
| `Chip.FirstsOfNonEmpty` | src/app/chip/chip.component.ts:30 | the concatenated first code units are exactly the first code units of the non-empty tokens, one per token and in order; empty tokens add nothing |
| `Chip.FirstLetters` | src/app/chip/chip.component.ts:28-33 | the initials have at most two code units, and an absent (`null`, `undefined`) or empty label gives `''` |
| `Chip.FirstLettersOfWords` | src/app/chip/chip.component.ts:29-32 | for a present label, the initials have `min(2, number of words)` code units, and the i-th is the upper-cased first code unit of the i-th non-empty token |
| `Chip.SameWordsSameLetters` | src/app/chip/chip.component.ts:29-32 | two labels with the same non-empty tokens have the same initials |
| `Chip.FirstLettersUpperNoWs` | src/app/chip/chip.component.ts:29-31 | no code unit of the initials is a lower-case ASCII letter or white space |
| `Chip.SingleWord` | src/app/chip/chip.component.ts:23 | a single word gives its first code unit, upper-cased |
| `Chip.TwoWords` | src/app/chip/chip.component.ts:24 | two words separated by one white-space code unit give both first code units, upper-cased and in order |
| `Chip.LaterWordsDropped` | src/app/chip/chip.component.ts:25 | once a label has two words, anything after a further white-space code unit leaves the initials unchanged |
| `Chip.WhitespaceNormalised` | src/app/chip/chip.component.ts:29-30 | any label gives the same initials as its non-empty tokens joined by single spaces, so leading, trailing, repeated or non-space white space does not matter |
| `Chip.LayoutIrrelevant` | src/app/chip/chip.component.ts:29-30 | white-space-free tokens joined by any white-space separators give the same initials as the non-empty tokens joined by single spaces |
| `Chip.IrregularSpacing` | src/app/chip/chip.component.ts:29-30 | two words with one space before, two between and one after give both first code units, upper-cased |
| `ChipExamples.ExampleAbsent` | src/app/chip/chip.component.ts:22 | `null` gives `''`, and so does `''` |
| `ChipExamples.ExampleHello` | src/app/chip/chip.component.ts:23 | `Hello` gives `H` |
| `ChipExamples.ExampleHelloWorld` | src/app/chip/chip.component.ts:24 | `Hello world` gives `HW` |
| `ChipExamples.ExampleHelloBigWorld` | src/app/chip/chip.component.ts:25 | `Hello big world` gives `HB` |
| `ChipExamples.ExampleIrregularSpacing` | src/app/chip/chip.component.ts:29-30 | ` Hello  world ` gives `HW`, the same as `Hello world` |

## Left out

- JsString.ToUpperCase: models only the ASCII case mapping (`a`..`z` to `A`..`Z`). JavaScript applies the full Unicode mapping, which also maps letters such as `é` and can lengthen a string (`ß` becomes `SS`). The model still upper-cases before it truncates, as the source does, but the commuting lemma `UpperThenPrefix` holds only for the ASCII mapping. JavaScript also upper-cases by code point: a high surrogate taken from one word and a low surrogate taken from the next form a pair that it maps (D801 DC28 becomes D801 DC00), while the model leaves both code units unchanged.
- JsString.Units: turns only literals inside the Basic Multilingual Plane into code units. It serves the examples; the model's input is already a sequence of code units, so surrogate pairs are covered there.
- Non-string labels: the getter looks up `split` on the label itself and never converts it to a string. A truthy non-string (`5`, `true`, `{}`) has no `split`, so the getter throws a `TypeError`; a falsy one (`0`, `false`, `NaN`) gives `''`. The model takes only a string or an absent value, so it drops that error path.
- `onClose` and the `close` output (src/app/chip/chip.component.ts:12-16): they only fire an Angular `EventEmitter`, with no logic to state.
- `SvgComponent` (src/app/svg/svg.component.ts): a bundler-loaded asset table and a call to the framework's HTML sanitizer bypass, both outside the model. Its only behaviour of its own is a table lookup that fails on an unknown icon name.
- `SvgButtonComponent` (src/app/svg-button/svg-button.component.ts): an input and an event emitter, with no logic.
- `AvatarComponent` (src/app/avatar/avatar.component.ts): a single input, purely presentational.
- src/app/app.module.ts: component registration and bootstrapping by the framework.
