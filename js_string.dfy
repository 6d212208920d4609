/**
 * The JavaScript string primitives that `ChipComponent.firstLetters` is built
 * from: `String.prototype.split(/\s/)`, `String.prototype.slice(0, n)` and
 * `String.prototype.toUpperCase()`.
 *
 * A JavaScript string is a sequence of UTF-16 code units, and `split`, `slice`
 * and the regular expression `/\s/` (without the `u` flag) work on code units,
 * so the model does too.
 */
module JsString {

  /** One UTF-16 code unit. */
  type CodeUnit = u: int | 0 <= u < 0x1_0000

  /** A JavaScript string value. */
  type Str = seq<CodeUnit>

  function Min(a: int, b: int): (m: int) { if a <= b then a else b }

  /**
   * The character class `\s`: the WhiteSpace and LineTerminator code points of
   * ECMA-262 (section 22.2.2.9, CharacterClassEscape): TAB, LF, VT, FF, CR,
   * SPACE, NBSP, the other space separators of category Zs (U+1680,
   * U+2000..U+200A, U+202F, U+205F, U+3000), LINE SEPARATOR, PARAGRAPH
   * SEPARATOR and the byte order mark U+FEFF.
   *
   * Within ASCII these are exactly TAB..CR and SPACE, and no surrogate code unit
   * is white space, so a cut never falls inside a surrogate pair.
   */
  function IsWs(u: CodeUnit): (b: bool)
    ensures u < 0x80 ==> (b <==> 0x09 <= u <= 0x0D || u == 0x20)
    ensures b ==> !(0xD800 <= u <= 0xDFFF)
  {
    u == 0x09 || u == 0x0A || u == 0x0B || u == 0x0C || u == 0x0D
    || u == 0x20 || u == 0xA0 || u == 0x1680
    || (0x2000 <= u <= 0x200A)
    || u == 0x2028 || u == 0x2029 || u == 0x202F || u == 0x205F
    || u == 0x3000 || u == 0xFEFF
  }

  /** No code unit of `s` matches `\s`. */
  predicate NoWs(s: Str) {
    forall i :: 0 <= i < |s| ==> !IsWs(s[i])
  }

  /** Every code unit of `s` matches `\s`. */
  predicate AllWs(s: Str) {
    forall i :: 0 <= i < |s| ==> IsWs(s[i])
  }

  // ---------------------------------------------------------------------------
  // split(/\s/)
  // ---------------------------------------------------------------------------

  /** The code units of `s` at which `split(/\s/)` cuts, in order. */
  function Separators(s: Str): (r: Str)
    ensures |r| <= |s|
    ensures AllWs(r)
  {
    if s == [] then []
    else (if IsWs(s[0]) then [s[0]] else []) + Separators(s[1..])
  }

  /**
   * Scans `s` from left to right, `cur` being the token read so far: every
   * single white-space code unit closes the current token and starts a new,
   * empty one; the end of the string closes the last token.
   */
  function SplitFrom(cur: Str, s: Str): (r: seq<Str>)
    ensures |r| == |Separators(s)| + 1
    decreases |s|
  {
    if s == [] then [cur]
    else if IsWs(s[0]) then [cur] + SplitFrom([], s[1..])
    else SplitFrom(cur + [s[0]], s[1..])
  }

  /**
   * `s.split(/\s/)`: a run of k white-space code units yields k - 1 empty
   * tokens between its neighbours, a leading or trailing one an empty first or
   * last token, and the empty string one empty token.
   */
  function Split(s: Str): (r: seq<Str>)
    ensures |r| == |Separators(s)| + 1
  {
    SplitFrom([], s)
  }

  /** No token of `Split` contains white space. */
  lemma {:induction false} SplitFromNoWs(cur: Str, s: Str)
    requires NoWs(cur)
    ensures forall i :: 0 <= i < |SplitFrom(cur, s)| ==> NoWs(SplitFrom(cur, s)[i])
    decreases |s|
  {
    if s != [] {
      if IsWs(s[0]) {
        SplitFromNoWs([], s[1..]);
      } else {
        SplitFromNoWs(cur + [s[0]], s[1..]);
      }
    }
  }

  lemma SplitTokensNoWs(s: Str)
    ensures forall i :: 0 <= i < |Split(s)| ==> NoWs(Split(s)[i])
  {
    SplitFromNoWs([], s);
  }

  /**
   * Puts the separators back between the tokens: `tokens[0] + seps[0] +
   * tokens[1] + ... + tokens[|seps|]`. It is the inverse of `Split`.
   */
  function Interleave(tokens: seq<Str>, seps: Str): (r: Str)
    requires |tokens| == |seps| + 1
    decreases |seps|
  {
    if seps == [] then tokens[0]
    else tokens[0] + [seps[0]] + Interleave(tokens[1..], seps[1..])
  }

  lemma InterleaveCons(t: Str, tokens: seq<Str>, c: CodeUnit, seps: Str)
    requires |tokens| == |seps| + 1
    ensures Interleave([t] + tokens, [c] + seps) == t + [c] + Interleave(tokens, seps)
  {
    assert ([t] + tokens)[1..] == tokens && ([c] + seps)[1..] == seps;
  }

  lemma {:induction false} InterleaveSplitFrom(cur: Str, s: Str)
    ensures Interleave(SplitFrom(cur, s), Separators(s)) == cur + s
    decreases |s|, 1
  {
    if s == [] {
      assert cur + s == cur;
    } else {
      assert s == [s[0]] + s[1..];
      InterleaveSplitFromCons(cur, s[0], s[1..]);
    }
  }

  lemma {:induction false} InterleaveSplitFromCons(cur: Str, c: CodeUnit, x: Str)
    ensures Interleave(SplitFrom(cur, [c] + x), Separators([c] + x)) == cur + [c] + x
    decreases |x| + 1, 0
  {
    assert ([c] + x)[0] == c && ([c] + x)[1..] == x;
    if IsWs(c) {
      InterleaveSplitFrom([], x);
      InterleaveCons(cur, SplitFrom([], x), c, Separators(x));
      assert [] + x == x;
    } else {
      assert Separators([c] + x) == Separators(x);
      InterleaveSplitFrom(cur + [c], x);
    }
  }

  /** Splitting and putting the separators back gives the string again. */
  lemma InterleaveSplit(s: Str)
    ensures Interleave(Split(s), Separators(s)) == s
  {
    InterleaveSplitFrom([], s);
    assert [] + s == s;
  }

  /** A white-space-free stretch is appended to the current token. */
  lemma {:induction false} SplitFromNoWsPrefix(cur: Str, t: Str, x: Str)
    requires NoWs(t)
    ensures SplitFrom(cur, t + x) == SplitFrom(cur + t, x)
    decreases |t|
  {
    if t == [] {
      assert t + x == x && cur + t == cur;
    } else {
      assert (t + x)[0] == t[0] && (t + x)[1..] == t[1..] + x;
      SplitFromNoWsPrefix(cur + [t[0]], t[1..], x);
      assert cur + [t[0]] + t[1..] == cur + t;
    }
  }

  /** A string without white space is a single token. */
  lemma SplitNoWs(t: Str)
    requires NoWs(t)
    ensures Split(t) == [t]
  {
    SplitFromNoWsPrefix([], t, []);
    assert t + [] == t && [] + t == t;
  }

  lemma {:induction false} SplitFromAppendWs(cur: Str, a: Str, w: CodeUnit, b: Str)
    requires IsWs(w)
    ensures SplitFrom(cur, a + [w] + b) == SplitFrom(cur, a) + Split(b)
    decreases |a|
  {
    if a == [] {
      assert (a + [w] + b)[0] == w && (a + [w] + b)[1..] == b;
    } else {
      var x := a + [w] + b;
      assert x[0] == a[0] && x[1..] == a[1..] + [w] + b;
      if IsWs(a[0]) {
        SplitFromAppendWs([], a[1..], w, b);
        assert [cur] + (Split(a[1..]) + Split(b)) == ([cur] + Split(a[1..])) + Split(b);
      } else {
        SplitFromAppendWs(cur + [a[0]], a[1..], w, b);
      }
    }
  }

  /** Cutting at one white-space code unit splits the two sides independently. */
  lemma SplitAppendWs(a: Str, w: CodeUnit, b: Str)
    requires IsWs(w)
    ensures Split(a + [w] + b) == Split(a) + Split(b)
  {
    SplitFromAppendWs([], a, w, b);
  }

  /** Splitting inverts `Interleave` when tokens and separators are well formed. */
  lemma {:induction false} SplitInterleave(tokens: seq<Str>, seps: Str)
    requires |tokens| == |seps| + 1
    requires forall i :: 0 <= i < |tokens| ==> NoWs(tokens[i])
    requires AllWs(seps)
    ensures Split(Interleave(tokens, seps)) == tokens
    decreases |seps|
  {
    if seps == [] {
      SplitNoWs(tokens[0]);
      assert tokens == [tokens[0]];
    } else {
      var rest := Interleave(tokens[1..], seps[1..]);
      SplitInterleave(tokens[1..], seps[1..]);
      SplitAppendWs(tokens[0], seps[0], rest);
      SplitNoWs(tokens[0]);
      assert tokens == [tokens[0]] + tokens[1..];
    }
  }

  // ---------------------------------------------------------------------------
  // slice(0, n)
  // ---------------------------------------------------------------------------

  /** `s.slice(0, n)` for n >= 0: the first n code units, or all of s if shorter. */
  function Prefix(s: Str, n: nat): (r: Str)
    ensures |r| == Min(n, |s|)
    ensures r == s[..|r|]
  {
    if |s| <= n then s else s[..n]
  }

  // ---------------------------------------------------------------------------
  // toUpperCase()
  // ---------------------------------------------------------------------------

  predicate IsAsciiLower(u: CodeUnit) { 0x61 <= u <= 0x7A }

  /** The ASCII case mapping of one code unit: 'a'..'z' to 'A'..'Z'. */
  function UpperUnit(u: CodeUnit): (v: CodeUnit)
    ensures !IsAsciiLower(v)
    ensures IsWs(v) <==> IsWs(u)
    ensures IsAsciiLower(u) ==> v == u - 0x20
    ensures !IsAsciiLower(u) ==> v == u
  {
    if IsAsciiLower(u) then u - 0x20 else u
  }

  /** `s.toUpperCase()`, restricted to the ASCII case mapping. */
  function ToUpperCase(s: Str): (r: Str)
    ensures |r| == |s|
    ensures forall i :: 0 <= i < |s| ==> r[i] == UpperUnit(s[i])
  {
    if s == [] then [] else [UpperUnit(s[0])] + ToUpperCase(s[1..])
  }

  /**
   * Under the ASCII case mapping, upper-casing and taking a prefix commute,
   * because the mapping is one code unit to one code unit.
   */
  lemma UpperThenPrefix(s: Str, n: nat)
    ensures Prefix(ToUpperCase(s), n) == ToUpperCase(Prefix(s, n))
  {
  }

  // ---------------------------------------------------------------------------
  // String literals
  // ---------------------------------------------------------------------------

  /**
   * The JavaScript string a Dafny string literal denotes, for literals whose
   * characters all lie in the Basic Multilingual Plane: there UTF-16 uses one
   * code unit per character, equal to its code point.
   */
  function Units(s: string): (r: Str)
    requires forall i :: 0 <= i < |s| ==> s[i] as int < 0x1_0000
    ensures |r| == |s|
  {
    seq(|s|, i requires 0 <= i < |s| => s[i] as int)
  }
}
