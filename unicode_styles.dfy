/**
 * The text transforms of the Unicode style engine: code-point remaps onto
 * the Mathematical Alphanumeric Symbols and Fullwidth Forms blocks,
 * combining-mark decoration, Zalgo stacking, letter spacing and glyph
 * wrapping.  Text is the sequence of code points that `Array.from(text)`
 * yields (a lone surrogate is its own element).
 */
module UnicodeStyles {
  import opened Wrappers
  import opened Sequences

  type CodePoint = c: int | 0 <= c <= 0x10FFFF
  type Text = seq<CodePoint>

  /** A mark of the Combining Diacritical Marks block U+0300..U+036F. */
  type Diacritic = c: CodePoint | 0x300 <= c <= 0x36F witness 0x300

  const Space: CodePoint := 0x20
  const Newline: CodePoint := 0x0A

  // The COMBINING table: one combining mark per decoration.
  const Underline: CodePoint := 0x0332
  const Strikethrough: CodePoint := 0x0336
  const Overline: CodePoint := 0x0305
  const DoubleUnderline: CodePoint := 0x0333
  const SlashOverlay: CodePoint := 0x0338
  const EnclosingCircle: CodePoint := 0x20DD
  const EnclosingSquare: CodePoint := 0x20DE
  const EnclosingDiamond: CodePoint := 0x20DF
  const Dots: CodePoint := 0x0308
  const Ring: CodePoint := 0x030A
  const Tilde: CodePoint := 0x0303
  const Acute: CodePoint := 0x0301
  const Grave: CodePoint := 0x0300
  const Circumflex: CodePoint := 0x0302
  const Caron: CodePoint := 0x030C
  const Breve: CodePoint := 0x0306
  const Macron: CodePoint := 0x0304
  const Cedilla: CodePoint := 0x0327
  const Ogonek: CodePoint := 0x0328
  const Horn: CodePoint := 0x031B
  const DotBelow: CodePoint := 0x0323
  const RingBelow: CodePoint := 0x0325
  const CommaBelow: CodePoint := 0x0326
  const BridgeBelow: CodePoint := 0x032A
  const InvertedBreve: CodePoint := 0x0311
  const XAbove: CodePoint := 0x033D
  const VerticalLine: CodePoint := 0x030D
  const DoubleVerticalLine: CodePoint := 0x030E
  const LeftAngle: CodePoint := 0x031A
  const Bridge: CodePoint := 0x0346
  const EqualsBelow: CodePoint := 0x0347
  const LeftHalfRing: CodePoint := 0x0351
  const RightHalfRing: CodePoint := 0x0357
  const AsteriskAbove: CodePoint := 0x20F0

  /** Marks stacked above a letter by the Zalgo effect. */
  const ZalgoUp: seq<Diacritic> := [
    0x030D, 0x030E, 0x0304, 0x0305, 0x033F, 0x0311, 0x0306, 0x0310,
    0x0352, 0x0357, 0x0351, 0x0307, 0x0308, 0x030A, 0x0342, 0x0343,
    0x0344, 0x034A, 0x034B, 0x034C, 0x0303, 0x0302, 0x030C, 0x0350,
    0x0300, 0x0301, 0x030B, 0x030F, 0x0312, 0x0313, 0x0314, 0x033D,
    0x0309, 0x0363, 0x0364, 0x0365, 0x0366, 0x0367, 0x0368, 0x0369,
    0x036A, 0x036B, 0x036C, 0x036D, 0x036E, 0x036F, 0x033E, 0x035B]

  /** Marks stacked below a letter by the Zalgo effect. */
  const ZalgoDown: seq<Diacritic> := [
    0x0316, 0x0317, 0x0318, 0x0319, 0x031C, 0x031D, 0x031E, 0x031F,
    0x0320, 0x0324, 0x0325, 0x0326, 0x0329, 0x032A, 0x032B, 0x032C,
    0x032D, 0x032E, 0x032F, 0x0330, 0x0331, 0x0332, 0x0333, 0x0339,
    0x033A, 0x033B, 0x033C, 0x0345, 0x0347, 0x0348, 0x0349, 0x034D,
    0x034E, 0x0353, 0x0354, 0x0355, 0x0356, 0x0359, 0x035A, 0x0323]

  predicate IsAsciiUpper(c: int) { 65 <= c <= 90 }
  predicate IsAsciiLower(c: int) { 97 <= c <= 122 }
  predicate IsAsciiDigit(c: int) { 48 <= c <= 57 }

  // ---------------------------------------------------------------------------
  // mapLatinRange

  /** The code points that capital A, small a and (optionally) digit zero map to. */
  datatype LatinBases = LatinBases(upper: int, lower: int, digit: Option<int>)

  /** Every mapped letter and digit is a code point (`String.fromCodePoint` throws otherwise). */
  predicate ValidBases(b: LatinBases) {
    && 0 <= b.upper && b.upper + 25 <= 0x10FFFF
    && 0 <= b.lower && b.lower + 25 <= 0x10FFFF
    && (b.digit.Some? ==> 0 <= b.digit.value && b.digit.value + 9 <= 0x10FFFF)
  }

  /** Whether `c` is one of the code points the letters and digits are mapped to. */
  predicate InTargetAlphabet(c: int, b: LatinBases) {
    || b.upper <= c <= b.upper + 25
    || b.lower <= c <= b.lower + 25
    || (b.digit.Some? && b.digit.value <= c <= b.digit.value + 9)
  }

  /**
   * The target alphabet lies outside ASCII and its three ranges do not
   * overlap: every alphabet of the registry is of this kind.
   */
  predicate SeparateAlphabet(b: LatinBases) {
    && 128 <= b.upper && 128 <= b.lower
    && (b.upper + 25 < b.lower || b.lower + 25 < b.upper)
    && (b.digit.Some? ==>
          && 128 <= b.digit.value
          && (b.digit.value + 9 < b.upper || b.upper + 25 < b.digit.value)
          && (b.digit.value + 9 < b.lower || b.lower + 25 < b.digit.value))
  }

  /** One code point of a Latin-mapping style. */
  function MapLatinRange(c: CodePoint, b: LatinBases): (r: CodePoint)
    requires ValidBases(b)
    ensures IsAsciiUpper(c) ==> r == b.upper + (c - 65)
    ensures IsAsciiLower(c) ==> r == b.lower + (c - 97)
    ensures IsAsciiDigit(c) && b.digit.Some? ==> r == b.digit.value + (c - 48)
    ensures !IsAsciiUpper(c) && !IsAsciiLower(c) && !(IsAsciiDigit(c) && b.digit.Some?) ==> r == c
  {
    if c == 0 then c
    else if 65 <= c <= 90 then b.upper + (c - 65)
    else if 97 <= c <= 122 then b.lower + (c - 97)
    else if b.digit.Some? && 48 <= c <= 57 then b.digit.value + (c - 48)
    else c
  }

  /** The inverse of MapLatinRange on its target alphabet. */
  function UnmapLatinRange(c: CodePoint, b: LatinBases): CodePoint
    requires ValidBases(b)
  {
    if b.upper <= c <= b.upper + 25 then 65 + (c - b.upper)
    else if b.lower <= c <= b.lower + 25 then 97 + (c - b.lower)
    else if b.digit.Some? && b.digit.value <= c <= b.digit.value + 9 then 48 + (c - b.digit.value)
    else c
  }

  /**
   * The remap is reversible on every code point that is not already in the
   * target alphabet: no two code points outside the target alphabet map to
   * the same glyph.
   */
  lemma MapLatinRangeRoundTrip(c: CodePoint, b: LatinBases)
    requires ValidBases(b) && SeparateAlphabet(b) && !InTargetAlphabet(c, b)
    ensures UnmapLatinRange(MapLatinRange(c, b), b) == c
  {
  }

  /** A Latin-mapping style on a whole text: every code point remapped on its own. */
  function LatinRangeText(t: Text, b: LatinBases): Text
    requires ValidBases(b)
  {
    seq(|t|, i requires 0 <= i < |t| => MapLatinRange(t[i], b))
  }

  // ---------------------------------------------------------------------------
  // toFullwidth

  /** One code point of the fullwidth style. */
  function ToFullwidth(c: CodePoint): (r: CodePoint)
    ensures c == 32 ==> r == 0x3000
    ensures 33 <= c <= 126 ==> r == 0xFF01 + (c - 33) && 0xFF01 <= r <= 0xFF5E
    ensures !(32 <= c <= 126) ==> r == c
  {
    if c == 0 then c
    else if c == 32 then 0x3000
    else if 33 <= c <= 126 then 0xFF01 + (c - 33)
    else c
  }

  /** The inverse of ToFullwidth on the ideographic space and the Fullwidth Forms it produces. */
  function FromFullwidth(c: CodePoint): CodePoint {
    if c == 0x3000 then 32
    else if 0xFF01 <= c <= 0xFF5E then 33 + (c - 0xFF01)
    else c
  }

  lemma FullwidthRoundTrip(c: CodePoint)
    requires c != 0x3000 && !(0xFF01 <= c <= 0xFF5E)
    ensures FromFullwidth(ToFullwidth(c)) == c
  {
  }

  /** The fullwidth style on a whole text: every code point converted on its own. */
  function FullwidthText(t: Text): Text {
    seq(|t|, i requires 0 <= i < |t| => ToFullwidth(t[i]))
  }

  // ---------------------------------------------------------------------------
  // addCombining, addMultipleCombining

  /** Every code point, INCLUDING spaces and newlines, followed by `mark`. */
  function AddCombining(t: Text, mark: CodePoint): (r: Text)
    ensures |r| == 2 * |t|
    ensures forall i | 0 <= i < |r| :: r[i] == if i % 2 == 0 then t[i / 2] else mark
  {
    if t == [] then [] else [t[0], mark] + AddCombining(t[1..], mark)
  }

  /** Every code point followed by all of `marks`, in order. */
  function AddMultipleCombining(t: Text, marks: seq<CodePoint>): Text {
    if t == [] then [] else [t[0]] + marks + AddMultipleCombining(t[1..], marks)
  }

  /** Every code point becomes a block of 1 + |marks| code points. */
  lemma {:induction false} AddMultipleCombiningLength(t: Text, marks: seq<CodePoint>)
    ensures |AddMultipleCombining(t, marks)| == |t| * (1 + |marks|)
    decreases |t|
  {
    if t != [] {
      AddMultipleCombiningLength(t[1..], marks);
      assert |t| * (1 + |marks|) == (1 + |marks|) + (|t| - 1) * (1 + |marks|);
    }
  }

  /** The block of `1 + |marks|` code points that code point `i` becomes. */
  lemma {:induction false} AddMultipleCombiningAt(t: Text, marks: seq<CodePoint>, i: nat)
    requires i < |t|
    ensures var w := 1 + |marks|;
      (i + 1) * w <= |AddMultipleCombining(t, marks)| &&
      AddMultipleCombining(t, marks)[i * w .. (i + 1) * w] == [t[i]] + marks
    decreases i
  {
    var w := 1 + |marks|;
    var r := AddMultipleCombining(t, marks);
    var rest := AddMultipleCombining(t[1..], marks);
    assert r == [t[0]] + marks + rest;
    AddMultipleCombiningLength(t, marks);
    if i > 0 {
      AddMultipleCombiningAt(t[1..], marks, i - 1);
      assert i * w == w + (i - 1) * w;
      assert (i + 1) * w == w + i * w;
      assert r[i * w .. (i + 1) * w] == rest[(i - 1) * w .. i * w];
    }
  }

  /** The single-mark helper is the multi-mark helper with one mark. */
  lemma {:induction false} AddCombiningIsOneMark(t: Text, mark: CodePoint)
    ensures AddCombining(t, mark) == AddMultipleCombining(t, [mark])
    decreases |t|
  {
    if t != [] {
      AddCombiningIsOneMark(t[1..], mark);
    }
  }

  /** The code points at positions 0, step, 2 * step, ... */
  function EveryNth(s: Text, step: nat): (r: Text)
    requires step >= 1
    decreases |s|
  {
    if s == [] then []
    else if |s| <= step then [s[0]]
    else [s[0]] + EveryNth(s[step..], step)
  }

  /** Dropping the marks again recovers the text: the decoration loses nothing. */
  lemma {:induction false} AddMultipleCombiningBases(t: Text, marks: seq<CodePoint>)
    ensures EveryNth(AddMultipleCombining(t, marks), 1 + |marks|) == t
    decreases |t|
  {
    if t != [] {
      var rest := AddMultipleCombining(t[1..], marks);
      var r := [t[0]] + marks + rest;
      assert r[1 + |marks|..] == rest;
      AddMultipleCombiningBases(t[1..], marks);
      if |r| <= 1 + |marks| {
        assert rest == [] && t[1..] == [];
      }
    }
  }

  // ---------------------------------------------------------------------------
  // addSpaces: the code points joined by single spaces

  function AddSpaces(t: Text): (r: Text)
    ensures |r| == if t == [] then 0 else 2 * |t| - 1
    ensures forall i | 0 <= i < |r| :: r[i] == if i % 2 == 0 then t[i / 2] else Space
  {
    if |t| <= 1 then t else [t[0], Space] + AddSpaces(t[1..])
  }

  /** Removing the separators recovers the text. */
  lemma {:induction false} AddSpacesBases(t: Text)
    ensures EveryNth(AddSpaces(t), 2) == t
    decreases |t|
  {
    if |t| > 1 {
      var r := AddSpaces(t);
      assert r[2..] == AddSpaces(t[1..]);
      AddSpacesBases(t[1..]);
    }
  }

  // ---------------------------------------------------------------------------
  // wrapChars

  /** Number of code points other than U+0020. */
  function NonSpaceCount(t: Text): (n: nat)
    ensures n <= |t|
  {
    if t == [] then 0 else (if t[0] == Space then 0 else 1) + NonSpaceCount(t[1..])
  }

  /** Every code point except U+0020 (a newline included) becomes left, ch, right. */
  function WrapChars(t: Text, left: Text, right: Text): Text {
    if t == [] then []
    else (if t[0] == Space then [Space] else left + [t[0]] + right) + WrapChars(t[1..], left, right)
  }

  /** Each non-space code point gains |left| + |right| glyphs; spaces gain none. */
  lemma {:induction false} WrapCharsLength(t: Text, left: Text, right: Text)
    ensures |WrapChars(t, left, right)| == |t| + (|left| + |right|) * NonSpaceCount(t)
    decreases |t|
  {
    if t != [] {
      WrapCharsLength(t[1..], left, right);
      var n := NonSpaceCount(t[1..]);
      assert (|left| + |right|) * (n + 1) == (|left| + |right|) * n + (|left| + |right|);
    }
  }

  /** Reads wrapped text back: a space stands for itself, anything else is left, ch, right. */
  function Unwrap(s: Text, leftLen: nat, rightLen: nat): Text
    decreases |s|
  {
    if s == [] then []
    else if s[0] == Space then [Space] + Unwrap(s[1..], leftLen, rightLen)
    else if |s| < leftLen + 1 + rightLen then []
    else [s[leftLen]] + Unwrap(s[leftLen + 1 + rightLen..], leftLen, rightLen)
  }

  /** Wrapping is undone by Unwrap whenever the left glyphs do not start with a space. */
  lemma {:induction false} WrapCharsRoundTrip(t: Text, left: Text, right: Text)
    requires left == [] || left[0] != Space
    ensures Unwrap(WrapChars(t, left, right), |left|, |right|) == t
    decreases |t|
  {
    if t != [] {
      var rest := WrapChars(t[1..], left, right);
      WrapCharsRoundTrip(t[1..], left, right);
      if t[0] == Space {
        assert WrapChars(t, left, right) == [Space] + rest;
        assert ([Space] + rest)[1..] == rest;
      } else {
        var w := left + [t[0]] + right;
        assert WrapChars(t, left, right) == w + rest;
        assert (w + rest)[0] != Space;
        assert (w + rest)[|left|] == t[0];
        assert (w + rest)[|left| + 1 + |right|..] == rest;
      }
    }
  }

  // ---------------------------------------------------------------------------
  // toZalgo

  datatype Intensity = Light | Medium | Heavy

  /** The number of stacking iterations per code point (`counts[intensity]`). */
  function IterationCount(intensity: Intensity): nat {
    match intensity
    case Light => 2
    case Medium => 4
    case Heavy => 8
  }

  /**
   * One random decision of `toZalgo`: whether the mark is appended and
   * which entry of the pool it is.  The engine's random source is the
   * stream `draws(0), draws(1), ...`.
   */
  datatype Draw = Draw(keep: bool, pick: nat)
  type DrawSource = nat -> Draw

  /**
   * The marks stacked above and below.  The functions below take the pools
   * as a parameter; `toZalgo` itself always uses `SourcePools`.
   */
  datatype MarkPools = MarkPools(up: seq<Diacritic>, down: seq<Diacritic>)

  predicate ValidPools(pools: MarkPools) { |pools.up| > 0 && |pools.down| > 0 }

  const SourcePools: MarkPools := MarkPools(ZalgoUp, ZalgoDown)

  lemma SourcePoolsFacts()
    ensures |SourcePools.up| == 48 && |SourcePools.down| == 40
    ensures ValidPools(SourcePools)
  {
  }

  predicate IsPoolMark(pools: MarkPools, c: int) { c in pools.up || c in pools.down }

  /** Every pool mark is a combining diacritic: none is a space, a newline or a letter. */
  lemma PoolMarksAreDiacritics(pools: MarkPools, c: int)
    requires IsPoolMark(pools, c)
    ensures 0x300 <= c <= 0x36F
  {
  }

  /** The mark a draw contributes: nothing, or one entry of `pool` (both pools are non-empty). */
  function PoolMark(pool: seq<Diacritic>, d: Draw): (r: Text)
    ensures |r| <= 1
  {
    if d.keep && |pool| > 0 then [pool[d.pick % |pool|]] else []
  }

  /** The marks of `count` iterations whose draws start at stream position `k`. */
  function ZalgoMarks(pools: MarkPools, count: nat, draws: DrawSource, k: nat): (r: Text)
    ensures |r| <= 2 * count
  {
    if count == 0 then []
    else
      var next := k + 2 * (count - 1);
      ZalgoMarks(pools, count - 1, draws, k) + PoolMark(pools.up, draws(next)) + PoolMark(pools.down, draws(next + 1))
  }

  /** Every stacked mark is an entry of one of the pools. */
  lemma {:induction false} ZalgoMarksArePoolMarks(pools: MarkPools, count: nat, draws: DrawSource, k: nat)
    ensures forall x | x in ZalgoMarks(pools, count, draws, k) :: IsPoolMark(pools, x)
  {
    if count > 0 {
      ZalgoMarksArePoolMarks(pools, count - 1, draws, k);
    }
  }

  predicate IsBlank(c: CodePoint) { c == Space || c == Newline }

  /** What one code point becomes; blanks consume no draws. */
  function ZalgoCodePoint(pools: MarkPools, c: CodePoint, count: nat, draws: DrawSource, k: nat): (r: Text)
    ensures IsBlank(c) ==> r == [c]
    ensures 1 <= |r| <= 1 + 2 * count && r[0] == c
  {
    if IsBlank(c) then [c] else [c] + ZalgoMarks(pools, count, draws, k)
  }

  /** Stream position after the code points of `t`: every decorated one consumes 2 * count draws. */
  function DrawsUsed(t: Text, count: nat): nat {
    if t == [] then 0
    else DrawsUsed(t[..|t| - 1], count) + (if IsBlank(t[|t| - 1]) then 0 else 2 * count)
  }

  /** The Zalgo transform with the draws taken from `draws`, in order. */
  function ZalgoText(pools: MarkPools, t: Text, count: nat, draws: DrawSource): (r: Text)
  {
    if t == [] then []
    else
      var init := t[..|t| - 1];
      ZalgoText(pools, init, count, draws) + ZalgoCodePoint(pools, t[|t| - 1], count, draws, DrawsUsed(init, count))
  }

  /** Every code point stays and receives at most 2 * count marks. */
  lemma {:induction false} ZalgoLengthBounds(pools: MarkPools, t: Text, count: nat, draws: DrawSource)
    ensures |t| <= |ZalgoText(pools, t, count, draws)| <= |t| * (1 + 2 * count)
    decreases |t|
  {
    if t != [] {
      var init := t[..|t| - 1];
      ZalgoLengthBounds(pools, init, count, draws);
      var unit := ZalgoCodePoint(pools, t[|t| - 1], count, draws, DrawsUsed(init, count));
      var z := ZalgoText(pools, init, count, draws);
      assert ZalgoText(pools, t, count, draws) == z + unit;
      LengthStep(|init|, |t|, 1 + 2 * count, |z|, |unit|);
    }
  }

  lemma LengthStep(n: nat, m: nat, w: nat, a: nat, b: nat)
    requires m == n + 1 && a <= n * w && b <= w
    ensures a + b <= m * w
  {
  }

  /** Zalgo only adds marks from its two pools. */
  lemma {:induction false} ZalgoTextAddsOnlyPoolMarks(pools: MarkPools, t: Text, count: nat, draws: DrawSource)
    ensures forall x | x in ZalgoText(pools, t, count, draws) :: x in t || IsPoolMark(pools, x)
    decreases |t|
  {
    if t != [] {
      var init := t[..|t| - 1];
      var unit := ZalgoCodePoint(pools, t[|t| - 1], count, draws, DrawsUsed(init, count));
      ZalgoTextAddsOnlyPoolMarks(pools, init, count, draws);
      ZalgoMarksArePoolMarks(pools, count, draws, DrawsUsed(init, count));
      assert forall x | x in unit :: x == t[|t| - 1] || x in unit[1..];
      assert forall x | x in init :: x in t;
    }
  }

  /** The inner loop of `toZalgo`: `count` rounds of one up-mark draw and one down-mark draw. */
  method StackMarks(pools: MarkPools, ch: CodePoint, count: nat, draws: DrawSource, k: nat) returns (unit: Text, next: nat)
    requires ValidPools(pools)
    ensures unit == [ch] + ZalgoMarks(pools, count, draws, k)
    ensures next == k + 2 * count
  {
    unit := [ch];
    next := k;
    var i := 0;
    while i < count
      invariant 0 <= i <= count
      invariant next == k + 2 * i
      invariant unit == [ch] + ZalgoMarks(pools, i, draws, k)
    {
      ghost var before := unit;
      var d := draws(next);
      if d.keep {
        unit := unit + [pools.up[d.pick % |pools.up|]];
      }
      assert unit == before + PoolMark(pools.up, draws(k + 2 * i));
      ghost var middle := unit;
      d := draws(next + 1);
      if d.keep {
        unit := unit + [pools.down[d.pick % |pools.down|]];
      }
      assert unit == middle + PoolMark(pools.down, draws(k + 2 * i + 1));
      next := next + 2;
      i := i + 1;
    }
  }

  /** `toZalgo(text, intensity)`: blanks are copied, every other code point gets its stack of marks. */
  method ToZalgo(text: Text, intensity: Intensity, draws: DrawSource) returns (result: Text)
    ensures result == ZalgoText(SourcePools, text, IterationCount(intensity), draws)
  {
    var pools := SourcePools;
    SourcePoolsFacts();
    var count := IterationCount(intensity);
    result := [];
    var k := 0;
    var j := 0;
    while j < |text|
      invariant 0 <= j <= |text|
      invariant result == ZalgoText(pools, text[..j], count, draws)
      invariant k == DrawsUsed(text[..j], count)
    {
      var ch := text[j];
      ZalgoPrefixStep(pools, text, j, count, draws);
      ghost var expected := ZalgoCodePoint(pools, ch, count, draws, k);
      var unit: Text;
      if ch == Space || ch == Newline {
        unit := [ch];
      } else {
        unit, k := StackMarks(pools, ch, count, draws, k);
      }
      assert unit == expected;
      result := result + unit;
      j := j + 1;
    }
    assert text[..|text|] == text;
  }

  /** ZalgoText and DrawsUsed on the prefix `t[..j + 1]`, in terms of the prefix `t[..j]`. */
  lemma ZalgoPrefixStep(pools: MarkPools, t: Text, j: nat, count: nat, draws: DrawSource)
    requires j < |t|
    ensures ZalgoText(pools, t[..j + 1], count, draws)
      == ZalgoText(pools, t[..j], count, draws) + ZalgoCodePoint(pools, t[j], count, draws, DrawsUsed(t[..j], count))
    ensures DrawsUsed(t[..j + 1], count) == DrawsUsed(t[..j], count) + (if IsBlank(t[j]) then 0 else 2 * count)
  {
    assert t[..j + 1][..j] == t[..j];
  }

  /** Text made only of spaces and newlines passes through Zalgo unchanged. */
  lemma {:induction false} ZalgoKeepsBlanks(pools: MarkPools, t: Text, count: nat, draws: DrawSource)
    requires forall i | 0 <= i < |t| :: IsBlank(t[i])
    ensures ZalgoText(pools, t, count, draws) == t
    decreases |t|
  {
    if t != [] {
      var init := t[..|t| - 1];
      ZalgoKeepsBlanks(pools, init, count, draws);
      assert t == init + [t[|t| - 1]];
    }
  }

  /** The filter that drops pool marks. */
  function NotPoolMark(pools: MarkPools): CodePoint -> bool {
    c => !IsPoolMark(pools, c)
  }

  /** Removes every pool mark. */
  function StripMarks(pools: MarkPools, s: Text): Text {
    Filter(s, NotPoolMark(pools))
  }

  /** Stripping one decorated code point leaves the code point. */
  lemma StripZalgoCodePoint(pools: MarkPools, c: CodePoint, count: nat, draws: DrawSource, k: nat)
    requires !IsPoolMark(pools, c)
    ensures StripMarks(pools, ZalgoCodePoint(pools, c, count, draws, k)) == [c]
  {
    var keep := NotPoolMark(pools);
    assert Filter([c], keep) == [c] by {
      assert [c][..0] == [];
    }
    if !IsBlank(c) {
      var marks := ZalgoMarks(pools, count, draws, k);
      ZalgoMarksArePoolMarks(pools, count, draws, k);
      FilterAppend([c], marks, keep);
      FilterNone(marks, keep);
    }
  }

  /** Stripping the pool marks recovers the input, provided the input had none. */
  lemma {:induction false} ZalgoStripRecoversInput(pools: MarkPools, t: Text, count: nat, draws: DrawSource)
    requires forall i | 0 <= i < |t| :: !IsPoolMark(pools, t[i])
    ensures StripMarks(pools, ZalgoText(pools, t, count, draws)) == t
    decreases |t|
  {
    if t != [] {
      var init, last := t[..|t| - 1], t[|t| - 1];
      var keep := NotPoolMark(pools);
      var unit := ZalgoCodePoint(pools, last, count, draws, DrawsUsed(init, count));
      var prefix := ZalgoText(pools, init, count, draws);
      assert Filter(prefix, keep) == init by {
        ZalgoStripRecoversInput(pools, init, count, draws);
      }
      assert Filter(unit, keep) == [last] by {
        StripZalgoCodePoint(pools, last, count, draws, DrawsUsed(init, count));
      }
      calc {
        StripMarks(pools, ZalgoText(pools, t, count, draws));
        Filter(prefix + unit, keep);
        { FilterAppend(prefix, unit, keep); }
        Filter(prefix, keep) + Filter(unit, keep);
        init + [last];
        t;
      }
    }
  }
}
