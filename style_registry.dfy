/**
 * The registry of 49 Unicode styles, in display order, with lookup by id,
 * application to text and the Cyrillic / Latin-only partition.  A style's
 * transform is data (`Transform`), interpreted by `Apply`.
 */
module StyleRegistry {
  import opened Wrappers
  import opened Sequences
  import opened UnicodeStyles

  /** What a style does to text. */
  datatype Transform =
    | Identity
    | LatinRange(bases: LatinBases)
    | Fullwidth
    | Combining(mark: CodePoint)
    | MultipleCombining(marks: seq<CodePoint>)
    | Zalgo(intensity: Intensity)
    | Spaced
    | Wrapped(left: Text, right: Text)

  /** The two transforms that remap Latin code points instead of decorating them. */
  predicate IsRemap(t: Transform) { t.LatinRange? || t.Fullwidth? }

  predicate WellFormed(t: Transform) {
    t.LatinRange? ==> ValidBases(t.bases) && SeparateAlphabet(t.bases)
  }

  /** The style's `transform`; Zalgo draws its randomness from `draws`. */
  function Apply(t: Transform, text: Text, draws: DrawSource): Text
    requires WellFormed(t)
  {
    match t
    case Identity => text
    case LatinRange(b) => LatinRangeText(text, b)
    case Fullwidth => FullwidthText(text)
    case Combining(m) => AddCombining(text, m)
    case MultipleCombining(ms) => AddMultipleCombining(text, ms)
    case Zalgo(i) => ZalgoText(SourcePools, text, IterationCount(i), draws)
    case Spaced => AddSpaces(text)
    case Wrapped(l, r) => WrapChars(text, l, r)
  }

  datatype StyleDef = StyleDef(id: string, name: string, nameRu: string, transform: Transform, supportsCyrillic: bool)

  /** Styles for Latin letters; only `normal` leaves Cyrillic text alone by design. */
  const LatinStyles: seq<StyleDef> := [
    StyleDef("normal", "Normal", "Обычный", Identity, true),
    StyleDef("bold", "Bold", "Жирный", LatinRange(LatinBases(0x1D400, 0x1D41A, Some(0x1D7CE))), false),
    StyleDef("italic", "Italic", "Курсив", LatinRange(LatinBases(0x1D434, 0x1D44E, None)), false),
    StyleDef("boldItalic", "Bold Italic", "Жирный курсив", LatinRange(LatinBases(0x1D468, 0x1D482, None)), false),
    StyleDef("script", "Script", "Рукописный", LatinRange(LatinBases(0x1D49C, 0x1D4B6, None)), false),
    StyleDef("boldScript", "Bold Script", "Жирный рукописный", LatinRange(LatinBases(0x1D4D0, 0x1D4EA, None)), false),
    StyleDef("fraktur", "Fraktur", "Готический", LatinRange(LatinBases(0x1D504, 0x1D51E, None)), false),
    StyleDef("boldFraktur", "Bold Fraktur", "Жирный готический", LatinRange(LatinBases(0x1D56C, 0x1D586, None)), false),
    StyleDef("double", "Double-struck", "Двойной", LatinRange(LatinBases(0x1D538, 0x1D552, Some(0x1D7D8))), false),
    StyleDef("mono", "Monospace", "Моноширинный", LatinRange(LatinBases(0x1D670, 0x1D68A, Some(0x1D7F6))), false),
    StyleDef("sansSerif", "Sans-serif", "Без засечек", LatinRange(LatinBases(0x1D5A0, 0x1D5BA, Some(0x1D7E2))), false),
    StyleDef("sansSerifBold", "Sans-serif Bold", "Без засечек жирный", LatinRange(LatinBases(0x1D5D4, 0x1D5EE, Some(0x1D7EC))), false),
    StyleDef("sansSerifItalic", "Sans-serif Italic", "Без засечек курсив", LatinRange(LatinBases(0x1D608, 0x1D622, None)), false),
    StyleDef("sansSerifBoldItalic", "Sans-serif Bold Italic", "Без засечек жирный курсив", LatinRange(LatinBases(0x1D63C, 0x1D656, None)), false),
    StyleDef("fullwidth", "Fullwidth", "Широкий", Fullwidth, false)]

  /** One combining mark after every code point. */
  const DiacriticStyles: seq<StyleDef> := [
    StyleDef("underline", "Underline", "Подчёркнутый", Combining(Underline), true),
    StyleDef("doubleUnderline", "Double Underline", "Двойное подчёркивание", Combining(DoubleUnderline), true),
    StyleDef("strikethrough", "Strikethrough", "Зачёркнутый", Combining(Strikethrough), true),
    StyleDef("slashThrough", "Slash Through", "Перечёркнутый", Combining(SlashOverlay), true),
    StyleDef("overline", "Overline", "Надчёркнутый", Combining(Overline), true),
    StyleDef("dots", "Dots", "С точками", Combining(Dots), true),
    StyleDef("tilde", "Tilde", "С тильдой", Combining(Tilde), true),
    StyleDef("circumflex", "Circumflex", "С крышечкой", Combining(Circumflex), true),
    StyleDef("ring", "Ring", "С кольцом", Combining(Ring), true),
    StyleDef("acute", "Acute", "С акутом", Combining(Acute), true),
    StyleDef("caron", "Caron", "С гачеком", Combining(Caron), true),
    StyleDef("breve", "Breve", "С бреве", Combining(Breve), true),
    StyleDef("macron", "Macron", "С макроном", Combining(Macron), true),
    StyleDef("xAbove", "X Above", "С крестиком", Combining(XAbove), true),
    StyleDef("bridge", "Bridge", "С мостиком", Combining(Bridge), true),
    StyleDef("invertedBreve", "Inverted Breve", "Перевёрнутый бреве", Combining(InvertedBreve), true)]

  /** Two combining marks after every code point. */
  const CombinedStyles: seq<StyleDef> := [
    StyleDef("underlineOverline", "Under + Overline", "Под + надчёркивание", MultipleCombining([Underline, Overline]), true),
    StyleDef("dotsTilde", "Dots + Tilde", "Точки + тильда", MultipleCombining([Dots, Tilde]), true),
    StyleDef("underlineDots", "Underline + Dots", "Подчёркивание + точки", MultipleCombining([Underline, Dots]), true)]

  const ZalgoStyles: seq<StyleDef> := [
    StyleDef("zalgoLight", "Zalgo Light", "Залго лёгкий", Zalgo(Light), true),
    StyleDef("zalgoMedium", "Zalgo Medium", "Залго средний", Zalgo(Medium), true),
    StyleDef("zalgoHeavy", "Zalgo Heavy", "Залго тяжёлый", Zalgo(Heavy), true)]

  const DecorativeStyles: seq<StyleDef> := [
    StyleDef("spaced", "Spaced", "С пробелами", Spaced, true),
    StyleDef("parentheses", "Parentheses", "В скобках", Wrapped([0x28], [0x29]), true),
    StyleDef("brackets", "Brackets", "В квадратных скобках", Wrapped([0x5B], [0x5D]), true),
    StyleDef("curlyBraces", "Curly Braces", "В фигурных скобках", Wrapped([0x7B], [0x7D]), true),
    StyleDef("angleBrackets", "Angle Brackets", "В угловых скобках", Wrapped([0xAB], [0xBB]), true),
    StyleDef("stars", "Stars", "Со звёздами", Wrapped([0x2605], [0x2605]), true),
    StyleDef("hearts", "Hearts", "С сердечками", Wrapped([0x2661], [0x2661]), true),
    StyleDef("sparkles", "Sparkles", "С искрами", Wrapped([0x2727], [0x2727]), true),
    StyleDef("flowers", "Flowers", "С цветами", Wrapped([0x2740], [0x2740]), true),
    StyleDef("diamonds", "Diamonds", "С ромбами", Wrapped([0x25C6], [0x25C6]), true),
    StyleDef("arrows", "Arrows", "Со стрелками", Wrapped([0x2192], [0x2190]), true),
    StyleDef("musical", "Musical", "Музыкальный", Wrapped([0x266A], [0x266B]), true)]

  /** `UNICODE_STYLES`, in display order. */
  const Registry: seq<StyleDef> := LatinStyles + DiacriticStyles + CombinedStyles + ZalgoStyles + DecorativeStyles

  // ---------------------------------------------------------------------------
  // Registry-wide facts

  predicate DistinctIds(s: seq<StyleDef>) {
    forall i, j | 0 <= i < j < |s| :: s[i].id != s[j].id
  }

  predicate SeparateIds(a: seq<StyleDef>, b: seq<StyleDef>) {
    forall i, j | 0 <= i < |a| && 0 <= j < |b| :: a[i].id != b[j].id
  }

  lemma DistinctIdsAppend(a: seq<StyleDef>, b: seq<StyleDef>)
    requires DistinctIds(a) && DistinctIds(b) && SeparateIds(a, b)
    ensures DistinctIds(a + b)
  {
    forall i, j | 0 <= i < j < |a + b| ensures (a + b)[i].id != (a + b)[j].id {
      if j < |a| {
      } else if i >= |a| {
        assert (a + b)[i] == b[i - |a|] && (a + b)[j] == b[j - |a|];
      } else {
        assert (a + b)[j] == b[j - |a|];
      }
    }
  }

  lemma SeparateIdsAppend(a: seq<StyleDef>, b: seq<StyleDef>, c: seq<StyleDef>)
    requires SeparateIds(a, c) && SeparateIds(b, c)
    ensures SeparateIds(a + b, c)
  {
    forall i, j | 0 <= i < |a + b| && 0 <= j < |c| ensures (a + b)[i].id != c[j].id {
      if i >= |a| {
        assert (a + b)[i] == b[i - |a|];
      }
    }
  }

  lemma LatinIdsDistinct()
    ensures DistinctIds(LatinStyles)
  {
    var ids := ["normal", "bold", "italic", "boldItalic", "script", "boldScript", "fraktur", "boldFraktur", "double", "mono", "sansSerif", "sansSerifBold", "sansSerifItalic", "sansSerifBoldItalic", "fullwidth"];
    assert forall i | 0 <= i < |LatinStyles| :: LatinStyles[i].id == ids[i];
    assert forall i, j | 0 <= i < j < |ids| :: ids[i] != ids[j];
  }
  lemma DiacriticIdsDistinct()
    ensures DistinctIds(DiacriticStyles)
  {
    var ids := ["underline", "doubleUnderline", "strikethrough", "slashThrough", "overline", "dots", "tilde", "circumflex", "ring", "acute", "caron", "breve", "macron", "xAbove", "bridge", "invertedBreve"];
    assert forall i | 0 <= i < |DiacriticStyles| :: DiacriticStyles[i].id == ids[i];
    assert forall i, j | 0 <= i < j < |ids| :: ids[i] != ids[j];
  }
  lemma CombinedIdsDistinct() ensures DistinctIds(CombinedStyles) {}
  lemma ZalgoIdsDistinct() ensures DistinctIds(ZalgoStyles) {}
  lemma DecorativeIdsDistinct()
    ensures DistinctIds(DecorativeStyles)
  {
    var ids := ["spaced", "parentheses", "brackets", "curlyBraces", "angleBrackets", "stars", "hearts", "sparkles", "flowers", "diamonds", "arrows", "musical"];
    assert forall i | 0 <= i < |DecorativeStyles| :: DecorativeStyles[i].id == ids[i];
    assert forall i, j | 0 <= i < j < |ids| :: ids[i] != ids[j];
  }

  lemma LatinDiacriticIdsSeparate() ensures SeparateIds(LatinStyles, DiacriticStyles) {}
  lemma LatinCombinedIdsSeparate() ensures SeparateIds(LatinStyles, CombinedStyles) {}
  lemma LatinZalgoIdsSeparate() ensures SeparateIds(LatinStyles, ZalgoStyles) {}
  lemma LatinDecorativeIdsSeparate() ensures SeparateIds(LatinStyles, DecorativeStyles) {}
  lemma DiacriticCombinedIdsSeparate() ensures SeparateIds(DiacriticStyles, CombinedStyles) {}
  lemma DiacriticZalgoIdsSeparate() ensures SeparateIds(DiacriticStyles, ZalgoStyles) {}
  lemma DiacriticDecorativeIdsSeparate() ensures SeparateIds(DiacriticStyles, DecorativeStyles) {}
  lemma CombinedZalgoIdsSeparate() ensures SeparateIds(CombinedStyles, ZalgoStyles) {}
  lemma CombinedDecorativeIdsSeparate() ensures SeparateIds(CombinedStyles, DecorativeStyles) {}
  lemma ZalgoDecorativeIdsSeparate() ensures SeparateIds(ZalgoStyles, DecorativeStyles) {}

  /** The registry holds 49 styles, no two with the same id. */
  lemma RegistryIdsDistinct()
    ensures |Registry| == 49
    ensures DistinctIds(Registry)
  {
    LatinIdsDistinct(); DiacriticIdsDistinct(); CombinedIdsDistinct(); ZalgoIdsDistinct(); DecorativeIdsDistinct();
    LatinDiacriticIdsSeparate(); LatinCombinedIdsSeparate(); LatinZalgoIdsSeparate(); LatinDecorativeIdsSeparate();
    DiacriticCombinedIdsSeparate(); DiacriticZalgoIdsSeparate(); DiacriticDecorativeIdsSeparate();
    CombinedZalgoIdsSeparate(); CombinedDecorativeIdsSeparate(); ZalgoDecorativeIdsSeparate();
    var g12 := LatinStyles + DiacriticStyles;
    DistinctIdsAppend(LatinStyles, DiacriticStyles);
    SeparateIdsAppend(LatinStyles, DiacriticStyles, CombinedStyles);
    DistinctIdsAppend(g12, CombinedStyles);
    var g123 := g12 + CombinedStyles;
    SeparateIdsAppend(LatinStyles, DiacriticStyles, ZalgoStyles);
    SeparateIdsAppend(g12, CombinedStyles, ZalgoStyles);
    DistinctIdsAppend(g123, ZalgoStyles);
    var g1234 := g123 + ZalgoStyles;
    SeparateIdsAppend(LatinStyles, DiacriticStyles, DecorativeStyles);
    SeparateIdsAppend(g12, CombinedStyles, DecorativeStyles);
    SeparateIdsAppend(g123, ZalgoStyles, DecorativeStyles);
    DistinctIdsAppend(g1234, DecorativeStyles);
  }

  /** The Latin-mapping styles that also map the ten ASCII digits. */
  predicate IsDigitStyleId(id: string) {
    id == "bold" || id == "double" || id == "mono" || id == "sansSerif" || id == "sansSerifBold"
  }

  /**
   * A registry entry is well formed, is flagged as supporting Cyrillic
   * exactly when it decorates rather than remaps, and maps digits exactly
   * when it is one of the digit styles.
   */
  predicate Consistent(s: StyleDef) {
    && WellFormed(s.transform)
    && (s.supportsCyrillic <==> !IsRemap(s.transform))
    && (s.transform.LatinRange? ==> (s.transform.bases.digit.Some? <==> IsDigitStyleId(s.id)))
  }

  predicate AllConsistent(styles: seq<StyleDef>) {
    forall i | 0 <= i < |styles| :: Consistent(styles[i])
  }

  lemma AllConsistentAppend(a: seq<StyleDef>, b: seq<StyleDef>)
    requires AllConsistent(a) && AllConsistent(b)
    ensures AllConsistent(a + b)
  {
    forall i | 0 <= i < |a + b| ensures Consistent((a + b)[i]) {
      if i >= |a| {
        assert (a + b)[i] == b[i - |a|];
      }
    }
  }

  lemma LatinConsistent() ensures AllConsistent(LatinStyles) {}
  lemma DiacriticConsistent() ensures AllConsistent(DiacriticStyles) {}
  lemma CombinedConsistent() ensures AllConsistent(CombinedStyles) {}
  lemma ZalgoConsistent() ensures AllConsistent(ZalgoStyles) {}
  lemma DecorativeConsistent() ensures AllConsistent(DecorativeStyles) {}

  lemma RegistryConsistent()
    ensures AllConsistent(Registry)
  {
    LatinConsistent();
    DiacriticConsistent();
    CombinedConsistent();
    ZalgoConsistent();
    DecorativeConsistent();
    AllConsistentAppend(LatinStyles, DiacriticStyles);
    AllConsistentAppend(LatinStyles + DiacriticStyles, CombinedStyles);
    AllConsistentAppend(LatinStyles + DiacriticStyles + CombinedStyles, ZalgoStyles);
    AllConsistentAppend(LatinStyles + DiacriticStyles + CombinedStyles + ZalgoStyles, DecorativeStyles);
  }

  // ---------------------------------------------------------------------------
  // getStyleById, applyStyle, getCyrillicStyles, getLatinOnlyStyles

  /** The first registry entry with this id, if any. */
  function GetStyleById(id: string): (r: Option<StyleDef>)
    ensures r.Some? ==> r.value.id == id
  {
    match FindFirst(Registry, (s: StyleDef) => s.id == id)
    case None => None
    case Some(k) => Some(Registry[k])
  }

  /** The lookup fails exactly for ids no style carries, and otherwise returns the first entry with that id. */
  lemma GetStyleByIdSpec(id: string)
    ensures GetStyleById(id).None? <==> forall i | 0 <= i < |Registry| :: Registry[i].id != id
    ensures GetStyleById(id).Some? ==>
      exists k | 0 <= k < |Registry| :: GetStyleById(id) == Some(Registry[k]) && forall j | 0 <= j < k :: Registry[j].id != id
  {
    match FindFirst(Registry, (s: StyleDef) => s.id == id)
    case None =>
    case Some(k) => assert GetStyleById(id) == Some(Registry[k]);
  }

  /** Looking up the id of any registry entry finds that entry. */
  lemma LookupFindsEntry(i: nat)
    requires i < |Registry|
    ensures GetStyleById(Registry[i].id) == Some(Registry[i])
  {
    RegistryIdsDistinct();
    var r := FindFirst(Registry, (s: StyleDef) => s.id == Registry[i].id);
    assert r.Some?;
  }

  /** `applyStyle`: the style's transform, or the text itself for an unknown id. */
  function ApplyStyle(text: Text, styleId: string, draws: DrawSource): (r: Text)
    ensures (forall i | 0 <= i < |Registry| :: Registry[i].id != styleId) ==> r == text
  {
    GetStyleByIdSpec(styleId);
    match GetStyleById(styleId)
    case None => text
    case Some(style) =>
      RegistryConsistent();
      Apply(style.transform, text, draws)
  }

  /** An id no style carries leaves the text unchanged. */
  lemma ApplyUnknownStyle(text: Text, styleId: string, draws: DrawSource)
    requires forall i | 0 <= i < |Registry| :: Registry[i].id != styleId
    ensures ApplyStyle(text, styleId, draws) == text
  {
    GetStyleByIdSpec(styleId);
  }

  /** Applying the id of entry `i` applies that entry's transform. */
  lemma ApplyStyleAt(i: nat, text: Text, draws: DrawSource)
    requires i < |Registry|
    ensures WellFormed(Registry[i].transform)
    ensures ApplyStyle(text, Registry[i].id, draws) == Apply(Registry[i].transform, text, draws)
  {
    LookupFindsEntry(i);
    RegistryConsistent();
  }

  function GetCyrillicStyles(): (r: seq<StyleDef>)
    ensures forall s :: s in r <==> s in Registry && s.supportsCyrillic
  {
    Filter(Registry, (s: StyleDef) => s.supportsCyrillic)
  }

  function GetLatinOnlyStyles(): (r: seq<StyleDef>)
    ensures forall s :: s in r <==> s in Registry && !s.supportsCyrillic
  {
    Filter(Registry, (s: StyleDef) => !s.supportsCyrillic)
  }

  /** The two lists split the registry, each keeping the registry's display order. */
  lemma CyrillicAndLatinOnlyPartition()
    ensures IsSubsequence(GetCyrillicStyles(), Registry)
    ensures IsSubsequence(GetLatinOnlyStyles(), Registry)
    ensures |GetCyrillicStyles()| + |GetLatinOnlyStyles()| == |Registry|
  {
    FilterIsSubsequence(Registry, (s: StyleDef) => s.supportsCyrillic);
    FilterIsSubsequence(Registry, (s: StyleDef) => !s.supportsCyrillic);
    FilterPartition(Registry, (s: StyleDef) => s.supportsCyrillic, (s: StyleDef) => !s.supportsCyrillic);
  }

  // ---------------------------------------------------------------------------
  // What the Cyrillic flag means

  /** A decorating transform keeps every input code point, in order. */
  lemma DecorationKeepsText(t: Transform, text: Text, draws: DrawSource)
    requires WellFormed(t) && !IsRemap(t)
    ensures IsSubsequence(text, Apply(t, text, draws))
  {
    match t
    case Identity => SubsequenceRefl(text);
    case Combining(m) => AddMultipleCombiningKeepsText(text, [m]); AddCombiningIsOneMark(text, m);
    case MultipleCombining(ms) => AddMultipleCombiningKeepsText(text, ms);
    case Zalgo(i) => ZalgoKeepsText(SourcePools, text, IterationCount(i), draws);
    case Spaced => AddSpacesKeepsText(text);
    case Wrapped(l, r) => WrapCharsKeepsText(text, l, r);
  }

  lemma {:induction false} AddMultipleCombiningKeepsText(text: Text, marks: seq<CodePoint>)
    ensures IsSubsequence(text, AddMultipleCombining(text, marks))
    decreases |text|
  {
    if text != [] {
      AddMultipleCombiningKeepsText(text[1..], marks);
      SubsequenceRefl([text[0]]);
      SubsequenceExtendRight([text[0]], [text[0]], marks);
      SubsequenceAppend([text[0]], [text[0]] + marks, text[1..], AddMultipleCombining(text[1..], marks));
      assert text == [text[0]] + text[1..];
    }
  }

  lemma {:induction false} AddSpacesKeepsText(text: Text)
    ensures IsSubsequence(text, AddSpaces(text))
    decreases |text|
  {
    if |text| <= 1 {
      SubsequenceRefl(text);
    } else {
      AddSpacesKeepsText(text[1..]);
      SubsequenceRefl([text[0]]);
      SubsequenceExtendRight([text[0]], [text[0]], [Space]);
      assert [text[0]] + [Space] == [text[0], Space];
      SubsequenceAppend([text[0]], [text[0], Space], text[1..], AddSpaces(text[1..]));
      assert text == [text[0]] + text[1..];
    }
  }

  lemma {:induction false} WrapCharsKeepsText(text: Text, left: Text, right: Text)
    ensures IsSubsequence(text, WrapChars(text, left, right))
    decreases |text|
  {
    if text != [] {
      var c := text[0];
      WrapCharsKeepsText(text[1..], left, right);
      SubsequenceRefl([c]);
      var unit := if c == Space then [Space] else left + [c] + right;
      if c != Space {
        SubsequenceAppend([], left, [c], [c]);
        assert [] + [c] == [c];
        SubsequenceExtendRight([c], left + [c], right);
      }
      SubsequenceAppend([c], unit, text[1..], WrapChars(text[1..], left, right));
      assert text == [c] + text[1..];
    }
  }

  lemma {:induction false} ZalgoKeepsText(pools: MarkPools, text: Text, count: nat, draws: DrawSource)
    ensures IsSubsequence(text, ZalgoText(pools, text, count, draws))
    decreases |text|
  {
    if text != [] {
      var init, c := text[..|text| - 1], text[|text| - 1];
      var unit := ZalgoCodePoint(pools, c, count, draws, DrawsUsed(init, count));
      var prefix := ZalgoText(pools, init, count, draws);
      assert ZalgoText(pools, text, count, draws) == prefix + unit;
      ZalgoKeepsText(pools, init, count, draws);
      assert IsSubsequence([c], unit) by {
        SubsequenceRefl([c]);
        SubsequenceExtendRight([c], [c], unit[1..]);
        assert unit == [c] + unit[1..];
      }
      SubsequenceAppend(init, prefix, [c], unit);
      assert text == init + [c];
    }
  }

  /** A remapping transform leaves every code point from U+007F on unchanged and keeps the length. */
  lemma RemapKeepsNonAscii(t: Transform, text: Text, draws: DrawSource)
    requires WellFormed(t) && IsRemap(t)
    ensures |Apply(t, text, draws)| == |text|
    ensures forall i | 0 <= i < |text| && text[i] >= 127 :: Apply(t, text, draws)[i] == text[i]
  {
  }

  /** A remapping transform moves the letter A. */
  lemma RemapMovesA(t: Transform, draws: DrawSource)
    requires WellFormed(t) && IsRemap(t)
    ensures !IsSubsequence([65], Apply(t, [65], draws))
  {
    var out := Apply(t, [65], draws);
    assert |out| == 1 && out[0] != 65;
    assert out[..0] == [];
  }

  /**
   * `supportsCyrillic` holds exactly for the styles that keep every input
   * code point; the others leave Cyrillic (and all non-ASCII) text as it is.
   */
  lemma SupportsCyrillicIffKeepsText(i: nat)
    requires i < |Registry|
    ensures WellFormed(Registry[i].transform)
    ensures Registry[i].supportsCyrillic <==>
      forall text: Text, draws: DrawSource :: IsSubsequence(text, Apply(Registry[i].transform, text, draws))
  {
    RegistryConsistent();
    var t := Registry[i].transform;
    if Registry[i].supportsCyrillic {
      forall text: Text, draws: DrawSource ensures IsSubsequence(text, Apply(t, text, draws)) {
        DecorationKeepsText(t, text, draws);
      }
    } else {
      RemapMovesA(t, NoDraws);
    }
  }

  lemma LatinOnlyStylesKeepNonAscii(i: nat, text: Text, draws: DrawSource)
    requires i < |Registry| && !Registry[i].supportsCyrillic
    ensures WellFormed(Registry[i].transform)
    ensures |Apply(Registry[i].transform, text, draws)| == |text|
    ensures forall k | 0 <= k < |text| && text[k] >= 127 :: Apply(Registry[i].transform, text, draws)[k] == text[k]
  {
    RegistryConsistent();
    RemapKeepsNonAscii(Registry[i].transform, text, draws);
  }

  /** Among the mapLatinRange styles, digits change exactly under the five digit styles. */
  lemma DigitsChangeIffDigitStyle(i: nat, d: CodePoint, draws: DrawSource)
    requires i < |Registry| && Registry[i].transform.LatinRange? && IsAsciiDigit(d)
    ensures WellFormed(Registry[i].transform)
    ensures Apply(Registry[i].transform, [d], draws) != [d] <==> IsDigitStyleId(Registry[i].id)
  {
    RegistryConsistent();
    var b := Registry[i].transform.bases;
    assert Consistent(Registry[i]);
    assert Apply(Registry[i].transform, [d], draws) == [MapLatinRange(d, b)];
  }

  /** Every Latin-mapping style of the registry can be read back on text outside its alphabet. */
  lemma LatinStylesRoundTrip(i: nat, text: Text, draws: DrawSource)
    requires i < |Registry| && Registry[i].transform.LatinRange?
    requires forall k | 0 <= k < |text| :: !InTargetAlphabet(text[k], Registry[i].transform.bases)
    ensures WellFormed(Registry[i].transform)
    ensures var out := Apply(Registry[i].transform, text, draws);
      |out| == |text| && forall k | 0 <= k < |text| :: UnmapLatinRange(out[k], Registry[i].transform.bases) == text[k]
  {
    RegistryConsistent();
    var b := Registry[i].transform.bases;
    forall k | 0 <= k < |text| ensures UnmapLatinRange(Apply(Registry[i].transform, text, draws)[k], b) == text[k] {
      MapLatinRangeRoundTrip(text[k], b);
    }
  }

  // ---------------------------------------------------------------------------
  // Worked examples

  const NoDraws: DrawSource := _ => Draw(false, 0)

  lemma BoldMapsCapitalA(draws: DrawSource)
    ensures ApplyStyle([0x41], "bold", draws) == [0x1D400]
  {
    BoldEntry();
    ApplyStyleAt(1, [0x41], draws);
  }

  lemma BoldEntry()
    ensures Registry[1].id == "bold" && Registry[1].transform == LatinRange(LatinBases(0x1D400, 0x1D41A, Some(0x1D7CE)))
  {
    assert Registry[1] == LatinStyles[1];
  }

  /** Linear mapping over the holes of the Script block: B becomes the unassigned U+1D49D. */
  lemma ScriptMapsBLinearly(draws: DrawSource)
    ensures ApplyStyle([0x41, 0x42], "script", draws) == [0x1D49C, 0x1D49D]
  {
    ScriptEntry();
    ApplyStyleAt(4, [0x41, 0x42], draws);
  }

  lemma ScriptEntry()
    ensures Registry[4].id == "script" && Registry[4].transform == LatinRange(LatinBases(0x1D49C, 0x1D4B6, None))
  {
    assert Registry[4] == LatinStyles[4];
  }

  lemma FullwidthMapsSpace(draws: DrawSource)
    ensures ApplyStyle([0x41, 0x20, 0x31], "fullwidth", draws) == [0xFF21, 0x3000, 0xFF11]
  {
    FullwidthEntry();
    ApplyStyleAt(14, [0x41, 0x20, 0x31], draws);
  }

  lemma FullwidthEntry()
    ensures Registry[14].id == "fullwidth" && Registry[14].transform == Fullwidth
  {
    assert Registry[14] == LatinStyles[14];
  }

  lemma UnderlineDecoratesCyrillic(draws: DrawSource)
    ensures ApplyStyle([0x416, 0x20], "underline", draws) == [0x416, Underline, 0x20, Underline]
  {
    UnderlineEntry();
    ApplyStyleAt(15, [0x416, 0x20], draws);
  }

  lemma UnderlineEntry()
    ensures Registry[15].id == "underline" && Registry[15].transform == Combining(Underline)
  {
    assert Registry[15] == DiacriticStyles[0];
  }

  lemma SpacedSeparatesCodePoints(draws: DrawSource)
    ensures ApplyStyle([0x48, 0x69], "spaced", draws) == [0x48, 0x20, 0x69]
  {
    SpacedEntry();
    ApplyStyleAt(37, [0x48, 0x69], draws);
  }

  lemma SpacedEntry()
    ensures Registry[37].id == "spaced" && Registry[37].transform == Spaced
  {
    assert Registry[37] == DecorativeStyles[0];
  }

  lemma StarsSkipSpaces(draws: DrawSource)
    ensures ApplyStyle([0x78, 0x20, 0x79], "stars", draws) == [0x2605, 0x78, 0x2605, 0x20, 0x2605, 0x79, 0x2605]
  {
    StarsEntry();
    ApplyStyleAt(42, [0x78, 0x20, 0x79], draws);
  }

  lemma StarsEntry()
    ensures Registry[42].id == "stars" && Registry[42].transform == Wrapped([0x2605], [0x2605])
  {
    assert Registry[42] == DecorativeStyles[5];
  }

  lemma NormalEntry()
    ensures Registry[0].id == "normal" && Registry[0].transform == Identity
  {
    assert Registry[0] == LatinStyles[0];
  }

  lemma ItalicEntry()
    ensures Registry[2].id == "italic" && Registry[2].transform == LatinRange(LatinBases(0x1D434, 0x1D44E, None))
  {
    assert Registry[2] == LatinStyles[2];
  }

  lemma FrakturEntry()
    ensures Registry[6].id == "fraktur" && Registry[6].transform == LatinRange(LatinBases(0x1D504, 0x1D51E, None))
  {
    assert Registry[6] == LatinStyles[6];
  }

  lemma DoubleEntry()
    ensures Registry[8].id == "double" && Registry[8].transform == LatinRange(LatinBases(0x1D538, 0x1D552, Some(0x1D7D8)))
  {
    assert Registry[8] == LatinStyles[8];
  }

  lemma MonoEntry()
    ensures Registry[9].id == "mono" && Registry[9].transform == LatinRange(LatinBases(0x1D670, 0x1D68A, Some(0x1D7F6)))
  {
    assert Registry[9] == LatinStyles[9];
  }

  /** Every style maps the empty text to the empty text. */
  lemma EveryStyleKeepsEmptyText(i: nat, draws: DrawSource)
    requires i < |Registry|
    ensures ApplyStyle([], Registry[i].id, draws) == []
  {
    ApplyStyleAt(i, [], draws);
    match Registry[i].transform
    case MultipleCombining(ms) => AddMultipleCombiningLength([], ms);
    case Zalgo(k) => ZalgoLengthBounds(SourcePools, [], IterationCount(k), draws);
    case Wrapped(l, r) => WrapCharsLength([], l, r);
    case _ =>
  }

  lemma ZalgoWithoutKeptDrawsIsIdentity(text: Text)
    ensures ApplyStyle(text, "zalgoHeavy", NoDraws) == text
  {
    ZalgoHeavyEntry();
    ApplyStyleAt(36, text, NoDraws);
    ZalgoIgnoresRejectedDraws(SourcePools, text, 8);
  }

  lemma ZalgoHeavyEntry()
    ensures Registry[36].id == "zalgoHeavy" && Registry[36].transform == Zalgo(Heavy)
  {
    assert Registry[36] == ZalgoStyles[2];
  }

  lemma {:induction false} ZalgoIgnoresRejectedDraws(pools: MarkPools, text: Text, count: nat)
    ensures ZalgoText(pools, text, count, NoDraws) == text
    decreases |text|
  {
    if text != [] {
      var init := text[..|text| - 1];
      ZalgoIgnoresRejectedDraws(pools, init, count);
      NoMarksWithoutKeptDraws(pools, count, DrawsUsed(init, count));
      assert text == init + [text[|text| - 1]];
    }
  }

  lemma {:induction false} NoMarksWithoutKeptDraws(pools: MarkPools, count: nat, k: nat)
    ensures ZalgoMarks(pools, count, NoDraws, k) == []
  {
    if count > 0 {
      NoMarksWithoutKeptDraws(pools, count - 1, k);
    }
  }
}
