/**
 * The selection logic of App.tsx: its own copy of the Latin and fullwidth
 * text styles, the favourites toggle, the selected-font fallback, the three
 * list stages (tab filter, Cyrillic filter, page prefix) and the "show more"
 * counter.  The React state that these handlers update is the class
 * `AppState`; everything else is passed in as values.
 */
module AppLogic {
  import opened Wrappers
  import opened Sequences
  import opened UnicodeStyles
  import opened StyleRegistry
  import opened FontTypes

  // ---------------------------------------------------------------------------
  // transformTextToUnicodeStyle

  /** The eight values of the `unicodeStyle` state. */
  predicate IsAppStyle(style: string) {
    || style == "normal" || style == "bold" || style == "italic" || style == "script"
    || style == "fraktur" || style == "double" || style == "mono" || style == "fullwidth"
  }

  /**
   * `convertChar`: App.tsx's own switch, with its own base constants.  Its
   * `mapRange` and `toFullwidth` are the same code as `mapLatinRange` and
   * `toFullwidth` of unicodeStyles.ts, so the same functions model them.
   */
  function ConvertChar(style: string, c: CodePoint): (r: CodePoint)
    ensures c >= 127 ==> r == c
    ensures !IsAppStyle(style) || style == "normal" ==> r == c
  {
    if style == "bold" then MapLatinRange(c, LatinBases(0x1D400, 0x1D41A, Some(0x1D7CE)))
    else if style == "italic" then MapLatinRange(c, LatinBases(0x1D434, 0x1D44E, None))
    else if style == "script" then MapLatinRange(c, LatinBases(0x1D49C, 0x1D4B6, None))
    else if style == "fraktur" then MapLatinRange(c, LatinBases(0x1D504, 0x1D51E, None))
    else if style == "double" then MapLatinRange(c, LatinBases(0x1D538, 0x1D552, Some(0x1D7D8)))
    else if style == "mono" then MapLatinRange(c, LatinBases(0x1D670, 0x1D68A, Some(0x1D7F6)))
    else if style == "fullwidth" then ToFullwidth(c)
    else c
  }

  /** Every code point maps to exactly one code point; non-ASCII text (Cyrillic included) is kept. */
  function TransformTextToUnicodeStyle(style: string, input: Text): (r: Text)
    ensures |r| == |input|
    ensures forall i | 0 <= i < |input| && input[i] >= 127 :: r[i] == input[i]
  {
    Map(input, (c: CodePoint) => ConvertChar(style, c))
  }

  /** A value outside the eight styles, like 'normal', leaves the text as it is. */
  lemma UnknownAppStyleIsIdentity(style: string, input: Text)
    requires !IsAppStyle(style) || style == "normal"
    ensures TransformTextToUnicodeStyle(style, input) == input
  {
  }

  /** For each of its eight values, App.tsx's converter agrees with the registry entry of the same id. */
  lemma AppStyleAgreesWithRegistry(style: string, input: Text, draws: DrawSource)
    requires IsAppStyle(style)
    ensures TransformTextToUnicodeStyle(style, input) == ApplyStyle(input, style, draws)
  {
    if style == "normal" {
      NormalAgrees(input, draws);
    } else if style == "bold" {
      BoldAgrees(input, draws);
    } else if style == "italic" {
      ItalicAgrees(input, draws);
    } else if style == "script" {
      ScriptAgrees(input, draws);
    } else if style == "fraktur" {
      FrakturAgrees(input, draws);
    } else if style == "double" {
      DoubleAgrees(input, draws);
    } else if style == "mono" {
      MonoAgrees(input, draws);
    } else {
      FullwidthAgrees(input, draws);
    }
  }

  lemma NormalAgrees(input: Text, draws: DrawSource)
    ensures TransformTextToUnicodeStyle("normal", input) == ApplyStyle(input, "normal", draws)
  {
    NormalEntry();
    ApplyStyleAt(0, input, draws);
  }

  lemma BoldAgrees(input: Text, draws: DrawSource)
    ensures TransformTextToUnicodeStyle("bold", input) == ApplyStyle(input, "bold", draws)
  {
    BoldEntry();
    ApplyStyleAt(1, input, draws);
  }

  lemma ItalicAgrees(input: Text, draws: DrawSource)
    ensures TransformTextToUnicodeStyle("italic", input) == ApplyStyle(input, "italic", draws)
  {
    ItalicEntry();
    ApplyStyleAt(2, input, draws);
  }

  lemma ScriptAgrees(input: Text, draws: DrawSource)
    ensures TransformTextToUnicodeStyle("script", input) == ApplyStyle(input, "script", draws)
  {
    ScriptEntry();
    ApplyStyleAt(4, input, draws);
  }

  lemma FrakturAgrees(input: Text, draws: DrawSource)
    ensures TransformTextToUnicodeStyle("fraktur", input) == ApplyStyle(input, "fraktur", draws)
  {
    FrakturEntry();
    ApplyStyleAt(6, input, draws);
  }

  lemma DoubleAgrees(input: Text, draws: DrawSource)
    ensures TransformTextToUnicodeStyle("double", input) == ApplyStyle(input, "double", draws)
  {
    DoubleEntry();
    ApplyStyleAt(8, input, draws);
  }

  lemma MonoAgrees(input: Text, draws: DrawSource)
    ensures TransformTextToUnicodeStyle("mono", input) == ApplyStyle(input, "mono", draws)
  {
    MonoEntry();
    ApplyStyleAt(9, input, draws);
  }

  lemma FullwidthAgrees(input: Text, draws: DrawSource)
    ensures TransformTextToUnicodeStyle("fullwidth", input) == ApplyStyle(input, "fullwidth", draws)
  {
    FullwidthEntry();
    ApplyStyleAt(14, input, draws);
  }

  // ---------------------------------------------------------------------------
  // toggleFavorite

  /** The favourites after a click on the star of font `id`: removed when present, appended when absent. */
  function Toggled(favorites: seq<string>, id: string): (r: seq<string>)
    ensures id in r <==> id !in favorites
    ensures forall x | x != id :: x in r <==> x in favorites
  {
    if id in favorites then Filter(favorites, (f: string) => f != id) else favorites + [id]
  }

  /** Adding appends at the end; removing keeps the order of the rest. */
  lemma ToggleKeepsOrder(favorites: seq<string>, id: string)
    ensures id !in favorites ==> Toggled(favorites, id) == favorites + [id]
    ensures id in favorites ==> IsSubsequence(Toggled(favorites, id), favorites)
  {
    if id in favorites {
      FilterIsSubsequence(favorites, (f: string) => f != id);
    }
  }

  /** Toggling an absent id twice restores the list. */
  lemma ToggleTwiceRestores(favorites: seq<string>, id: string)
    requires id !in favorites
    ensures Toggled(Toggled(favorites, id), id) == favorites
  {
    var p := (f: string) => f != id;
    FilterAppend(favorites, [id], p);
    FilterAll(favorites, p);
    assert Filter([id], p) == [];
  }

  /** A list without repeated ids keeps that property. */
  lemma ToggleKeepsNoDuplicates(favorites: seq<string>, id: string)
    requires NoDuplicates(favorites)
    ensures NoDuplicates(Toggled(favorites, id))
  {
    if id in favorites {
      FilterKeepsNoDuplicates(favorites, (f: string) => f != id);
    }
  }

  // ---------------------------------------------------------------------------
  // allFonts and the selectedFont fallback

  function AllFonts(googleFonts: seq<Font>, customFonts: seq<Font>): seq<Font> {
    InitialFonts + googleFonts + customFonts
  }

  /** The first font whose id is the selected id, falling back to the first shipped font. */
  function SelectedFont(googleFonts: seq<Font>, customFonts: seq<Font>, selectedId: string): (r: Font)
    ensures r.id == selectedId || r == InitialFonts[0]
  {
    var all := AllFonts(googleFonts, customFonts);
    match FindFirst(all, (f: Font) => f.id == selectedId)
    case None => InitialFonts[0]
    case Some(k) => all[k]
  }

  /** The first font with the selected id, or the first shipped font when there is none. */
  lemma SelectedFontSpec(googleFonts: seq<Font>, customFonts: seq<Font>, selectedId: string)
    ensures var all := AllFonts(googleFonts, customFonts);
      (forall i | 0 <= i < |all| :: all[i].id != selectedId) ==> SelectedFont(googleFonts, customFonts, selectedId) == InitialFonts[0]
    ensures var all := AllFonts(googleFonts, customFonts);
      (exists i | 0 <= i < |all| :: all[i].id == selectedId) ==>
        exists k | 0 <= k < |all| ::
          SelectedFont(googleFonts, customFonts, selectedId) == all[k] && forall j | 0 <= j < k :: all[j].id != selectedId
  {
    var all := AllFonts(googleFonts, customFonts);
    match FindFirst(all, (f: Font) => f.id == selectedId)
    case None =>
    case Some(k) => assert SelectedFont(googleFonts, customFonts, selectedId) == all[k];
  }

  /** A shipped font cannot be shadowed by a Google or uploaded font with the same id. */
  lemma InitialFontsWin(googleFonts: seq<Font>, customFonts: seq<Font>, i: nat)
    requires i < |InitialFonts|
    ensures SelectedFont(googleFonts, customFonts, InitialFonts[i].id) == InitialFonts[i]
  {
    InitialFontsFacts();
    var all := AllFonts(googleFonts, customFonts);
    assert all[i] == InitialFonts[i];
    var r := FindFirst(all, (f: Font) => f.id == InitialFonts[i].id);
    assert r.Some? && r.value <= i;
    assert all[r.value] == InitialFonts[r.value];
  }

  // ---------------------------------------------------------------------------
  // filteredFonts, cyrillicFilteredFonts, displayedFonts

  /** The tab filter: everything on 'all', the favourites on 'favorites', nothing on any other tab. */
  function TabFonts(allFonts: seq<Font>, favorites: seq<string>, tab: string): (r: seq<Font>)
    ensures tab == "all" ==> r == allFonts
    ensures tab == "favorites" ==> forall f :: f in r <==> f in allFonts && f.id in favorites
    ensures tab != "all" && tab != "favorites" ==> r == []
  {
    if tab == "all" then allFonts
    else if tab == "favorites" then Filter(allFonts, (f: Font) => f.id in favorites)
    else []
  }

  lemma TabFontsIsSubsequence(allFonts: seq<Font>, favorites: seq<string>, tab: string)
    ensures IsSubsequence(TabFonts(allFonts, favorites, tab), allFonts)
  {
    if tab == "all" {
      SubsequenceRefl(allFonts);
    } else if tab == "favorites" {
      FilterIsSubsequence(allFonts, (f: Font) => f.id in favorites);
    }
  }

  /** The font lists the 'cyrillic' or the 'cyrillic-ext' subset; a font without a subset list has neither. */
  predicate HasCyrillicSubset(f: Font) {
    var subsets := if f.subsets.Some? then f.subsets.value else [];
    "cyrillic" in subsets || "cyrillic-ext" in subsets
  }

  /** Only Google fonts are checked for a Cyrillic subset. */
  predicate PassesCyrillicFilter(f: Font) {
    f.source != Google || HasCyrillicSubset(f)
  }

  function CyrillicFilteredFonts(filtered: seq<Font>, tab: string, onlyCyrillic: bool): (r: seq<Font>)
    ensures tab == "upload" || !onlyCyrillic ==> r == filtered
    ensures tab != "upload" && onlyCyrillic ==>
      forall f :: f in r <==> f in filtered && (f.source != Google || HasCyrillicSubset(f))
  {
    if tab == "upload" || !onlyCyrillic then filtered else Filter(filtered, PassesCyrillicFilter)
  }

  lemma CyrillicFilterIsSubsequence(filtered: seq<Font>, tab: string, onlyCyrillic: bool)
    ensures IsSubsequence(CyrillicFilteredFonts(filtered, tab, onlyCyrillic), filtered)
  {
    if tab == "upload" || !onlyCyrillic {
      SubsequenceRefl(filtered);
    } else {
      FilterIsSubsequence(filtered, PassesCyrillicFilter);
    }
  }

  /** The whole list on 'upload', otherwise its first `visible` entries. */
  function DisplayedFonts(fonts: seq<Font>, tab: string, visible: nat): (r: seq<Font>)
    ensures tab == "upload" ==> r == fonts
    ensures tab != "upload" ==> |r| == Min(visible, |fonts|) && r == fonts[..|r|]
  {
    if tab == "upload" then fonts else fonts[..Min(visible, |fonts|)]
  }

  /** The "show more" button is shown exactly while the visible count is below the list length. */
  lemma ShowMoreShownIffMoreFonts(fonts: seq<Font>, tab: string, visible: nat)
    ensures (tab != "upload" && |DisplayedFonts(fonts, tab, visible)| < |fonts|) <==> (tab != "upload" && visible < |fonts|)
  {
  }

  // ---------------------------------------------------------------------------
  // The visible-count updates

  /** One more page of 80 fonts, capped at the length of the list. */
  function NextVisibleCount(prev: nat, length: nat): (n: nat)
    ensures n <= length && n <= prev + 80
    ensures n == length || n == prev + 80
  {
    Min(prev + 80, length)
  }

  /** `n` presses of "show more" (or `n` scrolls to the bottom) in a row. */
  function ShowMoreTimes(prev: nat, length: nat, n: nat): nat
    decreases n
  {
    if n == 0 then prev else ShowMoreTimes(NextVisibleCount(prev, length), length, n - 1)
  }

  lemma {:induction false} ShowMoreStaysAtEnd(length: nat, n: nat)
    ensures ShowMoreTimes(length, length, n) == length
  {
    if n > 0 {
      ShowMoreStaysAtEnd(length, n - 1);
    }
  }

  /** Pressing often enough shows the whole list, whatever the count was before: one press per page of 80. */
  lemma {:induction false} ShowMoreReachesEnd(prev: nat, length: nat, n: nat)
    requires n >= 1 && 80 * n >= length - prev
    ensures ShowMoreTimes(prev, length, n) == length
    decreases n
  {
    var next := NextVisibleCount(prev, length);
    if n > 1 {
      if next == length {
        ShowMoreStaysAtEnd(length, n - 1);
      } else {
        ShowMoreReachesEnd(next, length, n - 1);
      }
    }
  }

  /** The scroll handler's test: within 250 pixels of the bottom (the DOM reports fractional pixels). */
  predicate IsNearBottom(scrollTop: real, clientHeight: real, scrollHeight: real) {
    scrollTop + clientHeight >= scrollHeight - 250.0
  }

  /** The React state the handlers above update. */
  class AppState {
    var activeTab: string
    var favorites: seq<string>
    var visibleFontsCount: nat

    constructor ()
      ensures activeTab == "all" && favorites == [] && visibleFontsCount == 80
    {
      activeTab := "all";
      favorites := [];
      visibleFontsCount := 80;
    }

    method ToggleFavorite(id: string)
      modifies this
      ensures favorites == Toggled(old(favorites), id)
      ensures activeTab == old(activeTab) && visibleFontsCount == old(visibleFontsCount)
    {
      favorites := Toggled(favorites, id);
    }

    /**
     * Selecting a tab.  The effect on `activeTab` resets the page to 80 fonts
     * only when the tab actually changes; re-selecting the current tab keeps
     * the count.
     */
    method SetActiveTab(tab: string)
      modifies this
      ensures activeTab == tab && favorites == old(favorites)
      ensures visibleFontsCount == if tab == old(activeTab) then old(visibleFontsCount) else 80
    {
      if tab != activeTab {
        visibleFontsCount := 80;
      }
      activeTab := tab;
    }

    /** The "show more" button: `length` is the length of the Cyrillic-filtered list. */
    method ShowMore(length: nat)
      modifies this
      ensures visibleFontsCount == NextVisibleCount(old(visibleFontsCount), length)
      ensures activeTab == old(activeTab) && favorites == old(favorites)
    {
      visibleFontsCount := NextVisibleCount(visibleFontsCount, length);
    }

    /**
     * `handleListScroll`: nothing while the list element is not mounted
     * (`listMounted` false), on the 'upload' tab, or away from the bottom.
     */
    method HandleListScroll(listMounted: bool, scrollTop: real, clientHeight: real, scrollHeight: real, length: nat)
      modifies this
      ensures visibleFontsCount ==
        if listMounted && activeTab != "upload" && IsNearBottom(scrollTop, clientHeight, scrollHeight)
        then NextVisibleCount(old(visibleFontsCount), length)
        else old(visibleFontsCount)
      ensures activeTab == old(activeTab) && favorites == old(favorites)
    {
      if !listMounted {
        return;
      }
      if activeTab == "upload" {
        return;
      }
      var isNearBottom := scrollTop + clientHeight >= scrollHeight - 250.0;
      if isNearBottom {
        visibleFontsCount := NextVisibleCount(visibleFontsCount, length);
      }
    }
  }
}
