/**
 * The `Font` record of types.ts and the fonts the application ships with
 * (`INITIAL_FONTS` in constants.ts).  Optional TypeScript fields become
 * `Option` values.
 */
module FontTypes {
  import opened Wrappers

  /** Where a font comes from. */
  datatype FontSource = Google | Custom | System | Myskotom

  /** The optional `tags` object; its `type` field is called `kind` here (`type` is a Dafny keyword). */
  datatype FontTags = FontTags(kind: Option<seq<string>>, mood: Option<seq<string>>)

  datatype Font = Font(
    id: string,
    name: string,
    family: string,
    source: FontSource,
    subsets: Option<seq<string>>,
    category: Option<string>,
    url: Option<string>,
    tproductUrl: Option<string>,
    author: Option<string>,
    license: Option<string>,
    tags: Option<FontTags>)

  /** A font with only the four mandatory fields set, as every `INITIAL_FONTS` entry is written. */
  function Preset(id: string, name: string, family: string, source: FontSource): (f: Font)
    ensures f.id == id && f.name == name && f.family == family && f.source == source
    ensures f.subsets.None? && f.category.None? && f.url.None? && f.tproductUrl.None?
    ensures f.author.None? && f.license.None? && f.tags.None?
  {
    Font(id, name, family, source, None, None, None, None, None, None, None)
  }

  const InitialFonts: seq<Font> := [
    Preset("montserrat", "Montserrat", "Montserrat", Google),
    Preset("playfair", "Playfair Display", "Playfair Display", Google),
    Preset("russo", "Russo One", "Russo One", Google),
    Preset("caveat", "Caveat (Рукописный)", "Caveat", Google),
    Preset("kelly", "Kelly Slab", "Kelly Slab", Google),
    Preset("comfortaa", "Comfortaa", "Comfortaa", Google),
    Preset("underdog", "Underdog", "Underdog", Google),
    Preset("system", "Системный", "sans-serif", System)]

  /** The shipped list is non-empty, starts with Montserrat, and its ids are distinct. */
  lemma InitialFontsFacts()
    ensures |InitialFonts| == 8
    ensures InitialFonts[0].id == "montserrat" && InitialFonts[0].source == Google
    ensures forall i, j | 0 <= i < j < |InitialFonts| :: InitialFonts[i].id != InitialFonts[j].id
  {
    var ids := ["montserrat", "playfair", "russo", "caveat", "kelly", "comfortaa", "underdog", "system"];
    assert forall i | 0 <= i < |InitialFonts| :: InitialFonts[i].id == ids[i];
  }
}
