/**
 * The loaded-font bookkeeping of googleFontsApi.ts.  The module-level
 * `loadedFamilies` set and the stylesheet links appended to the document
 * head are the two fields of `FontLoader`; `LoaderState` is a snapshot of
 * them, and the `After...` functions say what each operation makes of a
 * snapshot.  A link records the families it requests; the URL text built
 * from them is not modelled.
 */
module GoogleFontsApi {
  import opened Sequences

  /** A `<link>` appended to the head: one family (`data-font`) or a batch (`data-font-batch`). */
  datatype Link = FamilyLink(family: string) | BatchLink(families: seq<string>)

  datatype LoaderState = LoaderState(loaded: set<string>, head: seq<Link>)

  function LinkedFamilies(l: Link): set<string> {
    match l
    case FamilyLink(f) => {f}
    case BatchLink(fs) => Elements(fs)
  }

  /** Every family a link requests is recorded as loaded. */
  predicate Valid(st: LoaderState) {
    forall i | 0 <= i < |st.head| :: LinkedFamilies(st.head[i]) <= st.loaded
  }

  /** The head already holds a single-family link for `family` (the document query the loader makes). */
  predicate HasFamilyLink(head: seq<Link>, family: string) {
    exists i | 0 <= i < |head| :: head[i] == FamilyLink(family)
  }

  // ---------------------------------------------------------------------------
  // loadGoogleFont

  /** A link found in a head is still found once more links are appended. */
  lemma HasFamilyLinkPrefix(head: seq<Link>, longer: seq<Link>, family: string)
    requires head <= longer && HasFamilyLink(head, family)
    ensures HasFamilyLink(longer, family)
  {
    var i :| 0 <= i < |head| && head[i] == FamilyLink(family);
    assert longer[i] == head[i];
  }

  function AfterLoadFont(st: LoaderState, family: string): (r: LoaderState)
    ensures st.loaded <= r.loaded && st.head <= r.head
    ensures family in r.loaded || HasFamilyLink(st.head, family)
  {
    if HasFamilyLink(st.head, family) || family in st.loaded then st
    else LoaderState(st.loaded + {family}, st.head + [FamilyLink(family)])
  }

  /** On a valid state the family ends up loaded, and a second call appends nothing. */
  lemma LoadFontIdempotent(st: LoaderState, family: string)
    requires Valid(st)
    ensures Valid(AfterLoadFont(st, family))
    ensures family in AfterLoadFont(st, family).loaded
    ensures AfterLoadFont(AfterLoadFont(st, family), family) == AfterLoadFont(st, family)
  {
    if HasFamilyLink(st.head, family) {
      var i :| 0 <= i < |st.head| && st.head[i] == FamilyLink(family);
      assert family in LinkedFamilies(st.head[i]);
    }
    var r := AfterLoadFont(st, family);
    forall i | 0 <= i < |r.head| ensures LinkedFamilies(r.head[i]) <= r.loaded {
      if i < |st.head| {
        assert r.head[i] == st.head[i] || r == st;
      }
    }
  }

  // ---------------------------------------------------------------------------
  // loadMultipleGoogleFonts

  /** `forEach(loadGoogleFont)`: the single-family load, left to right. */
  function AfterLoadMultiple(st: LoaderState, families: seq<string>): (r: LoaderState)
    ensures st.loaded <= r.loaded && st.head <= r.head
    ensures forall f | f in families :: f in r.loaded || HasFamilyLink(r.head, f)
    decreases |families|
  {
    if families == [] then st
    else
      var init, last := families[..|families| - 1], families[|families| - 1];
      var mid := AfterLoadMultiple(st, init);
      var r := AfterLoadFont(mid, last);
      assert forall f | f in families :: f in r.loaded || HasFamilyLink(r.head, f) by {
        forall f | f in families ensures f in r.loaded || HasFamilyLink(r.head, f) {
          if f !in r.loaded {
            if f == last {
              assert HasFamilyLink(mid.head, f);
            } else {
              assert f in init;
            }
            HasFamilyLinkPrefix(mid.head, r.head, f);
          }
        }
      }
      r
  }

  function SingleLink(family: string): Link { FamilyLink(family) }

  function FamilyLinks(families: seq<string>): seq<Link> {
    Map(families, SingleLink)
  }

  function NotIn(loaded: set<string>): string -> bool {
    f => f !in loaded
  }

  /** What `loadMultipleGoogleFonts` promises of a valid state, as a snapshot. */
  function LoadedAll(st: LoaderState, families: seq<string>): LoaderState {
    LoaderState(st.loaded + Elements(families), st.head + FamilyLinks(Filter(Dedupe(families), NotIn(st.loaded))))
  }

  /**
   * On a valid state, every family becomes loaded and one link is appended
   * per family not loaded before, in order of first occurrence.
   */
  lemma {:induction false} LoadMultipleSpec(st: LoaderState, families: seq<string>)
    requires Valid(st)
    ensures Valid(AfterLoadMultiple(st, families))
    ensures AfterLoadMultiple(st, families) == LoadedAll(st, families)
    decreases |families|
  {
    if families == [] {
      assert Elements(families) == {};
      assert st.head + FamilyLinks([]) == st.head;
    } else {
      var init, x := families[..|families| - 1], families[|families| - 1];
      LoadMultipleSpec(st, init);
      assert families == init + [x];
      LoadOneMore(st, init, x);
    }
  }

  /** One more family on top of the snapshot for `init`. */
  lemma LoadOneMore(st: LoaderState, init: seq<string>, x: string)
    requires Valid(LoadedAll(st, init))
    ensures Valid(AfterLoadFont(LoadedAll(st, init), x))
    ensures AfterLoadFont(LoadedAll(st, init), x) == LoadedAll(st, init + [x])
  {
    var mid := LoadedAll(st, init);
    LoadFontIdempotent(mid, x);
    if HasFamilyLink(mid.head, x) {
      var i :| 0 <= i < |mid.head| && mid.head[i] == FamilyLink(x);
      assert x in LinkedFamilies(mid.head[i]);
    }
    if x in init || x in st.loaded {
      LoadedAllSnocKnown(st, init, x);
    } else {
      LoadedAllSnocFresh(st, init, x);
    }
  }

  /** A family seen before, or loaded before, adds nothing to the snapshot. */
  lemma LoadedAllSnocKnown(st: LoaderState, init: seq<string>, x: string)
    requires x in init || x in st.loaded
    ensures LoadedAll(st, init + [x]) == LoadedAll(st, init)
  {
    ElementsSnoc(init, x);
    assert st.loaded + Elements(init + [x]) == st.loaded + Elements(init);
    DedupeSnoc(init, x);
    if x !in init {
      var d := Dedupe(init);
      FilterAppend(d, [x], NotIn(st.loaded));
      assert Filter([x], NotIn(st.loaded)) == [];
      assert Filter(d + [x], NotIn(st.loaded)) == Filter(d, NotIn(st.loaded));
    }
  }

  /** A new family adds itself and one link to the snapshot. */
  lemma LoadedAllSnocFresh(st: LoaderState, init: seq<string>, x: string)
    requires x !in init && x !in st.loaded
    ensures LoadedAll(st, init + [x]) ==
      LoaderState(LoadedAll(st, init).loaded + {x}, LoadedAll(st, init).head + [FamilyLink(x)])
  {
    var mid, after := LoadedAll(st, init), LoadedAll(st, init + [x]);
    ElementsSnoc(init, x);
    assert after.loaded == mid.loaded + {x};
    var d := Dedupe(init);
    var kept := Filter(d, NotIn(st.loaded));
    assert Filter(Dedupe(init + [x]), NotIn(st.loaded)) == kept + [x] by {
      DedupeSnoc(init, x);
      FilterAppend(d, [x], NotIn(st.loaded));
      assert Filter([x], NotIn(st.loaded)) == [x];
    }
    HeadSnoc(st.head, kept, x);
  }

  lemma HeadSnoc(head: seq<Link>, families: seq<string>, x: string)
    ensures head + FamilyLinks(families + [x]) == (head + FamilyLinks(families)) + [FamilyLink(x)]
  {
    MapAppend(families, [x], SingleLink);
  }

  // ---------------------------------------------------------------------------
  // loadGoogleFontsBatch

  /** The elements of `s` from position `n` on; empty when `n` is past the end. */
  function Drop<T>(s: seq<T>, n: nat): (r: seq<T>)
    ensures |r| == if n <= |s| then |s| - n else 0
  {
    if n <= |s| then s[n..] else []
  }

  /** The slices `s[i..i+size]`, `s[i+size..i+2*size]`, ... the batch loop takes from position `i` on. */
  function ChunksFrom<T>(s: seq<T>, i: nat, size: nat): seq<seq<T>>
    requires size >= 1
    decreases |s| - i
  {
    if i >= |s| then [] else [s[i..Min(i + size, |s|)]] + ChunksFrom(s, i + size, size)
  }

  /** The slices `s[0..size]`, `s[size..2*size]`, ... of the batch loop. */
  function Chunks<T>(s: seq<T>, size: nat): seq<seq<T>>
    requires size >= 1
  {
    ChunksFrom(s, 0, size)
  }

  /** The chunks from `i` on concatenate back to the rest of the list. */
  lemma {:induction false} FlattenChunksFrom<T>(s: seq<T>, i: nat, size: nat)
    requires size >= 1
    ensures Flatten(ChunksFrom(s, i, size)) == Drop(s, i)
    decreases |s| - i
  {
    if i < |s| {
      FlattenChunksFrom(s, i + size, size);
      var cs := ChunksFrom(s, i, size);
      assert cs[1..] == ChunksFrom(s, i + size, size);
      assert Drop(s, i) == s[i..Min(i + size, |s|)] + Drop(s, i + size);
    }
  }

  /** The chunks concatenate back to the list. */
  lemma FlattenChunks<T>(s: seq<T>, size: nat)
    requires size >= 1
    ensures Flatten(Chunks(s, size)) == s
  {
    FlattenChunksFrom(s, 0, size);
  }

  /** Each chunk from `i` on is non-empty and holds at most `size` elements; all but the last hold exactly `size`. */
  lemma {:induction false} ChunkSizesFrom<T>(s: seq<T>, i: nat, size: nat)
    requires size >= 1
    ensures forall k | 0 <= k < |ChunksFrom(s, i, size)| ::
      1 <= |ChunksFrom(s, i, size)[k]| <= size && (k < |ChunksFrom(s, i, size)| - 1 ==> |ChunksFrom(s, i, size)[k]| == size)
    decreases |s| - i
  {
    if i < |s| {
      var rest := ChunksFrom(s, i + size, size);
      ChunkSizesFrom(s, i + size, size);
      var cs := ChunksFrom(s, i, size);
      forall k | 0 <= k < |cs| ensures 1 <= |cs[k]| <= size && (k < |cs| - 1 ==> |cs[k]| == size) {
        if k > 0 {
          assert cs[k] == rest[k - 1];
        } else if |cs| > 1 {
          assert rest != [];
        }
      }
    }
  }

  /** Each chunk is non-empty and holds at most `size` elements; all but the last hold exactly `size`. */
  lemma ChunkSizes<T>(s: seq<T>, size: nat)
    requires size >= 1
    ensures forall k | 0 <= k < |Chunks(s, size)| ::
      1 <= |Chunks(s, size)[k]| <= size && (k < |Chunks(s, size)| - 1 ==> |Chunks(s, size)[k]| == size)
  {
    ChunkSizesFrom(s, 0, size);
  }

  /** The batch filter: non-empty and not loaded yet. */
  function Fresh(loaded: set<string>): string -> bool {
    f => f != "" && f !in loaded
  }

  /** `unique`: the distinct families in order of first occurrence, minus '' and the loaded ones. */
  function Unique(families: seq<string>, loaded: set<string>): (r: seq<string>)
    ensures NoDuplicates(r)
    ensures forall f :: f in r <==> f in families && f != "" && f !in loaded
    ensures IsSubsequence(r, families) && InFirstOccurrenceOrder(r, families)
  {
    var d := Dedupe(families);
    FilterKeepsNoDuplicates(d, Fresh(loaded));
    FilterIsSubsequence(d, Fresh(loaded));
    DedupeIsSubsequence(families);
    SubsequenceTrans(Filter(d, Fresh(loaded)), d, families);
    DedupeKeepsFirstOccurrenceOrder(families);
    FilterKeepsFirstOccurrenceOrder(d, Fresh(loaded), families);
    Filter(d, Fresh(loaded))
  }

  function ChunkLink(chunk: seq<string>): Link { BatchLink(chunk) }

  function BatchLinks(chunks: seq<seq<string>>): seq<Link> {
    Map(chunks, ChunkLink)
  }

  function AfterLoadBatch(st: LoaderState, families: seq<string>, perRequest: nat): (r: LoaderState)
    requires perRequest >= 1
    ensures st.loaded <= r.loaded && st.head <= r.head
  {
    var unique := Unique(families, st.loaded);
    if |unique| == 0 then st
    else LoaderState(st.loaded + Elements(unique), st.head + BatchLinks(Chunks(unique, perRequest)))
  }

  /**
   * A batch loads exactly the fresh families and appends one link per chunk
   * of them; when nothing is fresh it changes nothing.
   */
  lemma LoadBatchSpec(st: LoaderState, families: seq<string>, perRequest: nat)
    requires perRequest >= 1
    ensures var r := AfterLoadBatch(st, families, perRequest);
      && r.loaded == st.loaded + Elements(Unique(families, st.loaded))
      && r.head == st.head + BatchLinks(Chunks(Unique(families, st.loaded), perRequest))
    ensures (forall f | f in families :: f == "" || f in st.loaded) ==> AfterLoadBatch(st, families, perRequest) == st
  {
    var unique := Unique(families, st.loaded);
    if |unique| == 0 {
      assert Elements(unique) == {};
      assert st.head + BatchLinks([]) == st.head;
    }
    assert unique != [] ==> unique[0] in unique;
  }

  /** The batch loop's invariant, carried from `i` to `i + size`. */
  lemma ChunkLoopStep<T>(s: seq<T>, emitted: seq<seq<T>>, i: nat, size: nat)
    requires i < |s| && size >= 1
    requires Chunks(s, size) == emitted + ChunksFrom(s, i, size)
    ensures Chunks(s, size) == (emitted + [s[i..Min(i + size, |s|)]]) + ChunksFrom(s, i + size, size)
  {
    var later := ChunksFrom(s, i + size, size);
    assert emitted + ([s[i..Min(i + size, |s|)]] + later) == (emitted + [s[i..Min(i + size, |s|)]]) + later;
  }

  lemma BatchLinksSnoc(head: seq<Link>, emitted: seq<seq<string>>, chunk: seq<string>)
    ensures head + BatchLinks(emitted + [chunk]) == (head + BatchLinks(emitted)) + [BatchLink(chunk)]
  {
    MapAppend(emitted, [chunk], ChunkLink);
  }

  lemma FlattenSnoc(loaded: set<string>, emitted: seq<seq<string>>, chunk: seq<string>)
    ensures loaded + Elements(Flatten(emitted + [chunk])) == (loaded + Elements(Flatten(emitted))) + Elements(chunk)
  {
    FlattenAppend(emitted, [chunk]);
    assert Flatten([chunk]) == chunk;
  }

  /** The families a batch requests, concatenated in link order, are `unique`; the chunks have the sizes of the loop. */
  lemma BatchLinksAreChunks(st: LoaderState, families: seq<string>, perRequest: nat)
    requires perRequest >= 1
    ensures var chunks := Chunks(Unique(families, st.loaded), perRequest);
      && Flatten(chunks) == Unique(families, st.loaded)
      && forall i | 0 <= i < |chunks| :: 1 <= |chunks[i]| <= perRequest && (i < |chunks| - 1 ==> |chunks[i]| == perRequest)
  {
    FlattenChunks(Unique(families, st.loaded), perRequest);
    ChunkSizes(Unique(families, st.loaded), perRequest);
  }

  /** A batch keeps the state valid, and repeating it (with any chunk size) appends nothing. */
  lemma LoadBatchIdempotent(st: LoaderState, families: seq<string>, perRequest: nat, again: nat)
    requires Valid(st) && perRequest >= 1 && again >= 1
    ensures Valid(AfterLoadBatch(st, families, perRequest))
    ensures var r := AfterLoadBatch(st, families, perRequest);
      AfterLoadBatch(r, families, again) == r
  {
    LoadBatchSpec(st, families, perRequest);
    var unique := Unique(families, st.loaded);
    var r := AfterLoadBatch(st, families, perRequest);
    if unique != [] {
      var chunks := Chunks(unique, perRequest);
      forall i | 0 <= i < |r.head| ensures LinkedFamilies(r.head[i]) <= r.loaded {
        if i >= |st.head| {
          var c := chunks[i - |st.head|];
          assert r.head[i] == BatchLink(c);
          FlattenChunks(unique, perRequest);
          ChunkInFlatten(chunks, i - |st.head|);
        }
      }
    }
    LoadBatchSpec(r, families, again);
  }

  lemma {:induction false} ChunkInFlatten<T>(chunks: seq<seq<T>>, k: nat)
    requires k < |chunks|
    ensures forall x | x in chunks[k] :: x in Flatten(chunks)
    decreases k
  {
    if k > 0 {
      ChunkInFlatten(chunks[1..], k - 1);
    }
  }

  // ---------------------------------------------------------------------------
  // The module state

  class FontLoader {
    var loadedFamilies: set<string>
    var head: seq<Link>

    function State(): LoaderState
      reads this
    {
      LoaderState(loadedFamilies, head)
    }

    constructor ()
      ensures loadedFamilies == {} && head == []
    {
      loadedFamilies := {};
      head := [];
    }

    method LoadGoogleFont(family: string)
      modifies this
      ensures State() == AfterLoadFont(old(State()), family)
    {
      if HasFamilyLink(head, family) {
        return;
      }
      if family in loadedFamilies {
        return;
      }
      head := head + [FamilyLink(family)];
      loadedFamilies := loadedFamilies + {family};
    }

    method LoadMultipleGoogleFonts(families: seq<string>)
      modifies this
      ensures State() == AfterLoadMultiple(old(State()), families)
    {
      var j := 0;
      while j < |families|
        invariant 0 <= j <= |families|
        invariant State() == AfterLoadMultiple(old(State()), families[..j])
      {
        assert families[..j + 1][..j] == families[..j];
        LoadGoogleFont(families[j]);
        j := j + 1;
      }
      assert families[..|families|] == families;
    }

    method LoadGoogleFontsBatch(families: seq<string>, perRequest: nat)
      requires perRequest >= 1
      modifies this
      ensures State() == AfterLoadBatch(old(State()), families, perRequest)
    {
      var unique := Unique(families, loadedFamilies);
      if |unique| == 0 {
        return;
      }
      var i: nat := 0;
      ghost var emitted: seq<seq<string>> := [];
      while i < |unique|
        invariant Chunks(unique, perRequest) == emitted + ChunksFrom(unique, i, perRequest)
        invariant head == old(head) + BatchLinks(emitted)
        invariant loadedFamilies == old(loadedFamilies) + Elements(Flatten(emitted))
        decreases |unique| - i
      {
        var chunk := unique[i..Min(i + perRequest, |unique|)];
        ChunkLoopStep(unique, emitted, i, perRequest);
        head := head + [BatchLink(chunk)];
        loadedFamilies := loadedFamilies + Elements(chunk);
        BatchLinksSnoc(old(head), emitted, chunk);
        FlattenSnoc(old(loadedFamilies), emitted, chunk);
        emitted := emitted + [chunk];
        i := i + perRequest;
      }
      assert emitted == Chunks(unique, perRequest);
      FlattenChunks(unique, perRequest);
    }
  }
}
