/**
 * The archive side of the font proxy (api/font.js): choosing which file of
 * a downloaded zip archive to serve, and the Content-Type it is served
 * with.  An archive entry is what the zip library reports for it: its
 * path inside the archive, whether it is a directory, and the uncompressed
 * size from its header, when there is one.
 */
module FontArchive {
  import opened Wrappers
  import opened Sequences

  datatype Entry = Entry(entryName: string, isDirectory: bool, size: Option<int>)

  /** The record built for every non-directory entry. */
  datatype Candidate = Candidate(name: string, ext: string, size: int, entry: Entry)

  /** The served formats, best first. */
  const Prefer: seq<string> := [".woff2", ".woff", ".otf", ".ttf"]

  // ---------------------------------------------------------------------------
  // The extension of an entry name

  /** The characters the extension pattern refuses after its dot. */
  predicate IsStop(c: char) {
    c == '.' || c == '/' || c == '\\'
  }

  /** The longest suffix of `s` without a stop character. */
  function TailRun(s: string): (r: string)
    ensures |r| <= |s| && r == s[|s| - |r|..]
    ensures forall j | |s| - |r| <= j < |s| :: !IsStop(s[j])
    ensures |r| < |s| ==> IsStop(s[|s| - |r| - 1])
    decreases |s|
  {
    if s == [] || IsStop(s[|s| - 1]) then []
    else TailRun(s[..|s| - 1]) + [s[|s| - 1]]
  }

  /** The text the extension pattern matches: a dot, then one or more non-stop characters up to the end; otherwise empty. */
  function RawExtension(name: string): string {
    var t := TailRun(name);
    if 1 <= |t| < |name| && name[|name| - |t| - 1] == '.' then name[|name| - |t| - 1..] else ""
  }

  /** `e` is a suffix of `name` made of a dot and one or more characters that are not a dot or a slash of either kind. */
  predicate IsExtSuffix(name: string, e: string) {
    2 <= |e| <= |name| && e == name[|name| - |e|..] && e[0] == '.'
    && forall j | 1 <= j < |e| :: !IsStop(e[j])
  }

  /** The pattern has at most one match, and `RawExtension` finds it, or gives '' when there is none. */
  lemma RawExtensionSpec(name: string)
    ensures RawExtension(name) != "" ==> IsExtSuffix(name, RawExtension(name))
    ensures RawExtension(name) == "" <==> forall e :: !IsExtSuffix(name, e)
    ensures forall e | IsExtSuffix(name, e) :: e == RawExtension(name)
  {
    var t := TailRun(name);
    var raw := RawExtension(name);
    if raw != "" {
      forall j | 1 <= j < |raw| ensures !IsStop(raw[j]) {
        assert raw[j] == name[|name| - |t| - 1 + j];
      }
      assert IsExtSuffix(name, raw);
    }
    forall e | IsExtSuffix(name, e) ensures e == raw {
      ExtSuffixIsAfterTailRun(name, e);
    }
  }

  /** A matching suffix is the dot just before the longest stop-free suffix, and that suffix. */
  lemma ExtSuffixIsAfterTailRun(name: string, e: string)
    requires IsExtSuffix(name, e)
    ensures e == RawExtension(name)
  {
    var t := TailRun(name);
    var p := |name| - |e|;
    forall j | p < j < |name| ensures !IsStop(name[j]) {
      assert name[j] == e[j - p];
    }
    assert IsStop(name[p]) by { assert name[p] == e[0]; }
    assert !(|name| - |t| <= p);
    assert !(|t| < |e| - 1);
  }

  /** ASCII upper case to lower case; every other character is kept. */
  function LowerChar(c: char): (r: char)
    ensures 'A' <= c <= 'Z' ==> r as int == c as int + 32
    ensures !('A' <= c <= 'Z') ==> r == c
  {
    if 'A' <= c <= 'Z' then (c as int + 32) as char else c
  }

  function Lower(s: string): (r: string)
    ensures |r| == |s|
    ensures forall j | 0 <= j < |s| :: r[j] == LowerChar(s[j])
  {
    seq(|s|, j requires 0 <= j < |s| => LowerChar(s[j]))
  }

  /** The candidate's `ext`: the lower-cased extension, or ''. */
  function ExtensionOf(name: string): (r: string)
    ensures |r| == |RawExtension(name)|
    ensures r == "" <==> forall e :: !IsExtSuffix(name, e)
    ensures r != "" ==> r[0] == '.' && forall j | 1 <= j < |r| :: !IsStop(r[j])
  {
    RawExtensionSpec(name);
    Lower(RawExtension(name))
  }

  /** Worked case: the extension is case-folded. */
  lemma UpperCaseExtensionIsFolded()
    ensures ExtensionOf("Bold.WOFF2") == ".woff2"
  {
    var a := "Bold.WOFF2";
    ExtSuffixIsAfterTailRun(a, ".WOFF2");
    var l := Lower(".WOFF2");
    assert l[0] == '.' && l[1] == 'w' && l[2] == 'o' && l[3] == 'f' && l[4] == 'f' && l[5] == '2';
    assert l == ".woff2";
  }

  /** Worked case: a dot before the last slash does not make an extension. */
  lemma DotInDirectoryIsNoExtension()
    ensures ExtensionOf("v1.2/otf") == ""
  {
    var b := "v1.2/otf";
    assert b[..7] == "v1.2/ot" && b[..7][..6] == "v1.2/o" && b[..7][..6][..5] == "v1.2/";
    assert TailRun("v1.2/") == "";
    assert TailRun(b) == "otf";
  }

  /** Worked case: a trailing dot is no extension. */
  lemma TrailingDotIsNoExtension()
    ensures ExtensionOf("font.") == ""
  {
    assert TailRun("font.") == "";
  }

  // ---------------------------------------------------------------------------
  // The candidates

  function IsFile(e: Entry): bool { !e.isDirectory }

  /** A missing header, or a header without a size, counts as size 0. */
  function SizeOf(e: Entry): int {
    match e.size
    case Some(n) => n
    case None => 0
  }

  function ToCandidate(e: Entry): (c: Candidate)
    ensures c.name == e.entryName && c.entry == e
    ensures c.ext == ExtensionOf(e.entryName)
    ensures c.size == (if e.size.Some? then e.size.value else 0)
  {
    Candidate(e.entryName, ExtensionOf(e.entryName), SizeOf(e), e)
  }

  function IsPreferred(c: Candidate): bool { c.ext in Prefer }

  /** The non-directory entries whose extension is one of the served formats, in archive order. */
  function Candidates(entries: seq<Entry>): (r: seq<Candidate>)
    ensures |r| <= |entries|
    ensures forall c | c in r :: c.ext in Prefer
  {
    Filter(Map(Filter(entries, IsFile), ToCandidate), IsPreferred)
  }

  function EntryOf(c: Candidate): Entry { c.entry }

  /**
   * The candidates' entries are entries of the archive, in archive order, and
   * so are those of the candidates of any one extension (the list the stable
   * sort breaks ties in).
   */
  lemma CandidatesInArchiveOrder(entries: seq<Entry>, ext: string)
    ensures IsSubsequence(Map(Candidates(entries), EntryOf), entries)
    ensures IsSubsequence(Map(Filter(Candidates(entries), HasExt(ext)), EntryOf), entries)
  {
    var files := Filter(entries, IsFile);
    var all := Map(files, ToCandidate);
    FilterIsSubsequence(entries, IsFile);
    FilterIsSubsequence(all, IsPreferred);
    MapKeepsSubsequence(Candidates(entries), all, EntryOf);
    assert Map(all, EntryOf) == files;
    SubsequenceTrans(Map(Candidates(entries), EntryOf), files, entries);
    var byExt := Filter(Candidates(entries), HasExt(ext));
    FilterIsSubsequence(Candidates(entries), HasExt(ext));
    MapKeepsSubsequence(byExt, Candidates(entries), EntryOf);
    SubsequenceTrans(Map(byExt, EntryOf), Map(Candidates(entries), EntryOf), entries);
  }

  /** A candidate is exactly the record of a non-directory entry with a served extension. */
  lemma CandidatesSpec(entries: seq<Entry>, c: Candidate)
    ensures c in Candidates(entries) <==>
      c.entry in entries && !c.entry.isDirectory && c.ext in Prefer && c == ToCandidate(c.entry)
  {
    var files := Filter(entries, IsFile);
    var all := Map(files, ToCandidate);
    if c in all {
      var k :| 0 <= k < |all| && all[k] == c;
      assert c == ToCandidate(files[k]);
    }
    if c.entry in files && c == ToCandidate(c.entry) {
      var k :| 0 <= k < |files| && files[k] == c.entry;
      assert all[k] == c;
    }
  }

  function HasExt(ext: string): Candidate -> bool {
    (c: Candidate) => c.ext == ext
  }

  // ---------------------------------------------------------------------------
  // The stable sort by descending size

  /** `t` is ordered by non-increasing size. */
  predicate SortedDescending(t: seq<Candidate>) {
    forall i, j | 0 <= i < j < |t| :: t[i].size >= t[j].size
  }

  /** Insert `x` in front of the first element that is not larger than it. */
  function Insert(x: Candidate, t: seq<Candidate>): (r: seq<Candidate>)
    requires SortedDescending(t)
    ensures SortedDescending(r)
    ensures multiset(r) == multiset(t) + multiset{x}
    ensures |r| == |t| + 1
    ensures r[0] == (if t == [] || x.size >= t[0].size then x else t[0])
  {
    if t == [] || x.size >= t[0].size then [x] + t
    else
      var rest := Insert(x, t[1..]);
      assert t == [t[0]] + t[1..];
      [t[0]] + rest
  }

  /**
   * The comparator `b.size - a.size` of a stable sort: descending size,
   * equal sizes left in their original order.  A stable sort's output is
   * determined by the comparator, so this insertion sort gives the same
   * array as the engine's sort.
   */
  function SortBySizeDescending(s: seq<Candidate>): (r: seq<Candidate>)
    ensures SortedDescending(r)
    ensures multiset(r) == multiset(s)
    ensures |r| == |s|
  {
    if s == [] then []
    else
      assert s == [s[0]] + s[1..];
      Insert(s[0], SortBySizeDescending(s[1..]))
  }

  /** The position of the earliest among the largest elements of `s`. */
  function FirstLargestIndex(s: seq<Candidate>): (k: nat)
    requires s != []
    ensures k < |s|
    ensures forall j | 0 <= j < |s| :: s[j].size <= s[k].size
    ensures forall j | 0 <= j < k :: s[j].size < s[k].size
  {
    if |s| == 1 then 0
    else
      var m := 1 + FirstLargestIndex(s[1..]);
      assert s[m] == s[1..][m - 1];
      assert forall j | 1 <= j < |s| :: s[j] == s[1..][j - 1];
      if s[0].size >= s[m].size then 0 else m
  }

  /** After the stable sort, the front element is the earliest of the largest. */
  lemma {:induction false} SortedFrontIsFirstLargest(s: seq<Candidate>)
    requires s != []
    ensures SortBySizeDescending(s)[0] == s[FirstLargestIndex(s)]
  {
    if |s| > 1 {
      SortedFrontIsFirstLargest(s[1..]);
      var m := 1 + FirstLargestIndex(s[1..]);
      assert s[m] == s[1..][m - 1];
    }
  }

  // ---------------------------------------------------------------------------
  // The pick

  /** The first format of `exts` some candidate has, and the earliest largest file of it. */
  function PickAmong(cands: seq<Candidate>, exts: seq<string>): Option<Candidate>
    decreases |exts|
  {
    if exts == [] then None
    else
      var byExt := Filter(cands, HasExt(exts[0]));
      if |byExt| > 0 then Some(SortBySizeDescending(byExt)[0]) else PickAmong(cands, exts[1..])
  }

  /** `ext` is the best format: it is in `Prefer`, some candidate has it, and no candidate has a better one. */
  predicate IsBestFormat(cands: seq<Candidate>, p: nat) {
    p < |Prefer|
    && (exists c | c in cands :: c.ext == Prefer[p])
    && forall q, c | 0 <= q < p && c in cands :: c.ext != Prefer[q]
  }

  /** The file `PickAmong` chooses in format `ext`: the earliest largest one. */
  predicate IsPickIn(cands: seq<Candidate>, ext: string, c: Candidate) {
    var byExt := Filter(cands, HasExt(ext));
    byExt != [] && c == byExt[FirstLargestIndex(byExt)]
  }

  /** What the pick promises: empty exactly when there is no candidate; otherwise the earliest largest file in the best format. */
  lemma {:induction false} PickAmongSpec(cands: seq<Candidate>, from: nat)
    requires from <= |Prefer|
    requires forall q, c | 0 <= q < from && c in cands :: c.ext != Prefer[q]
    requires forall c | c in cands :: c.ext in Prefer
    ensures var r := PickAmong(cands, Prefer[from..]);
      && (r.None? <==> cands == [])
      && (r.Some? ==> r.value in cands && exists p: nat :: (IsBestFormat(cands, p) && r.value.ext == Prefer[p]
            && IsPickIn(cands, Prefer[p], r.value)))
    decreases |Prefer| - from
  {
    var exts := Prefer[from..];
    assert cands != [] ==> cands[0] in cands;
    if from < |Prefer| {
      var byExt := Filter(cands, HasExt(exts[0]));
      assert exts[0] == Prefer[from];
      if |byExt| > 0 {
        SortedFrontIsFirstLargest(byExt);
        var pick := byExt[FirstLargestIndex(byExt)];
        assert pick in byExt;
        assert byExt[0] in byExt;
        assert IsBestFormat(cands, from);
      } else {
        assert exts[1..] == Prefer[from + 1..];
        forall q, c | 0 <= q < from + 1 && c in cands ensures c.ext != Prefer[q] {
          assert c.ext == Prefer[from] ==> c in byExt;
        }
        PickAmongSpec(cands, from + 1);
      }
    }
  }

  /** `pickBestFontFile`: `None` stands for `null`. */
  method PickBestFontFile(entries: seq<Entry>) returns (r: Option<Candidate>)
    ensures r == PickAmong(Candidates(entries), Prefer)
    ensures r.None? <==> Candidates(entries) == []
    ensures r.Some? ==> r.value in Candidates(entries) && !r.value.entry.isDirectory && r.value.entry in entries
    ensures r.Some? ==> exists p: nat :: (IsBestFormat(Candidates(entries), p) && r.value.ext == Prefer[p]
      && IsPickIn(Candidates(entries), Prefer[p], r.value))
  {
    var candidates := Candidates(entries);
    PickAmongSpec(candidates, 0);
    assert Prefer[0..] == Prefer;
    ghost var pick := PickAmong(candidates, Prefer);
    if pick.Some? {
      CandidatesSpec(entries, pick.value);
    }
    var i := 0;
    while i < |Prefer|
      invariant 0 <= i <= |Prefer|
      invariant PickAmong(candidates, Prefer) == PickAmong(candidates, Prefer[i..])
    {
      var ext := Prefer[i];
      var byExt := Filter(candidates, HasExt(ext));
      assert Prefer[i..][1..] == Prefer[i + 1..];
      if |byExt| > 0 {
        var sorted := SortBySizeDescending(byExt);
        return Some(sorted[0]);
      }
      i := i + 1;
    }
    return None;
  }

  /** The pick never is a directory, and with a file in a served format there is a pick. */
  lemma PickIsAFile(entries: seq<Entry>, e: Entry)
    requires e in entries && !e.isDirectory && ExtensionOf(e.entryName) in Prefer
    ensures PickAmong(Candidates(entries), Prefer).Some?
    ensures PickAmong(Candidates(entries), Prefer).value.entry in entries
    ensures !PickAmong(Candidates(entries), Prefer).value.entry.isDirectory
  {
    var cands := Candidates(entries);
    CandidatesSpec(entries, ToCandidate(e));
    PickAmongSpec(cands, 0);
    assert Prefer[0..] == Prefer;
    CandidatesSpec(entries, PickAmong(cands, Prefer).value);
  }

  // ---------------------------------------------------------------------------
  // The response type

  function ContentTypeForExt(ext: string): (r: string)
    ensures r != "application/octet-stream" <==> ext in Prefer
    ensures ext in Prefer ==> r == "font/" + ext[1..]
  {
    if ext == ".woff2" then "font/woff2"
    else if ext == ".woff" then "font/woff"
    else if ext == ".otf" then "font/otf"
    else if ext == ".ttf" then "font/ttf"
    else "application/octet-stream"
  }

  /** A picked file is always served with a font type. */
  lemma PickedFileHasFontType(entries: seq<Entry>)
    requires PickAmong(Candidates(entries), Prefer).Some?
    ensures var c := PickAmong(Candidates(entries), Prefer).value;
      c.ext in Prefer && ContentTypeForExt(c.ext) == "font/" + c.ext[1..]
  {
    PickAmongSpec(Candidates(entries), 0);
    assert Prefer[0..] == Prefer;
  }
}
