/**
 * The quantization selector: within one model group, keep the variants worth
 * listing. Variants are sorted by file size, largest first, and walked once;
 * each is kept or dropped by comparing it with what has been kept so far.
 */
module Selector {
  import opened Wrappers
  import opened Text
  import opened Seqs
  import opened Greedy
  import opened Sorting
  import opened Records
  import opened Config

  // ---------------------------------------------------------------------
  // Uploader extraction
  // ---------------------------------------------------------------------

  /** The host part of the link regex `huggingface\.co/([^/]+)/`. */
  const Host := "huggingface.co/"

  /** Download links on this host carry no uploader. */
  const CdnHost := "cdn-lfs.huggingface.co"

  predicate NotSlash(c: char) { c != '/' }

  predicate NoSlash(w: string) {
    forall k :: 0 <= k < |w| ==> w[k] != '/'
  }

  /** Leftmost match of `huggingface\.co/([^/]+)/` at or after `from`: its group. */
  function OwnerFrom(link: string, from: nat): (r: Option<string>)
    decreases |link| - from
    ensures r.Some? ==> r.value != [] && NoSlash(r.value) && Contains(link, Host + r.value + "/")
  {
    match FindFrom(link, Host, from)
    case None => None
    case Some(i) =>
      var j := i + |Host|;
      var k := RunEnd(link, j, NotSlash);
      if j < k < |link| then
        var o := link[j..k];
        assert NoSlash(o) by {
          forall m | 0 <= m < |o| ensures o[m] != '/' {
            assert NotSlash(link[j + m]);
          }
        }
        assert link[k] == '/';
        assert link[i..i + |Host + o + "/"|] == Host + o + "/";
        assert OccursAt(link, Host + o + "/", i);
        Some(o)
      else OwnerFrom(link, i + 1)
  }

  /** `re.search(r'huggingface\.co/([^/]+)/', link)`: the first path segment after the host. */
  function LinkOwner(link: string): (r: Option<string>)
    ensures r.Some? ==> r.value != [] && NoSlash(r.value) && Contains(link, Host + r.value + "/")
  {
    OwnerFrom(link, 0)
  }

  /** Hub links that the engine and the fetcher build name the owner back. */
  lemma LinkOwnerOfHubLink(owner: string, rest: string)
    requires owner != [] && NoSlash(owner)
    ensures LinkOwner("https://huggingface.co/" + owner + "/" + rest) == Some(owner)
  {
    assert "https://huggingface.co/" + owner + "/" + rest == "https://huggingface.co/" + (owner + "/" + rest);
    LinkOwnerOfPath(owner, rest);
  }

  /** `LinkOwnerOfHubLink` with the path after the root kept in one piece. */
  lemma LinkOwnerOfPath(owner: string, rest: string)
    requires owner != [] && NoSlash(owner)
    ensures LinkOwner("https://huggingface.co/" + (owner + "/" + rest)) == Some(owner)
  {
    var link := "https://huggingface.co/" + (owner + "/" + rest);
    HubLinkHost(owner + "/" + rest);
    OwnerSegment(link, owner, rest);
  }

  /** In a hub link the host is found right after the scheme. */
  lemma HubLinkHost(path: string)
    ensures FindFrom("https://huggingface.co/" + path, Host, 0) == Some(8)
  {
    var root := "https://huggingface.co/";
    var link := root + path;
    RootHost();
    forall j | 0 <= j < 8 ensures !OccursAt(link, Host, j) {
      assert !OccursAt(root, Host, j) && j + |Host| <= |root|;
      PrefixSlice(root, path, j, j + 15);
    }
    PrefixSlice(root, path, 8, 23);
    assert OccursAt(link, Host, 8);
    FindFromFirst(link, Host, 0, 8);
  }

  /** Where the host text sits inside the hub root, and that it sits nowhere earlier. */
  lemma RootHost()
    ensures OccursAt("https://huggingface.co/", Host, 8)
    ensures forall j :: 0 <= j < 8 ==> !OccursAt("https://huggingface.co/", Host, j)
  {
    var root := "https://huggingface.co/";
    assert root[8..23] == Host;
    forall j | 0 <= j < 8 ensures !OccursAt(root, Host, j) {
      assert root[j..j + 15][1] == root[j + 1];
    }
  }

  /** The owner segment of a hub link runs up to the slash after it. */
  lemma OwnerSegment(link: string, owner: string, rest: string)
    requires owner != [] && NoSlash(owner)
    requires link == "https://huggingface.co/" + (owner + "/" + rest)
    ensures 23 + |owner| < |link| && link[23..23 + |owner|] == owner
    ensures RunEnd(link, 23, NotSlash) == 23 + |owner|
  {
    var k := 23 + |owner|;
    forall m | 23 <= m < k ensures link[m] == owner[m - 23] && NotSlash(link[m]) {
      assert link[m] == (owner + "/" + rest)[m - 23];
    }
    assert link[k] == '/';
    assert link[23..k] == owner;
    RunEndAt(link, 23, NotSlash, k);
  }

  /** `^([^/\-\s]+)[/\-]\s*`: a leading segment ended by `/` or `-`. */
  predicate SegmentChar(c: char) { c != '/' && c != '-' && !IsSpace(c) }

  function LeadingSegment(name: string): (r: Option<string>)
    ensures r.Some? ==> r.value != [] && |r.value| < |name| && name[..|r.value|] == r.value
    ensures r.Some? ==> name[|r.value|] == '/' || name[|r.value|] == '-'
    ensures r.Some? ==> forall k :: 0 <= k < |r.value| ==> SegmentChar(r.value[k])
  {
    var k := RunEnd(name, 0, SegmentChar);
    if 0 < k < |name| && (name[k] == '/' || name[k] == '-') then Some(name[..k]) else None
  }

  /** `\b([A-Z][a-z]+(?:[A-Z][a-z]*)*)\s+\-` matching at index `i`: its group. */
  function CamelAt(s: string, i: nat): (r: Option<string>)
    ensures r.Some? ==> |r.value| >= 2 && IsUpperChar(r.value[0]) && IsLowerChar(r.value[1])
    ensures r.Some? ==> forall k :: 0 <= k < |r.value| ==> IsLetter(r.value[k])
    ensures r.Some? ==> i + |r.value| < |s| && s[i..i + |r.value|] == r.value
  {
    if i + 1 < |s| && (i == 0 || !IsWordChar(s[i - 1])) && IsUpperChar(s[i]) && IsLowerChar(s[i + 1]) then
      var k := RunEnd(s, i, IsLetter);
      if k < |s| && IsSpace(s[k]) then
        var m := RunEnd(s, k, IsSpace);
        if m < |s| && s[m] == '-' then Some(s[i..k]) else None
      else None
    else None
  }

  /** Leftmost match of the capitalised-name pattern at or after `from`. */
  function CamelFrom(s: string, from: nat): (r: Option<string>)
    decreases |s| - from
    ensures r.Some? ==> exists i :: from <= i && CamelAt(s, i) == r
    ensures r.None? ==> forall i :: from <= i ==> CamelAt(s, i).None?
  {
    if from >= |s| then None
    else if CamelAt(s, from).Some? then CamelAt(s, from)
    else CamelFrom(s, from + 1)
  }

  /** A name-derived candidate is accepted when it is longer than two letters and not an article. */
  predicate PlausibleUploader(u: string) {
    |u| > 2 && ToLower(u) !in ["the", "a", "an"]
  }

  /** The uploader guessed from a display name, or "" when neither pattern yields one. */
  function NameUploader(name: string): (r: string)
    ensures r != [] ==> PlausibleUploader(r)
    ensures r != [] ==> LeadingSegment(name) == Some(r) || CamelFrom(name, 0) == Some(r)
  {
    var p1 := LeadingSegment(name);
    if p1.Some? && PlausibleUploader(p1.value) then p1.value
    else
      var p2 := CamelFrom(name, 0);
      if p2.Some? && PlausibleUploader(p2.value) then p2.value else ""
  }

  /** The uploader of an entry: from its hub link, then a non-CDN download link, then its name. */
  function ExtractUploader(e: Entry): (r: string)
    ensures LinkOwner(e.huggingFaceLink).Some? ==> r == LinkOwner(e.huggingFaceLink).value
    ensures LinkOwner(e.huggingFaceLink).None? && !Contains(e.directDownloadLink, CdnHost)
            && LinkOwner(e.directDownloadLink).Some?
            ==> r == LinkOwner(e.directDownloadLink).value
  {
    var hf := e.huggingFaceLink;
    var dl := e.directDownloadLink;
    if hf != [] && LinkOwner(hf).Some? then LinkOwner(hf).value
    else if dl != [] && !Contains(dl, CdnHost) && LinkOwner(dl).Some? then LinkOwner(dl).value
    else NameUploader(e.modelName)
  }

  /** A CDN download link is never consulted: dropping it changes nothing. */
  lemma CdnLinkIgnored(e: Entry)
    requires Contains(e.directDownloadLink, CdnHost)
    ensures ExtractUploader(e) == ExtractUploader(e.(directDownloadLink := ""))
  {
  }

  /** Case-insensitive membership of the uploader in the trusted list. */
  predicate IsTrustedUploader(cfg: FilterConfig, e: Entry) {
    ToLower(ExtractUploader(e)) in LowerAll(cfg.trustedUploaders)
  }

  function LowerAll(us: seq<string>): (r: seq<string>)
    ensures |r| == |us|
    ensures forall k :: 0 <= k < |us| ==> r[k] == ToLower(us[k])
  {
    seq(|us|, k requires 0 <= k < |us| => ToLower(us[k]))
  }

  /** Trust is decided by comparing lower-cased names. */
  lemma TrustedIff(cfg: FilterConfig, e: Entry)
    ensures IsTrustedUploader(cfg, e)
        <==> exists k :: 0 <= k < |cfg.trustedUploaders|
                         && ToLower(cfg.trustedUploaders[k]) == ToLower(ExtractUploader(e))
  {
    var low := LowerAll(cfg.trustedUploaders);
    if IsTrustedUploader(cfg, e) {
      var k :| 0 <= k < |low| && low[k] == ToLower(ExtractUploader(e));
      assert ToLower(cfg.trustedUploaders[k]) == ToLower(ExtractUploader(e));
    }
  }

  /** An entry whose hub link names a trusted owner, in any letter case, is trusted. */
  lemma {:induction false} TrustedByHubLink(cfg: FilterConfig, e: Entry, owner: string, repo: string, k: nat)
    requires owner != [] && NoSlash(owner)
    requires e.huggingFaceLink == "https://huggingface.co/" + owner + "/" + repo
    requires k < |cfg.trustedUploaders| && ToLower(cfg.trustedUploaders[k]) == ToLower(owner)
    ensures IsTrustedUploader(cfg, e)
  {
    LinkOwnerOfHubLink(owner, repo);
    assert ExtractUploader(e) == owner;
    assert LowerAll(cfg.trustedUploaders)[k] == ToLower(owner);
  }

  // ---------------------------------------------------------------------
  // Thresholds
  // ---------------------------------------------------------------------

  /** `downloadCount >= min`, reading a `null` count as 0. */
  predicate MeetsDownloadThreshold(e: Entry, min: int) {
    Downloads(e) >= min
  }

  /** A lower threshold is easier to meet. */
  lemma DownloadThresholdMonotone(e: Entry, lo: int, hi: int)
    requires lo <= hi && MeetsDownloadThreshold(e, hi)
    ensures MeetsDownloadThreshold(e, lo)
  {
  }

  /** The relative drop `1 - current/last` exceeds `threshold`; a last size of 0 always does. */
  predicate HasSignificantSizeDrop(current: int, last: int, threshold: real) {
    last == 0 || 1.0 - (current as real / last as real) > threshold
  }

  /** For a positive last size the drop test is a plain comparison of sizes. */
  lemma SizeDropIff(current: int, last: int, threshold: real)
    requires last > 0
    ensures HasSignificantSizeDrop(current, last, threshold)
        <==> (current as real) < (last as real) * (1.0 - threshold)
  {
    var c, l := current as real, last as real;
    var q := c / l;
    assert q * l == c;
    ScaleLess(q, 1.0 - threshold, l);
    ScaleLess(1.0 - threshold, q, l);
  }

  /** Scaling by a positive factor keeps strict order both ways. */
  lemma ScaleLess(a: real, b: real, l: real)
    requires l > 0.0
    ensures a < b <==> a * l < b * l
  {
    if a < b {
      assert (b - a) * l > 0.0;
    } else {
      assert (a - b) * l >= 0.0;
    }
  }

  // ---------------------------------------------------------------------
  // Quantization families and priorities
  // ---------------------------------------------------------------------

  datatype Family = Q4 | Q5 | Q6 | Q8 | IQ | F16 | Q2 | Q3

  /** The families in the order the source's table lists them. */
  const FamilyOrder: seq<Family> := [Q4, Q5, Q6, Q8, IQ, F16, Q2, Q3]

  function Formats(f: Family): seq<string> {
    match f
    case Q4 => ["Q4_0", "Q4_1", "Q4_K_S", "Q4_K_M"]
    case Q5 => ["Q5_0", "Q5_1", "Q5_K_S", "Q5_K_M"]
    case Q6 => ["Q6_K"]
    case Q8 => ["Q8_0"]
    case IQ => ["IQ1_S", "IQ2_XXS", "IQ3_XXS", "IQ4_XS"]
    case F16 => ["F16", "BF16"]
    case Q2 => ["Q2_K"]
    case Q3 => ["Q3_K_S", "Q3_K_M", "Q3_K_L"]
  }

  /** The (upper-cased) format starts with one of the family's formats. */
  predicate InFamily(q: string, f: Family) {
    exists k :: 0 <= k < |Formats(f)| && StartsWith(q, Formats(f)[k])
  }

  function FirstFamily(q: string, fs: seq<Family>): (r: Option<Family>)
    ensures r.Some? ==> r.value in fs && InFamily(q, r.value)
    ensures r.None? ==> forall k :: 0 <= k < |fs| ==> !InFamily(q, fs[k])
  {
    if fs == [] then None
    else if InFamily(q, fs[0]) then Some(fs[0])
    else FirstFamily(q, fs[1..])
  }

  /** The first family, in table order, that the format belongs to. */
  function FamilyOf(q: string): (r: Option<Family>)
    ensures r.Some? ==> InFamily(q, r.value)
    ensures r.None? ==> forall f: Family :: !InFamily(q, f)
  {
    var r := FirstFamily(q, FamilyOrder);
    if r.None? then
      forall f: Family ensures !InFamily(q, f) {
        assert FamilyOrder[FamilyIndex(f)] == f;
      }
      r
    else r
  }

  /** Where a family sits in the table order. */
  function FamilyIndex(f: Family): (k: nat)
    ensures k < |FamilyOrder| && FamilyOrder[k] == f
  {
    match f
    case Q4 => 0
    case Q5 => 1
    case Q6 => 2
    case Q8 => 3
    case IQ => 4
    case F16 => 5
    case Q2 => 6
    case Q3 => 7
  }

  /** Some kept entry's format belongs to family `f`. */
  function HasFamily(kept: seq<Entry>, f: Family): (b: bool)
    ensures b <==> exists k :: 0 <= k < |kept| && InFamily(ToUpper(kept[k].quantFormat), f)
  {
    if kept == [] then false
    else if InFamily(ToUpper(kept[0].quantFormat), f) then true
    else
      var b := HasFamily(kept[1..], f);
      assert b <==> exists k :: 1 <= k < |kept| && InFamily(ToUpper(kept[k].quantFormat), f) by {
        if b {
          var k :| 0 <= k < |kept[1..]| && InFamily(ToUpper(kept[1..][k].quantFormat), f);
          assert kept[k + 1] == kept[1..][k];
        }
        if exists k :: 1 <= k < |kept| && InFamily(ToUpper(kept[k].quantFormat), f) {
          var k :| 1 <= k < |kept| && InFamily(ToUpper(kept[k].quantFormat), f);
          assert kept[1..][k - 1] == kept[k];
        }
      }
      b
  }

  /** A variant is of a new family when its family is unknown or none of the kept formats is in it. */
  function IsDifferentQuantizationFamily(v: Entry, kept: seq<Entry>): (r: bool)
    ensures FamilyOf(ToUpper(v.quantFormat)).None? ==> r
    ensures FamilyOf(ToUpper(v.quantFormat)).Some? ==>
              (r <==> forall k :: 0 <= k < |kept| ==>
                        !InFamily(ToUpper(kept[k].quantFormat), FamilyOf(ToUpper(v.quantFormat)).value))
  {
    match FamilyOf(ToUpper(v.quantFormat))
    case None => true
    case Some(f) => !HasFamily(kept, f)
  }

  /** Formats from most to least useful; a format's priority is its index here. */
  const PriorityOrder: seq<string> := [
    "F16", "BF16", "Q8_0", "Q6_K", "Q5_K_M", "Q5_K_S", "Q4_K_M", "Q4_K_S",
    "IQ4_XS", "Q4_0", "Q4_1", "Q3_K_M", "Q3_K_S", "Q2_K", "IQ3_XXS",
    "IQ2_XXS", "IQ1_S"]

  /** The priority given to a format missing from the table. */
  const UnknownPriority := 999

  function IndexOf(xs: seq<string>, x: string): (r: nat)
    ensures r <= |xs|
    ensures r < |xs| ==> xs[r] == x
    ensures forall k :: 0 <= k < r ==> xs[k] != x
  {
    if xs == [] then 0
    else if xs[0] == x then 0
    else 1 + IndexOf(xs[1..], x)
  }

  /** Lower is better: the table index of the upper-cased format, or 999. */
  function QuantizationPriority(q: string): (r: nat)
    ensures r == UnknownPriority <==> ToUpper(q) !in PriorityOrder
    ensures r != UnknownPriority ==> r < |PriorityOrder| && PriorityOrder[r] == ToUpper(q)
  {
    var k := IndexOf(PriorityOrder, ToUpper(q));
    if k < |PriorityOrder| then k else UnknownPriority
  }

  /** Upper-casing ignores an earlier lower-casing. */
  lemma UpperOfLower(q: string)
    ensures ToUpper(ToLower(q)) == ToUpper(q)
  {
  }

  /** The priority ignores letter case. */
  lemma PriorityIgnoresCase(q: string)
    ensures QuantizationPriority(ToLower(q)) == QuantizationPriority(q)
  {
    UpperOfLower(q);
  }

  predicate DistinctStrings(xs: seq<string>) {
    forall i, j :: 0 <= i < j < |xs| ==> xs[i] != xs[j]
  }

  /** No format appears twice in the priority table. */
  lemma PriorityOrderDistinct()
    ensures DistinctStrings(PriorityOrder)
  {
  }

  /** Upper-casing leaves an upper-case table entry as it is. */
  lemma PriorityOrderUpper(k: nat)
    requires k < |PriorityOrder|
    ensures ToUpper(PriorityOrder[k]) == PriorityOrder[k]
  {
    var w := PriorityOrder[k];
    forall m | 0 <= m < |w| ensures !IsLowerChar(w[m]) {
      assert w[m] in "FBQIKMSX_0123456789";
    }
  }

  /** The 17 known formats get priorities 0..16 in table order; F16 is 0. */
  lemma {:induction false} PriorityOfKnown(q: string, k: nat)
    requires k < |PriorityOrder| && ToUpper(q) == PriorityOrder[k]
    ensures QuantizationPriority(q) == k
  {
    PriorityOrderDistinct();
    var r := IndexOf(PriorityOrder, ToUpper(q));
    assert r <= k;
    assert PriorityOrder[r] == PriorityOrder[k];
  }

  /** A format in the priority table ranks at its own position. */
  lemma PriorityOfTableEntry(k: nat)
    requires k < |PriorityOrder|
    ensures QuantizationPriority(PriorityOrder[k]) == k
  {
    PriorityOrderUpper(k);
    PriorityOfKnown(PriorityOrder[k], k);
  }

  // ---------------------------------------------------------------------
  // The keep/drop policy
  // ---------------------------------------------------------------------

  /** The download floor for a trusted uploader's variant. */
  const TrustedDownloads := 50

  /** Whether `v` joins the variants kept so far. */
  predicate ShouldKeepVariant(cfg: FilterConfig, v: Entry, kept: seq<Entry>)
    requires v.fileSize.Some? && Sized(kept)
  {
    if kept == [] then true
    else if IsTrustedUploader(cfg, v) && MeetsDownloadThreshold(v, TrustedDownloads) then true
    else if !MeetsDownloadThreshold(v, cfg.minDownloads) then false
    else if HasSignificantSizeDrop(Size(v), Size(kept[|kept| - 1]), cfg.sizeDropThreshold) then true
    else IsDifferentQuantizationFamily(v, kept) && Downloads(v) >= cfg.minDownloads * 2
  }

  /**
   * Why a variant after the first is kept: the trusted bypass, or enough
   * downloads together with a size drop from the last kept variant or a new family.
   */
  lemma KeepReasons(cfg: FilterConfig, v: Entry, kept: seq<Entry>)
    requires v.fileSize.Some? && Sized(kept) && kept != []
    ensures ShouldKeepVariant(cfg, v, kept) <==>
      (IsTrustedUploader(cfg, v) && Downloads(v) >= 50)
      || (Downloads(v) >= cfg.minDownloads
          && (HasSignificantSizeDrop(Size(v), Size(kept[|kept| - 1]), cfg.sizeDropThreshold)
              || (IsDifferentQuantizationFamily(v, kept) && Downloads(v) >= 2 * cfg.minDownloads)))
  {
  }

  /** Below the download floor only the trusted bypass can keep a variant. */
  lemma LowDownloadsRejected(cfg: FilterConfig, v: Entry, kept: seq<Entry>)
    requires v.fileSize.Some? && Sized(kept) && kept != []
    requires Downloads(v) < cfg.minDownloads
    requires !(IsTrustedUploader(cfg, v) && Downloads(v) >= 50)
    ensures !ShouldKeepVariant(cfg, v, kept)
  {
  }

  // ---------------------------------------------------------------------
  // The greedy pass and the group selection
  // ---------------------------------------------------------------------

  /** Walk the variants in order, keeping each one the policy accepts against those kept before it. */
  function FilterQuantizedVariants(cfg: FilterConfig, vs: seq<Entry>): (r: seq<Entry>)
    requires Sized(vs)
    ensures Sized(r)
    ensures IsSubseq(r, vs)
    ensures vs != [] ==> r != [] && r[0] == vs[0]
  {
    if vs == [] then (SubseqEmpty(vs); [])
    else
      var front := vs[..|vs| - 1];
      var v := vs[|vs| - 1];
      var prev := FilterQuantizedVariants(cfg, front);
      assert vs == front + [v];
      SubseqSnoc(prev, front, v);
      if ShouldKeepVariant(cfg, v, prev) then
        assert front == [] ==> prev == [];
        prev + [v]
      else
        assert prev == [] ==> front != [];
        prev
  }

  /** The pass over `vs[..i+1]` extends the pass over `vs[..i]` exactly when the policy keeps `vs[i]`. */
  lemma FilterStep(cfg: FilterConfig, vs: seq<Entry>, i: nat)
    requires Sized(vs) && i < |vs|
    ensures FilterQuantizedVariants(cfg, vs[..i + 1]) ==
      var prev := FilterQuantizedVariants(cfg, vs[..i]);
      if ShouldKeepVariant(cfg, vs[i], prev) then prev + [vs[i]] else prev
  {
    assert vs[..i + 1][..i] == vs[..i];
  }

  /** The keep rule as a total function of a file and the files kept so far. */
  function KeepRule(cfg: FilterConfig): (Entry, seq<Entry>) -> bool {
    (v: Entry, kept: seq<Entry>) => v.fileSize.Some? && Sized(kept) && ShouldKeepVariant(cfg, v, kept)
  }

  /** The pass is the greedy walk under the keep rule. */
  lemma {:induction false} FilterIsWalk(cfg: FilterConfig, vs: seq<Entry>)
    requires Sized(vs)
    ensures FilterQuantizedVariants(cfg, vs) == Walk(vs, KeepRule(cfg))
  {
    if vs != [] {
      FilterIsWalk(cfg, vs[..|vs| - 1]);
    }
  }

  /**
   * What the pass keeps, stated without the pass: each kept file is accepted
   * against the files kept before it, and each file left out is refused
   * against the files kept before it.
   */
  lemma FilterIsGreedy(cfg: FilterConfig, vs: seq<Entry>)
    requires Sized(vs)
    ensures exists idx :: Picks(vs, KeepRule(cfg), FilterQuantizedVariants(cfg, vs), idx)
    ensures var r := FilterQuantizedVariants(cfg, vs);
      forall j :: 0 <= j < |r| ==> ShouldKeepVariant(cfg, r[j], r[..j])
  {
    FilterIsWalk(cfg, vs);
    var r := FilterQuantizedVariants(cfg, vs);
    var idx := WalkPicks(vs, KeepRule(cfg));
    forall j | 0 <= j < |r| ensures ShouldKeepVariant(cfg, r[j], r[..j]) {
      assert KeepRule(cfg)(r[j], r[..j]);
    }
  }

  /** Only the pass's result fits that description: any greedy picks from `vs` are its result. */
  lemma FilterGreedyUnique(cfg: FilterConfig, vs: seq<Entry>, r: seq<Entry>, idx: seq<int>)
    requires Sized(vs)
    requires Picks(vs, KeepRule(cfg), r, idx)
    ensures r == FilterQuantizedVariants(cfg, vs)
  {
    FilterIsWalk(cfg, vs);
    PicksUnique(vs, KeepRule(cfg), r, idx);
  }

  /** The key the selector sorts by: the file size, 0 when absent. */
  function SizeKey(e: Entry): Key {
    Key(e.fileSize.GetOr(0), 0)
  }

  /** Kept variants inherit the descending size order of their input. */
  lemma {:induction false} FilterKeepsSizeOrder(cfg: FilterConfig, vs: seq<Entry>)
    requires Sized(vs) && SortedDesc(vs, SizeKey)
    ensures SortedDesc(FilterQuantizedVariants(cfg, vs), SizeKey)
  {
    SortedSubseq(FilterQuantizedVariants(cfg, vs), vs, SizeKey);
  }

  predicate BigEnough(cfg: FilterConfig, e: Entry) {
    e.fileSize.Some? && e.fileSize.value >= cfg.minSizeBytes
  }

  /** The variants at or above the minimum size, in input order. */
  function LargeVariants(cfg: FilterConfig, vs: seq<Entry>): (r: seq<Entry>)
    ensures |r| <= |vs|
    ensures forall k :: 0 <= k < |r| ==> BigEnough(cfg, r[k]) && r[k] in vs
    ensures forall k :: 0 <= k < |vs| && BigEnough(cfg, vs[k]) ==> vs[k] in r
  {
    Filter(vs, e => BigEnough(cfg, e))
  }

  /**
   * The selection for one group: the base (if any) first, then the greedy
   * pass over the large-enough variants sorted by size, largest first.
   */
  function SelectVariantsForGroup(cfg: FilterConfig, base: Option<Entry>, variants: seq<Entry>): (r: seq<Entry>)
    requires Sized(variants)
    ensures base.Some? ==> r != [] && r[0] == base.value
    ensures var n := if base.Some? then 1 else 0;
      && n <= |r|
      && (forall k :: n <= k < |r| ==> BigEnough(cfg, r[k]) && r[k] in variants)
      && SortedDesc(r[n..], SizeKey)
    ensures (forall k :: 0 <= k < |variants| ==> !BigEnough(cfg, variants[k]))
            ==> r == (if base.Some? then [base.value] else [])
    ensures |r| <= (if base.Some? then 1 else 0) + |variants|
  {
    var selected := if base.Some? then [base.value] else [];
    if variants == [] then selected
    else if LargeVariants(cfg, variants) == [] then selected
    else
      var kept := SelectLarge(cfg, variants);
      PrependSelected(cfg, base, variants, kept);
      LargeWitness(cfg, variants);
      selected + kept
  }

  /** The greedy pass over the large-enough variants sorted largest first. */
  function SelectLarge(cfg: FilterConfig, variants: seq<Entry>): (kept: seq<Entry>)
    ensures |kept| <= |variants|
    ensures forall k :: 0 <= k < |kept| ==> BigEnough(cfg, kept[k]) && kept[k] in variants
    ensures SortedDesc(kept, SizeKey)
    ensures LargeVariants(cfg, variants) != [] ==>
      kept != [] && kept[0] == SortDesc(LargeVariants(cfg, variants), SizeKey)[0]
  {
    var valid := LargeVariants(cfg, variants);
    var sorted := SortDesc(valid, SizeKey);
    SortDescMembers(valid, SizeKey);
    SortDescSorted(valid, SizeKey);
    assert Sized(sorted) by {
      forall k | 0 <= k < |sorted| ensures sorted[k].fileSize.Some? {
        assert sorted[k] in valid;
        var j :| 0 <= j < |valid| && valid[j] == sorted[k];
        assert BigEnough(cfg, valid[j]);
      }
    }
    var kept := FilterQuantizedVariants(cfg, sorted);
    SubseqElements(kept, sorted);
    FilterKeepsSizeOrder(cfg, sorted);
    forall k | 0 <= k < |kept| ensures BigEnough(cfg, kept[k]) && kept[k] in variants {
      assert kept[k] in sorted;
      var j :| 0 <= j < |valid| && valid[j] == kept[k];
      assert BigEnough(cfg, valid[j]) && valid[j] in variants;
    }
    kept
  }

  /** The base, if any, in front of the kept variants. */
  lemma PrependSelected(cfg: FilterConfig, base: Option<Entry>, variants: seq<Entry>, kept: seq<Entry>)
    requires |kept| <= |variants| && SortedDesc(kept, SizeKey)
    requires forall k :: 0 <= k < |kept| ==> BigEnough(cfg, kept[k]) && kept[k] in variants
    ensures var n := if base.Some? then 1 else 0;
      var r := (if base.Some? then [base.value] else []) + kept;
      && (base.Some? ==> r != [] && r[0] == base.value)
      && n <= |r|
      && (forall k :: n <= k < |r| ==> BigEnough(cfg, r[k]) && r[k] in variants)
      && SortedDesc(r[n..], SizeKey)
      && |r| <= n + |variants|
  {
    var selected := if base.Some? then [base.value] else [];
    var r := selected + kept;
    assert r[|selected|..] == kept;
    forall k | |selected| <= k < |r| ensures r[k] == kept[k - |selected|] {
    }
  }

  /** Some variant is large enough when the large-enough list is not empty. */
  lemma LargeWitness(cfg: FilterConfig, variants: seq<Entry>)
    requires LargeVariants(cfg, variants) != []
    ensures exists k :: 0 <= k < |variants| && BigEnough(cfg, variants[k])
  {
    var valid := LargeVariants(cfg, variants);
    assert BigEnough(cfg, valid[0]) && valid[0] in variants;
    var j :| 0 <= j < |variants| && variants[j] == valid[0];
  }

  /** With nothing large enough to consider, only the base is returned. */
  lemma SelectWithoutCandidates(cfg: FilterConfig, base: Option<Entry>, variants: seq<Entry>)
    requires Sized(variants)
    requires forall k :: 0 <= k < |variants| ==> variants[k].fileSize.value < cfg.minSizeBytes
    ensures SelectVariantsForGroup(cfg, base, variants) == (if base.Some? then [base.value] else [])
  {
  }

  /** The largest large-enough variant is always selected, whatever its downloads or uploader. */
  lemma LargestAlwaysSelected(cfg: FilterConfig, variants: seq<Entry>)
    requires Sized(variants)
    requires exists k :: 0 <= k < |variants| && BigEnough(cfg, variants[k])
    ensures var r := SelectVariantsForGroup(cfg, None, variants);
      r != [] && r[0] == SortDesc(LargeVariants(cfg, variants), SizeKey)[0]
  {
    var k :| 0 <= k < |variants| && BigEnough(cfg, variants[k]);
    assert variants[k] in LargeVariants(cfg, variants);
  }
}
