/**
 * The engine's first stage: turning raw hub listings into one entry per
 * `.gguf` file, with the display name, quantization format and model type
 * read off the repository id and file name.
 */
module Extraction {
  import opened Wrappers
  import opened Seqs
  import opened Text
  import opened Rewrite
  import opened Records
  import Selector

  // ---------------------------------------------------------------------
  // Quantization format and model type
  // ---------------------------------------------------------------------

  /** The engine's format table, searched in order; BF16 comes before F16. */
  const QuantTable: seq<(string, string)> := [
    ("bf16", "BF16"), ("f16", "F16"),
    ("q8_0", "Q8_0"), ("q6_k", "Q6_K"), ("q5_k_m", "Q5_K_M"),
    ("q5_k_s", "Q5_K_S"), ("q5_0", "Q5_0"), ("q5_1", "Q5_1"),
    ("q4_k_m", "Q4_K_M"), ("q4_k_s", "Q4_K_S"), ("q4_0", "Q4_0"),
    ("q4_1", "Q4_1"), ("q3_k_m", "Q3_K_M"), ("q3_k_s", "Q3_K_S"),
    ("q3_k_l", "Q3_K_L"), ("q2_k", "Q2_K"), ("iq4_xs", "IQ4_XS"),
    ("iq3_xxs", "IQ3_XXS"), ("iq2_xxs", "IQ2_XXS"), ("iq1_s", "IQ1_S")
  ]

  const UnknownLabel := "Unknown"

  /** The label of the first row whose pattern hits; `Unknown` when none does. */
  function FirstLabel(table: seq<(string, string)>, hit: string -> bool): (r: string)
    ensures (forall k :: 0 <= k < |table| ==> !hit(table[k].0)) ==> r == UnknownLabel
    ensures forall k :: 0 <= k < |table| && hit(table[k].0) && (forall j :: 0 <= j < k ==> !hit(table[j].0))
                        ==> r == table[k].1
  {
    if table == [] then UnknownLabel
    else if hit(table[0].0) then table[0].1
    else
      var r := FirstLabel(table[1..], hit);
      assert forall k :: 1 <= k < |table| ==> table[k] == table[1..][k - 1];
      r
  }

  /** `r` is the label of the first row whose pattern occurs in `text`, or `Unknown`. */
  ghost predicate FirstHit(table: seq<(string, string)>, text: string, r: string) {
    && ((forall k :: 0 <= k < |table| ==> !Contains(text, table[k].0)) ==> r == UnknownLabel)
    && (forall k :: (0 <= k < |table| && Contains(text, table[k].0)
                     && (forall j :: 0 <= j < k ==> !Contains(text, table[j].0))) ==> r == table[k].1)
  }

  /** `r` is the label of the first row whose pattern occurs in `text` as a whole word, or `Unknown`. */
  ghost predicate FirstWordHit(table: seq<(string, string)>, text: string, r: string) {
    && ((forall k :: 0 <= k < |table| ==> !ContainsWord(text, table[k].0)) ==> r == UnknownLabel)
    && (forall k :: (0 <= k < |table| && ContainsWord(text, table[k].0)
                     && (forall j :: 0 <= j < k ==> !ContainsWord(text, table[j].0))) ==> r == table[k].1)
  }

  /** The format of the first table row whose pattern occurs in the lower-cased file name. */
  function ExtractQuantizationFormat(filename: string): (r: string)
    ensures FirstHit(QuantTable, ToLower(filename), r)
  {
    FirstLabel(QuantTable, (p: string) => Contains(ToLower(filename), p))
  }

  /** A bf16 file is labelled BF16: the longer pattern is tried first. */
  lemma Bf16FileIsBf16(filename: string)
    requires Contains(ToLower(filename), "bf16")
    ensures ExtractQuantizationFormat(filename) == "BF16"
  {
    assert QuantTable[0].0 == "bf16";
  }

  /** A file with f16 but not bf16 in its name is labelled F16. */
  lemma F16FileIsF16(filename: string)
    requires Contains(ToLower(filename), "f16") && !Contains(ToLower(filename), "bf16")
    ensures ExtractQuantizationFormat(filename) == "F16"
  {
    assert QuantTable[0].0 == "bf16" && QuantTable[1].0 == "f16";
  }

  /** The engine's architecture table: whole words, first hit wins. */
  const TypeTable: seq<(string, string)> := [
    ("llama", "Llama"), ("mistral", "Mistral"), ("qwen", "Qwen"),
    ("gemma", "Gemma"), ("deepseek", "DeepSeek"), ("phi", "Phi"),
    ("falcon", "Falcon"), ("mpt", "MPT"), ("bert", "BERT"),
    ("embed", "BERT")
  ]

  /** The type of the first table row whose word occurs in the lower-cased `id + ' ' + filename`. */
  function ExtractModelType(id: string, filename: string): (r: string)
    ensures FirstWordHit(TypeTable, ToLower(id + " " + filename), r)
  {
    FirstLabel(TypeTable, (p: string) => ContainsWord(ToLower(id + " " + filename), p))
  }

  // ---------------------------------------------------------------------
  // Display name
  // ---------------------------------------------------------------------

  predicate IsSlash(c: char) { c == '/' }

  /** Where the segment ending at `i` starts: just after the last slash before `i`, or at 0. */
  function SegmentStart(s: string, i: nat): (k: nat)
    requires i <= |s|
    ensures k <= i
    ensures forall j :: k <= j < i ==> s[j] != '/'
    ensures k > 0 ==> s[k - 1] == '/'
  {
    if i == 0 then 0 else if s[i - 1] == '/' then i else SegmentStart(s, i - 1)
  }

  /** `s.split('/')[-1]`: the text after the last slash, or all of `s` without one. */
  function LastSegment(s: string): string {
    s[SegmentStart(s, |s|)..]
  }

  /** `-gguf`, in any letter case, at `i`. */
  function GgufTagMatch(s: string, i: nat): Option<nat> {
    if i + 5 <= |s| && ToLower(s[i..i + 5]) == "-gguf" then Some(i + 5) else None
  }

  /** `-q\d+_\w+`, in any letter case, at `i`. */
  function DashQuantMatch(s: string, i: nat): Option<nat> {
    if i + 2 < |s| && s[i] == '-' && LowerChar(s[i + 1]) == 'q' then
      var d := DigitsEnd(s, i + 2);
      if i + 2 < d < |s| && s[d] == '_' then
        var w := RunEnd(s, d + 1, IsWordChar);
        if w > d + 1 then Some(w) else None
      else None
    else None
  }

  predicate IsNameSep(c: char) { c == '-' || c == '_' }

  predicate NotNameSep(c: char) { !IsNameSep(c) }

  /** `re.split(r'[-_]', s)`: the pieces between separators, empty pieces included. */
  function SplitNameSeps(s: string): (ws: seq<string>)
    decreases |s|
    ensures |ws| >= 1
  {
    var k := RunEnd(s, 0, NotNameSep);
    if k == |s| then [s] else [s[..k]] + SplitNameSeps(s[k + 1..])
  }

  /** Each piece capitalized, joined with single spaces. */
  function JoinCapitalized(ws: seq<string>): string {
    if |ws| == 0 then []
    else if |ws| == 1 then Capitalize(ws[0])
    else Capitalize(ws[0]) + " " + JoinCapitalized(ws[1..])
  }

  /** Every separator replaced by a space. */
  function SepsToSpaces(s: string): (r: string)
    ensures |r| == |s|
    ensures forall k :: 0 <= k < |s| ==> r[k] == (if IsNameSep(s[k]) then ' ' else s[k])
  {
    seq(|s|, k requires 0 <= k < |s| => if IsNameSep(s[k]) then ' ' else s[k])
  }

  /** Lower-casing agrees on two space-joined texts when it agrees on their parts. */
  lemma LowerJoin(a: string, b: string, x: string, y: string)
    requires |a| == |x| && ToLower(a) == ToLower(x)
    requires |b| == |y| && ToLower(b) == ToLower(y)
    ensures |a + " " + b| == |x + " " + y|
    ensures ToLower(a + " " + b) == ToLower(x + " " + y)
  {
    var l, r := a + " " + b, x + " " + y;
    forall k | 0 <= k < |l| ensures LowerChar(l[k]) == LowerChar(r[k]) {
      if k < |a| {
        assert ToLower(a)[k] == ToLower(x)[k];
      } else if k > |a| {
        assert ToLower(b)[k - |a| - 1] == ToLower(y)[k - |a| - 1];
      }
    }
  }

  /** Capitalizing changes nothing once both sides are lower-cased. */
  lemma ToLowerCapitalize(w: string)
    ensures ToLower(Capitalize(w)) == ToLower(w)
  {
  }

  /** Replacing separators splits at the first separator. */
  lemma SepsAt(s: string, k: nat)
    requires k < |s| && IsNameSep(s[k])
    requires forall j :: 0 <= j < k ==> !IsNameSep(s[j])
    ensures SepsToSpaces(s) == s[..k] + " " + SepsToSpaces(s[k + 1..])
  {
    var r := s[..k] + " " + SepsToSpaces(s[k + 1..]);
    assert |r| == |s|;
    forall j | 0 <= j < |s| ensures SepsToSpaces(s)[j] == r[j] {
      if j > k {
        assert s[k + 1..][j - k - 1] == s[j];
      }
    }
  }

  /** Without separators nothing is replaced. */
  lemma SepsNone(s: string)
    requires forall j :: 0 <= j < |s| ==> !IsNameSep(s[j])
    ensures SepsToSpaces(s) == s
  {
  }

  /**
   * Splitting at the separators, capitalizing and joining with spaces
   * keeps the length and, up to letter case, only turns separators into
   * spaces.
   */
  lemma {:induction false} SplitJoinCase(s: string)
    ensures var r := JoinCapitalized(SplitNameSeps(s));
      |r| == |s| && ToLower(r) == ToLower(SepsToSpaces(s))
    decreases |s|
  {
    var k := RunEnd(s, 0, NotNameSep);
    if k == |s| {
      ToLowerCapitalize(s);
      SepsNone(s);
    } else {
      SplitJoinCase(s[k + 1..]);
      SplitJoinStep(s, k);
    }
  }

  /** The case of `SplitJoinCase` past the first separator, given the claim for what follows it. */
  lemma SplitJoinStep(s: string, k: nat)
    requires k == RunEnd(s, 0, NotNameSep) && k < |s|
    requires var r := JoinCapitalized(SplitNameSeps(s[k + 1..]));
      |r| == |s[k + 1..]| && ToLower(r) == ToLower(SepsToSpaces(s[k + 1..]))
    ensures var r := JoinCapitalized(SplitNameSeps(s));
      |r| == |s| && ToLower(r) == ToLower(SepsToSpaces(s))
  {
    var head, rest := s[..k], s[k + 1..];
    var tail := SplitNameSeps(rest);
    assert SplitNameSeps(s) == [head] + tail;
    JoinCapitalizedCons(head, tail);
    ToLowerCapitalize(head);
    SepsAt(s, k);
    SepsNone(head);
    LowerJoin(Capitalize(head), JoinCapitalized(tail), head, SepsToSpaces(rest));
  }

  /** Joining capitalized words peels off the first word. */
  lemma JoinCapitalizedCons(head: string, tail: seq<string>)
    requires tail != []
    ensures JoinCapitalized([head] + tail) == Capitalize(head) + " " + JoinCapitalized(tail)
  {
    assert ([head] + tail)[1..] == tail;
  }

  /**
   * `_extract_model_name`: the last path segment of the id with `-gguf` and
   * `-q<digits>_<word>` tags removed, then split at dashes and underscores
   * and rejoined as capitalized words.
   */
  function ExtractModelName(id: string): string {
    JoinCapitalized(SplitNameSeps(StripTags(id)))
  }

  /** The last path segment of `id` with the `-gguf` and `-q<digits>_<word>` tags removed. */
  function StripTags(id: string): string {
    Delete(Delete(LastSegment(id), GgufTagMatch), DashQuantMatch)
  }

  /** Stripping only removes characters. */
  lemma StripTagsSubseq(id: string)
    ensures IsSubseq(StripTags(id), id)
  {
    var seg := LastSegment(id);
    var once := Delete(seg, GgufTagMatch);
    SubseqTrans(StripTags(id), once, seg);
    SubseqRefl(seg);
    SubseqDrop(seg, id, SegmentStart(id, |id|));
    SubseqTrans(StripTags(id), seg, id);
  }

  /**
   * The display name is the stripped id with separators turned into spaces,
   * up to letter case, and no longer than the id.
   */
  lemma ExtractModelNameShape(id: string)
    ensures var r, n := ExtractModelName(id), StripTags(id);
      |r| == |n| && ToLower(r) == ToLower(SepsToSpaces(n)) && |r| <= |id|
  {
    var n := StripTags(id);
    SplitJoinCase(n);
    StripTagsSubseq(id);
    SubseqElements(n, id);
  }

  // ---------------------------------------------------------------------
  // Siblings and conversion
  // ---------------------------------------------------------------------

  /** A readable sibling whose file name ends in `.gguf`, in any letter case. */
  predicate IsGgufFile(f: Sibling) {
    f.File? && EndsWith(ToLower(f.rfilename), ".gguf")
  }

  /** No sibling that the engine fails on. */
  predicate AllReadable(sibs: seq<Sibling>) {
    forall k :: 0 <= k < |sibs| ==> sibs[k].File?
  }

  /**
   * `_has_gguf_files`: `any(...)` over the siblings, stopping at the first
   * `.gguf` file; `None` where it reaches an unreadable sibling first.
   */
  function HasGgufFiles(sibs: seq<Sibling>): (r: Option<bool>)
    ensures AllReadable(sibs) ==> r == Some(exists k :: 0 <= k < |sibs| && IsGgufFile(sibs[k]))
    ensures r.None? ==> !AllReadable(sibs)
  {
    if sibs == [] then Some(false)
    else if sibs[0].Unreadable? then None
    else if IsGgufFile(sibs[0]) then Some(true)
    else
      var r := HasGgufFiles(sibs[1..]);
      assert forall k :: 1 <= k < |sibs| ==> sibs[k] == sibs[1..][k - 1];
      r
  }

  /** `_get_gguf_files`: the `.gguf` siblings in order; `None` if any sibling is unreadable. */
  function GetGgufFiles(sibs: seq<Sibling>): (r: Option<seq<Sibling>>)
    ensures r.Some? <==> AllReadable(sibs)
    ensures r.Some? ==> r.value == Filter(sibs, IsGgufFile)
  {
    if AllReadable(sibs) then Some(Filter(sibs, IsGgufFile)) else None
  }

  /** With every sibling readable, having `.gguf` files means the list of them is non-empty. */
  lemma HasIffGet(sibs: seq<Sibling>)
    requires AllReadable(sibs)
    ensures HasGgufFiles(sibs) == Some(GetGgufFiles(sibs).value != [])
  {
    var files := Filter(sibs, IsGgufFile);
    if exists k :: 0 <= k < |sibs| && IsGgufFile(sibs[k]) {
      var k :| 0 <= k < |sibs| && IsGgufFile(sibs[k]);
      assert sibs[k] in files;
    }
    if files != [] {
      assert IsGgufFile(files[0]) && files[0] in sibs;
      var j :| 0 <= j < |sibs| && sibs[j] == files[0];
    }
  }

  const HubRoot := "https://huggingface.co/"

  /** The id a conversion works with: a missing id reads as the empty string. */
  function RepoId(id: RawId): string {
    if id.Id? then id.s else ""
  }

  const NotSpecified := "Not specified"

  /**
   * `_convert_to_expected_format`: one entry for one `.gguf` file. A `null`
   * id or a `null` size makes the conversion fail, and the file is skipped.
   */
  function Convert(raw: RawRecord, f: Sibling): (r: Option<Entry>)
    requires f.File?
    ensures r.Some? <==> !raw.id.IdNull? && f.size.Some?
    ensures r.Some? ==> r.value.fileSize == f.size && r.value.hardware.None?
  {
    if raw.id.IdNull? || f.size.None? then None
    else
      var id := RepoId(raw.id);
      var hf := HubRoot + id;
      Some(Entry(
        ExtractModelName(id),
        ExtractQuantizationFormat(f.rfilename),
        f.size,
        ExtractModelType(id, f.rfilename),
        NotSpecified,
        raw.downloads,
        raw.likes,
        hf,
        DownloadLink(hf, f.rfilename),
        raw.createdAt,
        None))
  }

  /** The direct download link: the repository link, `/resolve/main/`, then the file name. */
  function DownloadLink(hf: string, filename: string): (r: string)
    ensures StartsWith(r, hf + "/resolve/main/") && EndsWith(r, filename)
    ensures |r| == |hf| + 14 + |filename|
  {
    var prefix := hf + "/resolve/main/";
    var r := prefix + filename;
    assert r[..|prefix|] == prefix;
    assert r[|r| - |filename|..] == filename;
    r
  }

  /** What a converted entry carries over from the listing and the file. */
  lemma ConvertFields(raw: RawRecord, f: Sibling)
    requires f.File? && !raw.id.IdNull? && f.size.Some?
    ensures var e := Convert(raw, f).value;
      var id := RepoId(raw.id);
      && e.license == NotSpecified
      && e.downloadCount == raw.downloads && e.likeCount == raw.likes
      && e.uploadDate == raw.createdAt
      && e.huggingFaceLink == HubRoot + id
      && e.directDownloadLink == DownloadLink(e.huggingFaceLink, f.rfilename)
  {
  }

  /** The uploader the selector reads from a converted entry is the owner part of the repository id. */
  lemma ConvertedUploader(raw: RawRecord, f: Sibling, owner: string, repo: string)
    requires f.File? && f.size.Some?
    requires raw.id == Id(owner + "/" + repo) && owner != [] && Selector.NoSlash(owner)
    ensures Convert(raw, f).Some? && Selector.ExtractUploader(Convert(raw, f).value) == owner
  {
    Selector.LinkOwnerOfHubLink(owner, repo);
    assert HubRoot + (owner + "/" + repo) == "https://huggingface.co/" + owner + "/" + repo;
  }

  /** The converted entries for a list of files, skipping the files that fail. */
  function ConvertAll(raw: RawRecord, files: seq<Sibling>): seq<Entry>
    requires AllReadable(files)
  {
    if files == [] then []
    else
      assert AllReadable(files[1..]);
      var c := Convert(raw, files[0]);
      (if c.Some? then [c.value] else []) + ConvertAll(raw, files[1..])
  }

  /** Entries that fresh conversion yields: sized, and with no hardware estimate yet. */
  ghost predicate Fresh(es: seq<Entry>) {
    forall k :: 0 <= k < |es| ==> es[k].fileSize.Some? && es[k].hardware.None?
  }

  /**
   * Converting keeps one entry per file with a size, and none when the
   * listing's id is `null`; every entry is sized and not yet estimated.
   */
  lemma {:induction false} ConvertAllShape(raw: RawRecord, files: seq<Sibling>)
    requires AllReadable(files)
    ensures var r := ConvertAll(raw, files);
      && |r| <= |files|
      && Fresh(r)
      && (raw.id.IdNull? ==> r == [])
      && (!raw.id.IdNull? && (forall k :: 0 <= k < |files| ==> files[k].size.Some?) ==> |r| == |files|)
  {
    if files != [] {
      assert AllReadable(files[1..]);
      ConvertAllShape(raw, files[1..]);
      var c := Convert(raw, files[0]);
      var rest := ConvertAll(raw, files[1..]);
      var head := if c.Some? then [c.value] else [];
      assert ConvertAll(raw, files) == head + rest;
      assert Fresh(head);
      FreshConcat(head, rest);
    }
  }

  /** Joining two lists of fresh entries gives fresh entries. */
  lemma FreshConcat(a: seq<Entry>, b: seq<Entry>)
    requires Fresh(a) && Fresh(b)
    ensures Fresh(a + b)
  {
    forall k | 0 <= k < |a + b| ensures (a + b)[k].fileSize.Some? && (a + b)[k].hardware.None? {
      if k >= |a| {
        assert (a + b)[k] == b[k - |a|];
      }
    }
  }

  // ---------------------------------------------------------------------
  // Extraction over all listings
  // ---------------------------------------------------------------------

  /** The id as the error message prints it. */
  function IdText(id: RawId): string {
    match id
    case Id(s) => s
    case IdNull => "None"
    case IdAbsent => "unknown"
  }

  /** The start of the error message for a listing the engine fails on; the exception text that follows is not modelled. */
  function ExtractionError(raw: RawRecord): string {
    "Error processing raw model " + IdText(raw.id) + ": "
  }

  /** A listing whose siblings the engine cannot walk: `null`, or with an unreadable element. */
  predicate Fails(raw: RawRecord) {
    raw.siblings.None? || !AllReadable(raw.siblings.value)
  }

  datatype Extracted = Extracted(entries: seq<Entry>, errors: seq<string>)

  /** One listing: its converted `.gguf` files, or an error. */
  function ExtractOne(raw: RawRecord): (r: Extracted)
    ensures |r.errors| == (if Fails(raw) then 1 else 0)
    ensures Fails(raw) ==> r == Extracted([], [ExtractionError(raw)])
    ensures !Fails(raw) ==> r.entries == ConvertAll(raw, Filter(raw.siblings.value, IsGgufFile))
  {
    match raw.siblings
    case None => Extracted([], [ExtractionError(raw)])
    case Some(sibs) =>
      match HasGgufFiles(sibs)
      case None => Extracted([], [ExtractionError(raw)])
      case Some(false) =>
        if AllReadable(sibs) then Extracted([], []) else Extracted([], [ExtractionError(raw)])
      case Some(true) =>
        match GetGgufFiles(sibs)
        case None => Extracted([], [ExtractionError(raw)])
        case Some(files) => Extracted(ConvertAll(raw, files), [])
  }

  /** `_extract_gguf_models`: the listings in order, entries and errors collected. */
  function ExtractGgufModels(raws: seq<RawRecord>): Extracted {
    Gather(raws, ExtractOne)
  }

  /** The results of `one` over the listings in order, entries and errors concatenated. */
  function Gather(raws: seq<RawRecord>, one: RawRecord -> Extracted): Extracted {
    if raws == [] then Extracted([], [])
    else
      var first := one(raws[0]);
      var rest := Gather(raws[1..], one);
      Extracted(first.entries + rest.entries, first.errors + rest.errors)
  }

  lemma {:induction false} GatherAppend(a: seq<RawRecord>, b: seq<RawRecord>, one: RawRecord -> Extracted)
    ensures Gather(a + b, one) ==
      Extracted(Gather(a, one).entries + Gather(b, one).entries, Gather(a, one).errors + Gather(b, one).errors)
  {
    if a == [] {
      assert a + b == b;
    } else {
      var first := one(a[0]);
      var ra, rb := Gather(a[1..], one), Gather(b, one);
      assert (a + b)[1..] == a[1..] + b;
      assert (a + b)[0] == a[0];
      GatherAppend(a[1..], b, one);
      AppendAssoc(first.entries, ra.entries, rb.entries);
      AppendAssoc(first.errors, ra.errors, rb.errors);
    }
  }

  /** Concatenation re-associates. */
  lemma AppendAssoc<T>(x: seq<T>, y: seq<T>, z: seq<T>)
    ensures x + (y + z) == (x + y) + z
  {
  }

  /** Every extracted entry is sized and not yet estimated. */
  lemma {:induction false} ExtractedFresh(raws: seq<RawRecord>)
    ensures Fresh(ExtractGgufModels(raws).entries)
  {
    if raws != [] {
      ExtractedFresh(raws[1..]);
      assert ExtractGgufModels(raws[1..]) == Gather(raws[1..], ExtractOne);
      var raw := raws[0];
      if !Fails(raw) {
        ConvertAllShape(raw, Filter(raw.siblings.value, IsGgufFile));
      }
    }
  }

  /** The number of listings the engine fails on. */
  function FailCount(raws: seq<RawRecord>): nat {
    if raws == [] then 0 else (if Fails(raws[0]) then 1 else 0) + FailCount(raws[1..])
  }

  /** Exactly one error per failing listing, and none otherwise. */
  lemma {:induction false} ErrorsPerFailure(raws: seq<RawRecord>)
    ensures |ExtractGgufModels(raws).errors| == FailCount(raws)
  {
    if raws != [] {
      ErrorsPerFailure(raws[1..]);
    }
  }

  /** Extraction over two batches is the extraction of each, concatenated. */
  lemma ExtractAppend(a: seq<RawRecord>, b: seq<RawRecord>)
    ensures ExtractGgufModels(a + b) ==
      Extracted(ExtractGgufModels(a).entries + ExtractGgufModels(b).entries,
                ExtractGgufModels(a).errors + ExtractGgufModels(b).errors)
  {
    GatherAppend(a, b, ExtractOne);
  }
}
