/**
 * The curation engine: extraction, the size and fine-tune filters, grouping
 * by base architecture, per-group variant selection and hardware
 * annotation, with the processing report the stages fill in.
 */
module Engine {
  import opened Wrappers
  import opened Seqs
  import opened Text
  import opened Records
  import opened Config
  import Grouping
  import Extraction
  import Classifier
  import Selector
  import Hardware

  // ---------------------------------------------------------------------
  // The processing report
  // ---------------------------------------------------------------------

  /** One group's line in the report. */
  datatype GroupStat = GroupStat(original: int, kept: int, removed: int)

  /** `ProcessingReport` without its wall-clock time and its unused error list. */
  datatype Report = Report(
    totalProcessed: int,
    totalKept: int,
    totalRemoved: int,
    smallModelsRemoved: int,
    finetunedRemoved: int,
    quantizationVariantsRemoved: int,
    variantsRemovedBySize: int,
    variantsRemovedByUploader: int,
    variantsRemovedByDownloads: int,
    baseModelsKept: int,
    quantizedVariantsKept: int,
    trustedUploaderVariantsKept: int,
    sizeReductionMb: int,
    groupStats: map<string, GroupStat>)

  /** A fresh report: every counter 0, no group lines. */
  const EmptyReport := Report(0, 0, 0, 0, 0, 0, 0, 0, 0, 0, 0, 0, 0, map[])

  /** A group line whose numbers agree: nothing kept beyond the original, and the rest removed. */
  predicate Consistent(st: GroupStat) {
    0 <= st.kept <= st.original && st.removed == st.original - st.kept
  }

  /** The counters one group's selection leaves alone agree in both reports. */
  predicate SameOtherCounters(a: Report, b: Report) {
    && a.totalProcessed == b.totalProcessed && a.totalKept == b.totalKept
    && a.totalRemoved == b.totalRemoved
    && a.smallModelsRemoved == b.smallModelsRemoved && a.finetunedRemoved == b.finetunedRemoved
    && a.variantsRemovedBySize == b.variantsRemovedBySize
    && a.variantsRemovedByUploader == b.variantsRemovedByUploader
    && a.variantsRemovedByDownloads == b.variantsRemovedByDownloads
    && a.sizeReductionMb == b.sizeReductionMb
  }

  /** Every counter agrees in both reports; only the group lines may differ. */
  predicate SameCounters(a: Report, b: Report) {
    && SameOtherCounters(a, b)
    && a.baseModelsKept == b.baseModelsKept && a.quantizedVariantsKept == b.quantizedVariantsKept
    && a.quantizationVariantsRemoved == b.quantizationVariantsRemoved
    && a.trustedUploaderVariantsKept == b.trustedUploaderVariantsKept
  }

  /** `add_group_stats`: the named group's line is (re)written; nothing else changes. */
  function AddGroupStats(rep: Report, name: string, original: int, kept: int): (r: Report)
    ensures name in r.groupStats
    ensures r.groupStats[name].original == original && r.groupStats[name].kept == kept
    ensures r.groupStats[name].original - r.groupStats[name].kept == r.groupStats[name].removed
    ensures 0 <= kept <= original ==> Consistent(r.groupStats[name])
    ensures r.groupStats.Keys == rep.groupStats.Keys + {name}
    ensures forall n :: n in rep.groupStats && n != name ==> r.groupStats[n] == rep.groupStats[n]
    ensures SameCounters(r, rep)
    ensures r.groupStats == rep.groupStats[name := GroupStat(original, kept, original - kept)]
  {
    rep.(groupStats := rep.groupStats[name := GroupStat(original, kept, original - kept)])
  }

  /** `calculate_totals`: the removed count is what was processed and not kept. */
  function CalculateTotals(rep: Report): (r: Report)
    ensures r.totalKept + r.totalRemoved == r.totalProcessed
    ensures r.(totalRemoved := rep.totalRemoved) == rep
  {
    rep.(totalRemoved := rep.totalProcessed - rep.totalKept)
  }

  /** `FilterResult`, without the backup path's file-system side. */
  datatype FilterResult = FilterResult(
    filteredModels: seq<Entry>,
    originalCount: int,
    filteredCount: int,
    removedCount: int,
    backupPath: Option<string>,
    report: Report,
    errors: seq<string>)

  /** `FilterResult.success`: no errors, and at least one entry kept. */
  predicate Success(res: FilterResult) {
    |res.errors| == 0 && res.filteredCount > 0
  }

  // ---------------------------------------------------------------------
  // Keep-or-count filters
  // ---------------------------------------------------------------------

  /** What a filtering stage keeps, and how many entries it counted as removed. */
  datatype Sifted<T> = Sifted(kept: seq<T>, dropped: nat)

  /**
   * The loop of the size and fine-tune filters: walk the entries in order,
   * append the ones that pass, count the others.
   */
  function Sift<T>(xs: seq<T>, pass: T -> bool): Sifted<T> {
    if xs == [] then Sifted([], 0)
    else
      var prev := Sift(xs[..|xs| - 1], pass);
      var x := xs[|xs| - 1];
      if pass(x) then Sifted(prev.kept + [x], prev.dropped) else Sifted(prev.kept, prev.dropped + 1)
  }

  /** The loop keeps exactly the passing entries, in order, and counts exactly the failing ones. */
  lemma {:induction false} SiftFilters<T>(xs: seq<T>, pass: T -> bool)
    ensures Sift(xs, pass).kept == Filter(xs, pass)
    ensures Sift(xs, pass).dropped == |Filter(xs, x => !pass(x))|
    ensures |Sift(xs, pass).kept| + Sift(xs, pass).dropped == |xs|
  {
    if xs != [] {
      var front, x := xs[..|xs| - 1], xs[|xs| - 1];
      SiftFilters(front, pass);
      assert xs == front + [x];
      FilterAppend(front, [x], pass);
      FilterAppend(front, [x], y => !pass(y));
      assert Filter([x], pass) == (if pass(x) then [x] else []) by {
        assert [x][1..] == [];
      }
      assert Filter([x], y => !pass(y)) == (if pass(x) then [] else [x]) by {
        assert [x][1..] == [];
      }
      FilterPartition(xs, pass);
    }
  }

  /** Whether an entry survives the size filter: `fileSize >= min_size_bytes`. */
  function LargeEnough(cfg: FilterConfig): Entry -> bool {
    (e: Entry) => e.fileSize.Some? && e.fileSize.value >= cfg.minSizeBytes
  }

  /**
   * `_remove_small_models`: the entries of at least the minimum size, in
   * order, and the number removed. A `null` size makes the source raise,
   * so entries are required to be sized, as extraction guarantees.
   */
  function RemoveSmallModels(cfg: FilterConfig, es: seq<Entry>): (r: Sifted<Entry>)
    requires Sized(es)
    ensures r.kept == Filter(es, LargeEnough(cfg))
    ensures forall k :: 0 <= k < |r.kept| ==> Size(r.kept[k]) >= cfg.minSizeBytes
    ensures forall k :: 0 <= k < |es| && Size(es[k]) >= cfg.minSizeBytes ==> es[k] in r.kept
    ensures r.dropped + |r.kept| == |es|
    ensures Sized(r.kept)
  {
    SiftFilters(es, LargeEnough(cfg));
    Sift(es, LargeEnough(cfg))
  }

  /** Whether an entry survives the fine-tune filter. */
  function BaseOnly(cfg: FilterConfig): Entry -> bool {
    (e: Entry) => Classifier.IsBaseModel(cfg, e)
  }

  /** `_remove_finetuned_models`: the base-model entries, in order, and the number removed. */
  function RemoveFinetunedModels(cfg: FilterConfig, es: seq<Entry>): (r: Sifted<Entry>)
    ensures r.kept == Filter(es, BaseOnly(cfg))
    ensures forall k :: 0 <= k < |r.kept| ==> !Classifier.IsFinetuned(cfg, r.kept[k])
    ensures forall k :: 0 <= k < |es| && !Classifier.IsFinetuned(cfg, es[k]) ==> es[k] in r.kept
    ensures r.dropped + |r.kept| == |es|
  {
    SiftFilters(es, BaseOnly(cfg));
    Sift(es, BaseOnly(cfg))
  }

  // ---------------------------------------------------------------------
  // Grouping and per-group selection
  // ---------------------------------------------------------------------

  /** `_group_models_by_base`: entries grouped by their base-model group, first-seen order. */
  function GroupModelsByBase(cfg: FilterConfig, es: seq<Entry>): (gs: seq<Grouping.Group<Entry>>)
    ensures Grouping.IsGrouping(gs, es, e => Classifier.GetBaseModelGroup(cfg, e))
    ensures Grouping.Total(gs) == |es|
  {
    var key := (e: Entry) => Classifier.GetBaseModelGroup(cfg, e);
    Grouping.GroupByIsGrouping(es, key);
    Grouping.GroupByTotal(es, key);
    Grouping.GroupBy(es, key)
  }

  /** An F16 or BF16 file (in any letter case), or a name mentioning `base`. */
  predicate IsBaseCandidate(e: Entry) {
    ToUpper(e.quantFormat) in ["F16", "BF16"] || Contains(ToLower(e.modelName), "base")
  }

  predicate IsVariant(e: Entry) { !IsBaseCandidate(e) }

  /**
   * `max(base_models, key=fileSize)`: the index of the largest entry, the
   * first one when several are equally large.
   */
  function LargestIndex(es: seq<Entry>): (i: nat)
    requires Sized(es) && es != []
    ensures i < |es|
    ensures forall k :: 0 <= k < |es| ==> Size(es[k]) <= Size(es[i])
    ensures forall k :: 0 <= k < i ==> Size(es[k]) < Size(es[i])
  {
    if |es| == 1 then 0
    else
      var front := es[..|es| - 1];
      var j := LargestIndex(front);
      assert forall k :: 0 <= k < |front| ==> front[k] == es[k];
      if Size(es[|es| - 1]) > Size(es[j]) then |es| - 1 else j
  }

  /** One group's part of the variant filtering. */
  datatype Outcome = Outcome(
    base: Option<Entry>,
    variants: seq<Entry>,
    selected: seq<Entry>,
    output: seq<Entry>)

  /** The largest base candidate of a group, the first one on ties; none without candidates. */
  function PickBase(members: seq<Entry>): (b: Option<Entry>)
    requires Sized(members)
    ensures b.Some? <==> exists k :: 0 <= k < |members| && IsBaseCandidate(members[k])
    ensures b.Some? ==> b.value in members && IsBaseCandidate(b.value)
    ensures b.Some? ==> Filter(members, IsBaseCandidate) != []
    ensures b.Some? ==> forall k :: 0 <= k < |members| && IsBaseCandidate(members[k])
                          ==> Size(members[k]) <= Size(b.value)
    ensures b.Some? ==> exists i :: 0 <= i < |members| && members[i] == b.value &&
                          forall k :: 0 <= k < i && IsBaseCandidate(members[k]) ==> Size(members[k]) < Size(b.value)
  {
    var bases := Filter(members, IsBaseCandidate);
    if bases == [] then
      None
    else
      var j := LargestIndex(bases);
      var b := bases[j];
      assert bases[0] in members;
      FirstLargestBase(members, j);
      assert forall k :: 0 <= k < |members| && IsBaseCandidate(members[k]) ==> Size(members[k]) <= Size(b) by {
        forall k | 0 <= k < |members| && IsBaseCandidate(members[k]) ensures Size(members[k]) <= Size(b) {
          assert members[k] in bases;
          var i :| 0 <= i < |bases| && bases[i] == members[k];
        }
      }
      Some(b)
  }

  /**
   * Where the largest base candidate sits in the group: every candidate
   * before it is strictly smaller, so `max` returns the first of equals.
   */
  lemma FirstLargestBase(members: seq<Entry>, j: nat)
    requires Sized(members)
    requires j < |Filter(members, IsBaseCandidate)|
    requires forall k :: 0 <= k < j ==>
               Size(Filter(members, IsBaseCandidate)[k]) < Size(Filter(members, IsBaseCandidate)[j])
    ensures exists i :: 0 <= i < |members| && members[i] == Filter(members, IsBaseCandidate)[j] &&
              forall k :: 0 <= k < i && IsBaseCandidate(members[k])
                ==> Size(members[k]) < Size(Filter(members, IsBaseCandidate)[j])
  {
    var bases := Filter(members, IsBaseCandidate);
    var i := FilterOrigin(members, IsBaseCandidate, j);
    forall k | 0 <= k < i && IsBaseCandidate(members[k]) ensures Size(members[k]) < Size(bases[j]) {
      assert members[..i][k] == members[k];
      assert members[k] in bases[..j];
      var m :| 0 <= m < j && bases[..j][m] == members[k];
    }
  }

  /** Every entry of a group is either a base candidate or a variant. */
  lemma SplitSizes(members: seq<Entry>)
    ensures |Filter(members, IsBaseCandidate)| + |Filter(members, IsVariant)| == |members|
  {
    FilterPartition(members, IsBaseCandidate);
    FilterSame(members, (e: Entry) => !IsBaseCandidate(e), IsVariant);
  }

  /** The selector's picks among a group's non-base entries; nothing to pick from gives nothing. */
  function SelectVariants(cfg: FilterConfig, variants: seq<Entry>): (sel: seq<Entry>)
    requires Sized(variants)
    ensures |sel| <= |variants|
    ensures forall k :: 0 <= k < |sel| ==> sel[k] in variants && Size(sel[k]) >= cfg.minSizeBytes
  {
    if variants == [] then [] else Selector.SelectVariantsForGroup(cfg, None, variants)
  }

  /**
   * The body of `_filter_variants_in_groups` for one group: split off the
   * base candidates, keep the largest of them, let the selector pick among
   * the rest (with no base), and emit the picks followed by the base.
   */
  function ProcessGroup(cfg: FilterConfig, members: seq<Entry>): (o: Outcome)
    requires Sized(members)
    ensures o.variants == Filter(members, IsVariant)
    ensures o.base == PickBase(members)
    ensures o.selected == SelectVariants(cfg, o.variants)
    ensures o.output == o.selected + (if o.base.Some? then [o.base.value] else [])
    ensures |o.selected| <= |o.variants|
    ensures |o.output| <= |members|
    ensures forall k :: 0 <= k < |o.output| ==> o.output[k] in members
  {
    var variants := Filter(members, IsVariant);
    SplitSizes(members);
    var base := PickBase(members);
    var selected := SelectVariants(cfg, variants);
    var output := selected + (if base.Some? then [base.value] else []);
    assert forall k :: 0 <= k < |output| ==> output[k] in members by {
      forall k | 0 <= k < |output| ensures output[k] in members {
        if k < |selected| {
          assert selected[k] in variants;
        }
      }
    }
    Outcome(base, variants, selected, output)
  }

  /** The groups that had a base candidate and so kept a base. */
  function BasesKept(cfg: FilterConfig, gs: seq<Grouping.Group<Entry>>): nat
    requires forall i :: 0 <= i < |gs| ==> Sized(gs[i].members)
  {
    if gs == [] then 0
    else
      var last := gs[|gs| - 1];
      BasesKept(cfg, gs[..|gs| - 1]) + (if ProcessGroup(cfg, last.members).base.Some? then 1 else 0)
  }

  /** The report after one group: its base, its selection counters, and its group line. */
  function RecordGroup(cfg: FilterConfig, rep: Report, name: string, original: int, o: Outcome): (r: Report)
    ensures r.baseModelsKept == rep.baseModelsKept + (if o.base.Some? then 1 else 0)
    ensures r.quantizedVariantsKept == rep.quantizedVariantsKept + |o.selected|
    ensures r.quantizationVariantsRemoved == rep.quantizationVariantsRemoved + (|o.variants| - |o.selected|)
    ensures r.trustedUploaderVariantsKept == rep.trustedUploaderVariantsKept + TrustedCount(cfg, o.selected)
    ensures rep.trustedUploaderVariantsKept <= r.trustedUploaderVariantsKept
                                            <= rep.trustedUploaderVariantsKept + |o.selected|
    ensures r.groupStats == rep.groupStats[name := GroupStat(original, |o.output|, original - |o.output|)]
    ensures SameOtherCounters(r, rep)
    requires |o.output| == |o.selected| + (if o.base.Some? then 1 else 0)
    requires |o.selected| <= |o.variants|
  {
    var kept := (if o.base.Some? then 1 else 0) + |o.selected|;
    var counted := CountGroup(cfg, rep, o);
    var r := AddGroupStats(counted, name, original, kept);
    assert kept == |o.output|;
    r
  }

  /** How many of the selected files come from a trusted uploader. */
  function TrustedCount(cfg: FilterConfig, selected: seq<Entry>): (n: nat)
    ensures n <= |selected|
  {
    |Filter(selected, e => Selector.IsTrustedUploader(cfg, e))|
  }

  /** The report's counters after one group, before its group line is written. */
  function CountGroup(cfg: FilterConfig, rep: Report, o: Outcome): (r: Report)
    requires |o.selected| <= |o.variants|
    ensures r.baseModelsKept == rep.baseModelsKept + (if o.base.Some? then 1 else 0)
    ensures r.quantizedVariantsKept == rep.quantizedVariantsKept + |o.selected|
    ensures r.quantizationVariantsRemoved == rep.quantizationVariantsRemoved + (|o.variants| - |o.selected|)
    ensures r.trustedUploaderVariantsKept == rep.trustedUploaderVariantsKept + TrustedCount(cfg, o.selected)
    ensures rep.trustedUploaderVariantsKept <= r.trustedUploaderVariantsKept
                                            <= rep.trustedUploaderVariantsKept + |o.selected|
    ensures SameOtherCounters(r, rep) && r.groupStats == rep.groupStats
  {
    var r1 := if o.base.Some? then rep.(baseModelsKept := rep.baseModelsKept + 1) else rep;
    if o.variants == [] then r1
    else
      r1.(quantizedVariantsKept := r1.quantizedVariantsKept + |o.selected|,
          quantizationVariantsRemoved := r1.quantizationVariantsRemoved + (|o.variants| - |o.selected|),
          trustedUploaderVariantsKept := r1.trustedUploaderVariantsKept + TrustedCount(cfg, o.selected))
  }

  /** Every group line in the report agrees with itself. */
  ghost predicate StatsConsistent(rep: Report) {
    forall n :: n in rep.groupStats ==> Consistent(rep.groupStats[n])
  }

  /**
   * `_filter_variants_in_groups`: the groups in order, each contributing its
   * selected variants followed by its base, with the report updated per group.
   */
  function FilterVariantsInGroups(cfg: FilterConfig, gs: seq<Grouping.Group<Entry>>, rep: Report): (seq<Entry>, Report)
    requires forall i :: 0 <= i < |gs| ==> Sized(gs[i].members)
  {
    if gs == [] then ([], rep)
    else
      var front, last := gs[..|gs| - 1], gs[|gs| - 1];
      var prev := FilterVariantsInGroups(cfg, front, rep);
      var o := ProcessGroup(cfg, last.members);
      (prev.0 + o.output, RecordGroup(cfg, prev.1, last.name, |last.members|, o))
  }

  /** The output holds group members only, and no more entries than the groups together. */
  lemma {:induction false} VariantsOutput(cfg: FilterConfig, gs: seq<Grouping.Group<Entry>>, rep: Report)
    requires forall i :: 0 <= i < |gs| ==> Sized(gs[i].members)
    ensures var out := FilterVariantsInGroups(cfg, gs, rep).0;
      && |out| <= Grouping.Total(gs)
      && forall k :: 0 <= k < |out| ==> exists i :: 0 <= i < |gs| && out[k] in gs[i].members
  {
    if gs != [] {
      var front, last := gs[..|gs| - 1], gs[|gs| - 1];
      VariantsOutput(cfg, front, rep);
      var prev := FilterVariantsInGroups(cfg, front, rep).0;
      var o := ProcessGroup(cfg, last.members);
      var out := prev + o.output;
      assert FilterVariantsInGroups(cfg, gs, rep).0 == out;
      Grouping.TotalLast(gs);
      forall k | 0 <= k < |out| ensures exists i :: 0 <= i < |gs| && out[k] in gs[i].members {
        if k < |prev| {
          var i :| 0 <= i < |front| && prev[k] in front[i].members;
          assert front[i] == gs[i];
        } else {
          assert out[k] == o.output[k - |prev|];
          assert gs[|gs| - 1] == last;
        }
      }
    }
  }

  /** The report gains one line per group, and every line it gains is consistent. */
  lemma {:induction false} VariantsStats(cfg: FilterConfig, gs: seq<Grouping.Group<Entry>>, rep: Report)
    requires forall i :: 0 <= i < |gs| ==> Sized(gs[i].members)
    ensures var r := FilterVariantsInGroups(cfg, gs, rep).1;
      && r.groupStats.Keys == rep.groupStats.Keys + Grouping.Names(gs)
      && (StatsConsistent(rep) ==> StatsConsistent(r))
  {
    if gs != [] {
      var front, last := gs[..|gs| - 1], gs[|gs| - 1];
      VariantsStats(cfg, front, rep);
      var prev := FilterVariantsInGroups(cfg, front, rep).1;
      var o := ProcessGroup(cfg, last.members);
      assert FilterVariantsInGroups(cfg, gs, rep).1 == RecordGroup(cfg, prev, last.name, |last.members|, o);
      assert Grouping.Names(gs) == Grouping.Names(front) + {last.name};
      RecordGroupStats(cfg, prev, last.name, |last.members|, o);
    }
  }

  /** Recording a group adds its name, and its line is consistent when the output is no larger than the group. */
  lemma RecordGroupStats(cfg: FilterConfig, prev: Report, name: string, original: int, o: Outcome)
    requires |o.output| == |o.selected| + (if o.base.Some? then 1 else 0)
    requires |o.selected| <= |o.variants| && |o.output| <= original
    ensures var r := RecordGroup(cfg, prev, name, original, o);
      && r.groupStats.Keys == prev.groupStats.Keys + {name}
      && (StatsConsistent(prev) ==> StatsConsistent(r))
  {
    var r := RecordGroup(cfg, prev, name, original, o);
    assert Consistent(r.groupStats[name]);
  }

  /**
   * One kept base is counted per group with a base candidate, and the
   * counters the group pass does not touch keep their values.
   */
  lemma {:induction false} VariantsCounters(cfg: FilterConfig, gs: seq<Grouping.Group<Entry>>, rep: Report)
    requires forall i :: 0 <= i < |gs| ==> Sized(gs[i].members)
    ensures var r := FilterVariantsInGroups(cfg, gs, rep).1;
      && r.baseModelsKept == rep.baseModelsKept + BasesKept(cfg, gs)
      && SameOtherCounters(r, rep)
  {
    if gs != [] {
      var front, last := gs[..|gs| - 1], gs[|gs| - 1];
      VariantsCounters(cfg, front, rep);
      var prev := FilterVariantsInGroups(cfg, front, rep).1;
      var o := ProcessGroup(cfg, last.members);
      assert FilterVariantsInGroups(cfg, gs, rep).1 == RecordGroup(cfg, prev, last.name, |last.members|, o);
    }
  }

  // ---------------------------------------------------------------------
  // Hardware annotation
  // ---------------------------------------------------------------------

  /**
   * `_add_hardware_requirements`: every entry annotated, in order. The
   * annotation is total, so the fallback that keeps an entry unannotated
   * is never taken.
   */
  function AddHardwareRequirements(cfg: FilterConfig, es: seq<Entry>): (r: seq<Entry>)
    ensures |r| == |es|
    ensures forall k :: 0 <= k < |r| ==> r[k].hardware.Some? && r[k].(hardware := es[k].hardware) == es[k]
  {
    if es == [] then []
    else
      var front := AddHardwareRequirements(cfg, es[..|es| - 1]);
      front + [Hardware.CalculateRequirements(cfg, es[|es| - 1])]
  }

  // ---------------------------------------------------------------------
  // The pipeline
  // ---------------------------------------------------------------------

  /** The entries left after the size and fine-tune filters, in extraction order. */
  function Survivors(cfg: FilterConfig, es: seq<Entry>): seq<Entry>
    requires Sized(es)
  {
    RemoveFinetunedModels(cfg, RemoveSmallModels(cfg, es).kept).kept
  }

  /**
   * The stages after extraction up to per-group selection: the selected
   * entries, before annotation, and the report so far.
   */
  function SelectStage(cfg: FilterConfig, gguf: seq<Entry>): (seq<Entry>, Report)
    requires Sized(gguf)
  {
    var small := RemoveSmallModels(cfg, gguf);
    var fine := RemoveFinetunedModels(cfg, small.kept);
    var groups := GroupModelsByBase(cfg, fine.kept);
    assert forall i :: 0 <= i < |groups| ==> Sized(groups[i].members) by {
      forall i | 0 <= i < |groups| ensures Sized(groups[i].members) {
        Grouping.MembersFromInput(fine.kept, e => Classifier.GetBaseModelGroup(cfg, e), groups[i].name);
      }
    }
    var rep := EmptyReport.(totalProcessed := |gguf|, smallModelsRemoved := small.dropped,
                            finetunedRemoved := fine.dropped);
    FilterVariantsInGroups(cfg, groups, rep)
  }

  /** The stages after extraction, with the report they fill in. */
  function Stages(cfg: FilterConfig, gguf: seq<Entry>): (r: (seq<Entry>, Report))
    requires Sized(gguf)
  {
    var fv := SelectStage(cfg, gguf);
    var enhanced := AddHardwareRequirements(cfg, fv.0);
    (enhanced, CalculateTotals(fv.1.(totalKept := |enhanced|)))
  }

  /**
   * `filter_models` on a batch that raises nothing after extraction: the
   * annotated survivors, with counts taken against the extracted entries.
   */
  function FilterModels(cfg: FilterConfig, raws: seq<RawRecord>): (res: FilterResult)
  {
    var ex := Extraction.ExtractGgufModels(raws);
    Extraction.ExtractedFresh(raws);
    var st := Stages(cfg, ex.entries);
    FilterResult(st.0, |ex.entries|, |st.0|, |ex.entries| - |st.0|, None, st.1, ex.errors)
  }

  /** `filter_models`' exception branch: no output, the processed count as removed, and one more error. */
  function FailureResult(processed: int, rep: Report, errors: seq<string>, message: string): (res: FilterResult)
    ensures res.filteredModels == [] && res.filteredCount == 0
    ensures res.removedCount == res.originalCount == processed
    ensures |res.errors| == |errors| + 1 && res.errors[..|errors|] == errors
    ensures !Success(res)
  {
    var es := errors + ["Filtering failed: " + message];
    assert es[..|errors|] == errors;
    FilterResult([], processed, 0, processed, None, rep, es)
  }

  /**
   * The result's counts: measured against the extracted entries, with the
   * report's totals agreeing with the result and the two filters' counters
   * accounting for everything that did not reach grouping.
   */
  lemma FilterModelsCounts(cfg: FilterConfig, raws: seq<RawRecord>)
    ensures var ex, res := Extraction.ExtractGgufModels(raws), FilterModels(cfg, raws);
      && Sized(ex.entries)
      && res.originalCount == |ex.entries|
      && res.filteredCount == |res.filteredModels| <= |Survivors(cfg, ex.entries)|
      && res.removedCount == res.originalCount - res.filteredCount >= 0
      && res.errors == ex.errors
      && res.report.totalProcessed == res.originalCount
      && res.report.totalKept == res.filteredCount
      && res.report.totalRemoved == res.removedCount
      && res.report.smallModelsRemoved + res.report.finetunedRemoved + |Survivors(cfg, ex.entries)|
         == res.originalCount
  {
    var ex := Extraction.ExtractGgufModels(raws);
    Extraction.ExtractedFresh(raws);
    StagesCounts(cfg, ex.entries);
  }

  /** The report's totals after the stages, and at most the survivors kept. */
  lemma StagesCounts(cfg: FilterConfig, gguf: seq<Entry>)
    requires Sized(gguf)
    ensures var st := Stages(cfg, gguf);
      && |st.0| <= |Survivors(cfg, gguf)|
      && st.1.totalProcessed == |gguf|
      && st.1.totalKept == |st.0|
      && st.1.totalRemoved == |gguf| - |st.0|
      && st.1.smallModelsRemoved + st.1.finetunedRemoved + |Survivors(cfg, gguf)| == |gguf|
  {
    SelectStageCounts(cfg, gguf);
  }

  /**
   * Selection keeps at most the survivors, and leaves the processed and
   * filter counters as the two filters set them.
   */
  lemma SelectStageCounts(cfg: FilterConfig, gguf: seq<Entry>)
    requires Sized(gguf)
    ensures var fv := SelectStage(cfg, gguf);
      && |fv.0| <= |Survivors(cfg, gguf)|
      && fv.1.totalProcessed == |gguf|
      && fv.1.smallModelsRemoved + fv.1.finetunedRemoved + |Survivors(cfg, gguf)| == |gguf|
  {
    var small := RemoveSmallModels(cfg, gguf);
    var fine := RemoveFinetunedModels(cfg, small.kept);
    var groups := GroupModelsByBase(cfg, fine.kept);
    forall i | 0 <= i < |groups| ensures Sized(groups[i].members) {
      Grouping.MembersFromInput(fine.kept, (e: Entry) => Classifier.GetBaseModelGroup(cfg, e), groups[i].name);
    }
    var rep := EmptyReport.(totalProcessed := |gguf|, smallModelsRemoved := small.dropped,
                            finetunedRemoved := fine.dropped);
    VariantsOutput(cfg, groups, rep);
    VariantsCounters(cfg, groups, rep);
  }

  /** Success means an error-free extraction and at least one entry kept. */
  lemma SuccessIff(cfg: FilterConfig, raws: seq<RawRecord>)
    ensures Success(FilterModels(cfg, raws))
        <==> Extraction.ExtractGgufModels(raws).errors == [] && FilterModels(cfg, raws).filteredModels != []
  {
    FilterModelsCounts(cfg, raws);
  }

  /** An empty batch is not a success: nothing is kept. */
  lemma EmptyBatchFails(cfg: FilterConfig)
    ensures FilterModels(cfg, []).filteredModels == []
    ensures !Success(FilterModels(cfg, []))
  {
    assert Extraction.ExtractGgufModels([]).entries == [];
    NothingExtractedNothingKept(cfg, []);
  }

  /** A batch from which nothing is extracted keeps nothing and is not a success. */
  lemma NothingExtractedNothingKept(cfg: FilterConfig, raws: seq<RawRecord>)
    requires Extraction.ExtractGgufModels(raws).entries == []
    ensures FilterModels(cfg, raws).filteredModels == []
    ensures !Success(FilterModels(cfg, raws))
  {
    FilterModelsCounts(cfg, raws);
    assert |Survivors(cfg, [])| == 0;
  }

  /**
   * Every entry of the result is an extracted entry, annotated with
   * hardware, of at least the minimum size and not fine-tuned.
   */
  lemma FilterModelsOutputs(cfg: FilterConfig, raws: seq<RawRecord>)
    ensures var ex, out := Extraction.ExtractGgufModels(raws), FilterModels(cfg, raws).filteredModels;
      forall k :: 0 <= k < |out| ==>
        && out[k].hardware.Some?
        && out[k].(hardware := None) in ex.entries
        && out[k].fileSize.Some? && out[k].fileSize.value >= cfg.minSizeBytes
        && !Classifier.IsFinetuned(cfg, out[k])
  {
    var ex := Extraction.ExtractGgufModels(raws);
    Extraction.ExtractedFresh(raws);
    StagesOutputs(cfg, ex.entries);
  }

  /** The stages' output: annotated input entries, large enough and not fine-tuned. */
  lemma StagesOutputs(cfg: FilterConfig, gguf: seq<Entry>)
    requires Extraction.Fresh(gguf)
    ensures var out := Stages(cfg, gguf).0;
      forall k :: 0 <= k < |out| ==>
        && out[k].hardware.Some?
        && out[k].(hardware := None) in gguf
        && out[k].fileSize.Some? && out[k].fileSize.value >= cfg.minSizeBytes
        && !Classifier.IsFinetuned(cfg, out[k])
  {
    var fv := SelectStage(cfg, gguf).0;
    SelectedSurvive(cfg, gguf);
    SurvivorsClean(cfg, gguf);
    var out := AddHardwareRequirements(cfg, fv);
    forall k | 0 <= k < |out|
      ensures && out[k].hardware.Some?
              && out[k].(hardware := None) in gguf
              && out[k].fileSize.Some? && out[k].fileSize.value >= cfg.minSizeBytes
              && !Classifier.IsFinetuned(cfg, out[k])
    {
      assert fv[k] in Survivors(cfg, gguf);
      assert out[k].(hardware := fv[k].hardware) == fv[k];
    }
  }

  /** Per-group selection only picks among the survivors of both filters. */
  lemma SelectedSurvive(cfg: FilterConfig, gguf: seq<Entry>)
    requires Sized(gguf)
    ensures var fv := SelectStage(cfg, gguf).0;
      forall k :: 0 <= k < |fv| ==> fv[k] in Survivors(cfg, gguf)
  {
    var small := RemoveSmallModels(cfg, gguf);
    var fine := RemoveFinetunedModels(cfg, small.kept);
    var key := (e: Entry) => Classifier.GetBaseModelGroup(cfg, e);
    var groups := GroupModelsByBase(cfg, fine.kept);
    forall i | 0 <= i < |groups| ensures forall j :: 0 <= j < |groups[i].members| ==> groups[i].members[j] in fine.kept {
      Grouping.MembersFromInput(fine.kept, key, groups[i].name);
    }
    var rep := EmptyReport.(totalProcessed := |gguf|, smallModelsRemoved := small.dropped,
                            finetunedRemoved := fine.dropped);
    VariantsOutput(cfg, groups, rep);
  }

  /**
   * A survivor is an input entry of at least the minimum size that is not
   * fine-tuned, and is still unannotated when the input was.
   */
  lemma SurvivorsClean(cfg: FilterConfig, gguf: seq<Entry>)
    requires Extraction.Fresh(gguf)
    ensures forall e :: e in Survivors(cfg, gguf) ==>
      && e in gguf && e.hardware.None?
      && e.fileSize.Some? && e.fileSize.value >= cfg.minSizeBytes
      && !Classifier.IsFinetuned(cfg, e)
  {
    var small := RemoveSmallModels(cfg, gguf);
    forall e | e in Survivors(cfg, gguf)
      ensures && e in gguf && e.hardware.None?
              && e.fileSize.Some? && e.fileSize.value >= cfg.minSizeBytes
              && !Classifier.IsFinetuned(cfg, e)
    {
      assert e in small.kept;
    }
  }
}
