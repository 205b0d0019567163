# GGUF catalogue curation, modelled in Dafny

This project models the core of the local-ai-zone catalogue builder. A fetcher
script merges two hub listings, keeps the repositories that ship `.gguf`
files, and normalises their fields. The curation ("spam filter") engine then
turns raw listings into one entry per `.gguf` file and filters them in stages:

1. it drops files below the minimum size;
2. it drops fine-tuned models;
3. it groups the rest by base model;
4. within each group it keeps the largest F16/BF16 or "base" file, plus a
   greedy, size-ordered selection of quantized variants;
5. it annotates every survivor with a hardware profile.

Its report counts what each stage removed. Around the engine sit the
configuration check, the input validator, and the fetcher's helpers: id
de-duplication, engagement-count sanitising, display names, quantization and
model-type tables, licence lookup, links, and the final sort and projection.

Each component is a module of pure functions over immutable records:

- `Config`: the filter configuration and its validation.
- `Hardware`: RAM, CPU and GPU ladders, the parameter estimate, and the
  fallback profile.
- `Classifier`: fine-tune detection, base detection, the grouping key, and
  the size tag.
- `Selector`: uploader trust, the download floor, size drops, quantization
  families, priorities, and the variant selection.
- `Extraction` and `Engine`: the engine's pipeline and report.
- `Fetcher` and `ModelData`: the fetcher script's helpers, and the input
  validator.

Shared modules:

- `Records`: the entry and raw-listing records.
- `Json`: a JSON value.
- `Text`: ASCII case mapping, substring and whole-word search, strip, split
  and join.
- `Rewrite`: `re.sub` as deletion of matches.
- `Seqs`: subsequences and filtering.
- `Greedy`: a one-pass walk that keeps each element a rule accepts given the
  elements kept before it, and the picks such a walk makes.
- `Sorting`: the stable descending sort Python's `sorted(..., reverse=True)`
  performs.
- `Grouping`: an insertion-ordered `dict` of lists.

Regular expressions are written as explicit scanners over `seq<char>`, with
ASCII character classes.

Where the docstrings and the code disagree, the model follows the code:

- The fetcher's `_extract_model_name` docstring promises "DialoGPT Medium".
  `str.capitalize` lower-cases the rest of each word, so the code yields
  "Dialogpt Medium", and so does the model.
- `_infer_model_type` tries `llama` before `codellama`, `code-llama` and
  `openllama`. The model therefore labels every CodeLlama id `LLaMA`
  (`Fetcher.CodeLlamaIdIsLlama`).
- The engine's `_filter_variants_in_groups` passes no base model to the
  selector. It appends the base after the selected variants.

## Model

| member | source | states |
|---|---|---|
| Config.DefaultConfigIsValid | spam_filter/config.py:15-47 | the shipped default configuration passes every check, so validation returns no message |
| Config.Validate | spam_filter/config.py:49-90 | no message exactly when every constraint holds; the messages come in check order, at most one per check |
| Config.ValidateReportsEachFailure | spam_filter/config.py:53-88 | each of the twelve messages appears exactly when its own constraint fails. Examples: the size-drop threshold outside the open interval (0,1); the RAM reduction outside [0,1]; medium not above small; an empty trusted, fine-tune or OS list |
| Config.CollectReports | spam_filter/config.py:49-90 | with distinct messages, a check's message is collected exactly when that check fails |
| Hardware.RamRequirement | spam_filter/hardware_calculator.py:133-156 | the RAM answer is always 8, 16, 32, 64 or 128. A size of 0 or less gives 8. Otherwise the answer is the ladder rung of size-in-GiB times the multiplier, reduced for efficient formats |
| Hardware.RamSmallestCover | spam_filter/hardware_calculator.py:137-156 | the answer is the smallest bucket at or above the base RAM, and 128 only when the base RAM exceeds 64 |
| Hardware.RamMonotone | spam_filter/hardware_calculator.py:137-156 | a larger file never needs less RAM, for a non-negative multiplier and a reduction of at most 1 |
| Hardware.CpuRequirement | spam_filter/hardware_calculator.py:170-193 | the core count is always 4, 6, 8, 12 or 16. With a parameter count it uses the small and medium thresholds, then 30e9 and 70e9, all as inclusive upper bounds. Without one it uses the GiB ladder 2/6/15/40 |
| Hardware.CpuMonotoneInParams | spam_filter/hardware_calculator.py:170-180 | more parameters never give fewer cores |
| Hardware.GpuRequirement | spam_filter/hardware_calculator.py:208-221 | no GPU is required exactly when the parameters are unknown or below the threshold, the file is under 8 GiB, the format is efficient and the file is at most 4 GiB |
| Hardware.EfficientExamples | spam_filter/hardware_calculator.py:237-244 | the empty format is not efficient; a lower-case q4_k_m is efficient because the test upper-cases; Q8_0 is not efficient |
| Hardware.EstimateParameters | spam_filter/hardware_calculator.py:97-120 | a parameter count read from the name wins. Otherwise there is an estimate exactly when the size exceeds 0.75 GiB; it is at least 5e8 and is the floor of size × 1e9 / 1.5 GiB, stated as `r·3 GiB <= size·2e9 < (r+1)·3 GiB` |
| Hardware.FloorOfSizeEstimate | spam_filter/hardware_calculator.py:115-118 | `int(size / 1.5 GiB * 1e9)` is the integer r with `r·3 GiB <= size·2e9 < (r+1)·3 GiB` |
| Hardware.DashPatternsSubsumed | spam_filter/hardware_calculator.py:21-24 | the second and third name patterns only match where the first matches the same number, so they never change the estimate |
| Hardware.EstimatePlainExample | spam_filter/hardware_calculator.py:101-108 | "Llama 2 7b Chat" is read as 7e9 parameters |
| Hardware.EstimateUnderscoreExample | spam_filter/hardware_calculator.py:101-108 | "x_1.5B_q" is read as 1.5e9 parameters, through the underscore-delimited pattern |
| Hardware.DefaultProfile | spam_filter/hardware_calculator.py:246-274 | the fallback gives 8 cores, a GPU, and the configured OS list. Its RAM is the smallest of 8, 16 and 32 GiB that covers three times the size (counted as at least 1 GiB), or 64 when none does. A missing or non-positive size gives 8 |
| Hardware.DefaultRamMonotone | spam_filter/hardware_calculator.py:251-266 | a larger file never falls back to less RAM |
| Hardware.CalculateRequirements | spam_filter/hardware_calculator.py:28-85 | only the hardware fields change. A missing or negative size takes the fallback profile. Otherwise the profile is RAM, CPU and GPU from the three calculators plus the configured OS list |
| Hardware.ProfileInRange | spam_filter/hardware_calculator.py:67-68 | every computed profile has its RAM on the RAM ladder and its cores on the core ladder |
| Classifier.IsFinetuned | spam_filter/classifier.py:45-73 | a model counts as fine-tuned exactly when either of these holds: a configured pattern occurs as a whole word in the lower-cased name or link; or the name contains codellama with instruct or chat; or a fixed indicator occurs anywhere in the name or link |
| Classifier.AnyPatternWord | spam_filter/classifier.py:49-51 | the pattern loop answers true exactly when some configured pattern is a whole word of the name or the link |
| Classifier.SupportIsFinetuned | spam_filter/classifier.py:58-71 | any name containing "support" is fine-tuned (it contains the indicator "ppo"), so it is never a base model |
| Classifier.IsBaseModel | spam_filter/classifier.py:75-112 | a model is a base model exactly when it is not fine-tuned; every later branch returns true |
| Classifier.CutAtFirstWord | spam_filter/classifier.py:130-131 | on a single line, a pattern's removal cuts the text at the pattern's first whole-word occurrence |
| Classifier.CutWithoutWord | spam_filter/classifier.py:130-131 | a pattern that is not a whole word of the text leaves it unchanged |
| Classifier.CollapseKeepsText | spam_filter/classifier.py:139 | collapsing whitespace keeps every non-space character, in order |
| Classifier.PunctFree | spam_filter/classifier.py:140 | the punctuation pass leaves no character outside letters, digits, underscore, whitespace and hyphen |
| Classifier.GetBaseModelGroup | spam_filter/classifier.py:124-146 | the group key is lower-case, non-empty for a non-empty name, and built from the lower-cased name's characters. When the cleaned key is empty the key is the lower-cased name; otherwise it is the cleaned key, which has no punctuation |
| Classifier.GroupBeforeFinetuneWord | spam_filter/classifier.py:129-146 | for a one-line name in which a word-character fine-tune pattern first occurs as a whole word at position i, a non-empty cleaned key draws its characters only from the name before i, and its non-space text is a subsequence of the non-space text before i: that word and everything after it are cut off, and nothing is reordered |
| Classifier.CleanGroupKeepsOrder | spam_filter/classifier.py:129-143 | the removal passes, the whitespace collapse, the strip and the punctuation removal only drop characters: the key's non-space text is a subsequence of the cut name's non-space text |
| Classifier.CleanGroupWithin | spam_filter/classifier.py:129-143 | when the finetune cut leaves a prefix of t, the cleaned key's non-space text is a subsequence of t's |
| Classifier.CutPatternsAtWord | spam_filter/classifier.py:130-131 | after the pattern cuts, a one-line name in which a word-character pattern first occurs as a whole word at position i is a prefix of the name before i |
| Classifier.CutPatternsCut | spam_filter/classifier.py:130-131 | the pattern cuts leave a prefix of a one-line name that ends at a word boundary or at the end |
| Classifier.CutPatternsNone | spam_filter/classifier.py:130-131 | a name in which no pattern occurs as a whole word is left as it is |
| Classifier.ExtractModelSize | spam_filter/classifier.py:158-172 | there is no size exactly when none of the three size patterns matches the lower-cased name. A size starts with a digit and occurs in the name. When the unit pattern matches, the size ends in b or m |
| Classifier.SizeIsLeftmostUnitGroup | spam_filter/classifier.py:162-170 | when `\b(\d+\.?\d*[bm])\b` matches the lower-cased name, the size is exactly its leftmost match |
| Classifier.SizeIsLeftmostBillionGroup | spam_filter/classifier.py:163-170 | when the unit pattern matches nowhere and `\b(\d+\.?\d*)\s*billion\b` matches, the size is exactly the number group of its leftmost match |
| Classifier.SizeIsLeftmostMillionGroup | spam_filter/classifier.py:164-170 | when neither earlier pattern matches and `\b(\d+\.?\d*)\s*million\b` matches, the size is exactly the number group of its leftmost match |
| Classifier.SizeExample | spam_filter/classifier.py:150 | `Llama-2-13B-chat` has size `13b`, not the `2` or `3b` inside it |
| Selector.SelectVariantsForGroup | spam_filter/quantization_selector.py:28-47 | a given base comes first. Every other selected file reaches the minimum size, comes from the input, and the sizes do not increase. When no file reaches the minimum, the result is exactly the base, or empty |
| Selector.SelectLarge | spam_filter/quantization_selector.py:34-45 | the greedy pass keeps only large-enough input files, largest first. When any file is large enough, the largest of them is kept first |
| Selector.SelectWithoutCandidates | spam_filter/quantization_selector.py:30-40 | with every variant below the minimum size, only the base, if any, is returned |
| Selector.LargestAlwaysSelected | spam_filter/quantization_selector.py:42-47 | without a base, the largest file of at least the minimum size is always selected first |
| Selector.FilterQuantizedVariants | spam_filter/quantization_selector.py:61-70 | the kept files are a subsequence of the input, and the first file is always kept |
| Selector.FilterIsGreedy | spam_filter/quantization_selector.py:64-70 | each kept file is accepted by the keep rule against the files kept before it, and each file left out is refused against the files kept before it |
| Selector.FilterGreedyUnique | spam_filter/quantization_selector.py:64-70 | any picks from the input with that property are exactly the pass's result |
| Selector.FilterIsWalk | spam_filter/quantization_selector.py:64-70 | the pass is the generic greedy walk under the keep rule |
| Greedy.PicksUnique | spam_filter/quantization_selector.py:64-70 | for any keep rule, greedy picks from a list are unique and equal the walk's result |
| Selector.FilterKeepsSizeOrder | spam_filter/quantization_selector.py:64-70 | a size-descending input yields a size-descending selection |
| Selector.LowDownloadsRejected | spam_filter/quantization_selector.py:88-95 | below the floor and without the trusted bypass, a file is rejected |
| Selector.SizeDropIff | spam_filter/quantization_selector.py:123-132 | for a positive last size, the drop counts exactly when the current size is below last × (1 − threshold) |
| Selector.DownloadThresholdMonotone | spam_filter/quantization_selector.py:158-164 | meeting a download threshold implies meeting every lower one |
| Selector.ExtractUploader | spam_filter/quantization_selector.py:176-191 | the uploader is the owner segment of the page link when it has one. Otherwise it is the owner segment of a non-CDN download link |
| Selector.CdnLinkIgnored | spam_filter/quantization_selector.py:184-191 | a CDN download link is never consulted |
| Selector.LinkOwnerOfHubLink | spam_filter/quantization_selector.py:179-182 | the owner of "https://huggingface.co/owner/..." is that owner, for a non-empty, slash-free owner |
| Selector.TrustedIff | spam_filter/quantization_selector.py:144-145 | trust means a case-insensitive match of the uploader against some configured name |
| Selector.TrustedByHubLink | spam_filter/quantization_selector.py:134-145 | an entry whose page link is owned by a configured uploader, in any case, is trusted |
| Selector.NameUploader | spam_filter/quantization_selector.py:193-209 | a name-derived uploader is plausible: longer than two characters and not an article. It is the name's leading segment or its first capitalised word before a dash |
| Selector.IsDifferentQuantizationFamily | spam_filter/quantization_selector.py:222-253 | an unrecognised format always counts as a new family. Otherwise a format is new exactly when no kept file's format lies in the same family |
| Selector.FamilyOf | spam_filter/quantization_selector.py:237-242 | a family found contains the format's prefix; none found means no family matches |
| Selector.QuantizationPriority | spam_filter/quantization_selector.py:265-281 | an unknown format gets 999. A known format gets its position in the 17-entry order |
| Selector.PriorityIgnoresCase | spam_filter/quantization_selector.py:265-281 | lower-casing a format does not change its priority |
| Selector.PriorityOfTableEntry | spam_filter/quantization_selector.py:268-279 | the k-th listed format gets priority k, so F16 gets 0 |
| Sorting.SortDescPermutes | spam_filter/quantization_selector.py:43 | the descending sort is a permutation |
| Sorting.SortDescSorted | spam_filter/quantization_selector.py:43 | the sort's keys do not increase |
| Sorting.SortDescStable | spam_filter/quantization_selector.py:43 | entries with equal keys keep their relative order |
| Sorting.SortDescMembers | spam_filter/quantization_selector.py:43 | every element of the sorted list comes from the input |
| Extraction.HasGgufFiles | spam_filter/engine.py:196-202 | with every sibling readable, the answer is whether some file name ends in .gguf, case-insensitively. An unreadable sibling makes the check fail |
| Extraction.GetGgufFiles | spam_filter/engine.py:204-210 | the files are exactly the .gguf siblings, in sibling order, when all siblings are readable |
| Extraction.HasIffGet | spam_filter/engine.py:196-210 | the "has" test is true exactly when the "get" list is non-empty |
| Extraction.Convert | spam_filter/engine.py:212-253 | conversion succeeds exactly when the id is not null and the size is present. It carries the size over and no hardware profile |
| Extraction.ConvertFields | spam_filter/engine.py:237-249 | the converted entry carries the defaults: "Not specified" licence; the listing's downloads, likes and creation date; the page link; and a download link built from it |
| Extraction.DownloadLink | spam_filter/engine.py:235 | the download link is the page link, then "/resolve/main/", then the file name |
| Extraction.ConvertedUploader | spam_filter/engine.py:232-235 | the selector reads the listing's owner back from a converted entry |
| Extraction.ConvertAllShape | spam_filter/engine.py:181-188 | no more entries than files. None for a null id. One per file when the id is present and every size is known. Never a hardware profile |
| Extraction.ExtractOne | spam_filter/engine.py:172-192 | a listing whose scan fails adds exactly one error and no entry. Otherwise its entries are the conversions of its .gguf files |
| Extraction.ErrorsPerFailure | spam_filter/engine.py:190-192 | the errors number exactly the failing listings |
| Extraction.ExtractAppend | spam_filter/engine.py:168-194 | extraction of a concatenation is the concatenation of the extractions, entries and errors alike |
| Extraction.ExtractQuantizationFormat | spam_filter/engine.py:263-281 | the label is the first table entry found in the lower-cased name, else Unknown |
| Extraction.Bf16FileIsBf16 | spam_filter/engine.py:267-279 | a name containing bf16 is labelled BF16 |
| Extraction.F16FileIsF16 | spam_filter/engine.py:267-279 | a name containing f16 but not bf16 is labelled F16 |
| Extraction.ExtractModelType | spam_filter/engine.py:283-298 | the type is the first table entry that is a whole word of the lower-cased "id filename", else Unknown |
| Extraction.ExtractModelNameShape | spam_filter/engine.py:255-261 | the display name has the length of the tag-stripped last id segment. Up to case, it equals that segment with - and _ turned into spaces |
| Extraction.SplitJoinCase | spam_filter/engine.py:260 | splitting on - and _ and rejoining capitalised words with spaces only changes case and separators |
| Grouping.GroupByIsGrouping | spam_filter/engine.py:336-344 | grouping puts every element in exactly one group under its key. Group names are distinct and no group is empty. Each group holds its members in input order |
| Grouping.GroupByTotal | spam_filter/engine.py:336-344 | the group sizes add up to the number of elements |
| Grouping.MembersFromInput | spam_filter/engine.py:338-344 | the members listed under a key are input elements carrying that key |
| Engine.AddGroupStats | spam_filter/engine.py:52-58 | the group's entry records original, kept and original − kept. Other groups and all other report fields are unchanged |
| Engine.CalculateTotals | spam_filter/engine.py:60-62 | kept plus removed equals processed; nothing else changes |
| Engine.SiftFilters | spam_filter/engine.py:311-334 | the counting loop keeps exactly the passing entries in order, and counts exactly the others |
| Engine.RemoveSmallModels | spam_filter/engine.py:311-322 | exactly the entries of at least the minimum size are kept, in order, and the removal count is the rest |
| Engine.RemoveFinetunedModels | spam_filter/engine.py:324-334 | exactly the entries that are not fine-tuned are kept, in order, and the removal count is the rest |
| Engine.GroupModelsByBase | spam_filter/engine.py:336-344 | the groups partition the entries by their base-model key, in order, and their sizes sum to the input length |
| Engine.LargestIndex | spam_filter/engine.py:367 | max picks a largest entry, and the first one on ties |
| Engine.PickBase | spam_filter/engine.py:364-368 | a base exists exactly when some member is F16/BF16 or named "base". It is such a member, and no other such member is larger. It is the first of the largest: every such member before it is strictly smaller |
| Engine.ProcessGroup | spam_filter/engine.py:353-385 | variants are the non-base members. The output is the selected variants followed by the base. Every output entry is a member |
| Engine.RecordGroup | spam_filter/engine.py:366-389 | the counters grow by the base kept, the variants kept and the variants removed. The trusted counter grows by the number of selected files from trusted uploaders. The group's stat is (original, kept, original − kept). Nothing else changes |
| Engine.CountGroup | spam_filter/engine.py:366-381 | the same counter updates as the previous row, before the group line is written; the group lines are unchanged |
| Engine.VariantsOutput | spam_filter/engine.py:346-391 | the group stage returns no more entries than it was given, each from some group |
| Engine.VariantsStats | spam_filter/engine.py:387-389 | every group gets a stat entry, and consistent stats stay consistent |
| Engine.VariantsCounters | spam_filter/engine.py:366-381 | the base counter grows by the number of groups with a base, and only the four group counters and the stats change |
| Engine.AddHardwareRequirements | spam_filter/engine.py:393-406 | the same entries in the same order, each with a profile and otherwise unchanged |
| Engine.FailureResult | spam_filter/engine.py:154-166 | a failed run returns no models, removes everything processed, appends one error and is not a success |
| Engine.FilterModelsCounts | spam_filter/engine.py:99-152 | the original count is the extracted count. The filtered count is the output length. The removed count is the difference. The report's totals agree, and the small-file and fine-tune removals plus the survivors add up to the original count |
| Engine.FilterModelsOutputs | spam_filter/engine.py:107-137 | every output entry has a profile, comes from extraction, reaches the minimum size and is not fine-tuned |
| Engine.SurvivorsClean | spam_filter/engine.py:311-334 | an entry left after both filters is an input entry of at least the minimum size that is not fine-tuned |
| Engine.SuccessIff | spam_filter/engine.py:77-80 | a run succeeds exactly when extraction reported no error and some model survived |
| Engine.EmptyBatchFails | spam_filter/engine.py:77-80 | an empty batch yields no models and is not a success |
| Engine.NothingExtractedNothingKept | spam_filter/engine.py:99-152 | a batch from which no entry is extracted keeps nothing and is not a success |
| Fetcher.DeduplicateModels | scripts/simplified_gguf_fetcher.py:99-107 | the merge loop keeps the first model of each id, in input order. No id is repeated and every input id survives |
| Fetcher.DedupFirst | scripts/simplified_gguf_fetcher.py:99-107 | every kept model is the first in the input with its id |
| Fetcher.CapCount | scripts/simplified_gguf_fetcher.py:438-454 | a negative count gives 0 and one above ten million is capped. In-range counts are unchanged |
| Fetcher.CapReal | scripts/simplified_gguf_fetcher.py:438-454 | a negative float gives 0. Otherwise the value is truncated towards zero and capped |
| Fetcher.ValidateEngagementMetric | scripts/simplified_gguf_fetcher.py:413-463 | the result is always in [0, 10^7]. null, lists and objects give 0. Integers and floats are clamped as above |
| Fetcher.ValidateIdempotent | scripts/simplified_gguf_fetcher.py:413-463 | sanitising a sanitised count changes nothing |
| Fetcher.NullStringsAreZero | scripts/simplified_gguf_fetcher.py:420-423 | a blank string, or "null", "none" or "n/a" in any case, gives 0 |
| Fetcher.ScanSiblings | scripts/simplified_gguf_fetcher.py:604-609 | the scan fails exactly when some object sibling has a non-string name. Otherwise it succeeds, and it finds a .gguf file exactly when one is present |
| Fetcher.ClassifyKeepIff | scripts/simplified_gguf_fetcher.py:590-616 | a listing is kept exactly when its siblings are a non-empty list with a readable scan that finds a .gguf name |
| Fetcher.FilterGgufModels | scripts/simplified_gguf_fetcher.py:576-631 | the loop keeps exactly those listings, in order. Kept, no-sibling and no-gguf counts add up to the input length |
| Fetcher.ExtractModelName | scripts/simplified_gguf_fetcher.py:908-909 | an empty id gives "Unknown Model" |
| Fetcher.ExtractModelNameShape | scripts/simplified_gguf_fetcher.py:908-921 | the name is single-spaced. Its words are the capitalised words of the last id segment, with - and _ read as spaces |
| Fetcher.SplitJoin | scripts/simplified_gguf_fetcher.py:919 | splitting a space-joined list of words gives back the words |
| Fetcher.QuantLabelOccurs | scripts/simplified_gguf_fetcher.py:933-952 | the label is Unknown, or a listed pattern that occurs in the upper-cased name |
| Fetcher.NeverBf16 | scripts/simplified_gguf_fetcher.py:940-949 | the fetcher never labels a file BF16 |
| Fetcher.Bf16FileIsF16 | scripts/simplified_gguf_fetcher.py:940-949 | a bf16 file with no earlier pattern in its name is labelled F16 |
| Fetcher.MoveMissAhead | scripts/simplified_gguf_fetcher.py:947-949 | moving a pattern that does not occur ahead of two others does not change the first-match label |
| Fetcher.CorrectedBf16 | scripts/simplified_gguf_fetcher.py:940-949 | with BF16 tried before F16, a bf16 file with no earlier pattern is labelled BF16 |
| Fetcher.CorrectedAgreesOtherwise | scripts/simplified_gguf_fetcher.py:940-949 | the corrected table labels every name without BF16 exactly as the original does |
| Fetcher.InferModelType | scripts/simplified_gguf_fetcher.py:965-1015 | an empty id gives Unknown. An id matching some pattern gets the first matching type, in table order. Otherwise the first type matching a tag, else Unknown |
| Fetcher.CodeLlamaIdIsLlama | scripts/simplified_gguf_fetcher.py:973-1005 | any id containing "codellama" is typed LLaMA, because llama comes first |
| Fetcher.TagsIgnoredWhenIdMatches | scripts/simplified_gguf_fetcher.py:1002-1005 | when the id matches, the tags make no difference |
| Fetcher.GetLicense | scripts/simplified_gguf_fetcher.py:1027-1056 | the licence is "Not specified", or non-empty with no surrounding whitespace |
| Fetcher.LicenseFromLicense | scripts/simplified_gguf_fetcher.py:1031-1048 | a non-blank license string is returned stripped |
| Fetcher.LicenseFromLicenseName | scripts/simplified_gguf_fetcher.py:1033-1048 | with license falsy, a non-blank license_name is returned stripped |
| Fetcher.LicenseFromMetadata | scripts/simplified_gguf_fetcher.py:1037-1048 | with both falsy, a non-blank metadata license is returned stripped |
| Fetcher.BlankLicenseStops | scripts/simplified_gguf_fetcher.py:1044-1056 | a whitespace-only license string is truthy, so the later fields are not tried and the answer is "Not specified" |
| Fetcher.LicenseFromList | scripts/simplified_gguf_fetcher.py:1049-1053 | a list licence gives its first non-blank string, stripped |
| Fetcher.GenerateLinks | scripts/simplified_gguf_fetcher.py:1104-1116 | an empty id gives two empty links. An empty file name gives an empty download link. Otherwise the page link is under the hub root |
| Fetcher.LinksMatchEngine | scripts/simplified_gguf_fetcher.py:1108-1112 | the fetcher's links are the ones the engine builds |
| Fetcher.GeneratedLinkOwner | scripts/simplified_gguf_fetcher.py:1108 | the selector reads the owner of "owner/repo" back from the generated page link |
| Fetcher.Sanitize | scripts/simplified_gguf_fetcher.py:780-792 | each entry's like count is replaced by its sanitised value, and nothing else changes |
| Fetcher.SanitizedLikesValidate | scripts/simplified_gguf_fetcher.py:782-784 | the stored like count is the engagement sanitiser applied to the entry's like count |
| Fetcher.OutputSorted | scripts/simplified_gguf_fetcher.py:797-801 | the output records come by download count, then like count, highest first |
| Fetcher.OutputStable | scripts/simplified_gguf_fetcher.py:799-801 | records with equal keys keep their input order |
| Fetcher.OutputPermutes | scripts/simplified_gguf_fetcher.py:799-834 | the sort is a permutation of the sanitised entries. Every projected entry appears in the output. Every like count is within the cap |
| Fetcher.Project | scripts/simplified_gguf_fetcher.py:807-834 | the projected hardware fields are the entry's profile, or the defaults when it has none |
| Fetcher.ProjectDefaults | scripts/simplified_gguf_fetcher.py:828-831 | an entry without a profile gets RAM 8, 4 cores, a GPU and the three operating systems |
| ModelData.ValidateModelData | spam_filter/__init__.py:85-93 | a non-list gives exactly "Model data must be a list". An empty list gives exactly "Model data is empty" |
| ModelData.FieldErrors | spam_filter/__init__.py:104-108 | no required-field message exactly when every required field is present and truthy |
| ModelData.ModelErrorsEmpty | spam_filter/__init__.py:99-115 | a record draws no message exactly when it is well formed. That means it is an object with truthy modelName, fileSize and quantFormat, a numeric fileSize, and a numeric downloadCount if one is present |
| ModelData.ValidIff | spam_filter/__init__.py:95-117 | a non-empty list passes exactly when each of its first ten records is well formed |
| ModelData.OnlyFirstTen | spam_filter/__init__.py:98 | records after the tenth never change the outcome |
| ModelData.ZeroSizeReported | spam_filter/__init__.py:104-108 | a zero fileSize among the first ten records is reported as an empty required field |

## Findings

| source | as written | input that shows it | evidently intended | confidence | as-written member | corrected member |
|---|---|---|---|---|---|---|
| scripts/simplified_gguf_fetcher.py:940-949 | `F16` is tried before `BF16`, and every name containing BF16 contains F16, so the listed `BF16` pattern can never be returned | the file name "model.BF16.gguf" is labelled F16 | BF16 tried before F16, as the engine's table does (spam_filter/engine.py:268) | medium, not executed | Fetcher.NeverBf16 | Fetcher.CorrectedBf16 |

The corrected table is `Fetcher.CorrectedQuantPatterns`. `Fetcher.CorrectedAgreesOtherwise` proves that it changes only the label of bf16 files.

## Left out

- Hub access (`HfApi`, the recent/top listings, the threaded detail fetch), all file reading and writing, the backup manager, the CLI, logging and the test runner are not part of this model: they are I/O and plumbing.
- `_format_file_size` (both copies) and the engine's `generate_report` are left out: they format floats as text. The engine's entries and the fetcher's output records therefore carry no `fileSizeFormatted` field.
- `processing_time_seconds` is left out because it reads the wall clock.
- Python's `float()` on strings is a parameter `parse` of `Fetcher.ValidateEngagementMetric`. That parameter also covers NaN and the infinities, which the model reads as "no value"; the model has no floating point.
- Case mapping, `\w`, `\s` and `\d` are ASCII only; Python's Unicode case mapping and classes are not modelled.
- Exception texts inside error messages are not modelled. An extraction error is the listing's id with a fixed message, and `Engine.FailureResult` appends one fixed message.
- Engine.FilterModels: the typed model cannot raise after extraction, so a run never takes the exception path of `filter_models`. That path is the separate `Engine.FailureResult`.
- Engine.RemoveSmallModels: requires every entry to have a size. A null size makes the source raise; extraction never produces one, because conversion drops a file whose size is null.
- Selector.KeepReasons: a null `downloadCount` is read as 0 in the family escape, where the source raises a `TypeError` when it compares `None` with a number. This only matters when `min_downloads` is 0 or less.
- Fetcher.OutputSorted: a null `downloadCount` sorts as 0, where the source's tuple comparison would raise.
- Fetcher.FilterGgufModels: requires every listing to be a JSON object, because the source's `except` handler calls `model.get` again and would itself raise on a non-object.
- Fetcher.DeduplicateModels: the id is a parameter function, so the source's `try/except` around objects without `.id` is not modelled.
- Fetcher.InferModelType: `tags` of `None` is modelled as the empty list, and non-string tags (which raise) are not representable.
- Fetcher.ExtractModelName: has only the empty-id case as its own contract; its shape is stated by `Fetcher.ExtractModelNameShape`.
- Selector.HasSignificantSizeDrop: reads `1.0 - current / last > threshold` as exact real arithmetic. Python computes it in binary floating point, so the two can differ at the boundary. With current 95, last 100 and threshold 0.05, Python gets 0.050000000000000044 and keeps the file; the model gets exactly 0.05 and refuses it. The RAM, core and GPU ladders in `Hardware` compare exact GiB quotients with their bounds in the same way.
- Classifier.IsFinetuned: configured fine-tune patterns are matched as literal words. The source puts them unescaped into a regular expression, so a configured pattern with regex metacharacters means something else there. The default patterns are plain words, where the two readings agree. The same holds for the pattern cuts of `Classifier.GetBaseModelGroup`.
- Classifier.GroupBeforeFinetuneWord: stated only for one-line names and patterns of word characters. The source's `.*` stops at a newline, and a pattern ending in punctuation can lose its closing word boundary when an earlier pattern's cut removes the word after it (patterns `chat` then `x-` on `x-chat` leave `x-`).
- Hardware.EstimateParameters: the name patterns' decimal numbers are read exactly as decimals. `int(float(x) * 1e9)` rounding through binary floating point is not modelled.
