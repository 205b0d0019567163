/**
 * The filter configuration: thresholds, vocabularies and hardware-estimation
 * constants read by every other component, with its self-validation.
 */
module Config {
  import opened Seqs

  datatype FilterConfig = FilterConfig(
    // size filtering
    minSizeBytes: int,
    sizeDropThreshold: real,
    // popularity
    minDownloads: int,
    trustedUploaders: seq<string>,
    // fine-tune vocabulary (whole words, matched case-insensitively)
    finetunePatterns: seq<string>,
    // system switches
    backupEnabled: bool,
    detailedLogging: bool,
    // hardware estimation
    ramMultiplier: real,
    quantizationRamReduction: real,
    smallModelThreshold: int,
    mediumModelThreshold: int,
    largeModelThreshold: int,
    gpuRequiredThreshold: int,
    defaultOsSupport: seq<string>)

  /** The configuration a `FilterConfig()` with no arguments holds. */
  function DefaultConfig(): FilterConfig {
    FilterConfig(
      minSizeBytes := 100 * 1024 * 1024,
      sizeDropThreshold := 0.05,
      minDownloads := 100,
      trustedUploaders := [
        "TheBloke", "lmstudio", "ggml-org", "koboldai",
        "NousResearch", "abacaj", "OpenAccessAI", "microsoft",
        "meta-llama", "mistralai", "google", "anthropic"],
      finetunePatterns := [
        "instruct", "chat", "code", "alpaca", "vicuna", "wizard",
        "orca", "dolphin", "airoboros", "guanaco", "openassistant",
        "uncensored", "roleplay", "storytelling", "creative",
        "assistant", "helpful", "harmless", "honest"],
      backupEnabled := true,
      detailedLogging := true,
      ramMultiplier := 2.0,
      quantizationRamReduction := 0.3,
      smallModelThreshold := 2_000_000_000,
      mediumModelThreshold := 7_000_000_000,
      largeModelThreshold := 13_000_000_000,
      gpuRequiredThreshold := 13_000_000_000,
      defaultOsSupport := ["Windows", "Linux", "macOS"])
  }

  const MsgMinSize := "min_size_bytes must be positive"
  const MsgSizeDrop := "size_drop_threshold must be between 0 and 1"
  const MsgMinDownloads := "min_downloads must be non-negative"
  const MsgTrusted := "trusted_uploaders list cannot be empty"
  const MsgFinetune := "finetune_patterns list cannot be empty"
  const MsgRamMultiplier := "ram_multiplier must be positive"
  const MsgRamReduction := "quantization_ram_reduction must be between 0 and 1"
  const MsgSmall := "small_model_threshold must be positive"
  const MsgMedium := "medium_model_threshold must be greater than small_model_threshold"
  const MsgLarge := "large_model_threshold must be greater than medium_model_threshold"
  const MsgGpu := "gpu_required_threshold must be positive"
  const MsgOs := "default_os_support list cannot be empty"

  /** Every message `Validate` can report, in the order it checks them. */
  const AllMessages: seq<string> := [
    MsgMinSize, MsgSizeDrop, MsgMinDownloads, MsgTrusted, MsgFinetune,
    MsgRamMultiplier, MsgRamReduction, MsgSmall, MsgMedium, MsgLarge,
    MsgGpu, MsgOs]

  /** The constraints a usable configuration meets. */
  predicate Valid(c: FilterConfig) {
    && c.minSizeBytes > 0
    && 0.0 < c.sizeDropThreshold < 1.0
    && c.minDownloads >= 0
    && |c.trustedUploaders| > 0
    && |c.finetunePatterns| > 0
    && c.ramMultiplier > 0.0
    && 0.0 <= c.quantizationRamReduction <= 1.0
    && 0 < c.smallModelThreshold < c.mediumModelThreshold < c.largeModelThreshold
    && c.gpuRequiredThreshold > 0
    && |c.defaultOsSupport| > 0
  }

  /** Which of the checks, in check order, the configuration passes. */
  function Checks(c: FilterConfig): (oks: seq<bool>)
    ensures |oks| == |AllMessages|
  {
    [ c.minSizeBytes > 0,
      0.0 < c.sizeDropThreshold < 1.0,
      c.minDownloads >= 0,
      |c.trustedUploaders| > 0,
      |c.finetunePatterns| > 0,
      c.ramMultiplier > 0.0,
      0.0 <= c.quantizationRamReduction <= 1.0,
      c.smallModelThreshold > 0,
      c.mediumModelThreshold > c.smallModelThreshold,
      c.largeModelThreshold > c.mediumModelThreshold,
      c.gpuRequiredThreshold > 0,
      |c.defaultOsSupport| > 0 ]
  }

  /** The messages of the failed checks, in order. */
  function Collect(oks: seq<bool>, msgs: seq<string>): (r: seq<string>)
    requires |oks| == |msgs|
    ensures |r| <= |msgs|
    ensures r == [] <==> forall k :: 0 <= k < |oks| ==> oks[k]
  {
    if oks == [] then []
    else (if oks[0] then [] else [msgs[0]]) + Collect(oks[1..], msgs[1..])
  }

  predicate Distinct(msgs: seq<string>) {
    forall i, j :: 0 <= i < j < |msgs| ==> msgs[i] != msgs[j]
  }

  /** With distinct messages, a message is reported exactly when its check fails. */
  lemma {:induction false} CollectReports(oks: seq<bool>, msgs: seq<string>, k: nat)
    requires |oks| == |msgs| && Distinct(msgs) && k < |msgs|
    ensures msgs[k] in Collect(oks, msgs) <==> !oks[k]
  {
    var rest := Collect(oks[1..], msgs[1..]);
    assert Collect(oks, msgs) == (if oks[0] then [] else [msgs[0]]) + rest;
    if k == 0 {
      CollectFrom(oks[1..], msgs[1..]);
      assert msgs[0] !in msgs[1..];
    } else {
      CollectReports(oks[1..], msgs[1..], k - 1);
      assert msgs[k] != msgs[0];
    }
  }

  /** Every collected message is one of the given messages. */
  lemma {:induction false} CollectFrom(oks: seq<bool>, msgs: seq<string>)
    requires |oks| == |msgs|
    ensures forall m :: m in Collect(oks, msgs) ==> m in msgs
  {
    if oks != [] {
      CollectFrom(oks[1..], msgs[1..]);
    }
  }

  /** The collected messages appear in the order of the checks. */
  lemma {:induction false} CollectOrdered(oks: seq<bool>, msgs: seq<string>)
    requires |oks| == |msgs|
    ensures IsSubseq(Collect(oks, msgs), msgs)
  {
    if oks == [] {
      SubseqEmpty(msgs);
    } else {
      var rest := Collect(oks[1..], msgs[1..]);
      CollectOrdered(oks[1..], msgs[1..]);
      SubseqCons(rest, msgs[1..], msgs[0]);
      assert [msgs[0]] + msgs[1..] == msgs;
      if oks[0] {
        assert Collect(oks, msgs) == rest;
      } else {
        assert Collect(oks, msgs) == [msgs[0]] + rest;
      }
    }
  }

  /** Each validation message is different from the others. */
  lemma AllMessagesDistinct()
    ensures Distinct(AllMessages)
  {
  }

  /** A configuration is valid exactly when it passes every check. */
  lemma ValidIffChecksPass(c: FilterConfig)
    ensures Valid(c) <==> forall k :: 0 <= k < |Checks(c)| ==> Checks(c)[k]
  {
    var oks := Checks(c);
    assert Valid(c) <==> (oks[0] && oks[1] && oks[2] && oks[3] && oks[4] && oks[5]
                          && oks[6] && oks[7] && oks[8] && oks[9] && oks[10] && oks[11]);
  }

  /** `FilterConfig.validate`: one message per failed check, in check order. */
  function Validate(c: FilterConfig): (errors: seq<string>)
    ensures errors == [] <==> Valid(c)
    ensures |errors| <= |AllMessages|
    ensures IsSubseq(errors, AllMessages)
  {
    ValidIffChecksPass(c);
    CollectOrdered(Checks(c), AllMessages);
    Collect(Checks(c), AllMessages)
  }

  /** A message per constraint of the source, each reported exactly when its check fails. */
  lemma ValidateReportsEachFailure(c: FilterConfig)
    ensures MsgMinSize in Validate(c) <==> c.minSizeBytes <= 0
    ensures MsgSizeDrop in Validate(c) <==> !(0.0 < c.sizeDropThreshold < 1.0)
    ensures MsgMinDownloads in Validate(c) <==> c.minDownloads < 0
    ensures MsgTrusted in Validate(c) <==> c.trustedUploaders == []
    ensures MsgFinetune in Validate(c) <==> c.finetunePatterns == []
    ensures MsgRamMultiplier in Validate(c) <==> c.ramMultiplier <= 0.0
    ensures MsgRamReduction in Validate(c) <==> !(0.0 <= c.quantizationRamReduction <= 1.0)
    ensures MsgSmall in Validate(c) <==> c.smallModelThreshold <= 0
    ensures MsgMedium in Validate(c) <==> c.mediumModelThreshold <= c.smallModelThreshold
    ensures MsgLarge in Validate(c) <==> c.largeModelThreshold <= c.mediumModelThreshold
    ensures MsgGpu in Validate(c) <==> c.gpuRequiredThreshold <= 0
    ensures MsgOs in Validate(c) <==> c.defaultOsSupport == []
  {
    Reports(c, 0);
    Reports(c, 1);
    Reports(c, 2);
    Reports(c, 3);
    Reports(c, 4);
    Reports(c, 5);
    Reports(c, 6);
    Reports(c, 7);
    Reports(c, 8);
    Reports(c, 9);
    Reports(c, 10);
    Reports(c, 11);
  }

  /** The `k`-th message is reported exactly when the `k`-th check fails. */
  lemma Reports(c: FilterConfig, k: nat)
    requires k < |AllMessages|
    ensures AllMessages[k] in Validate(c) <==> !Checks(c)[k]
  {
    AllMessagesDistinct();
    CollectReports(Checks(c), AllMessages, k);
  }

  /** The shipped defaults pass validation. */
  lemma DefaultConfigIsValid()
    ensures Valid(DefaultConfig())
    ensures Validate(DefaultConfig()) == []
  {
  }
}
