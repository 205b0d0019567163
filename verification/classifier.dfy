/**
 * The model classifier: whether an entry is a finetune, which base-model
 * group it belongs to, and the size tag in its name.
 *
 * Names and links are lower-cased before any test. A configured finetune
 * pattern is searched as a whole word (`\bpattern\b`, case-insensitively);
 * the built-in indicators are plain substrings, so `ppo` is found inside
 * `support`.
 */
module Classifier {
  import opened Wrappers
  import opened Seqs
  import opened Text
  import opened Rewrite
  import opened Records
  import opened Config

  // ---------------------------------------------------------------------
  // Finetune detection
  // ---------------------------------------------------------------------

  /** Substrings that mark a finetune wherever they occur in the name or link. */
  const FinetuneIndicators: seq<string> := [
    "dpo", "rlhf", "sft", "ppo",
    "medical", "legal", "finance", "science",
    "chinese", "japanese", "korean", "german", "french",
    "orca", "wizard"
  ]

  /** Some pattern occurs as a whole word, ignoring case, in the lower-cased name or link. */
  ghost predicate SomePatternWord(ps: seq<string>, name: string, link: string) {
    exists k :: 0 <= k < |ps| && (ContainsWord(name, ToLower(ps[k])) || ContainsWord(link, ToLower(ps[k])))
  }

  /** Some indicator occurs as a substring of the name or link. */
  ghost predicate SomeIndicator(ins: seq<string>, name: string, link: string) {
    exists k :: 0 <= k < |ins| && (Contains(name, ins[k]) || Contains(link, ins[k]))
  }

  /** The patterns tried in order, each with a whole-word search of name and link. */
  function AnyPatternWord(ps: seq<string>, name: string, link: string): (r: bool)
    ensures r <==> SomePatternWord(ps, name, link)
  {
    if ps == [] then false
    else
      var p := ToLower(ps[0]);
      FindWordFromContainsWord(name, p);
      FindWordFromContainsWord(link, p);
      if FindWordFrom(name, p, 0).Some? || FindWordFrom(link, p, 0).Some? then true
      else
        var r := AnyPatternWord(ps[1..], name, link);
        assert SomePatternWord(ps, name, link) <==> SomePatternWord(ps[1..], name, link) by {
          if SomePatternWord(ps, name, link) {
            var k :| 0 <= k < |ps| && (ContainsWord(name, ToLower(ps[k])) || ContainsWord(link, ToLower(ps[k])));
            assert k != 0;
            assert ps[1..][k - 1] == ps[k];
          }
          if SomePatternWord(ps[1..], name, link) {
            var k :| 0 <= k < |ps[1..]| && (ContainsWord(name, ToLower(ps[1..][k])) || ContainsWord(link, ToLower(ps[1..][k])));
            assert ps[k + 1] == ps[1..][k];
          }
        }
        r
  }

  /** The indicators tried in order, each with a substring search of name and link. */
  function AnyIndicator(ins: seq<string>, name: string, link: string): (r: bool)
    ensures r <==> SomeIndicator(ins, name, link)
  {
    if ins == [] then false
    else
      FindFromContains(name, ins[0]);
      FindFromContains(link, ins[0]);
      if FindFrom(name, ins[0], 0).Some? || FindFrom(link, ins[0], 0).Some? then true
      else
        var r := AnyIndicator(ins[1..], name, link);
        assert SomeIndicator(ins, name, link) <==> SomeIndicator(ins[1..], name, link) by {
          if SomeIndicator(ins, name, link) {
            var k :| 0 <= k < |ins| && (Contains(name, ins[k]) || Contains(link, ins[k]));
            assert k != 0;
            assert ins[1..][k - 1] == ins[k];
          }
          if SomeIndicator(ins[1..], name, link) {
            var k :| 0 <= k < |ins[1..]| && (Contains(name, ins[1..][k]) || Contains(link, ins[1..][k]));
            assert ins[k + 1] == ins[1..][k];
          }
        }
        r
  }

  /** A CodeLlama name that also says instruct or chat. */
  predicate CodeLlamaRule(name: string) {
    Contains(name, "codellama") && (Contains(name, "instruct") || Contains(name, "chat"))
  }

  /** `is_finetuned`: a configured pattern as a word, the CodeLlama rule, or an indicator substring. */
  function IsFinetuned(cfg: FilterConfig, e: Entry): (r: bool)
    ensures
      var name, link := ToLower(e.modelName), ToLower(e.huggingFaceLink);
      r <==> (SomePatternWord(cfg.finetunePatterns, name, link)
              || CodeLlamaRule(name)
              || SomeIndicator(FinetuneIndicators, name, link))
  {
    var name, link := ToLower(e.modelName), ToLower(e.huggingFaceLink);
    if AnyPatternWord(cfg.finetunePatterns, name, link) then true
    else if CodeLlamaRule(name) then true
    else AnyIndicator(FinetuneIndicators, name, link)
  }

  /** Architecture names that count as base-model hints. */
  const BaseWords: seq<string> := ["llama", "mistral", "qwen", "deepseek", "phi", "gemma", "falcon", "mpt", "base", "foundation"]

  /** Substrings that count as base-model hints. */
  const BaseIndicators: seq<string> := [
    "base", "foundation", "pretrained", "raw",
    "llama-2", "llama-3", "mistral-7b", "qwen", "deepseek",
    "7b", "13b", "70b", "1b", "3b", "8b", "6.7b"
  ]

  /** `\b\d+[bm]\b` at `i`. */
  function SizeWord(s: string, i: nat): Option<nat> {
    if i < |s| && IsDigit(s[i]) && Boundary(s, i) then
      var e := DigitsEnd(s, i);
      if e < |s| && (s[e] == 'b' || s[e] == 'm') && Boundary(s, e + 1) then Some(e + 1) else None
    else None
  }

  /** The base-model hints: architecture words, a size word, or a base indicator substring. */
  predicate BaseHint(name: string, link: string) {
    || AnyPatternWord(BaseWords, name, link)
    || Search(name, SizeWord, 0).Some? || Search(link, SizeWord, 0).Some?
    || AnyIndicator(BaseIndicators, name, link)
  }

  /**
   * `is_base_model`: false for a finetune; otherwise the base hints are
   * consulted, and an entry without any hint is still taken as a base model.
   */
  function IsBaseModel(cfg: FilterConfig, e: Entry): (r: bool)
    ensures r <==> !IsFinetuned(cfg, e)
  {
    var name, link := ToLower(e.modelName), ToLower(e.huggingFaceLink);
    if IsFinetuned(cfg, e) then false
    else if BaseHint(name, link) then true
    else true
  }

  /**
   * Indicators are plain substrings, not words: any name or link containing
   * `support` carries `ppo` and is classified as a finetune.
   */
  lemma SupportIsFinetuned(cfg: FilterConfig, e: Entry)
    requires Contains(ToLower(e.modelName), "support")
    ensures IsFinetuned(cfg, e)
    ensures !IsBaseModel(cfg, e)
  {
    var name, link := ToLower(e.modelName), ToLower(e.huggingFaceLink);
    PpoInSupport(name);
    IndicatorThree(name, link);
  }

  /** `support` carries `ppo`. */
  lemma PpoInSupport(name: string)
    requires Contains(name, "support")
    ensures Contains(name, "ppo")
  {
    var i :| 0 <= i <= |name| - 7 && OccursAt(name, "support", i);
    OccursInside(name, "support", i, "ppo", 2);
  }

  /** "ppo" anywhere in the name is enough for the indicator list. */
  lemma IndicatorThree(name: string, link: string)
    requires Contains(name, "ppo")
    ensures SomeIndicator(FinetuneIndicators, name, link)
  {
    assert FinetuneIndicators[3] == "ppo";
  }

  // ---------------------------------------------------------------------
  // Base-model group key
  // ---------------------------------------------------------------------

  predicate NotNewline(c: char) { c != '\n' }

  /** `\bp\b.*`, with `p` already lower-cased: the word and the rest of its line. */
  function CutMatch(p: string): Matcher {
    (s: string, i: nat) => if WordAt(s, p, i) then Some(RunEnd(s, i + |p|, NotNewline)) else None
  }

  /** The configured patterns removed in turn, each with everything after it on its line. */
  function CutPatterns(g: string, ps: seq<string>): (r: string)
    decreases |ps|
    ensures IsSubseq(r, g)
  {
    if ps == [] then SubseqRefl(g); g
    else
      var h := Delete(g, CutMatch(ToLower(ps[0])));
      var r := CutPatterns(h, ps[1..]);
      SubseqTrans(r, h, g);
      r
  }

  /** On a single line, the first whole-word occurrence of the pattern cuts the rest away. */
  lemma CutAtFirstWord(s: string, p: string, i: nat)
    requires forall k :: 0 <= k < |s| ==> NotNewline(s[k])
    requires p != [] && FindWordFrom(s, p, 0) == Some(i)
    ensures Delete(s, CutMatch(p)) == s[..i]
  {
    var m := CutMatch(p);
    assert WordAt(s, p, i) && i + |p| <= |s|;
    RunEndAt(s, i + |p|, NotNewline, |s|);
    CutMatchApply(s, p, i);
    assert MatchesAt(s, m, i);
    forall k | 0 <= k < i ensures !MatchesAt(s, m, k) {
      assert !WordAt(s, p, k);
      CutMatchApply(s, p, k);
    }
    DeleteTail(s, m, i);
  }

  /** What the word-cut matcher returns at one offset. */
  lemma CutMatchApply(s: string, p: string, i: nat)
    ensures CutMatch(p)(s, i) == if WordAt(s, p, i) then Some(RunEnd(s, i + |p|, NotNewline)) else None
  {
  }

  /** A pattern that never occurs as a word leaves the key unchanged. */
  lemma CutWithoutWord(s: string, p: string)
    requires !ContainsWord(s, p)
    ensures Delete(s, CutMatch(p)) == s
  {
    forall k | 0 <= k < |s| ensures !MatchesAt(s, CutMatch(p), k) {
      assert !WordAt(s, p, k);
      CutMatchApply(s, p, k);
    }
    DeleteNothing(s, CutMatch(p));
  }

  /** A pattern that is not a whole word of the text cuts nothing, whichever patterns come after it. */
  lemma {:induction false} CutPatternsNone(s: string, ps: seq<string>)
    requires forall j :: 0 <= j < |ps| ==> !ContainsWord(s, ToLower(ps[j]))
    ensures CutPatterns(s, ps) == s
    decreases |ps|
  {
    if ps != [] {
      CutWithoutWord(s, ToLower(ps[0]));
      CutPatternsNone(s, ps[1..]);
    }
  }

  /** No line break anywhere: `.*` runs to the end of the text. */
  predicate SingleLine(s: string) {
    forall k :: 0 <= k < |s| ==> NotNewline(s[k])
  }

  /** A prefix of a single line is a single line. */
  lemma SingleLinePrefix(h: string, s: string)
    requires h <= s && SingleLine(s)
    ensures SingleLine(h)
  {
    forall k | 0 <= k < |h| ensures NotNewline(h[k]) {
      assert h[k] == s[k];
    }
  }

  /**
   * `r` is what a cut leaves of `s`: a prefix of `s` that is all of it or
   * stops at a word boundary of `s`.
   */
  predicate CutOf(r: string, s: string) {
    r <= s && (|r| == |s| || Boundary(s, |r|))
  }

  /** On a single line, one pattern's removal leaves a cut of the text. */
  lemma CutOnce(s: string, p: string)
    requires SingleLine(s)
    ensures CutOf(Delete(s, CutMatch(p)), s)
  {
    var m := CutMatch(p);
    match Search(s, m, 0)
    case Some(k) =>
      CutMatchApply(s, p, k);
      RunEndAt(s, k + |p|, NotNewline, |s|);
      DeleteTail(s, m, k);
    case None =>
      DeleteNothing(s, m);
  }

  /** A cut of a cut of `s` is a cut of `s`. */
  lemma CutOfTrans(r: string, h: string, s: string)
    requires CutOf(r, h) && CutOf(h, s)
    ensures CutOf(r, s)
  {
    if |r| < |h| {
      assert h == s[..|h|];
      assert |r| > 0 ==> h[|r| - 1] == s[|r| - 1];
      assert h[|r|] == s[|r|];
    }
  }

  /** On a single line, the removal passes together leave a cut of the text. */
  lemma {:induction false} CutPatternsCut(s: string, ps: seq<string>)
    requires SingleLine(s)
    ensures CutOf(CutPatterns(s, ps), s)
    decreases |ps|
  {
    if ps != [] {
      var h := Delete(s, CutMatch(ToLower(ps[0])));
      CutOnce(s, ToLower(ps[0]));
      SingleLinePrefix(h, s);
      CutPatternsCut(h, ps[1..]);
      CutOfTrans(CutPatterns(h, ps[1..]), h, s);
    }
  }

  /** Every character of `p` is a word character. */
  predicate AllWordChars(p: string) {
    forall k :: 0 <= k < |p| ==> IsWordChar(p[k])
  }

  /** No word boundary falls strictly inside an occurrence of a word-character pattern. */
  lemma NoBoundaryInside(s: string, p: string, i: nat)
    requires OccursAt(s, p, i) && AllWordChars(p)
    ensures forall k :: i < k < i + |p| ==> !Boundary(s, k)
  {
    forall k | i < k < i + |p| ensures !Boundary(s, k) {
      assert s[k - 1] == p[k - 1 - i] && s[k] == p[k - i];
    }
  }

  /** A whole word of word characters that starts inside a cut survives the cut. */
  lemma WordSurvivesCut(s: string, h: string, p: string, i: nat)
    requires CutOf(h, s) && i < |h|
    requires WordAt(s, p, i) && p != [] && AllWordChars(p)
    ensures WordAt(h, p, i)
  {
    NoBoundaryInside(s, p, i);
    assert i + |p| <= |h|;
    assert h == s[..|h|];
    assert h[i..i + |p|] == s[i..i + |p|];
    assert i > 0 ==> h[i - 1] == s[i - 1];
    assert h[i] == s[i];
    assert h[i + |p| - 1] == p[|p| - 1];
    assert i + |p| < |h| ==> h[i + |p|] == s[i + |p|];
  }

  /** A word found first at `i` in `s` is found at `i` or earlier in a cut that reaches past `i`. */
  lemma FirstWordInCut(s: string, h: string, p: string, i: nat)
    requires CutOf(h, s) && i < |h|
    requires FindWordFrom(s, p, 0) == Some(i) && p != [] && AllWordChars(p)
    ensures FindWordFrom(h, p, 0).Some? && FindWordFrom(h, p, 0).value <= i
  {
    WordSurvivesCut(s, h, p, i);
  }

  /** The first pass of `CutPatterns`, then the rest. */
  lemma CutPatternsUnfold(s: string, ps: seq<string>)
    requires ps != []
    ensures CutPatterns(s, ps) == CutPatterns(Delete(s, CutMatch(ToLower(ps[0]))), ps[1..])
  {
  }

  /** A prefix of `h[..k]`, for a prefix `h` of `s` and `k <= i`, is a prefix of `s[..i]`. */
  lemma PrefixWithin(r: string, h: string, s: string, k: nat, i: nat)
    requires h <= s && k <= i <= |s| && k <= |h| && r <= h[..k]
    ensures r <= s[..i]
  {
    assert h[..k] == s[..k];
  }

  /**
   * On a single line, a pattern of word characters whose first whole-word
   * occurrence is at `i` leaves at most the text before `i`, whatever the
   * other patterns cut.
   */
  lemma {:induction false} CutPatternsAtWord(s: string, ps: seq<string>, j: nat, i: nat)
    requires SingleLine(s) && j < |ps|
    requires ToLower(ps[j]) != [] && AllWordChars(ToLower(ps[j]))
    requires FindWordFrom(s, ToLower(ps[j]), 0) == Some(i)
    ensures CutPatterns(s, ps) <= s[..i]
    decreases j, 1
  {
    if j == 0 {
      var h := Delete(s, CutMatch(ToLower(ps[0])));
      CutPatternsUnfold(s, ps);
      CutAtFirstWord(s, ToLower(ps[0]), i);
      SingleLinePrefix(h, s);
      CutPatternsCut(h, ps[1..]);
    } else {
      CutLaterWord(s, ps, j, i);
    }
  }

  /** `CutPatternsAtWord` for a pattern after the first: the first pass cuts before it or leaves it in place. */
  lemma {:induction false} CutLaterWord(s: string, ps: seq<string>, j: nat, i: nat)
    requires SingleLine(s) && 0 < j < |ps|
    requires ToLower(ps[j]) != [] && AllWordChars(ToLower(ps[j]))
    requires FindWordFrom(s, ToLower(ps[j]), 0) == Some(i)
    ensures CutPatterns(s, ps) <= s[..i]
    decreases j, 0
  {
    var h := Delete(s, CutMatch(ToLower(ps[0])));
    var r := CutPatterns(h, ps[1..]);
    CutPatternsUnfold(s, ps);
    CutOnce(s, ToLower(ps[0]));
    SingleLinePrefix(h, s);
    CutPatternsCut(h, ps[1..]);
    if |h| <= i {
      PrefixWithin(r, h, s, |h|, i);
    } else {
      var p := ToLower(ps[j]);
      FirstWordInCut(s, h, p, i);
      var k := FindWordFrom(h, p, 0).value;
      assert ps[1..][j - 1] == ps[j];
      CutPatternsAtWord(h, ps[1..], j - 1, k);
      PrefixWithin(r, h, s, k, i);
    }
  }

  /** Text drawn from a prefix of `b` is drawn from `b`. */
  lemma DrawnFromPrefix(r: string, a: string, b: string)
    requires DrawnFrom(r, a) && a <= b
    ensures DrawnFrom(r, b)
  {
    forall k | 0 <= k < |r| && r[k] != ' ' ensures r[k] in b {
      var j :| 0 <= j < |a| && a[j] == r[k];
      assert b[j] == a[j];
    }
  }

  /**
   * On a single-line name, a finetune pattern of word characters whose
   * first whole-word occurrence is at `i` leaves a group key built only from
   * the text before `i`, unless cleaning leaves nothing and the whole name
   * is used.
   */
  lemma GroupBeforeFinetuneWord(cfg: FilterConfig, e: Entry, j: nat, i: nat)
    requires SingleLine(ToLower(e.modelName)) && j < |cfg.finetunePatterns|
    requires ToLower(cfg.finetunePatterns[j]) != [] && AllWordChars(ToLower(cfg.finetunePatterns[j]))
    requires FindWordFrom(ToLower(e.modelName), ToLower(cfg.finetunePatterns[j]), 0) == Some(i)
    ensures CleanGroup(cfg, ToLower(e.modelName)) != [] ==>
              DrawnFrom(GetBaseModelGroup(cfg, e), ToLower(e.modelName)[..i])
    ensures CleanGroup(cfg, ToLower(e.modelName)) != [] ==>
              IsSubseq(Filter(GetBaseModelGroup(cfg, e), NotSpace), Filter(ToLower(e.modelName)[..i], NotSpace))
  {
    var lowered := ToLower(e.modelName);
    if CleanGroup(cfg, lowered) != [] {
      var cut := CutPatterns(lowered, cfg.finetunePatterns);
      CutPatternsAtWord(lowered, cfg.finetunePatterns, j, i);
      DrawnFromPrefix(CleanGroup(cfg, lowered), cut, lowered[..i]);
      CleanGroupWithin(cfg, lowered, lowered[..i]);
    }
  }

  /** When the cut leaves a prefix of `t`, the key's non-space text is a subsequence of `t`'s. */
  lemma CleanGroupWithin(cfg: FilterConfig, lowered: string, t: string)
    requires CutPatterns(lowered, cfg.finetunePatterns) <= t
    ensures IsSubseq(Filter(CleanGroup(cfg, lowered), NotSpace), Filter(t, NotSpace))
  {
    var cut := CutPatterns(lowered, cfg.finetunePatterns);
    var g := CleanGroup(cfg, lowered);
    CleanGroupKeepsOrder(cfg, lowered);
    FilterPrefixSubseq(cut, t, NotSpace);
    SubseqTrans(Filter(g, NotSpace), Filter(cut, NotSpace), Filter(t, NotSpace));
  }

  /**
   * The cleaning stages after the cut drop characters but never reorder
   * them: the non-space text of the key is a subsequence of the non-space
   * text of the cut name.
   */
  lemma CleanGroupKeepsOrder(cfg: FilterConfig, lowered: string)
    ensures IsSubseq(Filter(CleanGroup(cfg, lowered), NotSpace),
                     Filter(CutPatterns(lowered, cfg.finetunePatterns), NotSpace))
  {
    var cut := CutPatterns(lowered, cfg.finetunePatterns);
    var g4 := RemoveTags(cfg, lowered);
    var c := CollapseSpaces(g4);
    var g5 := Strip(c);
    var g6 := Delete(g5, PunctMatch);
    assert g6 == CleanGroup(cfg, lowered);
    var a, b :| 0 <= a <= b <= |c| && g5 == c[a..b];
    SubseqSlice(c, a, b);
    FilterKeepsSubseq(g6, g5, NotSpace);
    FilterKeepsSubseq(g5, c, NotSpace);
    assert g4[0..] == g4;
    CollapseKeepsText(g4, 0);
    FilterKeepsSubseq(g4, cut, NotSpace);
    SubseqTrans(Filter(g6, NotSpace), Filter(g5, NotSpace), Filter(c, NotSpace));
    SubseqTrans(Filter(g6, NotSpace), Filter(g4, NotSpace), Filter(cut, NotSpace));
  }

  /** `v\d+\.?\d*` at `i`. */
  function VersionMatch(s: string, i: nat): (r: Option<nat>)
    ensures r.Some? ==> i + 1 < |s| && s[i] == 'v' && IsDigit(s[i + 1])
  {
    if i + 1 < |s| && s[i] == 'v' && IsDigit(s[i + 1]) then
      var e := DigitsEnd(s, i + 1);
      Some(if e < |s| && s[e] == '.' then DigitsEnd(s, e + 1) else e)
    else None
  }

  /** `\b(gguf|ggml)\b` at `i`. */
  function ContainerMatch(s: string, i: nat): Option<nat> {
    if WordAt(s, "gguf", i) || WordAt(s, "ggml", i) then Some(i + 4) else None
  }

  /** `\b(q\d+_\w+|f16|bf16)\b` at `i`. */
  function QuantTagMatch(s: string, i: nat): Option<nat> {
    if i < |s| && s[i] == 'q' && Boundary(s, i) then
      var d := DigitsEnd(s, i + 1);
      if i + 1 < d < |s| && s[d] == '_' then
        var w := RunEnd(s, d + 1, IsWordChar);
        if w > d + 1 then Some(w) else None
      else None
    else if WordAt(s, "f16", i) then Some(i + 3)
    else if WordAt(s, "bf16", i) then Some(i + 4)
    else None
  }

  /** A character `[^\w\s-]` would remove. */
  predicate IsPunct(c: char) { !(IsWordChar(c) || IsSpace(c) || c == '-') }

  /** `[^\w\s-]` at `i`. */
  function PunctMatch(s: string, i: nat): Option<nat> {
    if i < |s| && IsPunct(s[i]) then Some(i + 1) else None
  }

  /** `re.sub(r'\s+', ' ', s[i..])`: every whitespace run becomes one space. */
  function CollapseFrom(s: string, i: nat): (r: string)
    requires i <= |s|
    decreases |s| - i
    ensures r == [] <==> i == |s|
    ensures r != [] ==> (IsSpace(r[0]) <==> IsSpace(s[i]))
    ensures forall k :: 0 <= k < |r| && IsSpace(r[k]) ==> r[k] == ' '
    ensures forall k :: 0 <= k < |r| - 1 ==> !(IsSpace(r[k]) && IsSpace(r[k + 1]))
    ensures forall k :: 0 <= k < |r| && r[k] != ' ' ==> r[k] in s[i..]
  {
    if i == |s| then []
    else if IsSpace(s[i]) then
      var rest := CollapseFrom(s, RunEnd(s, i, IsSpace));
      assert forall c :: c in rest && c != ' ' ==> c in s[i..];
      [' '] + rest
    else
      var rest := CollapseFrom(s, i + 1);
      assert forall c :: c in rest && c != ' ' ==> c in s[i..];
      [s[i]] + rest
  }

  /** Collapsing whitespace keeps every other character, in order. */
  lemma {:induction false} CollapseKeepsText(s: string, i: nat)
    requires i <= |s|
    ensures Filter(CollapseFrom(s, i), NotSpace) == Filter(s[i..], NotSpace)
    decreases |s| - i
  {
    if i < |s| {
      if IsSpace(s[i]) {
        var k := RunEnd(s, i, IsSpace);
        CollapseKeepsText(s, k);
        CollapseSpaceStep(s, i, k);
      } else {
        CollapseKeepsText(s, i + 1);
        assert s[i..][1..] == s[i + 1..];
      }
    }
  }

  /** A whitespace run, collapsed to one space, contributes no non-whitespace text. */
  lemma CollapseSpaceStep(s: string, i: nat, k: nat)
    requires i < |s| && IsSpace(s[i]) && k == RunEnd(s, i, IsSpace)
    requires Filter(CollapseFrom(s, k), NotSpace) == Filter(s[k..], NotSpace)
    ensures Filter(CollapseFrom(s, i), NotSpace) == Filter(s[i..], NotSpace)
  {
    var rest := CollapseFrom(s, k);
    assert CollapseFrom(s, i) == [' '] + rest;
    assert ([' '] + rest)[1..] == rest;
    SpacesFilterOut(s, i, k);
    assert s[i..] == s[i..k] + s[k..];
    FilterAppend(s[i..k], s[k..], NotSpace);
  }

  /** A run of whitespace contributes nothing to the non-whitespace text. */
  lemma {:induction false} SpacesFilterOut(s: string, i: nat, k: nat)
    requires i <= k <= |s|
    requires forall j :: i <= j < k ==> IsSpace(s[j])
    ensures Filter(s[i..k], NotSpace) == []
    decreases k - i
  {
    if i < k {
      SpacesFilterOut(s, i + 1, k);
      assert s[i..k][1..] == s[i + 1..k];
    }
  }

  /** `re.sub(r'\s+', ' ', s)` */
  function CollapseSpaces(s: string): (r: string)
    ensures DrawnFrom(r, s)
  {
    assert s[0..] == s;
    CollapseFrom(s, 0)
  }

  /** A slice of a string drawn from `src` is drawn from `src`. */
  lemma DrawnFromSlice(c: string, a: nat, b: nat, src: string)
    requires a <= b <= |c| && DrawnFrom(c, src)
    ensures DrawnFrom(c[a..b], src)
  {
    forall k | 0 <= k < b - a ensures c[a..b][k] == ' ' || c[a..b][k] in src {
      assert c[a..b][k] == c[a + k];
    }
  }

  /** Drawing from lower-case text, with spaces, keeps text lower-case. */
  lemma DrawnFromLower(r: string, src: string)
    requires IsLowerCase(src) && DrawnFrom(r, src)
    ensures IsLowerCase(r)
  {
    forall k | 0 <= k < |r| ensures LowerChar(r[k]) == r[k] {
      if r[k] != ' ' {
        var j :| 0 <= j < |src| && src[j] == r[k];
      }
    }
  }

  /** Deleting the punctuation class leaves only word characters, whitespace and dashes. */
  lemma {:induction false} PunctFree(s: string, i: nat)
    requires i <= |s|
    ensures forall k :: 0 <= k < |DeleteFrom(s, PunctMatch, i)| ==> !IsPunct(DeleteFrom(s, PunctMatch, i)[k])
    decreases |s| - i
  {
    if i < |s| {
      if MatchesAt(s, PunctMatch, i) {
        PunctFree(s, PunctMatch(s, i).value);
      } else {
        PunctFree(s, i + 1);
      }
    }
  }

  /** The removal passes: finetune words with the rest of their line, versions, container and quantization tags. */
  function RemoveTags(cfg: FilterConfig, lowered: string): (r: string)
    ensures IsSubseq(r, CutPatterns(lowered, cfg.finetunePatterns))
    ensures IsSubseq(r, lowered)
  {
    var g1 := CutPatterns(lowered, cfg.finetunePatterns);
    var g2 := Delete(g1, VersionMatch);
    var g3 := Delete(g2, ContainerMatch);
    var g4 := Delete(g3, QuantTagMatch);
    SubseqTrans(g3, g2, g1);
    SubseqTrans(g4, g3, g1);
    SubseqTrans(g4, g1, lowered);
    g4
  }

  /** Every character of `r` is a space or a character of `src`. */
  ghost predicate DrawnFrom(r: string, src: string) {
    forall k :: 0 <= k < |r| ==> r[k] == ' ' || r[k] in src
  }

  /** `re.sub(r'\s+', ' ', s).strip()` */
  function Tidy(s: string): (r: string)
    ensures DrawnFrom(r, s)
    ensures r == [] || (!IsSpace(r[0]) && !IsSpace(r[|r| - 1]))
  {
    var c := CollapseSpaces(s);
    var r := Strip(c);
    var a, b :| 0 <= a <= b <= |c| && r == c[a..b];
    DrawnFromSlice(c, a, b, s);
    r
  }

  /** The stages of `get_base_model_group` before the empty-result fallback. */
  function CleanGroup(cfg: FilterConfig, lowered: string): (r: string)
    ensures forall k :: 0 <= k < |r| ==> !IsPunct(r[k])
    ensures DrawnFrom(r, CutPatterns(lowered, cfg.finetunePatterns))
    ensures DrawnFrom(r, lowered)
  {
    var g4 := RemoveTags(cfg, lowered);
    var g5 := Tidy(g4);
    var g6 := Delete(g5, PunctMatch);
    assert g5[0..] == g5;
    PunctFree(g5, 0);
    SubseqElements(g4, lowered);
    SubseqElements(g4, CutPatterns(lowered, cfg.finetunePatterns));
    SubseqElements(g6, g5);
    g6
  }

  /**
   * `get_base_model_group`: the lower-cased name with the finetune words
   * (and the rest of their line), versions, container tags and quantization
   * tags removed, whitespace collapsed, the ends stripped and punctuation
   * dropped; the lower-cased name itself when nothing is left.
   */
  function GetBaseModelGroup(cfg: FilterConfig, e: Entry): (r: string)
    ensures IsLowerCase(r)
    ensures e.modelName != [] ==> r != []
    ensures DrawnFrom(r, ToLower(e.modelName))
    ensures r == ToLower(e.modelName) || forall k :: 0 <= k < |r| ==> !IsPunct(r[k])
    ensures CleanGroup(cfg, ToLower(e.modelName)) == [] ==> r == ToLower(e.modelName)
    ensures CleanGroup(cfg, ToLower(e.modelName)) != [] ==> r == CleanGroup(cfg, ToLower(e.modelName))
  {
    var lowered := ToLower(e.modelName);
    var g := CleanGroup(cfg, lowered);
    var r := if g == [] then lowered else g;
    ToLowerIsLowerCase(e.modelName);
    DrawnFromLower(r, lowered);
    r
  }

  // ---------------------------------------------------------------------
  // Size tag
  // ---------------------------------------------------------------------

  /** End of `\d+\.?\d*` starting at the digit at `i`: the digits, a dot if one follows, and the digits after it. */
  function LooseNumberEnd(s: string, i: nat): (e: nat)
    requires i < |s| && IsDigit(s[i])
    ensures i < e <= |s|
  {
    var d := DigitsEnd(s, i);
    if d < |s| && s[d] == '.' then DigitsEnd(s, d + 1) else d
  }

  /** `\b(\d+\.?\d*[bm])\b` at `i`; the end of the group, which is the whole match. */
  function SizeWithUnit(s: string, i: nat): (r: Option<nat>)
    ensures r.Some? ==> i < |s| && IsDigit(s[i]) && 2 <= r.value <= |s| && s[r.value - 1] in {'b', 'm'}
  {
    if i < |s| && IsDigit(s[i]) && Boundary(s, i) then
      var e := LooseNumberEnd(s, i);
      if e < |s| && (s[e] == 'b' || s[e] == 'm') && Boundary(s, e + 1) then Some(e + 1) else None
    else None
  }

  /** `\b(\d+\.?\d*)\s*<word>\b` at `i`; the end of the number group. */
  function SizeInWords(s: string, i: nat, word: string): (r: Option<nat>)
    ensures r.Some? ==> i < |s| && IsDigit(s[i])
  {
    if i < |s| && IsDigit(s[i]) && Boundary(s, i) then
      var e := LooseNumberEnd(s, i);
      var w := RunEnd(s, e, IsSpace);
      if OccursAt(s, word, w) && Boundary(s, w + |word|) then Some(e) else None
    else None
  }

  /**
   * The size pattern `\b(\d+\.?\d*)\s*<word>\b` as a matcher; the second and
   * third size patterns are its `billion` and `million` instances.
   */
  function SizeInUnit(word: string): (string, nat) -> Option<nat> {
    (s: string, i: nat) => SizeInWords(s, i, word)
  }

  /** The text of a group that starts with a digit. */
  function Group(s: string, i: nat, j: nat): (r: string)
    requires i < j <= |s| && IsDigit(s[i])
    ensures r != [] && IsDigit(r[0]) && Contains(s, r)
  {
    assert OccursAt(s, s[i..j], i);
    s[i..j]
  }

  /** The group of a `SizeWithUnit` match: a number followed by its unit letter. */
  function UnitGroup(s: string, i: nat): (r: string)
    requires SizeWithUnit(s, i).Some?
    ensures r != [] && IsDigit(r[0]) && Contains(s, r)
    ensures r[|r| - 1] in {'b', 'm'}
  {
    var j := SizeWithUnit(s, i).value;
    var r := Group(s, i, j);
    assert r[|r| - 1] == s[j - 1];
    r
  }

  /**
   * `extract_model_size`: the first of the three size patterns that matches
   * the lower-cased name, and the group of its leftmost match.
   */
  function ExtractModelSize(e: Entry): (r: Option<string>)
    ensures
      var name := ToLower(e.modelName);
      r.None? <==> (!MatchesSomewhere(name, SizeWithUnit)
                    && !MatchesSomewhere(name, SizeInUnit("billion"))
                    && !MatchesSomewhere(name, SizeInUnit("million")))
    ensures r.Some? ==> r.value != [] && IsDigit(r.value[0]) && Contains(ToLower(e.modelName), r.value)
    ensures MatchesSomewhere(ToLower(e.modelName), SizeWithUnit) ==>
              r.Some? && r.value[|r.value| - 1] in {'b', 'm'}
  {
    var name := ToLower(e.modelName);
    match Search(name, SizeWithUnit, 0)
    case Some(i) => Some(UnitGroup(name, i))
    case None =>
      match Search(name, SizeInUnit("billion"), 0)
      case Some(i) => Some(Group(name, i, SizeInUnit("billion")(name, i).value))
      case None =>
        match Search(name, SizeInUnit("million"), 0)
        case Some(i) => Some(Group(name, i, SizeInUnit("million")(name, i).value))
        case None => None
  }

  /** The leftmost match of the unit pattern gives the size: the number with its unit letter. */
  lemma SizeIsLeftmostUnitGroup(e: Entry, i: nat)
    requires SizeWithUnit(ToLower(e.modelName), i).Some?
    requires forall j :: 0 <= j < i ==> SizeWithUnit(ToLower(e.modelName), j).None?
    ensures ExtractModelSize(e) == Some(ToLower(e.modelName)[i..SizeWithUnit(ToLower(e.modelName), i).value])
  {
    var name := ToLower(e.modelName);
    SearchLeftmost(name, SizeWithUnit, i);
  }

  /**
   * Without a unit match, the leftmost `<number> billion` gives the size:
   * the number alone.
   */
  lemma SizeIsLeftmostBillionGroup(e: Entry, i: nat)
    requires !MatchesSomewhere(ToLower(e.modelName), SizeWithUnit)
    requires SizeInWords(ToLower(e.modelName), i, "billion").Some?
    requires forall j :: 0 <= j < i ==> SizeInWords(ToLower(e.modelName), j, "billion").None?
    ensures ExtractModelSize(e) == Some(ToLower(e.modelName)[i..SizeInWords(ToLower(e.modelName), i, "billion").value])
  {
    var name := ToLower(e.modelName);
    SearchNoMatch(name, SizeWithUnit);
    SearchLeftmost(name, SizeInUnit("billion"), i);
  }

  /**
   * Without a unit or a billion match, the leftmost `<number> million` gives
   * the size: the number alone.
   */
  lemma SizeIsLeftmostMillionGroup(e: Entry, i: nat)
    requires !MatchesSomewhere(ToLower(e.modelName), SizeWithUnit)
    requires !MatchesSomewhere(ToLower(e.modelName), SizeInUnit("billion"))
    requires SizeInWords(ToLower(e.modelName), i, "million").Some?
    requires forall j :: 0 <= j < i ==> SizeInWords(ToLower(e.modelName), j, "million").None?
    ensures ExtractModelSize(e) == Some(ToLower(e.modelName)[i..SizeInWords(ToLower(e.modelName), i, "million").value])
  {
    var name := ToLower(e.modelName);
    SearchNoMatch(name, SizeWithUnit);
    SearchNoMatch(name, SizeInUnit("billion"));
    SearchLeftmost(name, SizeInUnit("million"), i);
  }

  /** "Llama-2-13B-chat" has size "13b": the lone "2" has no unit letter, so the leftmost match is at "13b". */
  lemma SizeExample(e: Entry)
    requires e.modelName == "Llama-2-13B-chat"
    ensures ExtractModelSize(e) == Some("13b")
  {
    SizeExampleLower();
    SizeExampleMatch();
    SizeExampleNoEarlier();
    SizeIsLeftmostUnitGroup(e, 8);
    SizeExampleGroup();
  }

  lemma SizeExampleGroup()
    ensures "llama-2-13b-chat"[8..11] == "13b"
  {
    var g := "llama-2-13b-chat"[8..11];
    assert |g| == 3 && g[0] == '1' && g[1] == '3' && g[2] == 'b';
  }

  lemma SizeExampleLower()
    ensures ToLower("Llama-2-13B-chat") == "llama-2-13b-chat"
  {
  }

  /** "13b" at offset 8 is a unit match ending at 11. */
  lemma SizeExampleMatch()
    ensures SizeWithUnit("llama-2-13b-chat", 8) == Some(11)
  {
    var a := "llama-2-13b-chat";
    assert DigitsEnd(a, 8) == 10 by { RunEndAt(a, 8, IsDigit, 10); }
  }

  /** No offset before 8 starts a unit match: the only earlier digit, "2", has no unit letter. */
  lemma SizeExampleNoEarlier()
    ensures forall j :: 0 <= j < 8 ==> SizeWithUnit("llama-2-13b-chat", j).None?
  {
    var a := "llama-2-13b-chat";
    assert DigitsEnd(a, 6) == 7 by { RunEndAt(a, 6, IsDigit, 7); }
    forall j | 0 <= j < 8 ensures SizeWithUnit(a, j).None? {
      assert j == 6 || !IsDigit(a[j]);
    }
  }
}
