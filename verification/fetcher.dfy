/**
 * The pure parts of the hub fetcher script: merging the two listings without
 * repeating a repository, sanitising engagement counts, the `.gguf`
 * pre-filter, the field helpers (display name, quantization, model type,
 * license, links) and the final sort and projection of the catalogue.
 */
module Fetcher {
  import opened Wrappers
  import opened Seqs
  import opened Text
  import opened Json
  import opened Records
  import opened Sorting
  import Extraction
  import Selector

  // ---------------------------------------------------------------------
  // Deduplication by repository id
  // ---------------------------------------------------------------------

  /** The ids carried by the elements of `xs`. */
  function IdsOf<T>(xs: seq<T>, id: T -> string): (r: set<string>)
    ensures forall j :: 0 <= j < |xs| ==> id(xs[j]) in r
    ensures forall k :: k in r ==> exists j :: 0 <= j < |xs| && id(xs[j]) == k
  {
    if xs == [] then {}
    else
      var front := xs[..|xs| - 1];
      var r := IdsOf(front, id) + {id(xs[|xs| - 1])};
      assert forall j :: 0 <= j < |front| ==> xs[j] == front[j];
      r
  }

  /** The first element for every id, in the order of first appearance. */
  function Dedup<T>(xs: seq<T>, id: T -> string): seq<T> {
    if xs == [] then []
    else
      var r := Dedup(xs[..|xs| - 1], id);
      if id(xs[|xs| - 1]) in IdsOf(r, id) then r else r + [xs[|xs| - 1]]
  }

  /** No two elements share an id. */
  predicate DistinctIds<T>(xs: seq<T>, id: T -> string) {
    forall i, j :: 0 <= i < j < |xs| ==> id(xs[i]) != id(xs[j])
  }

  /** `x` is the first element of `xs` with its id. */
  ghost predicate FirstOccurrence<T>(xs: seq<T>, id: T -> string, x: T) {
    exists i :: 0 <= i < |xs| && xs[i] == x && forall j :: 0 <= j < i ==> id(xs[j]) != id(x)
  }

  /** Deduplication keeps the input order: the result is a subsequence of the input. */
  lemma {:induction false} DedupSubseq<T>(xs: seq<T>, id: T -> string)
    ensures IsSubseq(Dedup(xs, id), xs)
  {
    if xs == [] {
      SubseqEmpty(xs);
    } else {
      var front, x := xs[..|xs| - 1], xs[|xs| - 1];
      var rf := Dedup(front, id);
      DedupSubseq(front, id);
      assert xs == front + [x];
      if id(x) in IdsOf(rf, id) {
        SubseqSnoc(rf, front, x);
      } else {
        DedupSnocSubseq(rf, front, x);
      }
    }
  }

  /** Every id of the input survives deduplication. */
  lemma {:induction false} DedupIds<T>(xs: seq<T>, id: T -> string)
    ensures IdsOf(Dedup(xs, id), id) == IdsOf(xs, id)
  {
    if xs != [] {
      var front, x := xs[..|xs| - 1], xs[|xs| - 1];
      var rf := Dedup(front, id);
      DedupIds(front, id);
      if id(x) !in IdsOf(rf, id) {
        var r := rf + [x];
        assert r[..|rf|] == rf;
      }
    }
  }

  /** No id is kept twice. */
  lemma {:induction false} DedupDistinct<T>(xs: seq<T>, id: T -> string)
    ensures DistinctIds(Dedup(xs, id), id)
  {
    if xs != [] {
      var front, x := xs[..|xs| - 1], xs[|xs| - 1];
      var rf := Dedup(front, id);
      DedupDistinct(front, id);
      if id(x) !in IdsOf(rf, id) {
        var r := rf + [x];
        forall i, j | 0 <= i < j < |r| ensures id(r[i]) != id(r[j]) {
          if j == |rf| {
            assert id(rf[i]) in IdsOf(rf, id);
          }
        }
      }
    }
  }

  /** Each kept element is the first one in the input with its id. */
  lemma {:induction false} DedupFirst<T>(xs: seq<T>, id: T -> string)
    ensures forall k :: 0 <= k < |Dedup(xs, id)| ==> FirstOccurrence(xs, id, Dedup(xs, id)[k])
  {
    if xs != [] {
      var front, x := xs[..|xs| - 1], xs[|xs| - 1];
      assert xs == front + [x];
      var rf := Dedup(front, id);
      DedupFirst(front, id);
      forall k | 0 <= k < |rf| ensures FirstOccurrence(xs, id, rf[k]) {
        FirstOccurrenceSnoc(front, x, id, rf[k]);
      }
      if id(x) !in IdsOf(rf, id) {
        DedupIds(front, id);
        FirstOccurrenceLast(front, x, id);
        var r := rf + [x];
        forall k | 0 <= k < |r| ensures FirstOccurrence(xs, id, r[k]) {
          if k < |rf| {
            assert r[k] == rf[k];
          } else {
            assert r[k] == x;
          }
        }
      }
    }
  }

  /** A first occurrence stays first when an element is appended. */
  lemma FirstOccurrenceSnoc<T>(front: seq<T>, x: T, id: T -> string, y: T)
    requires FirstOccurrence(front, id, y)
    ensures FirstOccurrence(front + [x], id, y)
  {
    var xs := front + [x];
    var i :| 0 <= i < |front| && front[i] == y && forall j :: 0 <= j < i ==> id(front[j]) != id(y);
    assert xs[i] == y;
    forall j | 0 <= j < i ensures id(xs[j]) != id(y) {
      assert xs[j] == front[j];
    }
  }

  /** An appended element whose id is new is a first occurrence. */
  lemma FirstOccurrenceLast<T>(front: seq<T>, x: T, id: T -> string)
    requires id(x) !in IdsOf(front, id)
    ensures FirstOccurrence(front + [x], id, x)
  {
    var xs := front + [x];
    assert xs[|front|] == x;
    forall j | 0 <= j < |front| ensures id(xs[j]) != id(x) {
      assert xs[j] == front[j];
    }
  }

  /** Appending the last element to both sides keeps a subsequence. */
  lemma DedupSnocSubseq<T>(r: seq<T>, xs: seq<T>, x: T)
    requires IsSubseq(r, xs)
    ensures IsSubseq(r + [x], xs + [x])
  {
    var idx :| SubseqBy(r, xs, idx);
    assert SubseqBy(r + [x], xs + [x], idx + [|xs|]);
  }

  /** The dedup loop of `download_data`: a `seen_ids` set and the list of models kept. */
  method DeduplicateModels<T>(models: seq<T>, id: T -> string) returns (r: seq<T>)
    ensures r == Dedup(models, id)
    ensures IsSubseq(r, models) && DistinctIds(r, id)
    ensures IdsOf(r, id) == IdsOf(models, id)
    ensures forall k :: 0 <= k < |r| ==> FirstOccurrence(models, id, r[k])
  {
    var seen: set<string> := {};
    r := [];
    for i := 0 to |models|
      invariant r == Dedup(models[..i], id)
      invariant seen == IdsOf(r, id)
    {
      assert models[..i + 1][..i] == models[..i];
      if id(models[i]) !in seen {
        assert (r + [models[i]])[..|r|] == r;
        seen := seen + {id(models[i])};
        r := r + [models[i]];
      }
    }
    assert models[..|models|] == models;
    DedupSubseq(models, id);
    DedupIds(models, id);
    DedupDistinct(models, id);
    DedupFirst(models, id);
  }

  // ---------------------------------------------------------------------
  // Engagement metrics
  // ---------------------------------------------------------------------

  /** Counts above ten million are read as data errors and capped. */
  const MetricCap: nat := 10_000_000

  /** Strings read as a missing value. */
  const NullWords: seq<string> := ["null", "none", "n/a"]

  /** A whole count brought into `[0, MetricCap]`. */
  function CapCount(n: int): (r: nat)
    ensures r <= MetricCap
    ensures 0 <= n <= MetricCap ==> r == n
    ensures n < 0 ==> r == 0
    ensures n > MetricCap ==> r == MetricCap
  {
    if n < 0 then 0 else if n > MetricCap then MetricCap else n
  }

  /** A non-negative number truncated to an integer, then capped; a negative one is 0. */
  function CapReal(x: real): (r: nat)
    ensures r <= MetricCap
    ensures x < 0.0 ==> r == 0
    ensures 0.0 <= x ==> r as real <= x
    ensures 0.0 <= x < MetricCap as real ==> x < r as real + 1.0
  {
    if x < 0.0 then 0 else CapCount(x.Floor)
  }

  /**
   * `_validate_engagement_metric`: any JSON value to a count in
   * `[0, MetricCap]`. `parse` is Python's `float()` on a string, `None`
   * where it raises or yields NaN or an infinity.
   */
  function ValidateEngagementMetric(v: Value, parse: string -> Option<real>): (r: nat)
    ensures r <= MetricCap
    ensures v == Null ==> r == 0
    ensures v.Int? ==> r == CapCount(v.i)
    ensures v.Float? ==> r == CapReal(v.r)
    ensures v.Arr? || v.Obj? ==> r == 0
  {
    match v
    case Null => 0
    case Bool(b) => if b then 1 else 0
    case Int(i) => CapCount(i)
    case Float(x) => CapReal(x)
    case Str(s) =>
      if Strip(s) == [] || ToLower(s) in NullWords then 0
      else
        (match parse(s)
         case None => 0
         case Some(x) => CapReal(x))
    case Arr(_) => 0
    case Obj(_) => 0
  }

  /** A validated count validates to itself. */
  lemma ValidateIdempotent(v: Value, parse: string -> Option<real>)
    ensures var r := ValidateEngagementMetric(v, parse);
      ValidateEngagementMetric(Int(r), parse) == r
  {
  }

  /** On whole numbers, validation never reverses the order of two counts. */
  lemma ValidateMonotone(a: int, b: int, parse: string -> Option<real>)
    requires a <= b
    ensures ValidateEngagementMetric(Int(a), parse) <= ValidateEngagementMetric(Int(b), parse)
  {
  }

  /** A blank or null-word string counts as 0, whatever the float parser would say. */
  lemma NullStringsAreZero(s: string, parse: string -> Option<real>)
    requires Strip(s) == [] || ToLower(s) in NullWords
    ensures ValidateEngagementMetric(Str(s), parse) == 0
  {
  }

  // ---------------------------------------------------------------------
  // The `.gguf` pre-filter
  // ---------------------------------------------------------------------

  /** `d.get(key, default)` on an object. */
  function GetOr(v: Value, key: string, default: Value): Value
    requires v.Obj?
  {
    if key in v.fields then v.fields[key] else default
  }

  /**
   * One sibling of a listing: `Some(true)` for an object whose `rfilename`
   * ends in `.gguf` in any case, `Some(false)` for any other object or a
   * non-object, `None` where the name is not a string and `.lower()` raises.
   */
  function SiblingIsGguf(sib: Value): Option<bool> {
    if !sib.Obj? then Some(false)
    else
      match GetOr(sib, "rfilename", Str(""))
      case Str(name) => Some(EndsWith(ToLower(name), ".gguf"))
      case _ => None
  }

  /** The inner loop over all siblings: it raises at any unreadable name, even after a hit. */
  function ScanSiblings(sibs: seq<Value>): (r: Option<bool>)
    ensures r.None? <==> exists j :: 0 <= j < |sibs| && SiblingIsGguf(sibs[j]).None?
    ensures r == Some(true) <==>
      (forall j :: 0 <= j < |sibs| ==> SiblingIsGguf(sibs[j]).Some?)
      && (exists j :: 0 <= j < |sibs| && SiblingIsGguf(sibs[j]) == Some(true))
  {
    if sibs == [] then Some(false)
    else
      var rest := ScanSiblings(sibs[1..]);
      assert forall j :: 1 <= j < |sibs| ==> sibs[j] == sibs[1..][j - 1];
      match SiblingIsGguf(sibs[0])
      case None => None
      case Some(b) =>
        (match rest
         case None => None
         case Some(c) => Some(b || c))
  }

  /** Why a listing is kept or skipped, and which counter it adds to. */
  datatype Verdict = KeepGguf | NoSiblings | NoGguf

  /**
   * One listing of `_filter_gguf_models`. A missing, empty or non-list
   * `siblings` is skipped as having no siblings, and so is a listing whose
   * scan raises.
   */
  function Classify(m: Value): Verdict
    requires m.Obj?
  {
    var sibs := GetOr(m, "siblings", Null);
    if !Truthy(sibs) || !sibs.Arr? then NoSiblings
    else
      match ScanSiblings(sibs.items)
      case None => NoSiblings
      case Some(true) => KeepGguf
      case Some(false) => NoGguf
  }

  /** The listing has a list of siblings, every name readable, and some `.gguf` file among them. */
  ghost predicate ListsGgufFile(m: Value)
    requires m.Obj?
  {
    var sibs := GetOr(m, "siblings", Null);
    && sibs.Arr?
    && (forall j :: 0 <= j < |sibs.items| ==> SiblingIsGguf(sibs.items[j]).Some?)
    && (exists j :: 0 <= j < |sibs.items| && SiblingIsGguf(sibs.items[j]) == Some(true))
  }

  /** A listing is kept exactly when it lists a readable `.gguf` file. */
  lemma ClassifyKeepIff(m: Value)
    requires m.Obj?
    ensures Classify(m) == KeepGguf <==> ListsGgufFile(m)
  {
    var sibs := GetOr(m, "siblings", Null);
    if sibs.Arr? && ListsGgufFile(m) {
      assert |sibs.items| > 0;
    }
  }

  predicate IsKeptListing(m: Value) {
    m.Obj? && Classify(m) == KeepGguf
  }

  predicate AllObjects(ms: seq<Value>) {
    forall k :: 0 <= k < |ms| ==> ms[k].Obj?
  }

  /**
   * `_filter_gguf_models`: the listings with `.gguf` files, in order, and
   * the two skip counters. A listing that is not an object makes the
   * function itself raise, so every listing is an object.
   */
  method FilterGgufModels(models: seq<Value>) returns (kept: seq<Value>, noSiblings: nat, noGguf: nat)
    requires AllObjects(models)
    ensures kept == Filter(models, IsKeptListing)
    ensures forall k :: 0 <= k < |kept| ==> kept[k].Obj? && ListsGgufFile(kept[k])
    ensures |kept| + noSiblings + noGguf == |models|
  {
    kept, noSiblings, noGguf := [], 0, 0;
    for i := 0 to |models|
      invariant kept == Filter(models[..i], IsKeptListing)
      invariant |kept| + noSiblings + noGguf == i
    {
      FilterSnoc(models, i, IsKeptListing);
      assert models[i].Obj?;
      var verdict := Classify(models[i]);
      if verdict == KeepGguf {
        kept := kept + [models[i]];
      } else if verdict == NoSiblings {
        noSiblings := noSiblings + 1;
      } else {
        noGguf := noGguf + 1;
      }
    }
    assert models[..|models|] == models;
    forall k | 0 <= k < |kept| ensures kept[k].Obj? && ListsGgufFile(kept[k]) {
      ClassifyKeepIff(kept[k]);
    }
  }

  // ---------------------------------------------------------------------
  // Display name
  // ---------------------------------------------------------------------

  const UnknownModel := "Unknown Model"

  /** A character a display name keeps inside its words. */
  predicate NameChar(c: char) {
    !IsSpace(c) && c != '/' && c != '-' && c != '_'
  }

  /** A non-empty word of name characters. */
  predicate NameWord(w: string) {
    w != [] && forall k :: 0 <= k < |w| ==> NameChar(w[k])
  }

  /** Words of name characters separated by single spaces, no space at either end. */
  predicate SingleSpaced(r: string) {
    && (forall k :: 0 <= k < |r| ==> r[k] == ' ' || NameChar(r[k]))
    && (r != [] ==> r[0] != ' ' && r[|r| - 1] != ' ')
    && (forall k :: 0 <= k < |r| - 1 ==> r[k] != ' ' || r[k + 1] != ' ')
  }

  function CapitalizeAll(ws: seq<string>): (r: seq<string>)
    ensures |r| == |ws|
    ensures forall k :: 0 <= k < |ws| ==> r[k] == Capitalize(ws[k])
  {
    seq(|ws|, k requires 0 <= k < |ws| => Capitalize(ws[k]))
  }

  /**
   * The fetcher's `_extract_model_name`: the part after the last `/`, with
   * `-` and `_` read as spaces, split on whitespace, each word capitalized,
   * joined by single spaces; an empty id gives `Unknown Model`.
   */
  function ExtractModelName(id: string): (r: string)
    ensures id == [] ==> r == UnknownModel
  {
    if id == [] then UnknownModel
    else Join(CapitalizeAll(NameParts(id)), " ")
  }

  /** The whitespace-separated words of the last path segment, separators read as spaces. */
  function NameParts(id: string): seq<string> {
    SplitWhitespace(Extraction.SepsToSpaces(Extraction.LastSegment(id)))
  }

  /** Every character is whitespace or a name character. */
  predicate SpacedNameChars(s: string) {
    forall k :: 0 <= k < |s| ==> IsSpace(s[k]) || NameChar(s[k])
  }

  /** One step of `str.split()`: the first word, then the split of what follows it. */
  lemma SplitUnfold(s: string)
    requires StripLeft(s) != []
    ensures var t := StripLeft(s);
      var k := RunEnd(t, 0, NotSpace);
      SplitWhitespace(s) == [t[..k]] + SplitWhitespace(t[k..])
  {
  }

  /** The word at the front of a stripped string and the rest after it. */
  lemma FrontWord(s: string)
    requires SpacedNameChars(s) && StripLeft(s) != []
    ensures var t := StripLeft(s);
      var k := RunEnd(t, 0, NotSpace);
      0 < k <= |t| <= |s| && NameWord(t[..k]) && SpacedNameChars(t[k..])
  {
    var t := StripLeft(s);
    var k := RunEnd(t, 0, NotSpace);
    SpacedSuffix(s, |s| - |t|);
    assert NotSpace(t[0]);
    SpacedSuffix(t, k);
    NameWordPrefix(t, k);
  }

  /** A suffix of spaced name characters is spaced name characters. */
  lemma SpacedSuffix(s: string, i: nat)
    requires SpacedNameChars(s) && i <= |s|
    ensures SpacedNameChars(s[i..])
  {
    forall m | 0 <= m < |s| - i ensures IsSpace(s[i..][m]) || NameChar(s[i..][m]) {
      assert s[i..][m] == s[i + m];
    }
  }

  /** A leading run without whitespace in spaced name characters is a name word. */
  lemma NameWordPrefix(t: string, k: nat)
    requires SpacedNameChars(t) && 0 < k <= |t|
    requires forall m :: 0 <= m < k ==> NotSpace(t[m])
    ensures NameWord(t[..k])
  {
    forall m | 0 <= m < k ensures NameChar(t[..k][m]) {
      assert t[..k][m] == t[m] && NotSpace(t[m]);
    }
  }

  /** Splitting on whitespace keeps only characters of the input that are not whitespace. */
  lemma {:induction false} SplitWhitespaceWords(s: string)
    requires SpacedNameChars(s)
    ensures forall j :: 0 <= j < |SplitWhitespace(s)| ==> NameWord(SplitWhitespace(s)[j])
    decreases |s|
  {
    var t := StripLeft(s);
    if t != [] {
      var k := RunEnd(t, 0, NotSpace);
      FrontWord(s);
      SplitUnfold(s);
      var rest := t[k..];
      SplitWhitespaceWords(rest);
      var ws, tail := SplitWhitespace(s), SplitWhitespace(rest);
      forall j | 0 <= j < |ws| ensures NameWord(ws[j]) {
        if j > 0 {
          assert ws[j] == tail[j - 1];
        }
      }
    }
  }

  /** Case mapping turns a name character into a name character. */
  lemma CaseKeepsNameChar(c: char)
    requires NameChar(c)
    ensures NameChar(UpperChar(c)) && NameChar(LowerChar(c))
  {
  }

  /** Capitalizing keeps a name word a name word. */
  lemma CapitalizeNameWord(w: string)
    requires NameWord(w)
    ensures NameWord(Capitalize(w))
  {
    var r := Capitalize(w);
    forall k | 0 <= k < |r| ensures NameChar(r[k]) {
      CaseKeepsNameChar(w[k]);
    }
  }

  /** Joining name words with one space gives a single-spaced string. */
  lemma {:induction false} JoinSingleSpaced(ws: seq<string>)
    requires forall j :: 0 <= j < |ws| ==> NameWord(ws[j])
    ensures SingleSpaced(Join(ws, " "))
    ensures ws != [] ==> Join(ws, " ") != [] && Join(ws, " ")[0] == ws[0][0]
  {
    if |ws| >= 2 {
      var w, rest := ws[0], Join(ws[1..], " ");
      JoinSingleSpaced(ws[1..]);
      var r := w + " " + rest;
      assert Join(ws, " ") == r;
      assert forall k :: 0 <= k < |w| ==> r[k] == w[k];
      assert r[|w|] == ' ';
      assert forall k :: |w| < k < |r| ==> r[k] == rest[k - |w| - 1];
      assert NameChar(w[|w| - 1]);
      assert NameChar(rest[0]);
    }
  }

  /** A joined list starts with its first word, then a space and the rest if there is one. */
  lemma JoinHead(ws: seq<string>)
    requires ws != []
    ensures var j := Join(ws, " ");
      && |ws[0]| <= |j|
      && j[..|ws[0]|] == ws[0]
      && (|ws| == 1 ==> j == ws[0])
      && (|ws| >= 2 ==> j[|ws[0]|..] == [' '] + Join(ws[1..], " "))
  {
    if |ws| >= 2 {
      var j := ws[0] + " " + Join(ws[1..], " ");
      assert Join(ws, " ") == j;
      assert j[..|ws[0]|] == ws[0];
      assert j[|ws[0]|..] == [' '] + Join(ws[1..], " ");
    }
  }

  /** `str.split()` undoes joining name words with single spaces. */
  lemma {:induction false} SplitJoin(ws: seq<string>)
    requires forall j :: 0 <= j < |ws| ==> NameWord(ws[j])
    ensures SplitWhitespace(Join(ws, " ")) == ws
  {
    if ws != [] {
      var joined := Join(ws, " ");
      SplitJoinFront(ws);
      JoinHead(ws);
      if |ws| == 1 {
        assert joined[|ws[0]|..] == [];
      } else {
        var tail := ws[1..];
        NameWordsTail(ws);
        var rest := Join(tail, " ");
        JoinSingleSpaced(tail);
        SplitJoin(tail);
        SplitAfterSpace(rest);
      }
      ConsTail(ws);
    }
  }

  /** The words after the first are name words too. */
  lemma NameWordsTail(ws: seq<string>)
    requires ws != [] && forall j :: 0 <= j < |ws| ==> NameWord(ws[j])
    ensures forall j :: 0 <= j < |ws[1..]| ==> NameWord(ws[1..][j])
  {
    forall j | 0 <= j < |ws[1..]| ensures NameWord(ws[1..][j]) {
      assert ws[1..][j] == ws[j + 1];
    }
  }

  /** The first word of a joined list is split off whole. */
  lemma SplitJoinFront(ws: seq<string>)
    requires ws != [] && forall j :: 0 <= j < |ws| ==> NameWord(ws[j])
    ensures |ws[0]| <= |Join(ws, " ")|
    ensures SplitWhitespace(Join(ws, " ")) == [ws[0]] + SplitWhitespace(Join(ws, " ")[|ws[0]|..])
  {
    var w := ws[0];
    var joined := Join(ws, " ");
    JoinSingleSpaced(ws);
    JoinHead(ws);
    assert NameChar(joined[0]);
    assert StripLeft(joined) == joined;
    forall k | 0 <= k < |w| ensures NotSpace(joined[k]) {
      assert joined[k] == joined[..|w|][k];
    }
    RunEndAt(joined, 0, NotSpace, |w|);
    SplitUnfold(joined);
  }

  /** A non-empty list is its head followed by its tail. */
  lemma ConsTail<T>(xs: seq<T>)
    requires xs != []
    ensures [xs[0]] + xs[1..] == xs
  {
  }

  /** A leading space before a word does not change the split. */
  lemma SplitAfterSpace(rest: string)
    requires rest != [] && !IsSpace(rest[0])
    ensures SplitWhitespace([' '] + rest) == SplitWhitespace(rest)
  {
    assert ([' '] + rest)[1..] == rest;
    assert StripLeft([' '] + rest) == StripLeft(rest);
  }

  /**
   * A display name of a non-empty id has no path separator, dash or
   * underscore, and splits back into exactly the capitalized parts of the
   * id's last segment.
   */
  lemma ExtractModelNameShape(id: string)
    requires id != []
    ensures SingleSpaced(ExtractModelName(id))
    ensures SplitWhitespace(ExtractModelName(id)) == CapitalizeAll(NameParts(id))
  {
    var seg := Extraction.LastSegment(id);
    var spaced := Extraction.SepsToSpaces(seg);
    assert forall k :: 0 <= k < |seg| ==> seg[k] != '/';
    assert SpacedNameChars(spaced);
    SplitWhitespaceWords(spaced);
    var ws := CapitalizeAll(NameParts(id));
    forall j | 0 <= j < |ws| ensures NameWord(ws[j]) {
      CapitalizeNameWord(NameParts(id)[j]);
    }
    JoinSingleSpaced(ws);
    SplitJoin(ws);
  }

  // ---------------------------------------------------------------------
  // Quantization format
  // ---------------------------------------------------------------------

  /** The fetcher's patterns, tried in order on the upper-cased file name; F16 comes before BF16. */
  const QuantPatterns: seq<string> := [
    "Q4_K_M", "Q4_K_S", "Q5_K_M", "Q5_K_S", "Q3_K_M", "Q3_K_S",
    "Q6_K", "Q2_K", "Q8_0", "Q4_0", "Q4_1", "Q5_0", "Q5_1",
    "F16", "F32", "BF16", "IQ1_S", "IQ2_XXS", "IQ3_S", "IQ4_XS"
  ]

  /** The index of the first pattern of `table` that occurs in `text`; `|table|` when none does. */
  function FirstHitIn(table: seq<string>, text: string): (k: nat)
    ensures k <= |table|
    ensures forall j :: 0 <= j < k ==> !Contains(text, table[j])
    ensures k < |table| ==> Contains(text, table[k])
  {
    FirstWhere(table, (p: string) => Contains(text, p))
  }

  /** The first pattern of `table` found in `text`, else `Unknown`. */
  function LabelIn(table: seq<string>, text: string): string {
    var k := FirstHitIn(table, text);
    if k < |table| then table[k] else Extraction.UnknownLabel
  }

  function FirstQuantHit(text: string): (k: nat)
    ensures k <= |QuantPatterns|
    ensures forall j :: 0 <= j < k ==> !Contains(text, QuantPatterns[j])
    ensures k < |QuantPatterns| ==> Contains(text, QuantPatterns[k])
  {
    FirstHitIn(QuantPatterns, text)
  }

  /** `_extract_quantization`: the first pattern found in the upper-cased name, else `Unknown`. */
  function ExtractQuantization(filename: string): string {
    if filename == [] then Extraction.UnknownLabel
    else LabelIn(QuantPatterns, ToUpper(filename))
  }

  /** The label is `Unknown` or a pattern that occurs in the upper-cased name. */
  lemma QuantLabelOccurs(filename: string)
    ensures var r := ExtractQuantization(filename);
      r == Extraction.UnknownLabel || (r in QuantPatterns && Contains(ToUpper(filename), r))
  {
  }

  /** The patterns before `F16` are none of them `BF16`. */
  lemma EarlyPatternsNotBf16(k: nat)
    requires k <= 13
    ensures QuantPatterns[k] != "BF16"
  {
    assert QuantPatterns[k][0] != 'B';
  }

  /**
   * The fetcher never labels a file `BF16`: any name containing `BF16`
   * contains `F16`, which is tried first.
   */
  lemma NeverBf16(filename: string)
    ensures ExtractQuantization(filename) != "BF16"
  {
    var text := ToUpper(filename);
    var k := FirstQuantHit(text);
    if filename != [] && k < |QuantPatterns| && QuantPatterns[k] == "BF16" {
      Bf16HasF16(text);
      assert k <= 13;
      EarlyPatternsNotBf16(k);
    }
  }

  /** Wherever `BF16` occurs, `F16` occurs one place further on. */
  lemma Bf16HasF16(text: string)
    requires Contains(text, "BF16")
    ensures Contains(text, QuantPatterns[13])
  {
    var i :| 0 <= i <= |text| - 4 && OccursAt(text, "BF16", i);
    OccursInside(text, "BF16", i, "F16", 1);
  }

  /** A name with F16 in it and no earlier pattern is labelled F16, also for a bf16 file. */
  lemma Bf16FileIsF16(filename: string)
    requires Contains(ToUpper(filename), "BF16")
    requires forall j :: 0 <= j < 13 ==> !Contains(ToUpper(filename), QuantPatterns[j])
    ensures ExtractQuantization(filename) == "F16"
  {
    var text := ToUpper(filename);
    Bf16HasF16(text);
    FirstHitAtF16(text);
  }

  /** Text holding "F16" and no earlier pattern first hits the "F16" row. */
  lemma FirstHitAtF16(text: string)
    requires Contains(text, QuantPatterns[13])
    requires forall j :: 0 <= j < 13 ==> !Contains(text, QuantPatterns[j])
    ensures FirstQuantHit(text) == 13
  {
  }

  /**
   * The evidently intended table: the same patterns with `BF16` moved ahead
   * of `F16` and `F32`, as the engine's own table orders them, so that the
   * `BF16` entry can be reached.
   */
  const CorrectedQuantPatterns: seq<string> := MoveAhead(QuantPatterns, 13)

  /** `_extract_quantization` with the corrected table. */
  function ExtractQuantizationCorrected(filename: string): string {
    if filename == [] then Extraction.UnknownLabel
    else LabelIn(CorrectedQuantPatterns, ToUpper(filename))
  }

  /** `xs` with its entry at `n + 2` moved ahead of the two before it. */
  function MoveAhead<T>(xs: seq<T>, n: nat): (r: seq<T>)
    requires n + 3 <= |xs|
    ensures |r| == |xs|
    ensures forall j :: 0 <= j < n || n + 3 <= j < |xs| ==> r[j] == xs[j]
    ensures r[n] == xs[n + 2] && r[n + 1] == xs[n] && r[n + 2] == xs[n + 1]
  {
    xs[..n] + [xs[n + 2], xs[n], xs[n + 1]] + xs[n + 3..]
  }

  /** The corrected table holds the same patterns as the original. */
  lemma MoveAheadPermutes<T>(xs: seq<T>, n: nat)
    requires n + 3 <= |xs|
    ensures multiset(MoveAhead(xs, n)) == multiset(xs)
  {
    assert xs == xs[..n] + [xs[n], xs[n + 1], xs[n + 2]] + xs[n + 3..];
  }

  /** Moving a pattern that does not occur in `text` ahead of two others does not change the label. */
  lemma MoveMissAhead(xs: seq<string>, n: nat, text: string)
    requires n + 3 <= |xs| && !Contains(text, xs[n + 2])
    ensures LabelIn(MoveAhead(xs, n), text) == LabelIn(xs, text)
  {
    var c := MoveAhead(xs, n);
    var k, m := FirstHitIn(xs, text), FirstHitIn(c, text);
    if k < n {
      assert m == k;
    } else if k == n {
      assert m == n + 1;
    } else if k == n + 1 {
      assert m == n + 2;
    } else {
      assert k != n + 2;
      assert m == k;
    }
  }

  /** A moved pattern that occurs in `text`, with no hit before it, becomes the label. */
  lemma MovedHitFirst(xs: seq<string>, n: nat, text: string)
    requires n + 3 <= |xs| && Contains(text, xs[n + 2])
    requires forall j :: 0 <= j < n ==> !Contains(text, xs[j])
    ensures LabelIn(MoveAhead(xs, n), text) == xs[n + 2]
  {
    assert FirstHitIn(MoveAhead(xs, n), text) == n;
  }

  /** The correction changes the label of bf16 files only. */
  lemma CorrectedAgreesOtherwise(filename: string)
    requires !Contains(ToUpper(filename), "BF16")
    ensures ExtractQuantizationCorrected(filename) == ExtractQuantization(filename)
  {
    if filename != [] {
      CorrectedTable();
      MoveMissAhead(QuantPatterns, 13, ToUpper(filename));
    }
  }

  /** With the corrected table a bf16 file is labelled `BF16`. */
  lemma CorrectedBf16(filename: string)
    requires Contains(ToUpper(filename), "BF16")
    requires forall j :: 0 <= j < 13 ==> !Contains(ToUpper(filename), QuantPatterns[j])
    ensures ExtractQuantizationCorrected(filename) == "BF16"
  {
    var text := ToUpper(filename);
    assert |text| == |filename|;
    CorrectedLabelBf16(text);
  }

  /** With "BF16" ahead of "F16", BF16 text gets the BF16 label. */
  lemma CorrectedLabelBf16(text: string)
    requires Contains(text, "BF16")
    requires forall j :: 0 <= j < 13 ==> !Contains(text, QuantPatterns[j])
    ensures LabelIn(CorrectedQuantPatterns, text) == "BF16"
  {
    CorrectedTable();
    MovedLabel(QuantPatterns, 13, text, "BF16");
  }

  /** Moving a row two places ahead makes it win over the rows it passes. */
  lemma MovedLabel(xs: seq<string>, n: nat, text: string, want: string)
    requires n + 3 <= |xs| && xs[n + 2] == want && Contains(text, want)
    requires forall j :: 0 <= j < n ==> !Contains(text, xs[j])
    ensures LabelIn(MoveAhead(xs, n), text) == want
  {
    MovedHitFirst(xs, n, text);
  }

  /** The entry moved ahead is the fetcher's `BF16`. */
  lemma CorrectedTable()
    ensures QuantPatterns[15] == "BF16" && CorrectedQuantPatterns[13] == "BF16"
  {
  }

  // ---------------------------------------------------------------------
  // Model type
  // ---------------------------------------------------------------------

  /** The fetcher's type table flattened in iteration order: (pattern, type). */
  const TypeRows: seq<(string, string)> := [
    ("llama", "LLaMA"), ("llama-2", "LLaMA"), ("llama2", "LLaMA"), ("llama-3", "LLaMA"), ("llama3", "LLaMA"),
    ("mistral", "Mistral"), ("mixtral", "Mistral"),
    ("qwen", "Qwen"), ("qwen1.5", "Qwen"), ("qwen2", "Qwen"),
    ("gemma", "Gemma"),
    ("phi-3", "Phi"), ("phi3", "Phi"), ("phi-2", "Phi"), ("phi", "Phi"),
    ("codellama", "CodeLlama"), ("code-llama", "CodeLlama"),
    ("yi-34b", "Yi"), ("yi-6b", "Yi"), ("yi-", "Yi"),
    ("deepseek", "DeepSeek"), ("falcon", "Falcon"), ("mpt", "MPT"),
    ("gpt-", "GPT"), ("gpt2", "GPT"), ("gpt3", "GPT"),
    ("bert", "BERT"), ("t5-", "T5"), ("vicuna", "Vicuna"), ("alpaca", "Alpaca"),
    ("chatglm", "ChatGLM"), ("baichuan", "Baichuan"), ("internlm", "InternLM"),
    ("zephyr", "Zephyr"), ("orca", "Orca"), ("wizardlm", "WizardLM"), ("wizard", "WizardLM"),
    ("stablelm", "StableLM"), ("redpajama", "RedPajama"), ("openllama", "OpenLLaMA"),
    ("dolly", "Dolly")
  ]

  /** Some tag, lower-cased, contains the pattern. */
  predicate InSomeTag(tags: seq<string>, p: string) {
    exists j | 0 <= j < |tags| :: Contains(ToLower(tags[j]), p)
  }

  /** `r` is the type of the first row whose pattern occurs in some tag, or `Unknown`. */
  ghost predicate FirstTagHit(table: seq<(string, string)>, tags: seq<string>, r: string) {
    && ((forall k :: 0 <= k < |table| ==> !InSomeTag(tags, table[k].0)) ==> r == Extraction.UnknownLabel)
    && (forall k :: (0 <= k < |table| && InSomeTag(tags, table[k].0)
                     && (forall j :: 0 <= j < k ==> !InSomeTag(tags, table[j].0))) ==> r == table[k].1)
  }

  /** Some row's pattern occurs in `low`. */
  predicate SomeRowIn(table: seq<(string, string)>, low: string) {
    exists k | 0 <= k < |table| :: Contains(low, table[k].0)
  }

  /** Some row of the fetcher's table occurs in the lower-cased id. */
  predicate IdHasType(id: string) {
    SomeRowIn(TypeRows, ToLower(id))
  }

  /** The label of the first row whose pattern satisfies `hit`, if any row's does. */
  function FirstMatch(table: seq<(string, string)>, hit: string -> bool): (r: Option<string>)
    ensures r.None? <==> forall k :: 0 <= k < |table| ==> !hit(table[k].0)
    ensures forall k :: 0 <= k < |table| && hit(table[k].0) && (forall j :: 0 <= j < k ==> !hit(table[j].0))
                        ==> r == Some(table[k].1)
  {
    var k := FirstWhere(table, (row: (string, string)) => hit(row.0));
    if k < |table| then Some(table[k].1) else None
  }

  /** The id lookup, then the tag lookup, over any table. */
  function TypeBy(table: seq<(string, string)>, low: string, tags: seq<string>): (r: string)
    ensures SomeRowIn(table, low) ==> Extraction.FirstHit(table, low, r)
    ensures !SomeRowIn(table, low) ==> FirstTagHit(table, tags, r)
  {
    match FirstMatch(table, (p: string) => Contains(low, p))
    case Some(t) => t
    case None => FirstMatch(table, (p: string) => InSomeTag(tags, p)).GetOr(Extraction.UnknownLabel)
  }

  /**
   * `_infer_model_type`: the whole table is tried on the lower-cased id
   * first, and only then on the tags; the first hit wins.
   */
  function InferModelType(id: string, tags: seq<string>): (r: string)
    ensures id == [] ==> r == Extraction.UnknownLabel
    ensures id != [] && IdHasType(id) ==> Extraction.FirstHit(TypeRows, ToLower(id), r)
    ensures id != [] && !IdHasType(id) ==> FirstTagHit(TypeRows, tags, r)
  {
    InferBy(TypeRows, id, tags)
  }

  /** `InferModelType` over any table. */
  function InferBy(table: seq<(string, string)>, id: string, tags: seq<string>): (r: string)
    ensures id == [] ==> r == Extraction.UnknownLabel
    ensures id != [] && SomeRowIn(table, ToLower(id)) ==> Extraction.FirstHit(table, ToLower(id), r)
    ensures id != [] && !SomeRowIn(table, ToLower(id)) ==> FirstTagHit(table, tags, r)
  {
    if id == [] then Extraction.UnknownLabel else TypeBy(table, ToLower(id), tags)
  }

  /** An id naming CodeLlama is typed `LLaMA`: `llama` is the first row and occurs inside it. */
  lemma CodeLlamaIdIsLlama(id: string, tags: seq<string>)
    requires Contains(ToLower(id), "codellama")
    ensures InferModelType(id, tags) == "LLaMA"
  {
    var low := ToLower(id);
    var i :| 0 <= i <= |low| - 9 && OccursAt(low, "codellama", i);
    OccursInside(low, "codellama", i, "llama", 4);
    TypeRowsHead();
    assert SomeRowIn(TypeRows, low);
    FirstRowWins(TypeRows, low, InferModelType(id, tags));
  }

  /** The fetcher's table starts with `llama`. */
  lemma TypeRowsHead()
    ensures TypeRows != [] && TypeRows[0] == ("llama", "LLaMA")
  {
  }

  /** A hit on the first row decides the label. */
  lemma FirstRowWins(table: seq<(string, string)>, text: string, r: string)
    requires table != [] && Contains(text, table[0].0)
    requires Extraction.FirstHit(table, text, r)
    ensures r == table[0].1
  {
  }

  /** When the id names a type, the tags play no part. */
  lemma TagsIgnoredWhenIdMatches(id: string, tags1: seq<string>, tags2: seq<string>)
    requires id != [] && IdHasType(id)
    ensures InferModelType(id, tags1) == InferModelType(id, tags2)
  {
    TypeByIgnoresTags(TypeRows, ToLower(id), tags1, tags2);
  }

  /** With a hit in the id, the tag list is never consulted. */
  lemma TypeByIgnoresTags(table: seq<(string, string)>, low: string, tags1: seq<string>, tags2: seq<string>)
    requires SomeRowIn(table, low)
    ensures TypeBy(table, low, tags1) == TypeBy(table, low, tags2)
  {
    var hit := (p: string) => Contains(low, p);
    var k :| 0 <= k < |table| && Contains(low, table[k].0);
    assert hit(table[k].0);
    assert FirstMatch(table, hit).Some?;
  }

  // ---------------------------------------------------------------------
  // License
  // ---------------------------------------------------------------------

  /** `d.get(key)` on an object: `null` for a missing key. */
  function Field(v: Value, key: string): Value
    requires v.Obj?
  {
    GetOr(v, key, Null)
  }

  /**
   * The value `_get_license` settles on: `license`, then `license_name` if
   * that was falsy, then `metadata.license` if `metadata` (default `{}`) is
   * an object.
   */
  function LicenseValue(cd: Value): Value
    requires cd.Obj?
  {
    var first := Field(cd, "license");
    var second := if Truthy(first) then first else Field(cd, "license_name");
    if Truthy(second) then second
    else
      var md := GetOr(cd, "metadata", Obj(map[]));
      if md.Obj? then Field(md, "license") else second
  }

  /** A string that is not blank. */
  predicate NonBlankString(v: Value) {
    v.Str? && Strip(v.s) != []
  }

  /** A license or `Not specified`, never surrounded by whitespace. */
  predicate Tidy(r: string) {
    r == Extraction.NotSpecified || (r != [] && !IsSpace(r[0]) && !IsSpace(r[|r| - 1]))
  }

  /** The text a settled license value gives: a stripped string, or the first non-blank string of a list. */
  function LicenseText(lv: Value): (r: string)
    ensures Tidy(r)
  {
    NotSpecifiedTidy();
    if !Truthy(lv) then Extraction.NotSpecified
    else if lv.Str? then
      if Strip(lv.s) != [] then StrippedTidy(lv.s); Strip(lv.s) else Extraction.NotSpecified
    else if lv.Arr? then
      var k := FirstWhere(lv.items, NonBlankString);
      if k < |lv.items| then StrippedTidy(lv.items[k].s); Strip(lv.items[k].s) else Extraction.NotSpecified
    else Extraction.NotSpecified
  }

  /** Stripping never lengthens a string. */
  lemma StripShorter(s: string)
    ensures |Strip(s)| <= |s|
  {
  }

  /** The fallback value is itself tidy. */
  lemma NotSpecifiedTidy()
    ensures Tidy(Extraction.NotSpecified)
  {
  }

  /** A non-empty stripped string is tidy. */
  lemma StrippedTidy(s: string)
    requires Strip(s) != []
    ensures Tidy(Strip(s))
  {
  }

  /** `_get_license`: the stripped license text, or `Not specified`. */
  function GetLicense(cd: Value): (r: string)
    ensures Tidy(r)
  {
    if !Truthy(cd) || !cd.Obj? then Extraction.NotSpecified
    else LicenseText(LicenseValue(cd))
  }

  /** A non-blank `license` string is used, stripped. */
  lemma LicenseFromLicense(cd: Value, s: string)
    requires cd.Obj? && Field(cd, "license") == Str(s) && Strip(s) != []
    ensures GetLicense(cd) == Strip(s)
  {
    assert "license" in cd.fields;
    ObjectWithKeyTruthy(cd, "license");
    StripShorter(s);
    assert LicenseValue(cd) == Str(s);
  }

  /** A falsy `license` falls back to `license_name`. */
  lemma LicenseFromLicenseName(cd: Value, s: string)
    requires cd.Obj? && !Truthy(Field(cd, "license"))
    requires Field(cd, "license_name") == Str(s) && Strip(s) != []
    ensures GetLicense(cd) == Strip(s)
  {
    assert "license_name" in cd.fields;
    ObjectWithKeyTruthy(cd, "license_name");
    StripShorter(s);
    assert LicenseValue(cd) == Str(s);
  }

  /** With both top-level fields falsy, the license of a `metadata` object is used. */
  lemma LicenseFromMetadata(cd: Value, md: Value, s: string)
    requires cd.Obj? && !Truthy(Field(cd, "license")) && !Truthy(Field(cd, "license_name"))
    requires GetOr(cd, "metadata", Null) == md && md.Obj?
    requires Field(md, "license") == Str(s) && Strip(s) != []
    ensures GetLicense(cd) == Strip(s)
  {
    assert "metadata" in cd.fields;
    ObjectWithKeyTruthy(cd, "metadata");
    StripShorter(s);
    assert LicenseValue(cd) == Str(s);
  }

  /**
   * A `license` that is a non-empty but blank string ends the search: the
   * other fields are not consulted.
   */
  lemma BlankLicenseStops(cd: Value, s: string)
    requires cd.Obj? && Field(cd, "license") == Str(s) && s != [] && Strip(s) == []
    ensures GetLicense(cd) == Extraction.NotSpecified
  {
  }

  /** For a list, the first non-blank string item is used, stripped. */
  lemma LicenseFromList(cd: Value, items: seq<Value>, k: nat)
    requires cd.Obj? && Field(cd, "license") == Arr(items)
    requires k < |items| && NonBlankString(items[k])
    requires forall j :: 0 <= j < k ==> !NonBlankString(items[j])
    ensures GetLicense(cd) == Strip(items[k].s)
  {
    assert "license" in cd.fields;
    ObjectWithKeyTruthy(cd, "license");
    assert Truthy(Arr(items));
    assert LicenseValue(cd) == Arr(items);
    assert FirstWhere(items, NonBlankString) == k;
  }

  // ---------------------------------------------------------------------
  // Links
  // ---------------------------------------------------------------------

  /** `_generate_links`: the repository page and the direct download link. */
  function GenerateLinks(id: string, filename: string): (r: (string, string))
    ensures id == [] ==> r == ("", "")
    ensures id != [] && filename == [] ==> r.1 == ""
    ensures id != [] ==> StartsWith(r.0, Extraction.HubRoot)
  {
    if id == [] then ("", "")
    else
      var hf := Extraction.HubRoot + id;
      assert hf[..|Extraction.HubRoot|] == Extraction.HubRoot;
      (hf, if filename != [] then hf + "/resolve/main/" + filename else "")
  }

  /** For a real file, the fetcher builds the same links as the curation engine. */
  lemma LinksMatchEngine(id: string, filename: string)
    requires id != [] && filename != []
    ensures var r := GenerateLinks(id, filename);
      r.0 == Extraction.HubRoot + id && r.1 == Extraction.DownloadLink(r.0, filename)
  {
  }

  /** The selector reads the id's owner back from the generated page link. */
  lemma GeneratedLinkOwner(owner: string, repo: string, filename: string)
    requires owner != [] && Selector.NoSlash(owner)
    ensures Selector.LinkOwner(GenerateLinks(owner + "/" + repo, filename).0) == Some(owner)
  {
    Selector.LinkOwnerOfPath(owner, repo);
    assert GenerateLinks(owner + "/" + repo, filename).0 == Extraction.HubRoot + (owner + "/" + repo);
  }

  // ---------------------------------------------------------------------
  // Output: sanitised likes, sort, projection
  // ---------------------------------------------------------------------

  /** One catalogue record: the fifteen output fields less the formatted size. */
  datatype OutputEntry = OutputEntry(
    modelName: string,
    quantFormat: string,
    fileSize: Option<int>,
    modelType: string,
    license: string,
    downloadCount: Option<int>,
    likeCount: nat,
    huggingFaceLink: string,
    directDownloadLink: string,
    minRamGB: nat,
    minCpuCores: nat,
    gpuRequired: bool,
    osSupported: seq<string>,
    uploadDate: Option<string>)

  const DefaultOs: seq<string> := ["Windows", "Linux", "macOS"]

  /** The hardware fields written for an entry whose requirements were never calculated. */
  const DefaultProfile := Profile(8, 4, true, DefaultOs)

  /** The like count after `_validate_engagement_metric`; a `null` count is 0. */
  function SanitizedLikes(e: Entry): (n: nat)
    ensures n <= MetricCap
  {
    CapCount(e.likeCount.GetOr(0))
  }

  /** The stored like count is what the metric validator makes of the JSON value. */
  lemma SanitizedLikesValidate(e: Entry, parse: string -> Option<real>)
    ensures SanitizedLikes(e) == ValidateEngagementMetric(OfInt(e.likeCount), parse)
  {
  }

  /** Every entry with its like count replaced by the sanitised one. */
  function Sanitize(es: seq<Entry>): (r: seq<Entry>)
    ensures |r| == |es|
    ensures forall k :: 0 <= k < |es| ==> r[k] == es[k].(likeCount := Some(SanitizedLikes(es[k])))
  {
    seq(|es|, k requires 0 <= k < |es| => es[k].(likeCount := Some(SanitizedLikes(es[k]))))
  }

  /** The sort key `(downloadCount, likeCount)`, a `null` download count read as 0. */
  function OutputKey(e: Entry): Key {
    Key(Downloads(e), e.likeCount.GetOr(0))
  }

  /** The projection's own like-count guard: `null` or negative gives 0. */
  function ProjectedLikes(c: Option<int>): (n: nat)
    ensures c.Some? && c.value >= 0 ==> n == c.value
  {
    if c.None? || c.value < 0 then 0 else c.value
  }

  /** The output record for one entry; missing hardware fields take their defaults. */
  function Project(e: Entry): (o: OutputEntry)
    ensures var p := e.hardware.GetOr(DefaultProfile);
      o.minRamGB == p.minRamGB && o.minCpuCores == p.minCpuCores
      && o.gpuRequired == p.gpuRequired && o.osSupported == p.osSupported
  {
    var p := e.hardware.GetOr(DefaultProfile);
    OutputEntry(
      e.modelName, e.quantFormat, e.fileSize, e.modelType, e.license,
      e.downloadCount, ProjectedLikes(e.likeCount),
      e.huggingFaceLink, e.directDownloadLink,
      p.minRamGB, p.minCpuCores, p.gpuRequired, p.osSupported,
      e.uploadDate)
  }

  /** An entry without calculated requirements is written with 8 GB RAM, 4 cores and a GPU. */
  lemma ProjectDefaults(e: Entry)
    requires e.hardware.None?
    ensures var o := Project(e);
      o.minRamGB == 8 && o.minCpuCores == 4 && o.gpuRequired && o.osSupported == DefaultOs
  {
  }

  /** The entries in output order: likes sanitised, then sorted by the key, highest first. */
  function SortForOutput(es: seq<Entry>): (r: seq<Entry>)
    ensures |r| == |es|
  {
    SortDesc(Sanitize(es), OutputKey)
  }

  /** The sort and projection part of `_generate_output`. */
  function GenerateOutput(es: seq<Entry>): (r: seq<OutputEntry>)
    ensures |r| == |es|
  {
    var sorted := SortForOutput(es);
    seq(|sorted|, k requires 0 <= k < |sorted| => Project(sorted[k]))
  }

  /** The key an output record is ordered by. */
  function RecordKey(o: OutputEntry): Key {
    Key(o.downloadCount.GetOr(0), o.likeCount)
  }

  /** The output records come by download count, then like count, highest first. */
  lemma OutputSorted(es: seq<Entry>)
    ensures var r := GenerateOutput(es);
      forall i, j :: 0 <= i < j < |r| ==> KeyLe(RecordKey(r[j]), RecordKey(r[i]))
  {
    var sorted := SortForOutput(es);
    var r := GenerateOutput(es);
    SortDescSorted(Sanitize(es), OutputKey);
    SortDescPermutes(Sanitize(es), OutputKey);
    forall k | 0 <= k < |sorted| ensures RecordKey(r[k]) == OutputKey(sorted[k]) {
      SanitizedMember(es, sorted[k]);
    }
  }

  /** Every entry of the sorted list is a sanitised input entry. */
  lemma SanitizedMember(es: seq<Entry>, e: Entry)
    requires e in multiset(SortForOutput(es))
    ensures e in Sanitize(es) && e.likeCount.Some? && 0 <= e.likeCount.value <= MetricCap
  {
    SortDescPermutes(Sanitize(es), OutputKey);
    assert e in multiset(Sanitize(es));
  }

  /** The output is the input, every entry once: a permutation of the projected entries. */
  lemma OutputPermutes(es: seq<Entry>)
    ensures multiset(SortForOutput(es)) == multiset(Sanitize(es))
    ensures forall k :: 0 <= k < |es| ==> Project(Sanitize(es)[k]) in GenerateOutput(es)
    ensures forall k :: 0 <= k < |es| ==> GenerateOutput(es)[k].likeCount <= MetricCap
  {
    var sorted := SortForOutput(es);
    var r := GenerateOutput(es);
    SortDescPermutes(Sanitize(es), OutputKey);
    forall k | 0 <= k < |es| ensures Project(Sanitize(es)[k]) in r {
      var e := Sanitize(es)[k];
      assert e in multiset(sorted);
      var m :| 0 <= m < |sorted| && sorted[m] == e;
      assert r[m] == Project(e);
    }
    forall k | 0 <= k < |es| ensures r[k].likeCount <= MetricCap {
      assert sorted[k] in multiset(sorted);
      SanitizedMember(es, sorted[k]);
    }
  }

  /** Entries with equal keys keep their input order. */
  lemma OutputStable(es: seq<Entry>, k: Key)
    ensures WithKey(SortForOutput(es), OutputKey, k) == WithKey(Sanitize(es), OutputKey, k)
  {
    SortDescStable(Sanitize(es), OutputKey, k);
  }
}
