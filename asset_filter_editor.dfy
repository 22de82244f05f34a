/**
 The asset filter: the naming-convention verdict for one file, the scan that
 collects every mismatched file under the target directory, its progress and
 cancel step, and the paging of the collected result.

 `Regex.IsMatch(input, pattern)` is a foreign library call. Every member that
 needs it takes it as the parameters `isMatch`, the verdict on a pattern that
 parses, and `isValid`, whether a pattern parses at all; nothing else is
 assumed about either.
 */
module AssetFilter {
  import opened Options
  import opened BaseLibrary
  import opened Settings

  /** Regex.IsMatch(input, pattern), for a pattern that parses. */
  type Matcher = (string, string) -> bool

  /** Whether a pattern parses; Regex.IsMatch throws ArgumentException on one that does not. */
  type PatternCheck = string -> bool

  /** Number of assets shown on one page of the result. */
  const EachPageCount: nat := 100

  /** The target directory a window starts with when the preferences hold none. */
  const DefaultTargetDirectory: string := "Assets"

  /** The sidecar extension that is never checked. */
  const MetaExtension: string := ".meta"

  // ---------------------------------------------------------------------------
  // The verdict for one file
  // ---------------------------------------------------------------------------

  /** A rule flags a file when its extension pattern matches and its name pattern does not. */
  predicate Flags(isMatch: Matcher, pattern: AssetPattern, extension: string, fileName: string) {
    isMatch(extension, pattern.extensionPattern) && !isMatch(fileName, pattern.namePattern)
  }

  /** The rule at which the foreach over the rules returns true: the first one that flags. */
  function FirstFlaggingPattern(isMatch: Matcher, patterns: seq<AssetPattern>, extension: string, fileName: string)
    : (r: Option<nat>)
    ensures r.Some? ==> r.value < |patterns| && Flags(isMatch, patterns[r.value], extension, fileName)
    ensures r.Some? ==> forall j :: 0 <= j < r.value ==> !Flags(isMatch, patterns[j], extension, fileName)
    ensures r.None? ==> forall j :: 0 <= j < |patterns| ==> !Flags(isMatch, patterns[j], extension, fileName)
  {
    if patterns == [] then None
    else if Flags(isMatch, patterns[0], extension, fileName) then Some(0)
    else match FirstFlaggingPattern(isMatch, patterns[1..], extension, fileName)
      case None => None
      case Some(k) => Some(k + 1)
  }

  /**
   CheckMismatchPattern: a `.meta` file is exempt; any other file is a
   mismatch exactly when some rule matches its extension but not its base name.
   */
  function CheckMismatchPattern(isMatch: Matcher, patterns: seq<AssetPattern>, filePath: string): (mismatch: bool)
    ensures GetExtension(filePath) == MetaExtension ==> !mismatch
    ensures GetExtension(filePath) != MetaExtension ==>
      (mismatch <==>
        exists i :: 0 <= i < |patterns| &&
          Flags(isMatch, patterns[i], GetExtension(filePath), GetFileNameWithoutExtension(filePath)))
  {
    var extension := GetExtension(filePath);
    if extension == MetaExtension then false
    else FirstFlaggingPattern(isMatch, patterns, extension, GetFileNameWithoutExtension(filePath)).Some?
  }

  /** With no rules, no file is ever a mismatch. */
  lemma NoPatternsNoMismatch(isMatch: Matcher, filePath: string)
    ensures !CheckMismatchPattern(isMatch, [], filePath)
  {
  }

  /** The verdict depends only on which rules are present, not on their order or repetition. */
  lemma VerdictIgnoresPatternOrder(isMatch: Matcher, p: seq<AssetPattern>, q: seq<AssetPattern>, filePath: string)
    requires forall r :: r in p <==> r in q
    ensures CheckMismatchPattern(isMatch, p, filePath) == CheckMismatchPattern(isMatch, q, filePath)
  {
    var extension, fileName := GetExtension(filePath), GetFileNameWithoutExtension(filePath);
    if CheckMismatchPattern(isMatch, p, filePath) {
      var i :| 0 <= i < |p| && Flags(isMatch, p[i], extension, fileName);
      assert p[i] in q;
    }
    if CheckMismatchPattern(isMatch, q, filePath) {
      var i :| 0 <= i < |q| && Flags(isMatch, q[i], extension, fileName);
      assert q[i] in p;
    }
  }

  /** A `.meta` file is exempt whatever the rules say, in whichever directory it lies. */
  lemma MetaFileExempt(isMatch: Matcher, patterns: seq<AssetPattern>, directory: string, stem: string)
    requires directory == [] || IsDirectorySeparator(directory[|directory| - 1])
    requires forall i :: 0 <= i < |stem| ==> !IsDirectorySeparator(stem[i])
    ensures !CheckMismatchPattern(isMatch, patterns, directory + stem + MetaExtension)
  {
    SplitPath(directory, stem, MetaExtension);
  }

  /** For any other file, the rules see its base name and its extension exactly as written. */
  lemma VerdictOnNamedFile(isMatch: Matcher, patterns: seq<AssetPattern>, directory: string, stem: string, extension: string)
    requires directory == [] || IsDirectorySeparator(directory[|directory| - 1])
    requires forall i :: 0 <= i < |stem| ==> !IsDirectorySeparator(stem[i])
    requires |extension| >= 2 && extension[0] == '.' && extension != MetaExtension
    requires forall i :: 1 <= i < |extension| ==> extension[i] != '.' && !IsDirectorySeparator(extension[i])
    ensures CheckMismatchPattern(isMatch, patterns, directory + stem + extension) <==>
      exists i :: 0 <= i < |patterns| && Flags(isMatch, patterns[i], extension, stem)
  {
    SplitPath(directory, stem, extension);
  }

  /** Every pattern of every rule parses, so no IsMatch call can throw. */
  predicate PatternsParse(isValid: PatternCheck, patterns: seq<AssetPattern>) {
    forall i :: 0 <= i < |patterns| ==> isValid(patterns[i].extensionPattern) && isValid(patterns[i].namePattern)
  }

  /**
   The rule loop gets past this rule without throwing: its extension pattern
   parses, and its name pattern parses too if the extension pattern matched
   (only then is the name pattern handed to IsMatch).
   */
  predicate Reached(isMatch: Matcher, isValid: PatternCheck, pattern: AssetPattern, extension: string) {
    isValid(pattern.extensionPattern) && (isMatch(extension, pattern.extensionPattern) ==> isValid(pattern.namePattern))
  }

  /**
   The rule loop throws at rule `k`: every earlier rule was passed without
   throwing and did not flag, so the loop got to rule `k`, which throws.
   */
  predicate ThrowsAt(isMatch: Matcher, isValid: PatternCheck, patterns: seq<AssetPattern>, extension: string, fileName: string, k: nat)
    requires k < |patterns|
  {
    && !Reached(isMatch, isValid, patterns[k], extension)
    && forall j :: 0 <= j < k ==>
      Reached(isMatch, isValid, patterns[j], extension) && !Flags(isMatch, patterns[j], extension, fileName)
  }

  /**
   The foreach over the rules as it runs: None is the ArgumentException of the
   first pattern it hands to IsMatch that does not parse, Some(true) the return
   at a flagging rule, Some(false) the fall-through after the last rule. The
   name pattern is only evaluated when the extension pattern matched.
   */
  function EvaluateRules(isMatch: Matcher, isValid: PatternCheck, patterns: seq<AssetPattern>, extension: string, fileName: string)
    : (r: Option<bool>)
    ensures r.Some? ==>
      (r.value <==> exists i :: 0 <= i < |patterns| && Flags(isMatch, patterns[i], extension, fileName))
    ensures r.None? ==> !PatternsParse(isValid, patterns)
    ensures PatternsParse(isValid, patterns) ==> r.Some?
  {
    if patterns == [] then Some(false)
    else
      var pattern := patterns[0];
      if !isValid(pattern.extensionPattern) then None
      else if !isMatch(extension, pattern.extensionPattern) then
        EvaluateRules(isMatch, isValid, patterns[1..], extension, fileName)
      else if !isValid(pattern.namePattern) then None
      else if !isMatch(fileName, pattern.namePattern) then Some(true)
      else EvaluateRules(isMatch, isValid, patterns[1..], extension, fileName)
  }

  /**
   The rule loop throws exactly when it gets to a rule that throws: one whose
   extension pattern does not parse, or whose extension pattern matches and
   whose name pattern does not parse, before any rule flagged the file. An
   unparsable pattern after the first flagging rule is never reached.
   */
  lemma {:induction false} EvaluateRulesThrows(isMatch: Matcher, isValid: PatternCheck, patterns: seq<AssetPattern>, extension: string, fileName: string)
    ensures EvaluateRules(isMatch, isValid, patterns, extension, fileName).None? <==>
      exists k :: 0 <= k < |patterns| && ThrowsAt(isMatch, isValid, patterns, extension, fileName, k)
    decreases |patterns|
  {
    if patterns != [] {
      var pattern := patterns[0];
      if !isValid(pattern.extensionPattern) || (isMatch(extension, pattern.extensionPattern) && !isValid(pattern.namePattern)) {
        assert ThrowsAt(isMatch, isValid, patterns, extension, fileName, 0);
      } else if Flags(isMatch, pattern, extension, fileName) {
        assert forall k :: 0 < k < |patterns| ==> !ThrowsAt(isMatch, isValid, patterns, extension, fileName, k);
      } else {
        ThrowsAfterPassedRule(isMatch, isValid, patterns, extension, fileName);
        EvaluateRulesThrows(isMatch, isValid, patterns[1..], extension, fileName);
      }
    }
  }

  /**
   Past a first rule that is passed without throwing and does not flag, the
   loop throws at some rule exactly when it throws at some rule of the rest.
   */
  lemma ThrowsAfterPassedRule(isMatch: Matcher, isValid: PatternCheck, patterns: seq<AssetPattern>, extension: string, fileName: string)
    requires patterns != []
    requires Reached(isMatch, isValid, patterns[0], extension) && !Flags(isMatch, patterns[0], extension, fileName)
    ensures (exists k :: 0 <= k < |patterns| && ThrowsAt(isMatch, isValid, patterns, extension, fileName, k)) <==>
      (exists k :: 0 <= k < |patterns| - 1 && ThrowsAt(isMatch, isValid, patterns[1..], extension, fileName, k))
  {
    var rest := patterns[1..];
    assert !ThrowsAt(isMatch, isValid, patterns, extension, fileName, 0);
    forall k | 1 <= k < |patterns|
      ensures ThrowsAt(isMatch, isValid, patterns, extension, fileName, k) <==> ThrowsAt(isMatch, isValid, rest, extension, fileName, k - 1)
    {
      assert forall j :: 1 <= j < |patterns| ==> patterns[j] == rest[j - 1];
    }
    if exists k :: 0 <= k < |patterns| && ThrowsAt(isMatch, isValid, patterns, extension, fileName, k) {
      var k :| 0 <= k < |patterns| && ThrowsAt(isMatch, isValid, patterns, extension, fileName, k);
      assert ThrowsAt(isMatch, isValid, rest, extension, fileName, k - 1);
    }
    if exists k :: 0 <= k < |rest| && ThrowsAt(isMatch, isValid, rest, extension, fileName, k) {
      var k :| 0 <= k < |rest| && ThrowsAt(isMatch, isValid, rest, extension, fileName, k);
      assert ThrowsAt(isMatch, isValid, patterns, extension, fileName, k + 1);
    }
  }

  /**
   CheckMismatchPattern as it runs, throwing included: a verdict, which is
   always the one CheckMismatchPattern states, or None when a rule pattern
   that does not parse reaches IsMatch. A `.meta` file never reaches it.
   */
  function TryCheckMismatchPattern(isMatch: Matcher, isValid: PatternCheck, patterns: seq<AssetPattern>, filePath: string)
    : Option<bool>
  {
    var extension := GetExtension(filePath);
    if extension == MetaExtension then Some(false)
    else EvaluateRules(isMatch, isValid, patterns, extension, GetFileNameWithoutExtension(filePath))
  }

  /** A check that does not throw gives the verdict CheckMismatchPattern states. */
  lemma TryCheckAgrees(isMatch: Matcher, isValid: PatternCheck, patterns: seq<AssetPattern>, filePath: string)
    ensures TryCheckMismatchPattern(isMatch, isValid, patterns, filePath).Some? ==>
      TryCheckMismatchPattern(isMatch, isValid, patterns, filePath).value == CheckMismatchPattern(isMatch, patterns, filePath)
  {
  }

  /**
   A check throws only when some rule pattern does not parse, and never on a
   `.meta` file, which it does not hand to IsMatch at all. On any other file it
   throws exactly when the rule loop reaches a rule that throws before a rule
   has flagged the file.
   */
  lemma TryCheckThrows(isMatch: Matcher, isValid: PatternCheck, patterns: seq<AssetPattern>, filePath: string)
    ensures TryCheckMismatchPattern(isMatch, isValid, patterns, filePath).None? ==>
      GetExtension(filePath) != MetaExtension && !PatternsParse(isValid, patterns)
    ensures GetExtension(filePath) == MetaExtension ==> TryCheckMismatchPattern(isMatch, isValid, patterns, filePath) == Some(false)
    ensures TryCheckMismatchPattern(isMatch, isValid, patterns, filePath).None? <==>
      && GetExtension(filePath) != MetaExtension
      && exists k :: 0 <= k < |patterns| && ThrowsAt(isMatch, isValid, patterns, GetExtension(filePath), GetFileNameWithoutExtension(filePath), k)
  {
    EvaluateRulesThrows(isMatch, isValid, patterns, GetExtension(filePath), GetFileNameWithoutExtension(filePath));
  }

  // ---------------------------------------------------------------------------
  // The result of a scan
  // ---------------------------------------------------------------------------

  /** The files of `files` that `keep` accepts, in their original order. */
  function Filter(keep: string -> bool, files: seq<string>): (r: seq<string>)
    ensures |r| <= |files|
  {
    if files == [] then []
    else
      var last := files[|files| - 1];
      Filter(keep, files[..|files| - 1]) + (if keep(last) then [last] else [])
  }

  /** A path is kept exactly when it is one of the files and `keep` accepts it. */
  lemma {:induction false} FilterMembers(keep: string -> bool, files: seq<string>, path: string)
    ensures path in Filter(keep, files) <==> path in files && keep(path)
  {
    if files != [] {
      var front := files[..|files| - 1];
      FilterMembers(keep, front, path);
      assert files == front + [files[|files| - 1]];
    }
  }

  /** Filtering a concatenation keeps the first part's files, then the second's. */
  lemma {:induction false} FilterAppend(keep: string -> bool, a: seq<string>, b: seq<string>)
    ensures Filter(keep, a + b) == Filter(keep, a) + Filter(keep, b)
    decreases |b|
  {
    if b == [] {
      assert a + b == a;
    } else {
      var front := b[..|b| - 1];
      assert (a + b)[..|a + b| - 1] == a + front;
      FilterAppend(keep, a, front);
    }
  }

  /** `index` picks out `r` from `files` at strictly increasing positions. */
  ghost predicate PicksInOrder(index: seq<nat>, r: seq<string>, files: seq<string>) {
    && |index| == |r|
    && (forall k :: 0 <= k < |index| ==> index[k] < |files| && files[index[k]] == r[k])
    && (forall k, l :: 0 <= k < l < |index| ==> index[k] < index[l])
  }

  /** The kept files are a subsequence of the files: they keep the order they were scanned in. */
  lemma FilterInOrder(keep: string -> bool, files: seq<string>)
    ensures exists index: seq<nat> :: PicksInOrder(index, Filter(keep, files), files)
  {
    var index := FilterPicking(keep, files);
  }

  /** The positions at which `Filter` picks its files, built up file by file. */
  lemma {:induction false} FilterPicking(keep: string -> bool, files: seq<string>) returns (index: seq<nat>)
    ensures PicksInOrder(index, Filter(keep, files), files)
  {
    if files == [] {
      index := [];
    } else {
      var front := files[..|files| - 1];
      var index0 := FilterPicking(keep, front);
      var last := files[|files| - 1];
      assert files == front + [last];
      PicksInOrderExtend(index0, Filter(keep, front), front, last);
      index := if keep(last) then index0 + [|front|] else index0;
    }
  }

  /** A picking of `r` from `files` still picks `r` once a file is appended, and picks it too when appended to `r`. */
  lemma PicksInOrderExtend(index: seq<nat>, r: seq<string>, files: seq<string>, last: string)
    requires PicksInOrder(index, r, files)
    ensures PicksInOrder(index, r, files + [last])
    ensures PicksInOrder(index + [|files|], r + [last], files + [last])
  {
    var index1, r1, files1 := index + [|files|], r + [last], files + [last];
    assert forall k :: 0 <= k < |index| ==> index1[k] == index[k] && r1[k] == r[k] && files1[index[k]] == files[index[k]];
  }

  /** Nothing is kept when `keep` accepts nothing. */
  lemma {:induction false} FilterNone(keep: string -> bool, files: seq<string>)
    requires forall path :: !keep(path)
    ensures Filter(keep, files) == []
  {
    if files != [] {
      FilterNone(keep, files[..|files| - 1]);
    }
  }

  /** The mismatched files among `files`, in the order they were scanned. */
  function Mismatches(isMatch: Matcher, patterns: seq<AssetPattern>, files: seq<string>): (r: seq<string>)
    ensures |r| <= |files|
  {
    Filter(path => CheckMismatchPattern(isMatch, patterns, path), files)
  }

  /** A path is collected exactly when it is one of the scanned files and is a mismatch. */
  lemma MismatchesMembers(isMatch: Matcher, patterns: seq<AssetPattern>, files: seq<string>, path: string)
    ensures path in Mismatches(isMatch, patterns, files) <==>
      path in files && CheckMismatchPattern(isMatch, patterns, path)
  {
    FilterMembers(path => CheckMismatchPattern(isMatch, patterns, path), files, path);
  }

  /** Scanning one more file appends it to the result exactly when it is a mismatch. */
  lemma MismatchesStep(isMatch: Matcher, patterns: seq<AssetPattern>, files: seq<string>, i: nat)
    requires i < |files|
    ensures Mismatches(isMatch, patterns, files[..i + 1]) ==
      Mismatches(isMatch, patterns, files[..i]) + (if CheckMismatchPattern(isMatch, patterns, files[i]) then [files[i]] else [])
  {
    assert files[..i + 1][..i] == files[..i];
  }

  /** With no rules, a scan collects nothing. */
  lemma NoPatternsNoMismatches(isMatch: Matcher, files: seq<string>)
    ensures Mismatches(isMatch, [], files) == []
  {
    FilterNone(path => CheckMismatchPattern(isMatch, [], path), files);
  }

  /** A check that did not throw adds its file to the result exactly when its verdict is a mismatch. */
  lemma ScanStep(isMatch: Matcher, isValid: PatternCheck, patterns: seq<AssetPattern>, files: seq<string>, i: nat)
    requires i < |files|
    requires TryCheckMismatchPattern(isMatch, isValid, patterns, files[i]).Some?
    ensures Mismatches(isMatch, patterns, files[..i + 1]) ==
      Mismatches(isMatch, patterns, files[..i]) +
      (if TryCheckMismatchPattern(isMatch, isValid, patterns, files[i]).value then [files[i]] else [])
  {
    TryCheckAgrees(isMatch, isValid, patterns, files[i]);
    MismatchesStep(isMatch, patterns, files, i);
  }

  /** The length of the longest prefix of `files` whose every file `ok` accepts. */
  function AcceptedPrefix(ok: string -> bool, files: seq<string>): (n: nat)
    ensures n <= |files|
  {
    if files == [] then 0
    else if !ok(files[0]) then 0
    else 1 + AcceptedPrefix(ok, files[1..])
  }

  /** Every file before the accepted prefix's end is accepted, and the file at its end, if any, is not. */
  lemma {:induction false} AcceptedPrefixStops(ok: string -> bool, files: seq<string>)
    ensures forall j :: 0 <= j < AcceptedPrefix(ok, files) ==> ok(files[j])
    ensures AcceptedPrefix(ok, files) < |files| ==> !ok(files[AcceptedPrefix(ok, files)])
  {
    if files != [] && ok(files[0]) {
      AcceptedPrefixStops(ok, files[1..]);
      assert forall j :: 1 <= j < |files| ==> files[j] == files[1..][j - 1];
    }
  }

  /** The accepted prefix is the one length before which every file is accepted and at which one is not, if any. */
  lemma AcceptedPrefixUnique(ok: string -> bool, files: seq<string>, i: nat)
    requires i <= |files|
    requires forall j :: 0 <= j < i ==> ok(files[j])
    requires i < |files| ==> !ok(files[i])
    ensures i == AcceptedPrefix(ok, files)
  {
    AcceptedPrefixStops(ok, files);
  }

  /**
   How many files the scan thread gets through: all of them, or those before
   the first whose check throws, which ends the thread.
   */
  function ScanStop(isMatch: Matcher, isValid: PatternCheck, patterns: seq<AssetPattern>, files: seq<string>): (n: nat)
    ensures n <= |files|
  {
    AcceptedPrefix(path => TryCheckMismatchPattern(isMatch, isValid, patterns, path).Some?, files)
  }

  /** The scan stops at the first file whose check throws, and gets through every file before it. */
  lemma ScanStopAtFirstThrow(isMatch: Matcher, isValid: PatternCheck, patterns: seq<AssetPattern>, files: seq<string>, i: nat)
    requires i <= |files|
    requires forall j :: 0 <= j < i ==> TryCheckMismatchPattern(isMatch, isValid, patterns, files[j]).Some?
    requires i < |files| ==> TryCheckMismatchPattern(isMatch, isValid, patterns, files[i]).None?
    ensures i == ScanStop(isMatch, isValid, patterns, files)
  {
    AcceptedPrefixUnique(path => TryCheckMismatchPattern(isMatch, isValid, patterns, path).Some?, files, i);
  }

  /** Up to the stopping point, the check of the next file throws exactly when the scan stops there. */
  lemma ScanStopHere(isMatch: Matcher, isValid: PatternCheck, patterns: seq<AssetPattern>, files: seq<string>, i: nat)
    requires i < |files| && i <= ScanStop(isMatch, isValid, patterns, files)
    ensures TryCheckMismatchPattern(isMatch, isValid, patterns, files[i]).None? ==> i == ScanStop(isMatch, isValid, patterns, files)
    ensures TryCheckMismatchPattern(isMatch, isValid, patterns, files[i]).Some? ==> i < ScanStop(isMatch, isValid, patterns, files)
  {
    AcceptedPrefixStops(path => TryCheckMismatchPattern(isMatch, isValid, patterns, path).Some?, files);
  }

  /** When every rule pattern parses, the scan gets through every file. */
  lemma ScanCompletes(isMatch: Matcher, isValid: PatternCheck, patterns: seq<AssetPattern>, files: seq<string>)
    requires PatternsParse(isValid, patterns)
    ensures ScanStop(isMatch, isValid, patterns, files) == |files|
  {
    forall j | 0 <= j < |files|
      ensures TryCheckMismatchPattern(isMatch, isValid, patterns, files[j]).Some?
    {
      TryCheckThrows(isMatch, isValid, patterns, files[j]);
    }
    ScanStopAtFirstThrow(isMatch, isValid, patterns, files, |files|);
  }

  /**
   The foreach of the scan thread: check every file in turn, collecting the
   mismatches and counting the files, until a check throws. Returns the
   mismatches and the count of files checked.
   */
  method CheckFiles(isMatch: Matcher, isValid: PatternCheck, patterns: seq<AssetPattern>, files: seq<string>)
    returns (found: seq<string>, done: nat)
    ensures done == ScanStop(isMatch, isValid, patterns, files)
    ensures found == Mismatches(isMatch, patterns, files[..done])
  {
    found, done := [], 0;
    while done < |files|
      invariant done <= ScanStop(isMatch, isValid, patterns, files)
      invariant found == Mismatches(isMatch, patterns, files[..done])
    {
      var verdict := TryCheckMismatchPattern(isMatch, isValid, patterns, files[done]);
      ScanStopHere(isMatch, isValid, patterns, files, done);
      if verdict.None? {
        return;
      }
      ScanStep(isMatch, isValid, patterns, files, done);
      if verdict.value {
        found := found + [files[done]];
      }
      done := done + 1;
    }
  }

  // ---------------------------------------------------------------------------
  // Paging
  // ---------------------------------------------------------------------------

  /** GetCurrentPageCount: the number of pages of `EachPageCount` assets that `assetCount` assets fill. */
  function PageCount(assetCount: nat): (pages: nat)
    ensures assetCount == 0 ==> pages == 0
    ensures assetCount > 0 ==> (pages - 1) * EachPageCount < assetCount <= pages * EachPageCount
  {
    assetCount / EachPageCount + (if assetCount % EachPageCount == 0 then 0 else 1)
  }

  /** The page count is the only number of pages that holds `assetCount` assets with none of them empty. */
  lemma PageCountUnique(assetCount: nat, pages: nat)
    requires assetCount > 0
    requires (pages - 1) * EachPageCount < assetCount <= pages * EachPageCount
    ensures pages == PageCount(assetCount)
  {
  }

  /** The index of the first asset shown on page `pageIndex`: the page boundary `pageIndex` pages in. */
  function StartIndex(pageIndex: nat): (r: nat)
    ensures r % EachPageCount == 0 && r / EachPageCount == pageIndex
  {
    pageIndex * EachPageCount
  }

  /**
   How many assets page `pageIndex` shows: a full page while the result
   reaches that far, what is left of it otherwise, and a negative count past
   the end of the result, for which the drawing loop shows nothing.
   */
  function LimitCount(pageIndex: nat, assetCount: nat): (r: int)
    ensures r <= EachPageCount
    ensures r >= 0 <==> StartIndex(pageIndex) <= assetCount
    ensures r >= 0 ==> StartIndex(pageIndex) + r <= assetCount
    ensures r < EachPageCount ==> StartIndex(pageIndex) + r == assetCount
  {
    var rest := assetCount - StartIndex(pageIndex);
    if EachPageCount < rest then EachPageCount else rest
  }

  /** Every existing page shows between one and `EachPageCount` assets, all of them valid indices. */
  lemma PageWindowInRange(pageIndex: nat, assetCount: nat)
    requires pageIndex < PageCount(assetCount)
    ensures 0 < LimitCount(pageIndex, assetCount) <= EachPageCount
    ensures StartIndex(pageIndex) + LimitCount(pageIndex, assetCount) <= assetCount
  {
  }

  /** Every asset is shown on page `k / EachPageCount`, which exists. */
  lemma {:induction false} AssetOnItsPage(k: nat, assetCount: nat)
    requires k < assetCount
    ensures k / EachPageCount < PageCount(assetCount)
    ensures StartIndex(k / EachPageCount) <= k < StartIndex(k / EachPageCount) + LimitCount(k / EachPageCount, assetCount)
  {
    var p := k / EachPageCount;
    assert p * EachPageCount <= k < p * EachPageCount + EachPageCount;
    var pages := PageCount(assetCount);
    assert k < pages * EachPageCount;
  }

  /** Pages do not overlap: an asset shown on two pages was shown on the same page twice. */
  lemma PagesDisjoint(p: nat, q: nat, k: nat, assetCount: nat)
    requires StartIndex(p) <= k < StartIndex(p) + LimitCount(p, assetCount)
    requires StartIndex(q) <= k < StartIndex(q) + LimitCount(q, assetCount)
    ensures p == q
  {
    assert p * EachPageCount <= k < p * EachPageCount + EachPageCount;
    assert q * EachPageCount <= k < q * EachPageCount + EachPageCount;
  }

  // ---------------------------------------------------------------------------
  // The editor window's state
  // ---------------------------------------------------------------------------

  datatype CheckOutcome =
    | Started            // the scan ran over the target directory's files
    | DirectoryMissing   // "The target directory is not exist."
    | SettingsMissing    // "The pattern settings can not be null."

  datatype SelectOutcome =
    | Dismissed          // the folder panel returned the empty string
    | Selected           // the target directory was set to the "Assets..." suffix
    | InvalidDirectory   // "Invalid selection directory.": the path holds no "Assets"

  class AssetFilterEditor {
    var targetDirectory: string
    var patternSettings: Option<AssetFilterSettings>

    var filterAssets: seq<string>
    var totalCount: nat
    var doneCount: nat
    var pageCount: nat
    var pageIndex: nat

    /**
     The counters never pass each other, a page count is published only once
     the scan has stopped and then counts the collected assets' pages, and the
     page index names an existing page (or is 0).
     */
    ghost predicate Valid()
      reads this
    {
      && doneCount <= totalCount
      && (doneCount < totalCount ==> pageCount == 0)
      && (pageCount == 0 || pageCount == PageCount(|filterAssets|))
      && (pageIndex == 0 || pageIndex < pageCount)
    }

    /** The state ClearEditorCache leaves: nothing collected, every counter 0. */
    ghost predicate Cleared()
      reads this
    {
      filterAssets == [] && totalCount == 0 && doneCount == 0 && pageCount == 0 && pageIndex == 0
    }

    /**
     A freshly enabled window: the target directory is the one saved in the
     editor preferences, or `Assets` when none was saved, and the settings
     are those loaded from the settings asset, if it exists.
     */
    constructor (savedDirectory: Option<string>, patternSettings: Option<AssetFilterSettings>)
      ensures Valid() && Cleared()
      ensures this.targetDirectory == (if savedDirectory.Some? then savedDirectory.value else DefaultTargetDirectory)
      ensures this.patternSettings == patternSettings
    {
      targetDirectory := if savedDirectory.Some? then savedDirectory.value else DefaultTargetDirectory;
      this.patternSettings := patternSettings;
      filterAssets := [];
      totalCount, doneCount := 0, 0;
      pageCount, pageIndex := 0, 0;
    }

    /** Typing in the directory field: the text becomes the target directory, and nothing else changes. */
    method EditDirectory(text: string)
      modifies this
      ensures targetDirectory == text && patternSettings == old(patternSettings)
      ensures filterAssets == old(filterAssets) && totalCount == old(totalCount) && doneCount == old(doneCount)
      ensures pageCount == old(pageCount) && pageIndex == old(pageIndex)
    {
      targetDirectory := text;
    }

    /** Picking a settings asset in the settings field: it replaces the settings and the result is cleared. */
    method ChangeSettings(settings: Option<AssetFilterSettings>)
      modifies this
      ensures Valid() && Cleared()
      ensures patternSettings == settings && targetDirectory == old(targetDirectory)
    {
      patternSettings := settings;
      ClearEditorCache();
    }

    /** CreateNewSettings: clear the result and switch to a new settings asset holding the default rules. */
    method CreateNewSettings()
      modifies this
      ensures Valid() && Cleared()
      ensures patternSettings == Some(DefaultSettings) && targetDirectory == old(targetDirectory)
    {
      ClearEditorCache();
      patternSettings := Some(DefaultSettings);
    }

    /** ClearEditorCache: forget the result and reset every counter. */
    method ClearEditorCache()
      modifies this
      ensures Valid() && Cleared()
      ensures targetDirectory == old(targetDirectory) && patternSettings == old(patternSettings)
    {
      filterAssets := [];
      totalCount, doneCount := 0, 0;
      pageCount, pageIndex := 0, 0;
    }

    /**
     The state the scan thread leaves: when listing the files failed, the
     cleared state; otherwise the total is the number of files, the done count
     the number checked before a check threw (all of them when none did), the
     result the mismatches among those, and the page count is published only
     when the scan got through every file.
     */
    ghost predicate Scanned(isMatch: Matcher, isValid: PatternCheck, searchFiles: Option<seq<string>>)
      reads this
    {
      && patternSettings.Some?
      && match searchFiles
        case None => Cleared()
        case Some(files) =>
          var patterns := patternSettings.value.assetPatterns;
          && totalCount == |files|
          && doneCount == ScanStop(isMatch, isValid, patterns, files)
          && filterAssets == Mismatches(isMatch, patterns, files[..doneCount])
          && pageCount == (if doneCount == |files| then PageCount(|filterAssets|) else 0)
          && pageIndex == 0
    }

    /**
     The scan thread's body: list the files (None when Directory.GetFiles
     throws), check them, and publish the page count once every file is
     checked. A check that throws ends the thread, which then publishes nothing.
     */
    method ScanAssets(isMatch: Matcher, isValid: PatternCheck, searchFiles: Option<seq<string>>)
      requires Cleared() && patternSettings.Some?
      modifies this
      ensures Valid()
      ensures Scanned(isMatch, isValid, searchFiles)
      ensures targetDirectory == old(targetDirectory) && patternSettings == old(patternSettings)
    {
      if searchFiles.None? {
        return;
      }
      var files := searchFiles.value;
      var found, done := CheckFiles(isMatch, isValid, patternSettings.value.assetPatterns, files);
      Publish(isMatch, isValid, files, found, done);
    }

    /**
     What the scan thread leaves in the window: the file total, the files it
     got through and the mismatches among them, and the page count once it got
     through every file.
     */
    method Publish(isMatch: Matcher, isValid: PatternCheck, files: seq<string>, found: seq<string>, done: nat)
      requires patternSettings.Some?
      requires done == ScanStop(isMatch, isValid, patternSettings.value.assetPatterns, files)
      requires found == Mismatches(isMatch, patternSettings.value.assetPatterns, files[..done])
      requires pageIndex == 0
      modifies this
      ensures Valid()
      ensures Scanned(isMatch, isValid, Some(files))
      ensures targetDirectory == old(targetDirectory) && patternSettings == old(patternSettings)
    {
      totalCount, doneCount, filterAssets := |files|, done, found;
      pageCount := if done == |files| then PageCount(|found|) else 0;
    }

    /**
     CheckAssetsName: clear the result, refuse to start without a target
     directory or without settings, and otherwise run the scan over
     `searchFiles`, what listing the target directory gives.
     */
    method CheckAssetsName(isMatch: Matcher, isValid: PatternCheck, directoryExists: bool, searchFiles: Option<seq<string>>)
      returns (outcome: CheckOutcome)
      modifies this
      ensures Valid()
      ensures outcome == DirectoryMissing <==> !directoryExists
      ensures outcome == SettingsMissing <==> directoryExists && patternSettings.None?
      ensures outcome != Started ==> Cleared()
      ensures outcome == Started ==> Scanned(isMatch, isValid, searchFiles)
      ensures targetDirectory == old(targetDirectory) && patternSettings == old(patternSettings)
    {
      ClearEditorCache();
      if !directoryExists {
        return DirectoryMissing;
      }
      if patternSettings.None? {
        return SettingsMissing;
      }
      ScanAssets(isMatch, isValid, searchFiles);
      outcome := Started;
    }

    /**
     Update: while the scan is running, the user's cancel stops it, takes
     every file as done and publishes the page count; once the scan has
     stopped, the progress counters are reset.
     */
    method Update(cancel: bool)
      requires Valid()
      modifies this
      ensures Valid()
      ensures old(doneCount) < old(totalCount) && cancel ==>
        doneCount == totalCount == old(totalCount) && pageCount == PageCount(|filterAssets|)
      ensures old(doneCount) < old(totalCount) && !cancel ==>
        doneCount == old(doneCount) && totalCount == old(totalCount) && pageCount == old(pageCount)
      ensures old(doneCount) >= old(totalCount) && old(totalCount) > 0 ==>
        doneCount == 0 && totalCount == 0 && pageCount == old(pageCount)
      ensures old(doneCount) >= old(totalCount) && old(totalCount) == 0 ==>
        doneCount == old(doneCount) && totalCount == old(totalCount) && pageCount == old(pageCount)
      ensures filterAssets == old(filterAssets) && pageIndex == old(pageIndex)
      ensures targetDirectory == old(targetDirectory) && patternSettings == old(patternSettings)
    {
      if doneCount < totalCount {
        if cancel {
          doneCount := totalCount;
          pageCount := PageCount(|filterAssets|);
        }
      } else if totalCount > 0 {
        doneCount, totalCount := 0, 0;
      }
    }

    /** The "Previous" button: offered only past the first page of a multi-page result. */
    method PreviousPage() returns (offered: bool)
      requires Valid()
      modifies this
      ensures Valid()
      ensures offered <==> old(pageCount) > 1 && old(pageIndex) > 0
      ensures pageIndex == if offered then old(pageIndex) - 1 else old(pageIndex)
      ensures pageCount == 0 || pageIndex <= pageCount - 1
      ensures filterAssets == old(filterAssets) && totalCount == old(totalCount) && doneCount == old(doneCount)
      ensures pageCount == old(pageCount)
      ensures targetDirectory == old(targetDirectory) && patternSettings == old(patternSettings)
    {
      offered := pageCount > 1 && pageIndex > 0;
      if offered {
        pageIndex := pageIndex - 1;
      }
    }

    /** The "Next" button: offered only before the last page of a multi-page result. */
    method NextPage() returns (offered: bool)
      requires Valid()
      modifies this
      ensures Valid()
      ensures offered <==> old(pageCount) > 1 && old(pageIndex) < old(pageCount) - 1
      ensures pageIndex == if offered then old(pageIndex) + 1 else old(pageIndex)
      ensures pageCount == 0 || pageIndex <= pageCount - 1
      ensures filterAssets == old(filterAssets) && totalCount == old(totalCount) && doneCount == old(doneCount)
      ensures pageCount == old(pageCount)
      ensures targetDirectory == old(targetDirectory) && patternSettings == old(patternSettings)
    {
      offered := pageCount > 1 && pageIndex < pageCount - 1;
      if offered {
        pageIndex := pageIndex + 1;
      }
    }

    /**
     The assets listed on the current page, as the drawing loop walks them: at
     most `EachPageCount` of them, consecutive in the result from the page's
     start index, and never an index outside the result.
     */
    method CurrentPageAssets() returns (shown: seq<string>)
      requires Valid()
      ensures |shown| <= EachPageCount
      ensures LimitCount(pageIndex, |filterAssets|) >= 0
      ensures |shown| == LimitCount(pageIndex, |filterAssets|)
      ensures StartIndex(pageIndex) + |shown| <= |filterAssets|
      ensures forall k :: 0 <= k < |shown| ==> shown[k] == filterAssets[StartIndex(pageIndex) + k]
    {
      var startIndex := StartIndex(pageIndex);
      var limitCount := LimitCount(pageIndex, |filterAssets|);
      if pageIndex > 0 {
        PageWindowInRange(pageIndex, |filterAssets|);
      }
      shown := [];
      var i := startIndex;
      while i < startIndex + limitCount
        invariant startIndex <= i <= startIndex + limitCount
        invariant |shown| == i - startIndex
        invariant forall k :: 0 <= k < |shown| ==> shown[k] == filterAssets[startIndex + k]
      {
        shown := shown + [filterAssets[i]];
        i := i + 1;
      }
    }

    /**
     SelectDirectory: a dismissed folder panel changes nothing; otherwise the
     result is cleared and the target directory becomes the chosen path from
     its first "Assets" on, or stays as it was when the path holds no "Assets".
     */
    method SelectDirectory(selectDirectory: string) returns (outcome: SelectOutcome)
      modifies this
      ensures outcome == Dismissed <==> selectDirectory == ""
      ensures outcome == Dismissed ==>
        && filterAssets == old(filterAssets) && totalCount == old(totalCount) && doneCount == old(doneCount)
        && pageCount == old(pageCount) && pageIndex == old(pageIndex)
        && targetDirectory == old(targetDirectory)
      ensures outcome != Dismissed ==> Valid() && Cleared()
      ensures outcome == InvalidDirectory <==> selectDirectory != "" && IndexOf(selectDirectory, "Assets").None?
      ensures outcome == InvalidDirectory ==> targetDirectory == old(targetDirectory)
      ensures outcome == Selected ==>
        && 6 <= |targetDirectory| <= |selectDirectory| && targetDirectory[..6] == "Assets"
        && targetDirectory == selectDirectory[|selectDirectory| - |targetDirectory|..]
        && forall j :: 0 <= j < |selectDirectory| - |targetDirectory| ==> !OccursAt(selectDirectory, "Assets", j)
      ensures patternSettings == old(patternSettings)
    {
      if selectDirectory == "" {
        return Dismissed;
      }
      ClearEditorCache();
      match IndexOf(selectDirectory, "Assets")
      case None =>
        outcome := InvalidDirectory;
      case Some(i) =>
        targetDirectory := selectDirectory[i..];
        outcome := Selected;
    }
  }
}
