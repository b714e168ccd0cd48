/** The NIfTI folder classifier: from the names in the dcm2niix output
    folder it decides the common file prefix, how many echoes there are and
    which of the phase, real and imaginary images exist. */
module NiftiFolderType {
  import opened Wrappers
  import opened Text

  const NiiSuffix: string := ".nii"
  const EchoSuffix: string := ".nii"
  const RealSuffix: string := "_real.nii"
  const PhaseSuffix: string := "_ph.nii"
  const ImaginarySuffix: string := "_imaginary.nii"

  // ---------------------------------------------------------------------
  // The `.nii` names and their common prefix
  // ---------------------------------------------------------------------

  /** The base names of the listed entries that end in ".nii", in listing
      order. */
  function NiiNames(files: seq<string>): (r: seq<string>)
    ensures |r| <= |files|
    ensures forall x :: x in r <==>
      exists i :: 0 <= i < |files| && EndsWith(files[i], NiiSuffix) && x == Basename(files[i])
  {
    if files == [] then []
    else
      var rest := NiiNames(files[1..]);
      assert forall i :: 1 <= i < |files| ==> files[i] == files[1..][i - 1];
      if EndsWith(files[0], NiiSuffix) then [Basename(files[0])] + rest else rest
  }

  /** The comprehension works entry by entry: the names of two listings
      are the names of the first followed by those of the second, so each
      kept entry contributes its base name once, in listing order. */
  lemma {:induction false} NiiNamesConcat(a: seq<string>, b: seq<string>)
    ensures NiiNames(a + b) == NiiNames(a) + NiiNames(b)
    decreases |a|
  {
    if a != [] {
      assert (a + b)[0] == a[0];
      assert (a + b)[1..] == a[1..] + b;
      NiiNamesConcat(a[1..], b);
    } else {
      assert a + b == b;
    }
  }

  /** One entry contributes its base name when it ends in ".nii", and
      nothing otherwise. */
  lemma NiiNamesOne(f: string)
    ensures NiiNames([f]) == if EndsWith(f, NiiSuffix) then [Basename(f)] else []
  {
    assert [f][1..] == [];
  }

  /** The longest common prefix of two strings. */
  function PairPrefix(a: string, b: string): (r: string)
    ensures r <= a && r <= b
    ensures |r| == |a| || |r| == |b| || a[|r|] != b[|r|]
  {
    if a == [] || b == [] || a[0] != b[0] then []
    else [a[0]] + PairPrefix(a[1..], b[1..])
  }

  /** Every common prefix of two strings is a prefix of theirs. */
  lemma {:induction false} PairPrefixLongest(a: string, b: string, q: string)
    requires q <= a && q <= b
    ensures q <= PairPrefix(a, b)
  {
    if q != [] {
      PairPrefixLongest(a[1..], b[1..], q[1..]);
    }
  }

  /** `os.path.commonprefix`: the longest string that is a prefix of every
      name, and "" for no names. */
  function CommonPrefix(names: seq<string>): (r: string)
    ensures names == [] ==> r == []
    ensures forall i :: 0 <= i < |names| ==> r <= names[i]
  {
    if names == [] then []
    else if |names| == 1 then names[0]
    else
      var rest := CommonPrefix(names[1..]);
      assert forall i :: 1 <= i < |names| ==> names[i] == names[1..][i - 1];
      PairPrefix(names[0], rest)
  }

  /** No longer common prefix exists: every string that is a prefix of every
      name is a prefix of the computed one. */
  lemma {:induction false} CommonPrefixLongest(names: seq<string>, q: string)
    requires names != []
    requires forall i :: 0 <= i < |names| ==> q <= names[i]
    ensures q <= CommonPrefix(names)
  {
    if |names| > 1 {
      assert forall i :: 1 <= i < |names| ==> names[1..][i - 1] == names[i];
      CommonPrefixLongest(names[1..], q);
      PairPrefixLongest(names[0], CommonPrefix(names[1..]), q);
    }
  }

  // ---------------------------------------------------------------------
  // The patterns
  // ---------------------------------------------------------------------

  /** `{literal}\d*{suffix}` when `digits`, `{literal}{suffix}` otherwise,
      with both parts taken literally. */
  datatype Pattern = Pattern(literal: string, digits: bool, suffix: string)

  /** The suffix cannot be read as part of the digit run. */
  predicate SuffixLeads(pat: Pattern) {
    pat.suffix != [] && !IsDigit(pat.suffix[0])
  }

  /** Only digits from `lo` up to `hi`. */
  predicate DigitsBetween(s: string, lo: nat, hi: nat)
    requires hi <= |s|
  {
    forall m :: lo <= m < hi ==> IsDigit(s[m])
  }

  /** The length of the digit run starting at `j`. */
  function DigitRun(s: string, j: nat): (k: nat)
    requires j <= |s|
    ensures j + k <= |s| && DigitsBetween(s, j, j + k)
    ensures j + k == |s| || !IsDigit(s[j + k])
    decreases |s| - j
  {
    if j == |s| || !IsDigit(s[j]) then 0 else 1 + DigitRun(s, j + 1)
  }

  /** The pattern occurs at `i` in `s` with `k` digits between the literal
      and the suffix. */
  predicate MatchAt(s: string, pat: Pattern, i: nat, k: nat) {
    var j := i + |pat.literal|;
    && OccursAt(s, pat.literal, i)
    && (if pat.digits then j + k <= |s| && DigitsBetween(s, j, j + k) else k == 0)
    && OccursAt(s, pat.suffix, j + k)
  }

  /** `re.search(pattern, s)` succeeds: the pattern occurs anywhere. */
  ghost predicate Matches(s: string, pat: Pattern) {
    exists i: nat, k: nat :: MatchAt(s, pat, i, k)
  }

  /** The matcher at one position: the literal, the longest digit run, then
      the suffix. */
  predicate MatchHere(s: string, pat: Pattern, i: nat) {
    var j := i + |pat.literal|;
    OccursAt(s, pat.literal, i) &&
    var k := if pat.digits then DigitRun(s, j) else 0;
    OccursAt(s, pat.suffix, j + k)
  }

  /** The matcher from position `i` on. */
  predicate SearchFrom(s: string, pat: Pattern, i: nat)
    decreases |s| - i
  {
    i <= |s| && (MatchHere(s, pat, i) || SearchFrom(s, pat, i + 1))
  }

  predicate Search(s: string, pat: Pattern) {
    SearchFrom(s, pat, 0)
  }

  /** A digit run ended by a non-digit is the longest one. */
  lemma {:induction false} LongestRun(s: string, j: nat, k: nat)
    requires j + k < |s| && DigitsBetween(s, j, j + k) && !IsDigit(s[j + k])
    ensures DigitRun(s, j) == k
    decreases k
  {
    if k > 0 {
      LongestRun(s, j + 1, k - 1);
    }
  }

  /** The digit run the matcher tries at `i`. */
  function RunAt(s: string, pat: Pattern, i: nat): nat
    requires i + |pat.literal| <= |s|
  {
    if pat.digits then DigitRun(s, i + |pat.literal|) else 0
  }

  lemma MatchAtHere(s: string, pat: Pattern, i: nat, k: nat)
    requires SuffixLeads(pat) && MatchAt(s, pat, i, k)
    ensures MatchHere(s, pat, i)
  {
    var j := i + |pat.literal|;
    assert OccursAt(s, pat.literal, i) && OccursAt(s, pat.suffix, j + k);
    if pat.digits {
      assert s[j + k] == s[j + k..j + k + |pat.suffix|][0];
      LongestRun(s, j, k);
      assert DigitRun(s, j) == k;
    }
  }

  /** At one position, trying only the longest digit run loses nothing,
      because the suffix starts with a non-digit. */
  lemma MatchHereCorrect(s: string, pat: Pattern, i: nat)
    requires SuffixLeads(pat)
    ensures MatchHere(s, pat, i) <==> exists k: nat :: MatchAt(s, pat, i, k)
  {
    if MatchHere(s, pat, i) {
      assert MatchAt(s, pat, i, RunAt(s, pat, i));
    }
    if k: nat :| MatchAt(s, pat, i, k) {
      MatchAtHere(s, pat, i, k);
    }
  }

  lemma {:induction false} SearchFromCorrect(s: string, pat: Pattern, i: nat)
    requires SuffixLeads(pat)
    ensures SearchFrom(s, pat, i) <==> exists i': nat, k: nat :: i <= i' && MatchAt(s, pat, i', k)
    decreases |s| - i
  {
    if i <= |s| {
      MatchHereCorrect(s, pat, i);
      SearchFromCorrect(s, pat, i + 1);
      if i': nat, k: nat :| i <= i' && MatchAt(s, pat, i', k) {
        if i' > i {
          assert i + 1 <= i' && MatchAt(s, pat, i', k);
        }
      }
    } else {
      assert forall i': nat, k: nat :: i <= i' ==> !MatchAt(s, pat, i', k);
    }
  }

  /** The matcher finds the pattern exactly when it occurs. */
  lemma SearchCorrect(s: string, pat: Pattern)
    requires SuffixLeads(pat)
    ensures Search(s, pat) <==> Matches(s, pat)
  {
    SearchFromCorrect(s, pat, 0);
  }

  /** The list comprehension keeping the names the pattern is found in, in
      order. */
  function Matching(names: seq<string>, pat: Pattern): (r: seq<string>)
    ensures |r| <= |names|
    ensures forall x :: x in r <==> x in names && Search(x, pat)
  {
    if names == [] then []
    else
      var rest := Matching(names[1..], pat);
      assert forall x :: x in names <==> x == names[0] || x in names[1..];
      if Search(names[0], pat) then [names[0]] + rest else rest
  }

  /** The comprehension at one more name in front. */
  lemma MatchingCons(x: string, rest: seq<string>, pat: Pattern)
    ensures Matching([x] + rest, pat) == (if Search(x, pat) then [x] else []) + Matching(rest, pat)
  {
    assert ([x] + rest)[0] == x && ([x] + rest)[1..] == rest;
  }

  /** Each accepted name is kept as many times as it is listed, and the
      others not at all, so the length of the result counts the accepted
      entries. */
  lemma {:induction false} MatchingCount(names: seq<string>, pat: Pattern)
    ensures forall x :: multiset(Matching(names, pat))[x] == if Search(x, pat) then multiset(names)[x] else 0
    decreases |names|
  {
    if names != [] {
      MatchingCount(names[1..], pat);
      MatchingCons(names[0], names[1..], pat);
      assert names == [names[0]] + names[1..];
    }
  }

  /** Filtering two lists is filtering each and concatenating: the
      comprehension keeps the accepted names in their order. */
  lemma {:induction false} MatchingConcat(a: seq<string>, b: seq<string>, pat: Pattern)
    ensures Matching(a + b, pat) == Matching(a, pat) + Matching(b, pat)
    decreases |a|
  {
    if a != [] {
      var x, tail := a[0], a[1..];
      assert a == [x] + tail;
      assert a + b == [x] + (tail + b);
      MatchingConcat(tail, b, pat);
      MatchingCons(x, tail + b, pat);
      MatchingCons(x, tail, pat);
    } else {
      assert a + b == b;
    }
  }

  /** Some name holds the pattern. */
  ghost predicate AnyMatch(names: seq<string>, pat: Pattern) {
    exists i :: 0 <= i < |names| && Matches(names[i], pat)
  }

  lemma MatchingMeans(names: seq<string>, pat: Pattern)
    requires SuffixLeads(pat)
    ensures |Matching(names, pat)| > 0 <==> AnyMatch(names, pat)
  {
    var r := Matching(names, pat);
    if |r| > 0 {
      assert r[0] in r;
      var i :| 0 <= i < |names| && names[i] == r[0];
      SearchCorrect(names[i], pat);
    }
    if i :| 0 <= i < |names| && Matches(names[i], pat) {
      SearchCorrect(names[i], pat);
      assert names[i] in r;
    }
  }

  // ---------------------------------------------------------------------
  // The classification
  // ---------------------------------------------------------------------

  /** The `meta_data` record; the flags are 0 or 1. */
  datatype MetaData = MetaData(
    commonPrefix: string,
    numEchoes: int,
    singleFile: int,
    phaseExists: int,
    realExists: int,
    imaginaryExists: int)

  datatype FolderError =
    | NoCommonPrefix           // no prefix found and none configured
    | NoEchoFiles(pattern: Pattern)   // neither magnitude nor real echoes

  function Flag(b: bool): int {
    if b then 1 else 0
  }

  /** The prefix in force: the configured one when there is one. */
  function ChosenPrefix(listFiles: seq<string>, prefixConfig: Option<string>): string {
    match prefixConfig
    case Some(p) => p
    case None => CommonPrefix(NiiNames(listFiles))
  }

  /** The three presence checks, with `\d*` after the prefix when
      `widened`: each is true exactly when some name holds the prefix
      pattern followed by its suffix. */
  method PresenceFlags(nii: seq<string>, prefix: string, widened: bool)
    returns (phaseExists: bool, realExists: bool, imaginaryExists: bool)
    ensures phaseExists <==> AnyMatch(nii, Pattern(prefix, widened, PhaseSuffix))
    ensures realExists <==> AnyMatch(nii, Pattern(prefix, widened, RealSuffix))
    ensures imaginaryExists <==> AnyMatch(nii, Pattern(prefix, widened, ImaginarySuffix))
  {
    var phasePattern := Pattern(prefix, widened, PhaseSuffix);
    var phaseMatch := Matching(nii, phasePattern);
    MatchingMeans(nii, phasePattern);
    phaseExists := |phaseMatch| > 0;

    var realPattern := Pattern(prefix, widened, RealSuffix);
    var realMatch := Matching(nii, realPattern);
    MatchingMeans(nii, realPattern);
    realExists := |realMatch| > 0;

    var imaginaryPattern := Pattern(prefix, widened, ImaginarySuffix);
    var imaginaryMatch := Matching(nii, imaginaryPattern);
    MatchingMeans(nii, imaginaryPattern);
    imaginaryExists := |imaginaryMatch| > 0;
  }

  /** The script body from the `.nii` filter to `meta_data`.

      The configured prefix replaces the computed one, and an empty computed
      prefix without a configured one is an error. The echoes are the names
      holding `{prefix}\d*.nii`, or failing any, `{prefix}\d*_real.nii`:
      several give their count and one gives a single file (count -1), and
      if neither pattern is found anywhere the folder is rejected. Each flag
      says whether some name holds `{prefix}_ph.nii`, `{prefix}_real.nii`
      or `{prefix}_imaginary.nii`, with `\d*` after the prefix exactly in
      the multi-echo case. The reported prefix is the chosen one. */
  method DetermineFolderType(listFiles: seq<string>, prefixConfig: Option<string>)
    returns (r: Result<MetaData, FolderError>)
    ensures r == Err(NoCommonPrefix) <==>
      CommonPrefix(NiiNames(listFiles)) == [] && prefixConfig.None?
    ensures var nii, p := NiiNames(listFiles), ChosenPrefix(listFiles, prefixConfig);
      r != Err(NoCommonPrefix) ==>
        var mags := Matching(nii, Pattern(p, true, EchoSuffix));
        var reals := Matching(nii, Pattern(p, true, RealSuffix));
        && (|mags| > 1 ==> r.Ok? && r.value.numEchoes == |mags| && r.value.singleFile == 0)
        && (|mags| == 1 ==> r.Ok? && r.value.numEchoes == -1 && r.value.singleFile == 1)
        && (|mags| == 0 && |reals| > 1 ==> r.Ok? && r.value.numEchoes == |reals| && r.value.singleFile == 0)
        && (|mags| == 0 && |reals| == 1 ==> r.Ok? && r.value.numEchoes == -1 && r.value.singleFile == 1)
        && (|mags| == 0 && |reals| == 0 ==> r == Err(NoEchoFiles(Pattern(p, true, RealSuffix))))
    ensures r.Ok? ==> r.value.commonPrefix == ChosenPrefix(listFiles, prefixConfig)
    ensures r.Ok? ==>
      && (r.value.singleFile == 1 <==> r.value.numEchoes == -1)
      && (r.value.singleFile == 0 <==> r.value.numEchoes >= 2)
      && (r.value.singleFile == 0 || r.value.singleFile == 1)
    ensures r.Ok? ==>
      var nii, p, wide := NiiNames(listFiles), ChosenPrefix(listFiles, prefixConfig), r.value.numEchoes >= 2;
      && r.value.phaseExists == Flag(AnyMatch(nii, Pattern(p, wide, PhaseSuffix)))
      && r.value.realExists == Flag(AnyMatch(nii, Pattern(p, wide, RealSuffix)))
      && r.value.imaginaryExists == Flag(AnyMatch(nii, Pattern(p, wide, ImaginarySuffix)))
  {
    var nii := NiiNames(listFiles);
    var commonPrefix := CommonPrefix(nii);
    if commonPrefix == [] && prefixConfig.None? {
      return Err(NoCommonPrefix);
    }
    if prefixConfig.Some? {
      commonPrefix := prefixConfig.value;
    }
    var origCommonPrefix := commonPrefix;

    var singleFile := false;
    var numEchoes := 0;
    var widened := false;
    var pattern := Pattern(commonPrefix, true, EchoSuffix);
    var echoMatch := Matching(nii, pattern);
    if |echoMatch| > 1 {
      numEchoes := |echoMatch|;
      widened := true;
    } else if |echoMatch| == 1 {
      singleFile := true;
      numEchoes := -1;
    } else {
      pattern := Pattern(commonPrefix, true, RealSuffix);
      echoMatch := Matching(nii, pattern);
      if |echoMatch| > 1 {
        numEchoes := |echoMatch|;
        widened := true;
      } else if |echoMatch| == 1 {
        singleFile := true;
        numEchoes := -1;
      } else {
        return Err(NoEchoFiles(pattern));
      }
    }

    var phaseExists, realExists, imaginaryExists := PresenceFlags(nii, commonPrefix, widened);

    return Ok(MetaData(origCommonPrefix, numEchoes, Flag(singleFile),
      Flag(phaseExists), Flag(realExists), Flag(imaginaryExists)));
  }
}
