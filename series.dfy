/** The archive-side stages of `UploadImageData.uploadImages`: which entries
    of the archive are DICOM files, how they are bucketed by subject, how a
    subject's files are grouped by series, and how each series is named,
    packaged and placed in the Flywheel hierarchy. */
module DicomSeries {
  import opened Wrappers
  import opened Text
  import opened Grouping

  // ---------------------------------------------------------------------
  // Scanning the archive
  // ---------------------------------------------------------------------

  /** The entry's extension, lowercased, is ".dcm". */
  predicate IsDicomEntry(name: string) {
    Lower(SplitExt(name).1) == ".dcm"
  }

  /** The four characters lowercase to ".dcm". */
  predicate DcmSuffix(s: string)
    requires |s| == 4
  {
    LowerChar(s[0]) == '.' && LowerChar(s[1]) == 'd' && LowerChar(s[2]) == 'c' && LowerChar(s[3]) == 'm'
  }

  /** What a kept entry looks like: its last path component ends in ".dcm"
      in any letter case, with something other than dots before it. */
  predicate DicomShaped(name: string) {
    var b := Basename(name);
    |b| >= 4 && DcmSuffix(b[|b| - 4..]) && HasNonDot(b[..|b| - 4])
  }

  lemma DcmSuffixChars(s: string)
    requires |s| == 4
    ensures Lower(s) == ".dcm" <==> DcmSuffix(s)
    ensures DcmSuffix(s) ==> s[0] == '.' && s[1] != '.' && s[2] != '.' && s[3] != '.'
  {
    if DcmSuffix(s) {
      assert Lower(s) == [LowerChar(s[0]), LowerChar(s[1]), LowerChar(s[2]), LowerChar(s[3])];
    }
  }

  lemma DicomEntryShaped(name: string)
    requires IsDicomEntry(name)
    ensures DicomShaped(name)
  {
    var ext := SplitExt(name).1;
    assert |ext| == 4;
    SplitExtIs(name);
    var b := Basename(name);
    assert ExtStart(b) == |b| - 4;
    DcmSuffixChars(ext);
  }

  lemma ShapedDicomEntry(name: string)
    requires DicomShaped(name)
    ensures IsDicomEntry(name)
  {
    var b := Basename(name);
    var d := |b| - 4;
    var tail := b[d..];
    DcmSuffixChars(tail);
    assert b[d] == tail[0] && b[d + 1] == tail[1] && b[d + 2] == tail[2] && b[d + 3] == tail[3];
    ExtStartAt(b, d);
    SplitExtTail(name);
  }

  /** An entry is kept exactly when its last path component ends in ".dcm"
      in any letter case and has something other than dots before that
      ending (so ".dcm" and "..dcm" are not kept). */
  lemma IsDicomEntryMeans(name: string)
    ensures IsDicomEntry(name) <==> DicomShaped(name)
  {
    if IsDicomEntry(name) {
      DicomEntryShaped(name);
    }
    if DicomShaped(name) {
      ShapedDicomEntry(name);
    }
  }

  /** The marker that identifies a subject folder. */
  const SubjectMarker: string := "NACC"

  /** `next((s for s in segments if marker in s), None)`, as a position. */
  function FirstMarked(segments: seq<string>, marker: string): (r: Option<nat>)
    ensures r.Some? ==> r.value < |segments| && Contains(segments[r.value], marker)
    ensures r.Some? ==> forall j :: 0 <= j < r.value ==> !Contains(segments[j], marker)
    ensures r.None? ==> forall j :: 0 <= j < |segments| ==> !Contains(segments[j], marker)
  {
    if segments == [] then None
    else if Contains(segments[0], marker) then Some(0)
    else
      match FirstMarked(segments[1..], marker)
      case None => None
      case Some(i) => Some(i + 1)
  }

  /** The subject bucket an archive entry goes to, if it is kept at all: a
      '/'-separated segment of its path that contains the marker. */
  function EntryKey(name: string): (r: Option<string>)
    ensures r.Some? ==> IsDicomEntry(name) && r.value in Split(name, '/')
    ensures r.Some? ==> Contains(r.value, SubjectMarker) && '/' !in r.value
    ensures r.None? && IsDicomEntry(name) ==> forall s :: s in Split(name, '/') ==> !Contains(s, SubjectMarker)
  {
    if !IsDicomEntry(name) then None
    else
      var segments := Split(name, '/');
      match FirstMarked(segments, SubjectMarker)
      case None => None
      case Some(i) =>
        SplitPieces(name, '/');
        Some(segments[i])
  }

  /** The bucket is the FIRST segment that contains the marker. */
  lemma EntryKeyIsFirst(name: string)
    requires EntryKey(name).Some?
    ensures exists i ::
      && 0 <= i < |Split(name, '/')| && Split(name, '/')[i] == EntryKey(name).value
      && forall j :: 0 <= j < i ==> !Contains(Split(name, '/')[j], SubjectMarker)
  {
    var i := FirstMarked(Split(name, '/'), SubjectMarker).value;
    assert Split(name, '/')[i] == EntryKey(name).value;
  }

  /** The scan loop: `acqList.setdefault(subject_label, []).append(f)` for
      every DICOM entry that has a subject segment. */
  method ScanArchive(names: seq<string>) returns (acqList: Groups<string, string>)
    ensures acqList == Build(KeyedBy(names, EntryKey))
  {
    acqList := Empty();
    for i := 0 to |names|
      invariant acqList == Build(KeyedBy(names[..i], EntryKey))
    {
      var f := names[i];
      BuildKeyedStep(names, EntryKey, i);
      if !IsDicomEntry(f) {
        assert EntryKey(f).None?;
        continue;
      }
      var segments := Split(f, '/');
      var found := FirstMarked(segments, SubjectMarker);
      if found.None? {
        assert EntryKey(f).None?;
        continue;
      }
      assert EntryKey(f) == Some(segments[found.value]);
      acqList := Append(acqList, segments[found.value], f);
    }
    assert names[..|names|] == names;
  }

  /** Every bucket key of the scan has its bucket. */
  lemma ScanKeys(names: seq<string>)
    ensures var g := Build(KeyedBy(names, EntryKey));
      forall i :: 0 <= i < |g.keys| ==> g.keys[i] in g.members
  {
    GroupByKeyDomain(names, EntryKey);
  }

  /** The subject buckets after the scan: one per subject segment that occurs
      in a kept entry, in first-seen order; each holds exactly the entries
      with that key, in archive order; entries without a key are in none, and
      together the buckets hold every keyed entry once. First-seen order: of
      two subjects, the earlier listed one has an entry before the later
      one's first entry. */
  lemma ScanBuckets(names: seq<string>)
    ensures Valid(Build(KeyedBy(names, EntryKey)))
    ensures forall k ::
      k in Build(KeyedBy(names, EntryKey)).members <==> exists i :: 0 <= i < |names| && EntryKey(names[i]) == Some(k)
    ensures forall k :: k in Build(KeyedBy(names, EntryKey)).members ==>
      Build(KeyedBy(names, EntryKey)).members[k] == WithKey(names, EntryKey, k)
    ensures forall k, f :: k in Build(KeyedBy(names, EntryKey)).members && f in Build(KeyedBy(names, EntryKey)).members[k] ==>
      EntryKey(f) == Some(k)
    ensures var g := Build(KeyedBy(names, EntryKey));
      multiset(Flatten(g.keys, g.members)) == multiset(HasKey(names, EntryKey))
    ensures var g := Build(KeyedBy(names, EntryKey));
      forall i, j :: 0 <= i < j < |g.keys| ==> SeenBefore(names, EntryKey, g.keys[i], g.keys[j])
  {
    GroupByKeyOrder(names, EntryKey);
    GroupByKeyDomain(names, EntryKey);
    GroupByKeyLists(names, EntryKey);
    GroupByKeyPartition(names, EntryKey);
  }

  // ---------------------------------------------------------------------
  // Grouping one subject's files by series
  // ---------------------------------------------------------------------

  /** The three header attributes the uploader reads: SeriesInstanceUID
      (0020,000E), StudyDate (0008,0020) and SeriesNumber (0020,0011). */
  datatype DicomMeta = DicomMeta(seriesUid: string, studyDate: string, seriesNumber: int)

  /** Extracting an entry and reading its header: None when the extraction,
      the parsing or the lookup of one of the three attributes raises. */
  type MetaReader = string -> Option<DicomMeta>

  /** Every file's header can be read. */
  predicate Readable(files: seq<string>, read: MetaReader) {
    forall i :: 0 <= i < |files| ==> read(files[i]).Some?
  }

  /** The series key of a file, as a key function for grouping. */
  function SeriesKey(read: MetaReader): string -> Option<string> {
    f => match read(f) case None => None case Some(m) => Some(m.seriesUid)
  }

  // The pairs the three `setdefault(suid, []).append(...)` calls append.

  function FilePairs(files: seq<string>, read: MetaReader): (r: seq<(string, string)>)
    requires Readable(files, read)
    ensures |r| == |files|
  {
    seq(|files|, i requires 0 <= i < |files| => (read(files[i]).value.seriesUid, files[i]))
  }

  function NumberPairs(files: seq<string>, read: MetaReader): (r: seq<(string, int)>)
    requires Readable(files, read)
    ensures |r| == |files|
  {
    seq(|files|, i requires 0 <= i < |files| => (read(files[i]).value.seriesUid, read(files[i]).value.seriesNumber))
  }

  function DatePairs(files: seq<string>, read: MetaReader): (r: seq<(string, string)>)
    requires Readable(files, read)
    ensures |r| == |files|
  {
    seq(|files|, i requires 0 <= i < |files| => (read(files[i]).value.seriesUid, read(files[i]).value.studyDate))
  }

  /** `zipFiles`, `zipNumbers` and `zipDates`. */
  datatype SeriesTable = SeriesTable(
    zipFiles: Groups<string, string>,
    zipNumbers: Groups<string, int>,
    zipDates: Groups<string, string>)

  /** The three dictionaries after the header loop runs to completion. */
  function Tabulate(files: seq<string>, read: MetaReader): SeriesTable
    requires Readable(files, read)
  {
    SeriesTable(Build(FilePairs(files, read)), Build(NumberPairs(files, read)), Build(DatePairs(files, read)))
  }

  /** One more file read: each pair sequence grows by that file's pair. */
  lemma PairsStep(files: seq<string>, read: MetaReader, i: nat)
    requires i < |files| && Readable(files[..i + 1], read)
    ensures Readable(files[..i], read)
    ensures var m := read(files[i]).value;
      && FilePairs(files[..i + 1], read) == FilePairs(files[..i], read) + [(m.seriesUid, files[i])]
      && NumberPairs(files[..i + 1], read) == NumberPairs(files[..i], read) + [(m.seriesUid, m.seriesNumber)]
      && DatePairs(files[..i + 1], read) == DatePairs(files[..i], read) + [(m.seriesUid, m.studyDate)]
  {
    assert files[..i + 1][i] == files[i];
    assert forall j :: 0 <= j < i ==> files[..i][j] == files[..i + 1][j];
  }

  /** The header loop: one failed read abandons the whole subject (None);
      otherwise the three dictionaries are filled in file order. */
  method GroupSeries(files: seq<string>, read: MetaReader) returns (r: Option<SeriesTable>)
    ensures r.None? <==> !Readable(files, read)
    ensures r.Some? ==> Readable(files, read) && r.value == Tabulate(files, read)
  {
    var zipFiles: Groups<string, string> := Empty();
    var zipNumbers: Groups<string, int> := Empty();
    var zipDates: Groups<string, string> := Empty();
    for i := 0 to |files|
      invariant Readable(files[..i], read)
      invariant zipFiles == Build(FilePairs(files[..i], read))
      invariant zipNumbers == Build(NumberPairs(files[..i], read))
      invariant zipDates == Build(DatePairs(files[..i], read))
    {
      var f := files[i];
      var meta := read(f);
      if meta.None? {
        return None;
      }
      var m := meta.value;
      assert Readable(files[..i + 1], read) by {
        assert forall j :: 0 <= j < i ==> files[..i + 1][j] == files[..i][j];
      }
      PairsStep(files, read, i);
      BuildSnoc(FilePairs(files[..i], read), (m.seriesUid, f));
      BuildSnoc(NumberPairs(files[..i], read), (m.seriesUid, m.seriesNumber));
      BuildSnoc(DatePairs(files[..i], read), (m.seriesUid, m.studyDate));
      zipFiles := Append(zipFiles, m.seriesUid, f);
      zipNumbers := Append(zipNumbers, m.seriesUid, m.seriesNumber);
      zipDates := Append(zipDates, m.seriesUid, m.studyDate);
    }
    assert files[..|files|] == files;
    return Some(SeriesTable(zipFiles, zipNumbers, zipDates));
  }

  /** With every header readable, the file pairs are the keying of the
      files by series. */
  lemma FilePairsKeyed(files: seq<string>, read: MetaReader)
    requires Readable(files, read)
    ensures FilePairs(files, read) == KeyedBy(files, SeriesKey(read))
  {
    KeyedByAll(files, SeriesKey(read));
  }

  /** The series of a subject: one per SeriesInstanceUID that occurs, in
      first-seen order (the earlier listed UID is carried by a file before
      the first file carrying the later one). */
  lemma SeriesDomain(files: seq<string>, read: MetaReader)
    requires Readable(files, read)
    ensures Valid(Tabulate(files, read).zipFiles)
    ensures forall k :: k in Tabulate(files, read).zipFiles.members <==>
      exists i :: 0 <= i < |files| && read(files[i]).value.seriesUid == k
    ensures forall i, j :: 0 <= i < j < |Tabulate(files, read).zipFiles.keys| ==>
      SeenBefore(files, SeriesKey(read), Tabulate(files, read).zipFiles.keys[i], Tabulate(files, read).zipFiles.keys[j])
  {
    var key := SeriesKey(read);
    FilePairsKeyed(files, read);
    GroupByKeyOrder(files, key);
    GroupByKeyDomain(files, key);
    forall k | exists i :: 0 <= i < |files| && read(files[i]).value.seriesUid == k
      ensures exists i :: 0 <= i < |files| && key(files[i]) == Some(k)
    {
      var i :| 0 <= i < |files| && read(files[i]).value.seriesUid == k;
      assert key(files[i]) == Some(k);
    }
  }

  /** Each series holds exactly the files with its UID, in archive order. */
  lemma SeriesMembers(files: seq<string>, read: MetaReader, k: string)
    requires Readable(files, read)
    requires k in Tabulate(files, read).zipFiles.members
    ensures Tabulate(files, read).zipFiles.members[k] == WithKey(files, SeriesKey(read), k)
    ensures forall f :: f in Tabulate(files, read).zipFiles.members[k] ==>
      read(f).Some? && read(f).value.seriesUid == k
  {
    var key := SeriesKey(read);
    FilePairsKeyed(files, read);
    GroupByKeyLists(files, key);
    forall f | f in Tabulate(files, read).zipFiles.members[k] ensures read(f).Some? && read(f).value.seriesUid == k {
      assert key(f) == Some(k);
    }
  }

  /** Together the series hold every file of the subject exactly once. */
  lemma SeriesPartition(files: seq<string>, read: MetaReader)
    requires Readable(files, read)
    ensures var g := Tabulate(files, read).zipFiles;
      multiset(Flatten(g.keys, g.members)) == multiset(files)
  {
    var key := SeriesKey(read);
    FilePairsKeyed(files, read);
    GroupByKeyPartition(files, key);
    HasKeyAll(files, key);
  }

  /** The three dictionaries list the same UIDs in the same order. */
  lemma SeriesSameKeys(files: seq<string>, read: MetaReader)
    requires Readable(files, read)
    ensures var t := Tabulate(files, read);
      && t.zipNumbers.keys == t.zipFiles.keys && t.zipDates.keys == t.zipFiles.keys
      && t.zipNumbers.members.Keys == t.zipFiles.members.Keys
      && t.zipDates.members.Keys == t.zipFiles.members.Keys
  {
    BuildSameKeys(FilePairs(files, read), NumberPairs(files, read));
    BuildSameKeys(FilePairs(files, read), DatePairs(files, read));
  }

  /** A series' number and date lists run parallel to its file list: at
      each position, the number and date read from the file there. So
      `zipNumbers[suid][0]` and `zipDates[suid][0]` come from the series'
      first file. */
  lemma SeriesParallel(files: seq<string>, read: MetaReader, k: string)
    requires Readable(files, read)
    requires k in Tabulate(files, read).zipFiles.members
    ensures var t := Tabulate(files, read);
      && k in t.zipNumbers.members && k in t.zipDates.members
      && |t.zipNumbers.members[k]| == |t.zipFiles.members[k]|
      && |t.zipDates.members[k]| == |t.zipFiles.members[k]|
      && forall j :: 0 <= j < |t.zipFiles.members[k]| ==>
           && read(t.zipFiles.members[k][j]).Some?
           && t.zipNumbers.members[k][j] == read(t.zipFiles.members[k][j]).value.seriesNumber
           && t.zipDates.members[k][j] == read(t.zipFiles.members[k][j]).value.studyDate
  {
    var a := FilePairs(files, read);
    var num := (f: string) => if read(f).Some? then read(f).value.seriesNumber else 0;
    var date := (f: string) => if read(f).Some? then read(f).value.studyDate else "";
    BuildMapped(a, NumberPairs(files, read), num, k);
    BuildMapped(a, DatePairs(files, read), date, k);
    SeriesMembers(files, read, k);
  }

  // ---------------------------------------------------------------------
  // Naming and packaging a series
  // ---------------------------------------------------------------------

  /** A per-series archive: its file name and the names of its entries. */
  datatype Bundle = Bundle(name: string, entries: seq<string>)

  const BundleSuffix: string := ".zip"
  const BaseCut: string := "_br"

  /** `f"{series_no}-{base_name}.zip"`, where `base_name` is the first
      file's base name up to its first "_br". */
  function BundleName(seriesNo: int, first: string): string {
    DecimalString(seriesNo) + "-" + BeforeFirst(Basename(first), BaseCut) + BundleSuffix
  }

  /** The name reads back as the series number, a '-', the first file's base
      name cut before any "_br" (so free of "_br"), and ".zip". */
  lemma BundleNameParts(seriesNo: int, first: string)
    ensures var name, ds, base := BundleName(seriesNo, first), DecimalString(seriesNo), BeforeFirst(Basename(first), BaseCut);
      && LeadingInt(name) == seriesNo
      && |name| == |ds| + 1 + |base| + 4
      && name[|ds|] == '-'
      && name[|ds| + 1..|name| - 4] == base
      && EndsWith(name, BundleSuffix)
      && base <= Basename(first) && !Contains(base, BaseCut)
  {
    var ds := DecimalString(seriesNo);
    var base := BeforeFirst(Basename(first), BaseCut);
    var rest := "-" + base + BundleSuffix;
    var name := BundleName(seriesNo, first);
    assert name == ds + rest by {
      ConcatAssoc(ds, "-", base);
      ConcatAssoc(ds, "-" + base, BundleSuffix);
    }
    DecimalRoundTrip(seriesNo, rest);
    assert name[|ds| + 1..|name| - 4] == rest[1..|rest| - 4];
    assert rest[1..|rest| - 4] == base;
  }

  /** Without "_br" in the first file's base name, the whole base name,
      extension included, goes into the bundle name. */
  lemma BundleNameUncut(seriesNo: int, dir: string, b: string)
    requires dir == [] || dir[|dir| - 1] == '/'
    requires '/' !in b && !Contains(b, BaseCut)
    ensures BundleName(seriesNo, dir + b) == DecimalString(seriesNo) + "-" + b + BundleSuffix
  {
    BasenameUnder(dir, b);
  }

  /** Two series bundles of the same subject get the same name only when
      their series numbers agree: the name determines the number. */
  lemma BundleNamesDiffer(n1: int, f1: string, n2: int, f2: string)
    requires n1 != n2
    ensures BundleName(n1, f1) != BundleName(n2, f2)
  {
    BundleNameParts(n1, f1);
    BundleNameParts(n2, f2);
  }

  /** The entries of the bundle: each member under its base name, in order. */
  function Package(members: seq<string>): (r: seq<string>)
    ensures |r| == |members|
    ensures forall i :: 0 <= i < |members| ==> r[i] == Basename(members[i])
  {
    seq(|members|, i requires 0 <= i < |members| => Basename(members[i]))
  }

  /** Entry names carry no directory. */
  lemma PackageFlat(members: seq<string>)
    ensures forall i :: 0 <= i < |Package(members)| ==> '/' !in Package(members)[i]
  {
    forall i | 0 <= i < |members| ensures '/' !in Package(members)[i] {
      BasenameIs(members[i]);
    }
  }

  // ---------------------------------------------------------------------
  // Where a series goes
  // ---------------------------------------------------------------------

  /** Python's `xs[i]` for a list of length `n`: negative positions count
      from the end, and anything else outside the list raises (None). */
  function PyIndex(n: nat, i: int): (r: Option<nat>)
    ensures r.Some? <==> -(n as int) <= i < n
    ensures r.Some? ==> r.value < n && (if i >= 0 then r.value == i else r.value == n + i)
  {
    if 0 <= i < n then Some(i) else if -(n as int) <= i < 0 then Some(n + i) else None
  }

  /** Subject, session and acquisition labels of a series. */
  datatype Destination = Destination(subject: string, session: string, acquisition: string)

  const SessionSuffix: string := "_MRI"

  /** The labels drawn from the first file's path: the subject at
      `segIndex`, the acquisition at `segIndex + 1`, the session from the
      study date. None when either index is outside the path. */
  function DestinationOf(first: string, date: string, segIndex: int): Option<Destination> {
    var segs := Split(first, '/');
    match (PyIndex(|segs|, segIndex), PyIndex(|segs|, segIndex + 1))
    case (Some(a), Some(b)) => Some(Destination(segs[a], date + SessionSuffix, segs[b]))
    case _ => None
  }

  /** For a non-negative `segIndex`, a destination exists exactly when the
      path has a segment after the subject's; it names those two segments,
      which are free of '/', and a session "<date>_MRI". */
  lemma DestinationFacts(first: string, date: string, segIndex: nat)
    ensures var segs := Split(first, '/');
      DestinationOf(first, date, segIndex).Some? <==> segIndex + 1 < |segs|
    ensures var segs, d := Split(first, '/'), DestinationOf(first, date, segIndex);
      d.Some? ==>
        && d.value.subject == segs[segIndex] && d.value.acquisition == segs[segIndex + 1]
        && '/' !in d.value.subject && '/' !in d.value.acquisition
        && d.value.session == date + SessionSuffix && EndsWith(d.value.session, SessionSuffix)
  {
    SplitPieces(first, '/');
    var d := DestinationOf(first, date, segIndex);
    if d.Some? {
      assert (date + SessionSuffix)[|date|..] == SessionSuffix;
    }
  }

  // ---------------------------------------------------------------------
  // The jobs of a subject
  // ---------------------------------------------------------------------

  /** One series to upload: its UID, its files, its bundle and where it
      goes (None when the labels cannot be drawn from the path). */
  datatype Job = Job(seriesUid: string, members: seq<string>, bundle: Bundle, dest: Option<Destination>)

  /** A table whose listed UIDs each have non-empty file, number and date
      lists. */
  predicate TableReady(t: SeriesTable) {
    forall i :: 0 <= i < |t.zipFiles.keys| ==>
      && t.zipFiles.keys[i] in t.zipFiles.members && |t.zipFiles.members[t.zipFiles.keys[i]]| > 0
      && t.zipFiles.keys[i] in t.zipNumbers.members && |t.zipNumbers.members[t.zipFiles.keys[i]]| > 0
      && t.zipFiles.keys[i] in t.zipDates.members && |t.zipDates.members[t.zipFiles.keys[i]]| > 0
  }

  lemma TabulateReady(files: seq<string>, read: MetaReader)
    requires Readable(files, read)
    ensures TableReady(Tabulate(files, read))
  {
    var t := Tabulate(files, read);
    SeriesDomain(files, read);
    forall i | 0 <= i < |t.zipFiles.keys|
      ensures t.zipFiles.keys[i] in t.zipNumbers.members && |t.zipNumbers.members[t.zipFiles.keys[i]]| > 0
      ensures t.zipFiles.keys[i] in t.zipDates.members && |t.zipDates.members[t.zipFiles.keys[i]]| > 0
    {
      SeriesParallel(files, read, t.zipFiles.keys[i]);
    }
  }

  /** The body of the per-series loop up to the first Flywheel call. */
  function JobOf(t: SeriesTable, uid: string, segIndex: int): Job
    requires uid in t.zipFiles.members && |t.zipFiles.members[uid]| > 0
    requires uid in t.zipNumbers.members && |t.zipNumbers.members[uid]| > 0
    requires uid in t.zipDates.members && |t.zipDates.members[uid]| > 0
  {
    var group := t.zipFiles.members[uid];
    var first := group[0];
    var seriesNo := t.zipNumbers.members[uid][0];
    var date := t.zipDates.members[uid][0];
    Job(uid, group, Bundle(BundleName(seriesNo, first), Package(group)), DestinationOf(first, date, segIndex))
  }

  /** The jobs of a table, one per UID, in the dictionary's order. */
  function SeriesJobs(t: SeriesTable, segIndex: int): (r: seq<Job>)
    requires TableReady(t)
    ensures |r| == |t.zipFiles.keys|
    ensures forall i :: 0 <= i < |r| ==> r[i] == JobOf(t, t.zipFiles.keys[i], segIndex)
  {
    seq(|t.zipFiles.keys|, i requires 0 <= i < |t.zipFiles.keys| => JobOf(t, t.zipFiles.keys[i], segIndex))
  }

  /** The jobs of one subject bucket: none at all when some header cannot be
      read. */
  function SubjectJobs(files: seq<string>, read: MetaReader, segIndex: int): seq<Job> {
    if Readable(files, read) then
      TabulateReady(files, read);
      SeriesJobs(Tabulate(files, read), segIndex)
    else []
  }

  /** The members of the jobs, concatenated in order. */
  function JobFiles(jobs: seq<Job>): seq<string> {
    if jobs == [] then [] else JobFiles(jobs[..|jobs| - 1]) + jobs[|jobs| - 1].members
  }

  lemma {:induction false} JobFilesConcat(a: seq<Job>, b: seq<Job>)
    ensures JobFiles(a + b) == JobFiles(a) + JobFiles(b)
    decreases |b|
  {
    if b == [] {
      assert a + b == a;
    } else {
      assert (a + b)[..|a + b| - 1] == a + b[..|b| - 1];
      JobFilesConcat(a, b[..|b| - 1]);
    }
  }

  /** The jobs of a table list its series lists in key order. */
  lemma {:induction false} SeriesJobFiles(t: SeriesTable, segIndex: int, n: nat)
    requires TableReady(t) && n <= |t.zipFiles.keys|
    ensures JobFiles(SeriesJobs(t, segIndex)[..n]) == Flatten(t.zipFiles.keys[..n], t.zipFiles.members)
  {
    if n > 0 {
      SeriesJobFiles(t, segIndex, n - 1);
      var js := SeriesJobs(t, segIndex)[..n];
      assert js[..n - 1] == SeriesJobs(t, segIndex)[..n - 1];
      assert t.zipFiles.keys[..n][..n - 1] == t.zipFiles.keys[..n - 1];
    }
  }

  /** A readable subject's jobs hold each of its files exactly once (one job
      per series, in the order `SeriesJobs` lists them); each job's files share its UID, its
      bundle is named after the number of its first file and packs the base
      names of its files. An unreadable subject has no jobs. */
  lemma SubjectJobsFacts(files: seq<string>, read: MetaReader, segIndex: int)
    ensures !Readable(files, read) ==> SubjectJobs(files, read, segIndex) == []
    ensures Readable(files, read) ==>
      multiset(JobFiles(SubjectJobs(files, read, segIndex))) == multiset(files)
    ensures forall i :: 0 <= i < |SubjectJobs(files, read, segIndex)| ==>
      var j := SubjectJobs(files, read, segIndex)[i];
      && |j.members| > 0
      && (forall f :: f in j.members ==> read(f).Some? && read(f).value.seriesUid == j.seriesUid)
      && j.bundle == Bundle(BundleName(read(j.members[0]).value.seriesNumber, j.members[0]), Package(j.members))
      && j.dest == DestinationOf(j.members[0], read(j.members[0]).value.studyDate, segIndex)
  {
    if Readable(files, read) {
      var t := Tabulate(files, read);
      TabulateReady(files, read);
      var js := SeriesJobs(t, segIndex);
      SeriesJobFiles(t, segIndex, |js|);
      assert js[..|js|] == js;
      assert t.zipFiles.keys[..|t.zipFiles.keys|] == t.zipFiles.keys;
      SeriesPartition(files, read);
      forall i | 0 <= i < |js|
        ensures var j := js[i];
          && |j.members| > 0
          && (forall f :: f in j.members ==> read(f).Some? && read(f).value.seriesUid == j.seriesUid)
          && j.bundle == Bundle(BundleName(read(j.members[0]).value.seriesNumber, j.members[0]), Package(j.members))
          && j.dest == DestinationOf(j.members[0], read(j.members[0]).value.studyDate, segIndex)
      {
        var k := t.zipFiles.keys[i];
        SeriesMembers(files, read, k);
        SeriesParallel(files, read, k);
      }
    }
  }

  /** The jobs of the bucket at `k`. */
  function BucketJobs(scan: Groups<string, string>, k: string, read: MetaReader, segIndex: int): seq<Job> {
    if k in scan.members then SubjectJobs(scan.members[k], read, segIndex) else []
  }

  /** The jobs of the buckets at `keys`, in that order. */
  function PlanOver(scan: Groups<string, string>, keys: seq<string>, read: MetaReader, segIndex: int): seq<Job> {
    if keys == [] then []
    else PlanOver(scan, keys[..|keys| - 1], read, segIndex) + BucketJobs(scan, keys[|keys| - 1], read, segIndex)
  }

  lemma PlanOverStep(scan: Groups<string, string>, keys: seq<string>, i: nat, read: MetaReader, segIndex: int)
    requires i < |keys|
    ensures PlanOver(scan, keys[..i + 1], read, segIndex) ==
      PlanOver(scan, keys[..i], read, segIndex) + BucketJobs(scan, keys[i], read, segIndex)
  {
    assert keys[..i + 1][..i] == keys[..i];
  }

  /** Every job the upload loop attempts, subject bucket by subject bucket. */
  function Plan(names: seq<string>, read: MetaReader, segIndex: int): seq<Job> {
    var scan := Build(KeyedBy(names, EntryKey));
    PlanOver(scan, scan.keys, read, segIndex)
  }

  /** The lists at `keys` whose every header can be read, concatenated in
      key order: the files of the subjects the header loop does not abandon. */
  function ReadableFlatten(keys: seq<string>, members: map<string, seq<string>>, read: MetaReader): seq<string> {
    if keys == [] then []
    else
      var k := keys[|keys| - 1];
      ReadableFlatten(keys[..|keys| - 1], members, read)
        + if k in members && Readable(members[k], read) then members[k] else []
  }

  /** With every bucket readable, nothing is abandoned. */
  lemma {:induction false} ReadableFlattenAll(keys: seq<string>, members: map<string, seq<string>>, read: MetaReader)
    requires forall k :: k in members ==> Readable(members[k], read)
    ensures ReadableFlatten(keys, members, read) == Flatten(keys, members)
  {
    if keys != [] {
      ReadableFlattenAll(keys[..|keys| - 1], members, read);
    }
  }

  /** A readable bucket's files are all among the readable buckets' files,
      whatever the other buckets hold. */
  lemma {:induction false} ReadableFlattenHas(keys: seq<string>, members: map<string, seq<string>>, read: MetaReader, k: string)
    requires k in keys && k in members && Readable(members[k], read)
    ensures multiset(members[k]) <= multiset(ReadableFlatten(keys, members, read))
  {
    var pre := keys[..|keys| - 1];
    if keys[|keys| - 1] != k {
      assert k in pre by {
        var i :| 0 <= i < |keys| && keys[i] == k;
        assert i < |pre| && pre[i] == k;
      }
      ReadableFlattenHas(pre, members, read, k);
    }
  }

  /** The jobs over the buckets at `keys` hold exactly the files of the
      readable ones: an unreadable bucket contributes no job and takes none
      from the others. */
  lemma {:induction false} PlanOverFiles(scan: Groups<string, string>, keys: seq<string>, read: MetaReader, segIndex: int)
    ensures multiset(JobFiles(PlanOver(scan, keys, read, segIndex))) == multiset(ReadableFlatten(keys, scan.members, read))
    ensures (forall k :: k in scan.members ==> Readable(scan.members[k], read)) ==>
      multiset(JobFiles(PlanOver(scan, keys, read, segIndex))) == multiset(Flatten(keys, scan.members))
  {
    if keys != [] {
      var pre := keys[..|keys| - 1];
      var k := keys[|keys| - 1];
      PlanOverFiles(scan, pre, read, segIndex);
      JobFilesConcat(PlanOver(scan, pre, read, segIndex), BucketJobs(scan, k, read, segIndex));
      if k in scan.members {
        SubjectJobsFacts(scan.members[k], read, segIndex);
      }
    }
    if forall k :: k in scan.members ==> Readable(scan.members[k], read) {
      ReadableFlattenAll(keys, scan.members, read);
    }
  }

  /** Whatever other subjects hold, the plan holds each of its readable
      subjects' entries, and the plan's files are exactly those of the
      readable subjects: an unreadable header abandons its own subject only. */
  lemma PlanReadable(names: seq<string>, read: MetaReader, segIndex: int)
    ensures var scan := Build(KeyedBy(names, EntryKey));
      multiset(JobFiles(Plan(names, read, segIndex))) == multiset(ReadableFlatten(scan.keys, scan.members, read))
    ensures var scan := Build(KeyedBy(names, EntryKey));
      forall k :: k in scan.members && Readable(WithKey(names, EntryKey, k), read) ==>
        multiset(WithKey(names, EntryKey, k)) <= multiset(JobFiles(Plan(names, read, segIndex)))
  {
    var scan := Build(KeyedBy(names, EntryKey));
    ScanBuckets(names);
    PlanOverFiles(scan, scan.keys, read, segIndex);
    forall k | k in scan.members && Readable(WithKey(names, EntryKey, k), read)
      ensures multiset(WithKey(names, EntryKey, k)) <= multiset(JobFiles(Plan(names, read, segIndex)))
    {
      ReadableFlattenHas(scan.keys, scan.members, read, k);
    }
  }

  /** When every header of every kept entry can be read, the plan uploads
      each DICOM entry that has a subject segment exactly once, and nothing
      else. */
  lemma PlanCoversArchive(names: seq<string>, read: MetaReader, segIndex: int)
    requires forall i :: 0 <= i < |names| && EntryKey(names[i]).Some? ==> read(names[i]).Some?
    ensures multiset(JobFiles(Plan(names, read, segIndex))) == multiset(HasKey(names, EntryKey))
  {
    var scan := Build(KeyedBy(names, EntryKey));
    ScanBuckets(names);
    forall k | k in scan.members ensures Readable(scan.members[k], read) {
      forall i | 0 <= i < |scan.members[k]| ensures read(scan.members[k][i]).Some? {
        var f := scan.members[k][i];
        assert f in WithKey(names, EntryKey, k);
        WithKeyIn(names, EntryKey, k, f);
      }
    }
    PlanOverFiles(scan, scan.keys, read, segIndex);
  }
}
