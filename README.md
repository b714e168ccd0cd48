# LONI-to-Flywheel image uploader and NIfTI folder classifier, in Dafny

This project models two pieces of an imaging pipeline and proves properties of the models.

**The DICOM uploader** (`ImageUploading/fwImageUpload.py`). It opens a ZIP archive of
DICOM files and finds the `.dcm` entries. It buckets them by the first path segment that
carries a NACC subject id, then groups each subject's files by their SeriesInstanceUID.
Each series is repacked as `<SeriesNumber>-<base name>.zip`. Its destination comes from the
path and the StudyDate: subject `segments[segIndex]`, session `<date>_MRI` and acquisition
`segments[segIndex + 1]`. The uploader finds or creates the subject, the session and the
acquisition in a Flywheel project, then uploads the bundle with metadata
`{"type": "dicom"}`. The `FlywheelConnector` picks the first project whose label starts
with a prefix, and it can flatten the project's files and sessions.

**The NIfTI folder classifier**
(`qsm-medi/build/scripts/preprocessing/determine_nifti_folder_type.py`). From the
`.nii` outputs of dcm2niix it takes the common prefix, which a configuration value may
override. It counts the echoes (plain magnitude names first, then `_real` names) and flags
whether phase, real and imaginary images exist.

Files:

- `wrappers.dfy`: `Option`, `Result` and `Outcome`.
- `text.dfy`: the Python string operations the code relies on, each with its meaning proved:
  - `os.path.basename` and `os.path.splitext`;
  - `str.split` and `"/".join`;
  - `str.split(d)[0]` and `in`;
  - ASCII `lower`;
  - `str(int)`.
- `grouping.dfy`: an insertion-ordered dictionary of lists. It models
  `d.setdefault(k, []).append(v)` and iteration over `d.items()`.
- `flywheel.dfy`: the Flywheel hierarchy (project, subject, session, acquisition, file). Its
  `RemoteProject` class has the `find_first`, `add_*` and `upload_file` calls. A `refuses`
  oracle decides which remote calls raise.
- `series.dfy`: the archive side of `uploadImages`:
  - scanning;
  - subject buckets;
  - series grouping;
  - bundle names and contents;
  - destinations and the plan of per-series jobs.
- `upload.dfy`:
  - the Flywheel side of `uploadImages` as specification functions (`Execute` and
    friends), with their lemmas;
  - the `FlywheelConnector` and `UploadImageData` classes, whose methods are proved
    against those functions.
- `nifti.dfy`: the classifier, as a method proved against a specification of the regular
  expressions it searches for.

The archive, the DICOM reader and the remote store are parameters:
- `archive` is the list of `namelist()` entries.
- `read: string -> Option<DicomMeta>` returns None when extracting or parsing an entry raises.
- `refuses: Call -> bool` says which remote calls raise.

The main results:

- **Scan.** `ScanBuckets` proves that the subject buckets partition exactly the keyed
  `.dcm` entries, in first-seen order.
- **Series grouping.**
  - `SeriesPartition` proves that the series of a readable subject partition its files.
  - `SeriesParallel` proves that the number and date lists run parallel to the file list.
  - `SubjectJobsFacts` derives each job's bundle and destination from the series' first file.
- **Failure isolation.** `PlanReadable` proves that an unreadable header abandons only its
  own subject: the plan holds exactly the readable subjects' entries. `ExecuteIsolated`
  proves that a refused call fails only its own series: a series whose own calls are
  accepted is uploaded at its turn, whatever happens to the others.
- **Whole archive.** `PlanCoversArchive` proves that the plan covers every keyed entry
  exactly once, provided every header can be read.
- **Upload.**
  - `ExecuteFiles` proves that the uploads attach exactly the bundles reported as sent.
  - `ExecuteKeepsUnique` proves that find-or-create never makes two siblings with the same label.
  - `UploadOutcome` proves that when every header can be read, every path has the two label
    segments and nothing is refused, every bundle is uploaded in plan order.
- **Driver.** `UploadImageData.UploadImages` is proved to leave the project in the state
  `Execute` predicts for the plan.
- **Classifier.**
  - `SearchCorrect` proves that the executable search decides the declarative pattern match.
  - `CommonPrefixLongest` proves that the fold yields the longest common prefix.
  - `DetermineFolderType` states every branch of the echo count, the error cases and the three flags.

## Model

| member | source | states |
|---|---|---|
| Text.Contains | ImageUploading/fwImageUpload.py:258 | `sub in s` holds exactly when `sub` occurs at some index of `s` |
| Text.BeforeFirst | ImageUploading/fwImageUpload.py:309 | `s.split(d)[0]` is a prefix of `s`; it is followed by `d` when `d` occurs, is all of `s` otherwise; no occurrence of `d` starts inside it, so it ends at the first occurrence even for a `d` that overlaps itself |
| Text.LastIndexOf | ImageUploading/fwImageUpload.py:305 | the last position holding the character, or None when it does not occur |
| Text.BasenameIs | ImageUploading/fwImageUpload.py:305 | `basename` has no '/', and what precedes it ends in '/' |
| Text.BasenameUnder | ImageUploading/fwImageUpload.py:219 | the basename of a directory path followed by a slash-free name is that name |
| Text.SplitExt | ImageUploading/fwImageUpload.py:253 | `splitext` returns a root and an extension that concatenate back to the path |
| Text.SplitExtIs | ImageUploading/fwImageUpload.py:253 | a non-empty extension starts at a dot of the base name that has a non-dot before it and no dot after it |
| Text.SplitExtAt | ImageUploading/fwImageUpload.py:253 | conversely, such a dot is where the extension starts |
| Text.SplitExtName | ImageUploading/fwImageUpload.py:219 | for a slash-free name, `splitext` cuts at its last dot when a non-dot precedes that dot |
| Text.HasNonDotPrefix | ImageUploading/fwImageUpload.py:253 | a prefix holds a non-dot exactly when it is longer than the run of leading dots, which `splitext` does not treat as an extension |
| Text.Lower | ImageUploading/fwImageUpload.py:254 | `lower` keeps the length and lowercases each character, ASCII only |
| Text.SplitJoin | ImageUploading/fwImageUpload.py:257 | joining the pieces of `s.split("/")` with "/" gives back `s` |
| Text.SplitPieces | ImageUploading/fwImageUpload.py:257 | no piece of `s.split("/")` contains '/' |
| Text.JoinSplit | ImageUploading/fwImageUpload.py:257 | splitting a join of non-empty-list, separator-free pieces gives back the pieces |
| Text.NatToString | ImageUploading/fwImageUpload.py:310 | `str(n)` of a non-negative integer is a non-empty digit string with no leading zero unless `n` is 0 |
| Text.NatToStringCanonical | ImageUploading/fwImageUpload.py:310 | every digit string without a leading zero (or "0") is `str` of the number it denotes, so with `NatToStringValue` the rendering of the series number is unique |
| Text.NatToStringValue | ImageUploading/fwImageUpload.py:310 | the digits of `str(n)` read back as `n` |
| Text.LeadingDigitsOf | ImageUploading/fwImageUpload.py:310 | the maximal leading digit run of digits followed by a non-digit is those digits |
| Text.DecimalRoundTrip | ImageUploading/fwImageUpload.py:310 | `str(n)` of any integer, followed by text that does not start with a digit, reads back as `n` |
| Grouping.BuildSnoc | ImageUploading/fwImageUpload.py:264 | one more `setdefault(k, []).append(v)` is one more `Append` on the dictionary |
| Grouping.BuildSpec | ImageUploading/fwImageUpload.py:264 | the built dictionary lists its keys once each; a key is present exactly when some pair carries it; its list is that key's values in input order |
| Grouping.BuildPartition | ImageUploading/fwImageUpload.py:264 | iterating `items()` and concatenating the lists gives every inserted value exactly once |
| Grouping.BuildSameKeys | ImageUploading/fwImageUpload.py:292-294 | dictionaries filled from pair lists with the same keys in the same order have the same keys in the same order |
| Grouping.BuildMapped | ImageUploading/fwImageUpload.py:292-294 | when one pair list maps the other's values position by position, each key's lists correspond position by position |
| Grouping.KeyedByAll | ImageUploading/fwImageUpload.py:292 | when every element has a key, keying keeps every element, in order |
| Grouping.GroupByKeyDomain | ImageUploading/fwImageUpload.py:264 | grouping by a partial key yields a key exactly when some element has it |
| Grouping.GroupByKeyOrder | ImageUploading/fwImageUpload.py:264 | the dictionary's keys are in first-seen order: of two listed keys, the earlier one occurs in the input before the later one first does |
| Grouping.GroupByKeyLists | ImageUploading/fwImageUpload.py:264 | each group is exactly the elements with its key, in input order |
| Grouping.GroupByKeyPartition | ImageUploading/fwImageUpload.py:264 | the groups together hold exactly the keyed elements |
| Flywheel.FindFirst | ImageUploading/fwImageUpload.py:324-338 | `find_first("label=...")` returns the first child with that label, or None when no child has it |
| Flywheel.FindFirstAppended | ImageUploading/fwImageUpload.py:327-343 | after adding an unused label, `find_first` finds the new child |
| Flywheel.Locate | ImageUploading/fwImageUpload.py:324-338 | a located handle is the first-match path: valid, with the requested labels, each container the first of its siblings carrying its label; None exactly when no first-match path exists |
| Flywheel.LocateSameContainers | ImageUploading/fwImageUpload.py:346 | lookups depend only on the container labels, not on files |
| Flywheel.AddSubjectKeepsUnique | ImageUploading/fwImageUpload.py:327-329 | adding a subject whose label is unused keeps sibling labels distinct |
| Flywheel.WithSessionKeepsUnique | ImageUploading/fwImageUpload.py:332-334 | the same for a new session |
| Flywheel.WithAcquisitionKeepsUnique | ImageUploading/fwImageUpload.py:339-343 | the same for a new acquisition |
| Flywheel.WithFileSameContainers | ImageUploading/fwImageUpload.py:346 | uploading a file changes no container or label |
| Flywheel.WithFileKeepsUnique | ImageUploading/fwImageUpload.py:346 | uploading a file keeps sibling labels distinct |
| Flywheel.AddsKeepFiles | ImageUploading/fwImageUpload.py:327-343 | creating containers leaves the project's files unchanged |
| Flywheel.WithFileAddsOne | ImageUploading/fwImageUpload.py:346 | an upload adds exactly that one file to the project's files |
| Flywheel.RemoteProject.FindFirstSubject | ImageUploading/fwImageUpload.py:324-326 | raises when the call is refused; otherwise returns the first subject with the label |
| Flywheel.RemoteProject.AddSubjectNamed | ImageUploading/fwImageUpload.py:329 | raises and changes nothing when refused; otherwise appends an empty subject and returns its index |
| Flywheel.RemoteProject.FindFirstSession | ImageUploading/fwImageUpload.py:331 | raises when refused; otherwise returns the first session of the subject with the label |
| Flywheel.RemoteProject.AddSessionNamed | ImageUploading/fwImageUpload.py:334 | raises and changes nothing when refused; otherwise appends an empty session to that subject only |
| Flywheel.RemoteProject.FindFirstAcquisition | ImageUploading/fwImageUpload.py:336-338 | raises when refused; otherwise returns the first acquisition of the session with the label |
| Flywheel.RemoteProject.AddAcquisitionNamed | ImageUploading/fwImageUpload.py:341-343 | raises and changes nothing when refused; otherwise appends an empty acquisition to that session only |
| Flywheel.RemoteProject.UploadFileTo | ImageUploading/fwImageUpload.py:346 | raises and changes nothing when refused; otherwise attaches the file to that acquisition only |
| DicomSeries.IsDicomEntryMeans | ImageUploading/fwImageUpload.py:253-255 | an entry is kept exactly when its base name ends in a case-insensitive ".dcm" with at least one character before the dot that is not a leading dot |
| DicomSeries.FirstMarked | ImageUploading/fwImageUpload.py:258 | the first path segment containing "NACC", or None when no segment does |
| DicomSeries.EntryKey | ImageUploading/fwImageUpload.py:253-262 | a kept entry's subject label is a slash-free path segment containing "NACC"; a `.dcm` entry gets none only when no segment contains it |
| DicomSeries.EntryKeyIsFirst | ImageUploading/fwImageUpload.py:258 | the subject label is the first such segment |
| DicomSeries.ScanArchive | ImageUploading/fwImageUpload.py:247-264 | the scan loop builds exactly the dictionary of keyed entries grouped by subject label |
| DicomSeries.ScanBuckets | ImageUploading/fwImageUpload.py:247-271 | subjects in first-seen order (of two listed subjects, the earlier has an entry before the later one's first), each once; a subject is present exactly when some entry has it; its bucket is exactly its entries, in archive order; the buckets hold every keyed entry once |
| DicomSeries.GroupSeries | ImageUploading/fwImageUpload.py:277-300 | returns None exactly when some header of the subject cannot be read, which abandons the subject; otherwise returns the three dictionaries |
| DicomSeries.SeriesDomain | ImageUploading/fwImageUpload.py:292 | a UID is a series exactly when some file's header carries it, each is listed once, and the UIDs are in first-seen order (the earlier listed one is carried by a file before the first file carrying the later one) |
| DicomSeries.SeriesMembers | ImageUploading/fwImageUpload.py:292 | a series holds exactly the files with its UID, in bucket order |
| DicomSeries.SeriesPartition | ImageUploading/fwImageUpload.py:292 | the series together hold every file of the subject exactly once |
| DicomSeries.SeriesSameKeys | ImageUploading/fwImageUpload.py:292-294 | `zipFiles`, `zipNumbers` and `zipDates` list the same UIDs in the same order |
| DicomSeries.SeriesParallel | ImageUploading/fwImageUpload.py:292-307 | a series' numbers and dates are, position by position, those read from its files, so index 0 belongs to the first file |
| DicomSeries.BundleNameParts | ImageUploading/fwImageUpload.py:305-310 | the bundle name reads back as the series number, a '-', the first file's base name cut before "_br", and ".zip" |
| DicomSeries.BundleNameUncut | ImageUploading/fwImageUpload.py:305-310 | a base name without "_br" is kept whole, extension included |
| DicomSeries.BundleNamesDiffer | ImageUploading/fwImageUpload.py:310 | series with different numbers get different bundle names |
| DicomSeries.Package | ImageUploading/fwImageUpload.py:315-317 | the bundle has one entry per file of the series, in order, each the file's base name |
| DicomSeries.PackageFlat | ImageUploading/fwImageUpload.py:317 | no bundle entry contains '/' |
| DicomSeries.PyIndex | ImageUploading/fwImageUpload.py:320-322 | Python list indexing: defined exactly for `-n <= i < n`, counting from the end for negative `i` |
| DicomSeries.DestinationFacts | ImageUploading/fwImageUpload.py:319-322 | for `segIndex >= 0`, a destination exists exactly when the path has a segment after the subject's; the labels are those segments and "<date>_MRI" |
| DicomSeries.TabulateReady | ImageUploading/fwImageUpload.py:302-307 | every listed UID has non-empty file, number and date lists, so the `[0]` lookups cannot fail |
| DicomSeries.SeriesJobs | ImageUploading/fwImageUpload.py:302 | one job per UID, in dictionary order |
| DicomSeries.SeriesJobFiles | ImageUploading/fwImageUpload.py:302-304 | the jobs' files are the series' files in dictionary order |
| DicomSeries.SubjectJobsFacts | ImageUploading/fwImageUpload.py:281-322 | no jobs for an unreadable subject; otherwise the jobs hold every file once; each job's files share its UID, and its bundle and destination come from its first file |
| DicomSeries.ReadableFlattenAll | ImageUploading/fwImageUpload.py:296-300 | when every bucket's headers can be read, no bucket is abandoned |
| DicomSeries.ReadableFlattenHas | ImageUploading/fwImageUpload.py:296-300 | a readable bucket's files are all among the kept files, whatever the other buckets hold |
| DicomSeries.PlanOverFiles | ImageUploading/fwImageUpload.py:271-302 | with no assumption on readability, the jobs hold exactly the files of the readable buckets, so an unreadable bucket contributes nothing and takes nothing from the others; over all-readable buckets, exactly the buckets' files |
| DicomSeries.PlanReadable | ImageUploading/fwImageUpload.py:247-302 | the archive's plan holds exactly the readable subjects' entries, and every entry of a readable subject, whatever headers of other subjects fail |
| DicomSeries.PlanCoversArchive | ImageUploading/fwImageUpload.py:247-322 | when every header can be read, the plan's jobs hold every keyed `.dcm` entry exactly once |
| FwImageUpload.EnsureSubjectFacts | ImageUploading/fwImageUpload.py:324-329 | the subject step leaves the tree alone or appends one subject with an unused label; a found or created subject is the first with the label |
| FwImageUpload.EnsureSessionFacts | ImageUploading/fwImageUpload.py:331-334 | the same for the session, and subject labels are unchanged |
| FwImageUpload.EnsureAcquisitionFacts | ImageUploading/fwImageUpload.py:336-343 | the same for the acquisition, and subject and session labels are unchanged |
| FwImageUpload.PlaceFiles | ImageUploading/fwImageUpload.py:324-343 | finding or creating a destination leaves the project's files unchanged |
| FwImageUpload.PlaceKeepsUnique | ImageUploading/fwImageUpload.py:324-343 | finding or creating a destination keeps sibling labels distinct |
| FwImageUpload.PlaceFinds | ImageUploading/fwImageUpload.py:324-343 | a destination reached is the one a later lookup of its labels finds |
| FwImageUpload.PlaceAccepted | ImageUploading/fwImageUpload.py:324-343 | when no call is refused, a destination is always reached |
| FwImageUpload.PlaceExisting | ImageUploading/fwImageUpload.py:324-343 | when the destination already exists, nothing is created and the existing acquisition is used |
| FwImageUpload.DepositFiles | ImageUploading/fwImageUpload.py:302-350 | one series adds its bundle to the project's files when it reports success, and nothing otherwise |
| FwImageUpload.DepositKeepsUnique | ImageUploading/fwImageUpload.py:302-350 | one series never creates two siblings with the same label |
| FwImageUpload.DepositLands | ImageUploading/fwImageUpload.py:319-346 | a successful series had a destination, and its bundle is the last file of the acquisition its labels find |
| FwImageUpload.DepositAccepted | ImageUploading/fwImageUpload.py:302-350 | when no call is refused, a series with a destination succeeds |
| FwImageUpload.PlaceInIsolated | ImageUploading/fwImageUpload.py:329-341 | under a subject with the destination's label, accepted session and acquisition calls always place the destination, and the upload request names its three labels |
| FwImageUpload.DepositIsolated | ImageUploading/fwImageUpload.py:319-350 | a series none of whose own seven calls is refused is uploaded, from any tree the other series left |
| FwImageUpload.DepositExisting | ImageUploading/fwImageUpload.py:324-346 | into an existing destination, a series at most adds its bundle there and creates no container |
| FwImageUpload.ExecuteSnoc | ImageUploading/fwImageUpload.py:302-350 | running one more series continues from the tree the earlier ones left |
| FwImageUpload.ExecuteConcat | ImageUploading/fwImageUpload.py:271-350 | running two job lists in turn is running their concatenation, with the sent bundles concatenated |
| FwImageUpload.ExecuteSkips | ImageUploading/fwImageUpload.py:319-350 | a series whose labels cannot be indexed is skipped, with no effect |
| FwImageUpload.ExecuteIsolated | ImageUploading/fwImageUpload.py:302-350 | in a whole run, a series none of whose own calls is refused adds exactly its bundle at its turn, whatever the series before and after it do |
| FwImageUpload.ExecuteFiles | ImageUploading/fwImageUpload.py:302-350 | the project gains exactly the bundles reported as sent |
| FwImageUpload.ExecuteKeepsUnique | ImageUploading/fwImageUpload.py:302-350 | a whole run never creates two siblings with the same label |
| FwImageUpload.ExecuteAccepted | ImageUploading/fwImageUpload.py:302-350 | when nothing is refused and every job has a destination, every bundle is sent, in plan order |
| FwImageUpload.UploadOutcome | ImageUploading/fwImageUpload.py:221-352 | with readable headers, indexable paths and no refusals, every keyed entry is in exactly one job, every bundle is uploaded in order, and the project gains exactly those bundles |
| FwImageUpload.FindOrAddSubject | ImageUploading/fwImageUpload.py:324-329 | the method reaches the state and the subject index the subject step specifies |
| FwImageUpload.FindOrAddSession | ImageUploading/fwImageUpload.py:331-334 | the same for the session step |
| FwImageUpload.FindOrAddAcquisition | ImageUploading/fwImageUpload.py:336-343 | the same for the acquisition step |
| FwImageUpload.UploadSeries | ImageUploading/fwImageUpload.py:319-350 | one pass of the series-loop body leaves the project as `Deposit` specifies and reports its success |
| FwImageUpload.FirstWithPrefix | ImageUploading/fwImageUpload.py:104-105 | the first listed project whose label starts with the prefix, or None when none does |
| FwImageUpload.FirstWithPrefixAt | ImageUploading/fwImageUpload.py:104-105 | a matching entry with no match before it is the one chosen |
| FwImageUpload.SubjectImages | ImageUploading/fwImageUpload.py:137-140 | the nested loops collect a subject's files session by session, acquisition by acquisition |
| FwImageUpload.SessionImages | ImageUploading/fwImageUpload.py:138-140 | the nested loops collect a session's files acquisition by acquisition |
| FwImageUpload.FlywheelConnector.constructor | ImageUploading/fwImageUpload.py:67-75 | no project is selected, and both lists are empty |
| FwImageUpload.FlywheelConnector.SetProject | ImageUploading/fwImageUpload.py:98-114 | a failed listing raises; no matching label raises the ValueError; a failed fetch of the first match raises and keeps the old project; otherwise the fetched project is selected; the lists are unchanged |
| FwImageUpload.FlywheelConnector.CollectImageInformation | ImageUploading/fwImageUpload.py:131-143 | fails and changes nothing without a project; otherwise `imageList` is every file of every acquisition, in tree order |
| FwImageUpload.FlywheelConnector.CollectSessionInformation | ImageUploading/fwImageUpload.py:160-167 | fails and changes nothing without a project; otherwise `sessionList` is every session, in tree order |
| FwImageUpload.PackSeries | ImageUploading/fwImageUpload.py:315-317 | the packing loop writes exactly the series' base names, in order |
| FwImageUpload.SeriesJob | ImageUploading/fwImageUpload.py:304-322 | the series-loop prelude computes the job the plan specifies for that UID |
| FwImageUpload.UploadTable | ImageUploading/fwImageUpload.py:302-350 | the series loop leaves the project as running the table's jobs in order specifies |
| FwImageUpload.ArchiveBaseName | ImageUploading/fwImageUpload.py:219 | for an archive path `dir/stem.ext`, the base name is `stem` (so "test.zip" gives "test") |
| FwImageUpload.UploadImageData.constructor | ImageUploading/fwImageUpload.py:209-219 | keeps the connector and archive, and the base name is the archive's file name without its extension |
| FwImageUpload.UploadImageData.UploadImages | ImageUploading/fwImageUpload.py:221-352 | keeps the selected project, and leaves it in the state of running the whole plan for the archive in order |
| FwImageUpload.UploadImageData.UploadBucket | ImageUploading/fwImageUpload.py:271-350 | one subject bucket leaves the project as running that bucket's jobs specifies |
| FwImageUpload.UploadImageData.UploadSubject | ImageUploading/fwImageUpload.py:276-350 | an unreadable bucket changes nothing; otherwise the project ends as running its series' jobs specifies |
| NiftiFolderType.NiiNames | qsm-medi/build/scripts/preprocessing/determine_nifti_folder_type.py:33 | exactly the base names of the listed files that end in ".nii" |
| NiftiFolderType.NiiNamesConcat | qsm-medi/build/scripts/preprocessing/determine_nifti_folder_type.py:33 | the names of two listings are those of the first followed by those of the second |
| NiftiFolderType.NiiNamesOne | qsm-medi/build/scripts/preprocessing/determine_nifti_folder_type.py:33 | an entry contributes its base name once when it ends in ".nii" and nothing otherwise; with `NiiNamesConcat` this fixes the list, count and order included |
| NiftiFolderType.PairPrefix | qsm-medi/build/scripts/preprocessing/determine_nifti_folder_type.py:37 | a common prefix of two names that cannot be extended |
| NiftiFolderType.PairPrefixLongest | qsm-medi/build/scripts/preprocessing/determine_nifti_folder_type.py:37 | every common prefix of two names is a prefix of it |
| NiftiFolderType.CommonPrefix | qsm-medi/build/scripts/preprocessing/determine_nifti_folder_type.py:37 | `os.path.commonprefix` is empty for no names and a prefix of every name |
| NiftiFolderType.CommonPrefixLongest | qsm-medi/build/scripts/preprocessing/determine_nifti_folder_type.py:37 | every common prefix of a non-empty list is a prefix of it, so it is the longest |
| NiftiFolderType.DigitRun | qsm-medi/build/scripts/preprocessing/determine_nifti_folder_type.py:49 | the run `\d*` takes is digits and ends at the end or at a non-digit |
| NiftiFolderType.LongestRun | qsm-medi/build/scripts/preprocessing/determine_nifti_folder_type.py:49 | a digit run ended by a non-digit is the run `\d*` takes |
| NiftiFolderType.MatchAtHere | qsm-medi/build/scripts/preprocessing/determine_nifti_folder_type.py:49 | any match at a position is found by the greedy check there |
| NiftiFolderType.MatchHereCorrect | qsm-medi/build/scripts/preprocessing/determine_nifti_folder_type.py:49 | the greedy check at a position succeeds exactly when some digit count matches there |
| NiftiFolderType.SearchFromCorrect | qsm-medi/build/scripts/preprocessing/determine_nifti_folder_type.py:50 | scanning from a position succeeds exactly when a match starts there or later |
| NiftiFolderType.SearchCorrect | qsm-medi/build/scripts/preprocessing/determine_nifti_folder_type.py:49-88 | `re.search` of prefix, optional `\d*`, and suffix succeeds exactly when the name contains such a match |
| NiftiFolderType.Matching | qsm-medi/build/scripts/preprocessing/determine_nifti_folder_type.py:50 | the comprehension keeps exactly the names the search accepts |
| NiftiFolderType.MatchingCons | qsm-medi/build/scripts/preprocessing/determine_nifti_folder_type.py:50 | one more name in front is kept in front exactly when the search accepts it |
| NiftiFolderType.MatchingCount | qsm-medi/build/scripts/preprocessing/determine_nifti_folder_type.py:50-52 | each accepted name is kept as often as it is listed and others never, so `len(echo_match)` counts the accepted entries |
| NiftiFolderType.MatchingConcat | qsm-medi/build/scripts/preprocessing/determine_nifti_folder_type.py:50 | filtering a concatenation is concatenating the filtered parts, so accepted names keep their order |
| NiftiFolderType.MatchingMeans | qsm-medi/build/scripts/preprocessing/determine_nifti_folder_type.py:76-89 | the match list is non-empty exactly when some name contains a match |
| NiftiFolderType.PresenceFlags | qsm-medi/build/scripts/preprocessing/determine_nifti_folder_type.py:70-90 | each of the phase, real and imaginary flags holds exactly when some `.nii` name contains a match of its pattern |
| NiftiFolderType.DetermineFolderType | qsm-medi/build/scripts/preprocessing/determine_nifti_folder_type.py:33-99 | the empty-prefix error exactly when no prefix is found and none is configured; every echo-count branch, including the final error; the reported prefix is the configured or found one; `single_file` is 1 exactly when `num_echoes` is -1; the flags use the widened prefix exactly in the multi-echo case |

## Left out

- Flywheel.WithFile: `upload_file` is modelled as appending the file to the acquisition. The
  service's replacement or versioning of a file with the same name is not modelled, so a
  re-upload into an existing acquisition counts as a second file in `ExecuteFiles`,
  `DepositFiles`, `DepositLands`, `DepositExisting` and `UploadOutcome`.
- File, ZIP and JSON I/O are absent. `zipfile` reading, extraction to a temporary
  directory, writing the bundle ZIP and `json.dump` are not modelled. The archive is its list
  of entry names, writing a bundle always succeeds, and the bundle is its name and entry list.
- The failure of `zipfile.ZipFile(fileSpec)` in `UploadImageData.__init__` is not modelled:
  the constructor takes the archive's entry list as given.
- DICOM parsing (`pydicom.dcmread`, attribute lookup) is an oracle `read`. It returns None
  whenever extraction, parsing or an attribute lookup raises. `SeriesNumber` is an integer
  rendered as canonical decimal; other value representations are not modelled.
- Network failures are an oracle on the call made (`refuses`). The oracle is fixed for the
  whole run and a call names only labels, so identical calls always get the same answer: a
  transient failure of one series' `find_first` or `add_*` followed by success of the same
  call for a later series is not expressible. The `/api/projects` listing
  and `get_project` are parameters of `FlywheelConnector.SetProject` (an `Option` listing and
  a fetch returning null on failure). Failures partway through the iteration in
  `CollectImageInformation` and `CollectSessionInformation` are not modelled. Those methods
  fail only for a missing project.
- The Flywheel filter string `label=<x>` is modelled as exact label equality. Labels that
  contain filter syntax are not modelled.
- `str.lower` is ASCII-only here. Non-ASCII case mappings that could turn a character into
  ".dcm" letters are not modelled.
- The classifier's regular expressions treat the prefix literally and `\d` as ASCII digits. A
  prefix containing regex metacharacters, or one that is not a valid pattern, is not modelled.
  `\.nii` is unanchored, as in the code, so ".nii" may match anywhere in the name.
- `os.listdir`, the config file, `print` output and the JSON output file of the classifier are
  absent. `DetermineFolderType` takes the listing and the optional configured prefix, and it
  returns the metadata record.
- `NiftiFolderType.CommonPrefix`: `os.path.commonprefix` is computed by comparing the
  lexicographic minimum and maximum. The model folds a pairwise prefix over the list instead
  and proves it yields the longest common prefix, which is what the min/max method computes.
- Logging, `Config`, `main`, argument parsing and exit codes are absent. `segIndex` is a
  parameter; `main` defaults it to 1.
- Concurrency and the SDK's object identity are absent. The project is one object whose tree
  of subjects is a value.

## Notes

- The bundle name keeps the first file's extension. A first file `.../a.dcm` gives the bundle
  `3-a.dcm.zip`, not `3-a.zip`, because the base name is cut only at "_br". The model follows
  the code (`DicomSeries.BundleNameUncut`).
- When `fc.project` is None, every series fails on its first Flywheel call and is skipped, so
  `UploadImages` changes nothing. The model states this through the `old(fc.project) != null`
  guard.
