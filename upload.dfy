/** The Flywheel side of `UploadImageData.uploadImages`: for each series,
    find or create the subject, the session and the acquisition, then upload
    the series bundle with metadata {"type": "dicom"}. A call that raises
    ends that series only; containers created before it stay. */
module FwImageUpload {
  import opened Wrappers
  import opened Text
  import opened Grouping
  import opened Flywheel
  import opened DicomSeries

  /** The tree after making sure a container exists, and the container's
      position in its parent (None when a call raised). */
  datatype Step = Step(tree: seq<Subject>, at: Option<nat>)

  /** `find_first` the subject, and `add_subject` it when there is none. */
  function EnsureSubject(t: seq<Subject>, l: string, refuses: Call -> bool): (r: Step)
    ensures r.at.Some? ==> r.at.value < |r.tree|
    ensures |t| <= |r.tree|
  {
    if refuses(FindSubject(l)) then Step(t, None)
    else
      match FindFirst(SubjectLabels(t), l)
      case Some(i) => Step(t, Some(i))
      case None =>
        if refuses(AddSubject(l)) then Step(t, None)
        else Step(t + [Subject(l, [])], Some(|t|))
  }

  /** `find_first` the session of subject `si`, and `add_session` it when
      there is none. */
  function EnsureSession(t: seq<Subject>, si: nat, l: string, refuses: Call -> bool): (r: Step)
    requires si < |t|
    ensures |r.tree| == |t|
    ensures r.at.Some? ==> r.at.value < |r.tree[si].sessions|
  {
    if refuses(FindSession(t[si].name, l)) then Step(t, None)
    else
      match FindFirst(SessionLabels(t[si].sessions), l)
      case Some(j) => Step(t, Some(j))
      case None =>
        if refuses(AddSession(t[si].name, l)) then Step(t, None)
        else Step(WithSession(t, si, l), Some(|t[si].sessions|))
  }

  /** `find_first` the acquisition of session `ssi` of subject `si`, and
      `add_acquisition` it when there is none. */
  function EnsureAcquisition(t: seq<Subject>, si: nat, ssi: nat, l: string, refuses: Call -> bool): (r: Step)
    requires si < |t| && ssi < |t[si].sessions|
    ensures |r.tree| == |t| && |r.tree[si].sessions| == |t[si].sessions|
    ensures r.at.Some? ==> ValidHandle(r.tree, Handle(si, ssi, r.at.value))
  {
    var s := t[si].sessions[ssi];
    if refuses(FindAcquisition(t[si].name, s.name, l)) then Step(t, None)
    else
      match FindFirst(AcquisitionLabels(s.acquisitions), l)
      case Some(k) => Step(t, Some(k))
      case None =>
        if refuses(AddAcquisition(t[si].name, s.name, l)) then Step(t, None)
        else Step(WithAcquisition(t, si, ssi, l), Some(|s.acquisitions|))
  }

  /** What `upload_file(zipPath, metadata={"type": "dicom"})` attaches. */
  function BundleFile(b: Bundle): RemoteFile {
    RemoteFile(b.name, b.entries, map["type" := "dicom"])
  }

  /** The upload request for `f` at handle `h`. */
  function UploadCall(t: seq<Subject>, h: Handle, f: RemoteFile): Call
    requires ValidHandle(t, h)
  {
    var sj := t[h.subject];
    UploadFile(sj.name, sj.sessions[h.session].name, sj.sessions[h.session].acquisitions[h.acquisition].name, f.name)
  }

  /** The session and acquisition lookups under subject `si`: the tree
      afterwards, and where the acquisition is (None when a call raised). */
  function PlaceIn(t: seq<Subject>, si: nat, d: Destination, refuses: Call -> bool): (r: (seq<Subject>, Option<Handle>))
    requires si < |t|
    ensures |r.0| == |t|
    ensures r.1.Some? ==> ValidHandle(r.0, r.1.value)
  {
    var ss := EnsureSession(t, si, d.session, refuses);
    if ss.at.None? then (ss.tree, None)
    else
      var a := EnsureAcquisition(ss.tree, si, ss.at.value, d.acquisition, refuses);
      if a.at.None? then (a.tree, None)
      else (a.tree, Some(Handle(si, ss.at.value, a.at.value)))
  }

  /** The three find-or-create steps for a destination. */
  function Place(t: seq<Subject>, d: Destination, refuses: Call -> bool): (r: (seq<Subject>, Option<Handle>))
    ensures r.1.Some? ==> ValidHandle(r.0, r.1.value)
  {
    var s := EnsureSubject(t, d.subject, refuses);
    if s.at.None? then (s.tree, None) else PlaceIn(s.tree, s.at.value, d, refuses)
  }

  /** The Flywheel calls of one series: the tree afterwards, and whether the
      bundle was uploaded. */
  function Deposit(t: seq<Subject>, job: Job, refuses: Call -> bool): (seq<Subject>, bool) {
    match job.dest
    case None => (t, false)
    case Some(d) =>
      var (u, h) := Place(t, d, refuses);
      var f := BundleFile(job.bundle);
      if h.None? || refuses(UploadCall(u, h.value, f)) then (u, false)
      else (WithFile(u, h.value, f), true)
  }

  // ---------------------------------------------------------------------
  // What each stage does to the tree
  // ---------------------------------------------------------------------

  /** The subject stage either leaves the tree alone or appends a new empty
      subject whose label no subject had; a found or created subject is the
      first one carrying the label. */
  lemma EnsureSubjectFacts(t: seq<Subject>, l: string, refuses: Call -> bool)
    ensures var r := EnsureSubject(t, l, refuses);
      && (r.tree == t || (r.tree == t + [Subject(l, [])] && forall j :: 0 <= j < |t| ==> t[j].name != l))
      && (r.at.None? ==> r.tree == t)
      && (r.at.Some? ==> FindFirst(SubjectLabels(r.tree), l) == r.at)
  {
    var r := EnsureSubject(t, l, refuses);
    if r.tree != t {
      assert SubjectLabels(r.tree) == SubjectLabels(t) + [l];
      FindFirstAppended(SubjectLabels(t), l);
    }
  }

  /** The session stage keeps the subjects and their labels, and either
      leaves the tree alone or adds one new empty session whose label no
      sibling had; a found or created session is the first one carrying the
      label. */
  lemma EnsureSessionFacts(t: seq<Subject>, si: nat, l: string, refuses: Call -> bool)
    requires si < |t|
    ensures var r := EnsureSession(t, si, l, refuses);
      && (r.tree == t || (r.tree == WithSession(t, si, l) && forall j :: 0 <= j < |t[si].sessions| ==> t[si].sessions[j].name != l))
      && (r.at.None? ==> r.tree == t)
      && SubjectLabels(r.tree) == SubjectLabels(t)
      && (r.at.Some? ==> FindFirst(SessionLabels(r.tree[si].sessions), l) == r.at)
  {
    var r := EnsureSession(t, si, l, refuses);
    if r.tree != t {
      assert SubjectLabels(r.tree) == SubjectLabels(t);
      assert SessionLabels(r.tree[si].sessions) == SessionLabels(t[si].sessions) + [l];
      FindFirstAppended(SessionLabels(t[si].sessions), l);
    }
  }

  /** The acquisition stage keeps subjects and sessions and their labels,
      and either leaves the tree alone or adds one new empty acquisition
      whose label no sibling had; a found or created acquisition is the
      first one carrying the label. */
  lemma EnsureAcquisitionFacts(t: seq<Subject>, si: nat, ssi: nat, l: string, refuses: Call -> bool)
    requires si < |t| && ssi < |t[si].sessions|
    ensures var r := EnsureAcquisition(t, si, ssi, l, refuses);
      && (r.tree == t || (r.tree == WithAcquisition(t, si, ssi, l)
                          && forall j :: 0 <= j < |t[si].sessions[ssi].acquisitions| ==> t[si].sessions[ssi].acquisitions[j].name != l))
      && (r.at.None? ==> r.tree == t)
      && SubjectLabels(r.tree) == SubjectLabels(t)
      && SessionLabels(r.tree[si].sessions) == SessionLabels(t[si].sessions)
      && (r.at.Some? ==> FindFirst(AcquisitionLabels(r.tree[si].sessions[ssi].acquisitions), l) == r.at)
  {
    var r := EnsureAcquisition(t, si, ssi, l, refuses);
    if r.tree != t {
      assert SubjectLabels(r.tree) == SubjectLabels(t);
      assert SessionLabels(r.tree[si].sessions) == SessionLabels(t[si].sessions);
      assert AcquisitionLabels(r.tree[si].sessions[ssi].acquisitions)
          == AcquisitionLabels(t[si].sessions[ssi].acquisitions) + [l];
      FindFirstAppended(AcquisitionLabels(t[si].sessions[ssi].acquisitions), l);
    }
  }

  // ---------------------------------------------------------------------
  // Finding or creating a destination
  // ---------------------------------------------------------------------

  /** Creating containers attaches no file. */
  lemma PlaceFiles(t: seq<Subject>, d: Destination, refuses: Call -> bool)
    ensures multiset(AllFiles(Place(t, d, refuses).0)) == multiset(AllFiles(t))
  {
    var s := EnsureSubject(t, d.subject, refuses);
    EnsureSubjectFacts(t, d.subject, refuses);
    AddsKeepFiles(t, 0, 0, d.subject);
    if s.at.Some? {
      PlaceInFiles(s.tree, s.at.value, d, refuses);
    }
  }

  lemma PlaceInFiles(t: seq<Subject>, si: nat, d: Destination, refuses: Call -> bool)
    requires si < |t|
    ensures multiset(AllFiles(PlaceIn(t, si, d, refuses).0)) == multiset(AllFiles(t))
  {
    var ss := EnsureSession(t, si, d.session, refuses);
    EnsureSessionFacts(t, si, d.session, refuses);
    AddsKeepFiles(t, si, 0, d.session);
    if ss.at.Some? {
      EnsureAcquisitionFacts(ss.tree, si, ss.at.value, d.acquisition, refuses);
      AddsKeepFiles(ss.tree, si, ss.at.value, d.acquisition);
    }
  }

  /** Find-or-create never makes two siblings with the same label. */
  lemma PlaceKeepsUnique(t: seq<Subject>, d: Destination, refuses: Call -> bool)
    requires UniqueLabels(t)
    ensures UniqueLabels(Place(t, d, refuses).0)
  {
    var s := EnsureSubject(t, d.subject, refuses);
    EnsureSubjectFacts(t, d.subject, refuses);
    if s.tree != t {
      AddSubjectKeepsUnique(t, d.subject);
    }
    if s.at.Some? {
      PlaceInKeepsUnique(s.tree, s.at.value, d, refuses);
    }
  }

  lemma PlaceInKeepsUnique(t: seq<Subject>, si: nat, d: Destination, refuses: Call -> bool)
    requires si < |t| && UniqueLabels(t)
    ensures UniqueLabels(PlaceIn(t, si, d, refuses).0)
  {
    var ss := EnsureSession(t, si, d.session, refuses);
    EnsureSessionFacts(t, si, d.session, refuses);
    if ss.tree != t {
      WithSessionKeepsUnique(t, si, d.session);
    }
    if ss.at.Some? {
      var a := EnsureAcquisition(ss.tree, si, ss.at.value, d.acquisition, refuses);
      EnsureAcquisitionFacts(ss.tree, si, ss.at.value, d.acquisition, refuses);
      if a.tree != ss.tree {
        WithAcquisitionKeepsUnique(ss.tree, si, ss.at.value, d.acquisition);
      }
    }
  }

  /** A placed destination is where its three labels lead. */
  lemma PlaceFinds(t: seq<Subject>, d: Destination, refuses: Call -> bool)
    requires Place(t, d, refuses).1.Some?
    ensures Locate(Place(t, d, refuses).0, d.subject, d.session, d.acquisition) == Place(t, d, refuses).1
  {
    var s := EnsureSubject(t, d.subject, refuses);
    EnsureSubjectFacts(t, d.subject, refuses);
    var si := s.at.value;
    var ss := EnsureSession(s.tree, si, d.session, refuses);
    EnsureSessionFacts(s.tree, si, d.session, refuses);
    EnsureAcquisitionFacts(ss.tree, si, ss.at.value, d.acquisition, refuses);
  }

  /** With nothing refused, every destination is placed. */
  lemma PlaceAccepted(t: seq<Subject>, d: Destination, refuses: Call -> bool)
    requires forall c :: !refuses(c)
    ensures Place(t, d, refuses).1.Some?
  {
  }

  /** A destination that already exists is reused: nothing is created, and
      it is placed at the existing containers unless a lookup is refused. */
  lemma PlaceExisting(t: seq<Subject>, d: Destination, refuses: Call -> bool)
    requires Locate(t, d.subject, d.session, d.acquisition).Some?
    ensures Place(t, d, refuses).0 == t
    ensures Place(t, d, refuses).1.Some? ==> Place(t, d, refuses).1 == Locate(t, d.subject, d.session, d.acquisition)
  {
    var h := Locate(t, d.subject, d.session, d.acquisition).value;
    var s := EnsureSubject(t, d.subject, refuses);
    assert s.tree == t;
    if s.at.Some? {
      assert s.at.value == h.subject;
      var ss := EnsureSession(t, h.subject, d.session, refuses);
      assert ss.tree == t;
      if ss.at.Some? {
        assert ss.at.value == h.session;
      }
    }
  }

  // ---------------------------------------------------------------------
  // One series
  // ---------------------------------------------------------------------

  /** The only file a series attaches is its bundle, and only when the
      upload went through. */
  lemma DepositFiles(t: seq<Subject>, job: Job, refuses: Call -> bool)
    ensures var (u, ok) := Deposit(t, job, refuses);
      multiset(AllFiles(u)) == multiset(AllFiles(t)) + (if ok then multiset{BundleFile(job.bundle)} else multiset{})
  {
    if job.dest.Some? {
      var (u, h) := Place(t, job.dest.value, refuses);
      PlaceFiles(t, job.dest.value, refuses);
      if h.Some? {
        WithFileAddsOne(u, h.value, BundleFile(job.bundle));
      }
    }
  }

  /** Uploading never makes two siblings with the same label. */
  lemma DepositKeepsUnique(t: seq<Subject>, job: Job, refuses: Call -> bool)
    requires UniqueLabels(t)
    ensures UniqueLabels(Deposit(t, job, refuses).0)
  {
    if job.dest.Some? {
      var (u, h) := Place(t, job.dest.value, refuses);
      PlaceKeepsUnique(t, job.dest.value, refuses);
      if h.Some? {
        WithFileKeepsUnique(u, h.value, BundleFile(job.bundle));
      }
    }
  }

  /** An uploaded bundle is the newest file of the acquisition that the
      series' three labels lead to. */
  lemma DepositLands(t: seq<Subject>, job: Job, refuses: Call -> bool)
    requires Deposit(t, job, refuses).1
    ensures job.dest.Some?
    ensures var u, d := Deposit(t, job, refuses).0, job.dest.value;
      var h := Locate(u, d.subject, d.session, d.acquisition);
      && h.Some?
      && var files := u[h.value.subject].sessions[h.value.session].acquisitions[h.value.acquisition].files;
         |files| > 0 && files[|files| - 1] == BundleFile(job.bundle)
  {
    var d := job.dest.value;
    var (u, h) := Place(t, d, refuses);
    var f := BundleFile(job.bundle);
    PlaceFinds(t, d, refuses);
    WithFileSameContainers(u, h.value, f);
    LocateSameContainers(u, WithFile(u, h.value, f), d.subject, d.session, d.acquisition);
  }

  /** With nothing refused, a series that has a destination is uploaded. */
  lemma DepositAccepted(t: seq<Subject>, job: Job, refuses: Call -> bool)
    requires forall c :: !refuses(c)
    requires job.dest.Some?
    ensures Deposit(t, job, refuses).1
  {
    PlaceAccepted(t, job.dest.value, refuses);
  }

  /** None of the seven calls a series can make (the three lookups, the
      three creations and the upload of its bundle, all named by its
      destination's labels) is refused. */
  predicate SeriesCallsAllowed(job: Job, refuses: Call -> bool) {
    match job.dest
    case None => false
    case Some(d) =>
      && !refuses(FindSubject(d.subject)) && !refuses(AddSubject(d.subject))
      && !refuses(FindSession(d.subject, d.session)) && !refuses(AddSession(d.subject, d.session))
      && !refuses(FindAcquisition(d.subject, d.session, d.acquisition))
      && !refuses(AddAcquisition(d.subject, d.session, d.acquisition))
      && !refuses(UploadFile(d.subject, d.session, d.acquisition, job.bundle.name))
  }

  /** Under a subject labelled `d.subject`, with its four session and
      acquisition calls accepted, the session and acquisition are placed,
      and the upload request names the destination's labels. */
  lemma PlaceInIsolated(t: seq<Subject>, si: nat, d: Destination, f: RemoteFile, refuses: Call -> bool)
    requires si < |t| && t[si].name == d.subject
    requires !refuses(FindSession(d.subject, d.session)) && !refuses(AddSession(d.subject, d.session))
    requires !refuses(FindAcquisition(d.subject, d.session, d.acquisition))
    requires !refuses(AddAcquisition(d.subject, d.session, d.acquisition))
    ensures var (u, h) := PlaceIn(t, si, d, refuses);
      h.Some? && UploadCall(u, h.value, f) == UploadFile(d.subject, d.session, d.acquisition, f.name)
  {
    var ss := EnsureSession(t, si, d.session, refuses);
    EnsureSessionFacts(t, si, d.session, refuses);
    var ssi := ss.at.value;
    assert ss.tree[si].name == d.subject by {
      assert SubjectLabels(ss.tree)[si] == SubjectLabels(t)[si];
    }
    assert ss.tree[si].sessions[ssi].name == d.session by {
      assert SessionLabels(ss.tree[si].sessions)[ssi] == d.session;
    }
    var a := EnsureAcquisition(ss.tree, si, ssi, d.acquisition, refuses);
    EnsureAcquisitionFacts(ss.tree, si, ssi, d.acquisition, refuses);
    var u := a.tree;
    var k := a.at.value;
    assert u[si].name == d.subject by {
      assert SubjectLabels(u)[si] == SubjectLabels(ss.tree)[si];
    }
    assert u[si].sessions[ssi].name == d.session by {
      assert SessionLabels(u[si].sessions)[ssi] == SessionLabels(ss.tree[si].sessions)[ssi];
    }
    assert u[si].sessions[ssi].acquisitions[k].name == d.acquisition by {
      assert AcquisitionLabels(u[si].sessions[ssi].acquisitions)[k] == d.acquisition;
    }
  }

  /** Failures are isolated to their own series: a series none of whose own
      calls is refused is uploaded, from whatever tree the others left. */
  lemma DepositIsolated(t: seq<Subject>, job: Job, refuses: Call -> bool)
    requires SeriesCallsAllowed(job, refuses)
    ensures Deposit(t, job, refuses).1
  {
    var d := job.dest.value;
    var s := EnsureSubject(t, d.subject, refuses);
    EnsureSubjectFacts(t, d.subject, refuses);
    var si := s.at.value;
    assert s.tree[si].name == d.subject by {
      assert SubjectLabels(s.tree)[si] == d.subject;
    }
    PlaceInIsolated(s.tree, si, d, BundleFile(job.bundle), refuses);
  }

  /** A destination that already exists is reused: nothing is created, and
      the only possible change is the bundle attached there. */
  lemma DepositExisting(t: seq<Subject>, job: Job, refuses: Call -> bool)
    requires job.dest.Some?
    requires Locate(t, job.dest.value.subject, job.dest.value.session, job.dest.value.acquisition).Some?
    ensures var u, h := Deposit(t, job, refuses).0, Locate(t, job.dest.value.subject, job.dest.value.session, job.dest.value.acquisition).value;
      u == t || u == WithFile(t, h, BundleFile(job.bundle))
    ensures SameContainers(t, Deposit(t, job, refuses).0)
  {
    var d := job.dest.value;
    PlaceExisting(t, d, refuses);
    WithFileSameContainers(t, Locate(t, d.subject, d.session, d.acquisition).value, BundleFile(job.bundle));
  }

  // ---------------------------------------------------------------------
  // A sequence of series
  // ---------------------------------------------------------------------

  /** The series uploaded one after another: the final tree, and the files
      that were attached, in order. */
  function Execute(t: seq<Subject>, jobs: seq<Job>, refuses: Call -> bool): (seq<Subject>, seq<RemoteFile>) {
    if jobs == [] then (t, [])
    else
      var (u, sent) := Execute(t, jobs[..|jobs| - 1], refuses);
      var (w, ok) := Deposit(u, jobs[|jobs| - 1], refuses);
      (w, sent + if ok then [BundleFile(jobs[|jobs| - 1].bundle)] else [])
  }

  /** One more series. */
  lemma ExecuteSnoc(t: seq<Subject>, jobs: seq<Job>, job: Job, refuses: Call -> bool)
    ensures var (u, sent) := Execute(t, jobs, refuses);
      var (w, ok) := Deposit(u, job, refuses);
      Execute(t, jobs + [job], refuses) == (w, sent + if ok then [BundleFile(job.bundle)] else [])
  {
    assert (jobs + [job])[..|jobs|] == jobs;
  }

  /** Running two lists of series is running the first, then the second
      from where the first left the tree. */
  lemma {:induction false} ExecuteConcat(t: seq<Subject>, a: seq<Job>, b: seq<Job>, refuses: Call -> bool)
    ensures var (u, s1) := Execute(t, a, refuses);
      var (w, s2) := Execute(u, b, refuses);
      Execute(t, a + b, refuses) == (w, s1 + s2)
    decreases |b|
  {
    if b == [] {
      assert a + b == a;
      assert Execute(t, a, refuses).1 + [] == Execute(t, a, refuses).1;
    } else {
      var b' := b[..|b| - 1];
      var last := b[|b| - 1];
      assert (a + b)[..|a + b| - 1] == a + b';
      assert (a + b)[|a + b| - 1] == last;
      ExecuteConcat(t, a, b', refuses);
      var u := Execute(t, a, refuses).0;
      var s1 := Execute(t, a, refuses).1;
      var mid := Execute(u, b', refuses);
      var extra := if Deposit(mid.0, last, refuses).1 then [BundleFile(last.bundle)] else [];
      assert Execute(u, b, refuses).1 == mid.1 + extra;
      assert Execute(t, a + b, refuses).1 == (s1 + mid.1) + extra;
      ConcatAssoc(s1, mid.1, extra);
    }
  }

  /** The tree after two lists of series. */
  lemma ExecuteTreeConcat(t: seq<Subject>, a: seq<Job>, b: seq<Job>, refuses: Call -> bool)
    ensures Execute(t, a + b, refuses).0 == Execute(Execute(t, a, refuses).0, b, refuses).0
  {
    ExecuteConcat(t, a, b, refuses);
  }

  /** A series without a destination has no effect on the others: the
      run is as if it were not there. */
  lemma ExecuteSkips(t: seq<Subject>, a: seq<Job>, job: Job, b: seq<Job>, refuses: Call -> bool)
    requires job.dest.None?
    ensures Execute(t, a + [job] + b, refuses) == Execute(t, a + b, refuses)
  {
    ExecuteConcat(t, a + [job], b, refuses);
    ExecuteConcat(t, a, b, refuses);
    ExecuteSnoc(t, a, job, refuses);
    assert Execute(t, a, refuses).1 + [] == Execute(t, a, refuses).1;
    assert Execute(t, a + [job], refuses) == Execute(t, a, refuses);
  }

  /** Lifted to a whole run: a series none of whose own calls is refused
      has its bundle uploaded at its turn, whatever the series before and
      after it do. */
  lemma ExecuteIsolated(t: seq<Subject>, jobs: seq<Job>, i: nat, refuses: Call -> bool)
    requires i < |jobs| && SeriesCallsAllowed(jobs[i], refuses)
    ensures Execute(t, jobs[..i + 1], refuses).1 == Execute(t, jobs[..i], refuses).1 + [BundleFile(jobs[i].bundle)]
    ensures BundleFile(jobs[i].bundle) in Execute(t, jobs, refuses).1
  {
    var a, job, b := jobs[..i], jobs[i], jobs[i + 1..];
    assert jobs[..i + 1] == a + [job];
    assert jobs == a + [job] + b;
    ExecuteSnoc(t, a, job, refuses);
    DepositIsolated(Execute(t, a, refuses).0, job, refuses);
    ExecuteConcat(t, a + [job], b, refuses);
    var s := Execute(t, a + [job], refuses).1;
    assert s[|s| - 1] == BundleFile(job.bundle);
    assert Execute(t, jobs, refuses).1[|s| - 1] == s[|s| - 1];
  }

  /** The files of the project grow by exactly the attached files. */
  lemma {:induction false} ExecuteFiles(t: seq<Subject>, jobs: seq<Job>, refuses: Call -> bool)
    ensures multiset(AllFiles(Execute(t, jobs, refuses).0)) == multiset(AllFiles(t)) + multiset(Execute(t, jobs, refuses).1)
  {
    if jobs != [] {
      var pre := jobs[..|jobs| - 1];
      ExecuteFiles(t, pre, refuses);
      DepositFiles(Execute(t, pre, refuses).0, jobs[|jobs| - 1], refuses);
    }
  }

  /** No series ever makes two siblings share a label. */
  lemma {:induction false} ExecuteKeepsUnique(t: seq<Subject>, jobs: seq<Job>, refuses: Call -> bool)
    requires UniqueLabels(t)
    ensures UniqueLabels(Execute(t, jobs, refuses).0)
  {
    if jobs != [] {
      var pre := jobs[..|jobs| - 1];
      ExecuteKeepsUnique(t, pre, refuses);
      DepositKeepsUnique(Execute(t, pre, refuses).0, jobs[|jobs| - 1], refuses);
    }
  }

  /** The bundles of the series, in order. */
  function Bundles(jobs: seq<Job>): (r: seq<RemoteFile>)
    ensures |r| == |jobs|
    ensures forall i :: 0 <= i < |jobs| ==> r[i] == BundleFile(jobs[i].bundle)
  {
    seq(|jobs|, i requires 0 <= i < |jobs| => BundleFile(jobs[i].bundle))
  }

  /** With nothing refused, every series that has a destination is
      uploaded, in order. */
  lemma {:induction false} ExecuteAccepted(t: seq<Subject>, jobs: seq<Job>, refuses: Call -> bool)
    requires forall c :: !refuses(c)
    requires forall i :: 0 <= i < |jobs| ==> jobs[i].dest.Some?
    ensures Execute(t, jobs, refuses).1 == Bundles(jobs)
  {
    if jobs != [] {
      var pre := jobs[..|jobs| - 1];
      var last := jobs[|jobs| - 1];
      assert jobs == pre + [last];
      assert forall i :: 0 <= i < |pre| ==> pre[i] == jobs[i];
      ExecuteAccepted(t, pre, refuses);
      DepositAccepted(Execute(t, pre, refuses).0, last, refuses);
      ExecuteSnoc(t, pre, last, refuses);
      BundlesSnoc(pre, last);
    }
  }

  lemma BundlesSnoc(jobs: seq<Job>, job: Job)
    ensures Bundles(jobs + [job]) == Bundles(jobs) + [BundleFile(job.bundle)]
  {
    assert forall i :: 0 <= i < |jobs| ==> (jobs + [job])[i] == jobs[i];
  }

  /** With nothing refused, every readable DICOM entry with a subject
      segment travels in exactly one series, every series that has a
      destination is uploaded, and the project gains exactly those bundles. */
  lemma UploadOutcome(names: seq<string>, read: MetaReader, segIndex: int, t: seq<Subject>, refuses: Call -> bool)
    requires forall c :: !refuses(c)
    requires forall i :: 0 <= i < |names| && EntryKey(names[i]).Some? ==> read(names[i]).Some?
    requires forall i :: 0 <= i < |Plan(names, read, segIndex)| ==> Plan(names, read, segIndex)[i].dest.Some?
    ensures var plan := Plan(names, read, segIndex);
      && multiset(JobFiles(plan)) == multiset(HasKey(names, EntryKey))
      && Execute(t, plan, refuses).1 == Bundles(plan)
      && multiset(AllFiles(Execute(t, plan, refuses).0)) == multiset(AllFiles(t)) + multiset(Bundles(plan))
  {
    var plan := Plan(names, read, segIndex);
    PlanCoversArchive(names, read, segIndex);
    ExecuteAccepted(t, plan, refuses);
    ExecuteFiles(t, plan, refuses);
  }

  // ---------------------------------------------------------------------
  // The upload loop
  // ---------------------------------------------------------------------

  /** `find_first` the subject, `add_subject` when there is none. */
  method FindOrAddSubject(p: RemoteProject, l: string) returns (at: Option<nat>)
    modifies p
    ensures Step(p.subjects, at) == EnsureSubject(old(p.subjects), l, p.refuses)
  {
    var found := p.FindFirstSubject(l);
    if found.Err? {
      return None;
    }
    if found.value.Some? {
      return found.value;
    }
    var added := p.AddSubjectNamed(l);
    if added.Err? {
      return None;
    }
    return Some(added.value);
  }

  /** `find_first` the session, `add_session` when there is none. */
  method FindOrAddSession(p: RemoteProject, si: nat, l: string) returns (at: Option<nat>)
    requires si < |p.subjects|
    modifies p
    ensures Step(p.subjects, at) == EnsureSession(old(p.subjects), si, l, p.refuses)
  {
    var found := p.FindFirstSession(si, l);
    if found.Err? {
      return None;
    }
    if found.value.Some? {
      return found.value;
    }
    var added := p.AddSessionNamed(si, l);
    if added.Err? {
      return None;
    }
    return Some(added.value);
  }

  /** `find_first` the acquisition, `add_acquisition` when there is none. */
  method FindOrAddAcquisition(p: RemoteProject, si: nat, ssi: nat, l: string) returns (at: Option<nat>)
    requires si < |p.subjects| && ssi < |p.subjects[si].sessions|
    modifies p
    ensures Step(p.subjects, at) == EnsureAcquisition(old(p.subjects), si, ssi, l, p.refuses)
  {
    var found := p.FindFirstAcquisition(si, ssi, l);
    if found.Err? {
      return None;
    }
    if found.value.Some? {
      return found.value;
    }
    var added := p.AddAcquisitionNamed(si, ssi, l);
    if added.Err? {
      return None;
    }
    return Some(added.value);
  }

  /** The Flywheel half of one pass of the per-series loop: every call that
      raises ends the series, keeping what earlier calls created. */
  method UploadSeries(p: RemoteProject, job: Job) returns (ok: bool)
    modifies p
    ensures (p.subjects, ok) == Deposit(old(p.subjects), job, p.refuses)
  {
    if job.dest.None? {
      return false;
    }
    var d := job.dest.value;
    var si := FindOrAddSubject(p, d.subject);
    if si.None? {
      return false;
    }
    ghost var t1 := p.subjects;
    var ssi := FindOrAddSession(p, si.value, d.session);
    if ssi.None? {
      return false;
    }
    var ai := FindOrAddAcquisition(p, si.value, ssi.value, d.acquisition);
    if ai.None? {
      assert (p.subjects, None) == PlaceIn(t1, si.value, d, p.refuses);
      return false;
    }
    assert (p.subjects, Some(Handle(si.value, ssi.value, ai.value))) == PlaceIn(t1, si.value, d, p.refuses);
    var uploaded := p.UploadFileTo(Handle(si.value, ssi.value, ai.value), BundleFile(job.bundle));
    ok := uploaded.Pass?;
  }

  // ---------------------------------------------------------------------
  // The connector
  // ---------------------------------------------------------------------

  /** An entry of the `/api/projects` listing: its label and id. */
  datatype ProjectEntry = ProjectEntry(name: string, id: string)

  /** What the connector raises. */
  datatype ConnectError =
    | ListingFailed                  // the `/api/projects` request raised
    | FetchFailed(id: string)        // `get_project(id)` raised
    | NoProjectWithPrefix(prefix: string)   // the ValueError
    | NotInitialized                 // the RuntimeError: no project set

  /** The first listed project whose label starts with `prefix`. */
  function FirstWithPrefix(ps: seq<ProjectEntry>, prefix: string): (r: Option<nat>)
    ensures r.Some? ==> r.value < |ps| && prefix <= ps[r.value].name
    ensures r.Some? ==> forall j :: 0 <= j < r.value ==> !(prefix <= ps[j].name)
    ensures r.None? ==> forall j :: 0 <= j < |ps| ==> !(prefix <= ps[j].name)
  {
    if ps == [] then None
    else if prefix <= ps[0].name then Some(0)
    else
      match FirstWithPrefix(ps[1..], prefix)
      case None => None
      case Some(i) => Some(i + 1)
  }

  /** The first match is the only position with a match and none before. */
  lemma FirstWithPrefixAt(ps: seq<ProjectEntry>, prefix: string, i: nat)
    requires i < |ps| && prefix <= ps[i].name
    requires forall j :: 0 <= j < i ==> !(prefix <= ps[j].name)
    ensures FirstWithPrefix(ps, prefix) == Some(i)
  {
  }

  /** The files of one subject, session by session and acquisition by
      acquisition: the inner loops of `CollectImageInformation`. */
  method SubjectImages(s: Subject) returns (images: seq<RemoteFile>)
    ensures images == FilesOfSubject(s)
  {
    images := [];
    var sessions := s.sessions;
    for j := 0 to |sessions|
      invariant images == FlatMap(sessions[..j], FilesOfSession)
    {
      var more := SessionImages(sessions[j]);
      images := images + more;
      FlatMapSnoc(sessions, j, FilesOfSession);
    }
    assert sessions[..|sessions|] == sessions;
  }

  method SessionImages(s: Session) returns (images: seq<RemoteFile>)
    ensures images == FilesOfSession(s)
  {
    images := [];
    var acquisitions := s.acquisitions;
    for k := 0 to |acquisitions|
      invariant images == FlatMap(acquisitions[..k], FilesOfAcquisition)
    {
      var files := acquisitions[k].files;
      ghost var before := images;
      for l := 0 to |files|
        invariant images == before + files[..l]
      {
        images := images + [files[l]];
        assert files[..l + 1] == files[..l] + [files[l]];
      }
      assert files[..|files|] == files;
      FlatMapSnoc(acquisitions, k, FilesOfAcquisition);
    }
    assert acquisitions[..|acquisitions|] == acquisitions;
  }

  class FlywheelConnector {
    var project: RemoteProject?
    var imageList: seq<RemoteFile>
    var sessionList: seq<Session>

    constructor ()
      ensures project == null && imageList == [] && sessionList == []
    {
      project := null;
      imageList := [];
      sessionList := [];
    }

    /** `setProject(project_name)`: `listing` is the answer to the
        `/api/projects` request (None when it raises) and `fetch` is
        `get_project` (null when it raises). The first project whose label
        starts with `prefix` is fetched and becomes the project; with no such
        project it raises ValueError. A failure leaves the project as it was. */
    method SetProject(listing: Option<seq<ProjectEntry>>, fetch: string -> RemoteProject?, prefix: string)
      returns (r: Outcome<ConnectError>)
      modifies this
      ensures imageList == old(imageList) && sessionList == old(sessionList)
      ensures listing.None? ==> r == Fail(ListingFailed) && project == old(project)
      ensures listing.Some? ==>
        match FirstWithPrefix(listing.value, prefix)
        case None => r == Fail(NoProjectWithPrefix(prefix)) && project == old(project)
        case Some(i) =>
          var id := listing.value[i].id;
          if fetch(id) == null then r == Fail(FetchFailed(id)) && project == old(project)
          else r == Pass && project == fetch(id)
    {
      if listing.None? {
        return Fail(ListingFailed);
      }
      var ps := listing.value;
      for i := 0 to |ps|
        invariant forall j :: 0 <= j < i ==> !(prefix <= ps[j].name)
      {
        if prefix <= ps[i].name {
          FirstWithPrefixAt(ps, prefix, i);
          var fetched := fetch(ps[i].id);
          if fetched == null {
            return Fail(FetchFailed(ps[i].id));
          }
          project := fetched;
          return Pass;
        }
      }
      return Fail(NoProjectWithPrefix(prefix));
    }

    /** `CollectImageInformation()`: every file of every acquisition of
        every session of every subject, in iteration order; RuntimeError
        when no project is set. */
    method CollectImageInformation() returns (r: Outcome<ConnectError>)
      modifies this
      ensures project == old(project) && sessionList == old(sessionList)
      ensures old(project) == null ==> r == Fail(NotInitialized) && imageList == old(imageList)
      ensures old(project) != null ==> r == Pass && imageList == AllFiles(project.subjects)
    {
      if project == null {
        return Fail(NotInitialized);
      }
      var subjects := project.subjects;
      var images := [];
      for i := 0 to |subjects|
        invariant images == FlatMap(subjects[..i], FilesOfSubject)
        invariant project == old(project) && imageList == old(imageList)
        invariant sessionList == old(sessionList)
      {
        var more := SubjectImages(subjects[i]);
        images := images + more;
        FlatMapSnoc(subjects, i, FilesOfSubject);
      }
      assert subjects[..|subjects|] == subjects;
      imageList := images;
      return Pass;
    }

    /** `CollectSessionInformation()`: every session of every subject, in
        iteration order; RuntimeError when no project is set. */
    method CollectSessionInformation() returns (r: Outcome<ConnectError>)
      modifies this
      ensures project == old(project) && imageList == old(imageList)
      ensures old(project) == null ==> r == Fail(NotInitialized) && sessionList == old(sessionList)
      ensures old(project) != null ==> r == Pass && sessionList == AllSessions(project.subjects)
    {
      if project == null {
        return Fail(NotInitialized);
      }
      var subjects := project.subjects;
      var sessions := [];
      for i := 0 to |subjects|
        invariant sessions == FlatMap(subjects[..i], SessionsOfSubject)
        invariant project == old(project) && imageList == old(imageList)
        invariant sessionList == old(sessionList)
      {
        var own := subjects[i].sessions;
        for j := 0 to |own|
          invariant sessions == FlatMap(subjects[..i], SessionsOfSubject) + own[..j]
          invariant project == old(project) && imageList == old(imageList)
          invariant sessionList == old(sessionList)
        {
          sessions := sessions + [own[j]];
          assert own[..j + 1] == own[..j] + [own[j]];
        }
        assert own[..|own|] == own;
        FlatMapSnoc(subjects, i, SessionsOfSubject);
      }
      assert subjects[..|subjects|] == subjects;
      sessionList := sessions;
      return Pass;
    }
  }

  // ---------------------------------------------------------------------
  // The upload driver
  // ---------------------------------------------------------------------

  /** The packaging loop: every member is written under its base name. */
  method PackSeries(group: seq<string>) returns (entries: seq<string>)
    ensures entries == Package(group)
  {
    entries := [];
    for l := 0 to |group|
      invariant |entries| == l
      invariant forall m :: 0 <= m < l ==> entries[m] == Basename(group[m])
    {
      entries := entries + [Basename(group[l])];
    }
  }

  /** The start of the series loop: the first file, number and date of the
      series name its bundle, the members are packed, and the labels are
      drawn from the first file's path. */
  method SeriesJob(t: SeriesTable, uid: string, segIndex: int) returns (job: Job)
    requires uid in t.zipFiles.members && |t.zipFiles.members[uid]| > 0
    requires uid in t.zipNumbers.members && |t.zipNumbers.members[uid]| > 0
    requires uid in t.zipDates.members && |t.zipDates.members[uid]| > 0
    ensures job == JobOf(t, uid, segIndex)
  {
    var group := t.zipFiles.members[uid];
    var first := group[0];
    var seriesNo := t.zipNumbers.members[uid][0];
    var date := t.zipDates.members[uid][0];
    var zipFileName := DecimalString(seriesNo) + "-" + BeforeFirst(Basename(first), BaseCut) + BundleSuffix;
    var entries := PackSeries(group);
    job := Job(uid, group, Bundle(zipFileName, entries), DestinationOf(first, date, segIndex));
  }

  method UploadTable(p: RemoteProject?, t: SeriesTable, segIndex: int)
    requires TableReady(t)
    modifies p
    ensures p != null ==> p.subjects == Execute(old(p.subjects), SeriesJobs(t, segIndex), p.refuses).0
  {
    ghost var jobs := SeriesJobs(t, segIndex);
    ghost var t0 := if p != null then p.subjects else [];
    var uids := t.zipFiles.keys;
    for j := 0 to |uids|
      invariant p != null ==> p.subjects == Execute(t0, jobs[..j], p.refuses).0
    {
      var job := SeriesJob(t, uids[j], segIndex);
      assert jobs[j] == job;
      TakeSnoc(jobs, j);
      if p != null {
        ExecuteSnoc(t0, jobs[..j], job, p.refuses);
        var _ := UploadSeries(p, job);
      }
    }
    assert jobs[..|uids|] == jobs;
  }

  /** An archive `<dir>/<stem><ext>` gets the base name `<stem>`, for a
      stem without dots and an extension such as ".zip". */
  lemma ArchiveBaseName(dir: string, stem: string, ext: string)
    requires dir == [] || dir[|dir| - 1] == '/'
    requires stem != [] && '/' !in stem && '.' !in stem
    requires ext != [] && ext[0] == '.' && '/' !in ext && '.' !in ext[1..]
    ensures SplitExt(Basename(dir + stem + ext)) == (stem, ext)
  {
    var b := stem + ext;
    var d := |stem|;
    assert dir + stem + ext == dir + b;
    assert forall j :: d <= j < |b| ==> b[j] == ext[j - d];
    assert forall j :: d < j < |b| ==> b[j] == ext[1..][j - d - 1];
    assert '/' !in b;
    BasenameUnder(dir, b);
    assert b[..d] == stem && b[d..] == ext;
    assert HasNonDot(stem) by {
      assert stem[0] != '.';
    }
    SplitExtName(b, d);
  }

  class UploadImageData {
    const fc: FlywheelConnector
    const fileSpec: string
    /** The archive's `namelist()`. */
    const archive: seq<string>
    /** The header reader (`pydicom.dcmread` of an extracted entry). */
    const read: MetaReader
    const baseName: string

    /** `__init__`: the archive's base name loses its extension. */
    constructor (fc: FlywheelConnector, fileSpec: string, archive: seq<string>, read: MetaReader)
      ensures this.fc == fc && this.fileSpec == fileSpec
      ensures this.archive == archive && this.read == read
      ensures baseName == SplitExt(Basename(fileSpec)).0
    {
      this.fc := fc;
      this.fileSpec := fileSpec;
      this.archive := archive;
      this.read := read;
      baseName := SplitExt(Basename(fileSpec)).0;
    }

    /** `uploadImages(segIndex)`: every series of every subject bucket, in
        dictionary order, is packed and deposited; a subject with an
        unreadable header contributes nothing, a series that fails is
        skipped, and without a project nothing is uploaded. */
    method UploadImages(segIndex: int)
      modifies fc.project
      ensures fc.project == old(fc.project)
      ensures old(fc.project) != null ==>
        fc.project.subjects == Execute(old(fc.project.subjects), Plan(archive, read, segIndex), fc.project.refuses).0
    {
      var acqList := ScanArchive(archive);
      ScanKeys(archive);
      var p := fc.project;
      ghost var t0 := if p != null then p.subjects else [];
      for i := 0 to |acqList.keys|
        invariant fc.project == p
        invariant p != null ==> p.subjects == Execute(t0, PlanOver(acqList, acqList.keys[..i], read, segIndex), p.refuses).0
      {
        PlanOverStep(acqList, acqList.keys, i, read, segIndex);
        if p != null {
          ExecuteTreeConcat(t0, PlanOver(acqList, acqList.keys[..i], read, segIndex),
            BucketJobs(acqList, acqList.keys[i], read, segIndex), p.refuses);
        }
        UploadBucket(p, acqList, acqList.keys[i], segIndex);
      }
      assert acqList.keys[..|acqList.keys|] == acqList.keys;
    }

    /** One subject bucket of the scan. */
    method UploadBucket(p: RemoteProject?, acqList: Groups<string, string>, subject: string, segIndex: int)
      requires subject in acqList.members
      modifies p
      ensures p != null ==>
        p.subjects == Execute(old(p.subjects), BucketJobs(acqList, subject, read, segIndex), p.refuses).0
    {
      UploadSubject(p, acqList.members[subject], segIndex);
    }

    /** The body of the subject loop: read the headers, then deposit every
        series; one unreadable header abandons the subject. */
    method UploadSubject(p: RemoteProject?, fileList: seq<string>, segIndex: int)
      modifies p
      ensures p != null ==>
        p.subjects == Execute(old(p.subjects), SubjectJobs(fileList, read, segIndex), p.refuses).0
    {
      var table := GroupSeries(fileList, read);
      if table.None? {
        return;
      }
      TabulateReady(fileList, read);
      UploadTable(p, table.value, segIndex);
    }
  }
}
