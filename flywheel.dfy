/** An in-memory stand-in for the Flywheel data store the uploader talks to:
    a project holds subjects, a subject sessions, a session acquisitions and
    an acquisition files. Only the operations the uploader and the connector
    call are modelled: `find_first("label=...")`, `add_subject`,
    `add_session`, `add_acquisition`, `upload_file` and iteration.
    Network failures are decided by an oracle on the call being made. */
module Flywheel {
  import opened Wrappers

  /** A file attached to an acquisition: its name, the names of the entries
      of the uploaded archive, and the metadata it was uploaded with. */
  datatype RemoteFile = RemoteFile(name: string, entries: seq<string>, info: map<string, string>)

  /** Containers carry their Flywheel label as `name`. */
  datatype Acquisition = Acquisition(name: string, files: seq<RemoteFile>)

  datatype Session = Session(name: string, acquisitions: seq<Acquisition>)

  datatype Subject = Subject(name: string, sessions: seq<Session>)

  /** A request to the remote store, named by the labels along its path. */
  datatype Call =
    | FindSubject(subject: string)
    | AddSubject(subject: string)
    | FindSession(subject: string, session: string)
    | AddSession(subject: string, session: string)
    | FindAcquisition(subject: string, session: string, acquisition: string)
    | AddAcquisition(subject: string, session: string, acquisition: string)
    | UploadFile(subject: string, session: string, acquisition: string, file: string)

  /** The labels of a list of sibling containers, in order. */
  function Labels<C>(cs: seq<C>, nameOf: C -> string): (r: seq<string>)
    ensures |r| == |cs| && forall i :: 0 <= i < |cs| ==> r[i] == nameOf(cs[i])
  {
    seq(|cs|, i requires 0 <= i < |cs| => nameOf(cs[i]))
  }

  function SubjectLabels(t: seq<Subject>): seq<string> {
    Labels(t, (s: Subject) => s.name)
  }

  function SessionLabels(ss: seq<Session>): seq<string> {
    Labels(ss, (s: Session) => s.name)
  }

  function AcquisitionLabels(acqs: seq<Acquisition>): seq<string> {
    Labels(acqs, (a: Acquisition) => a.name)
  }

  /** `find_first("label=l")` among containers with these labels: the first
      one carrying exactly `l`, or None. */
  function FindFirst(labels: seq<string>, l: string): (r: Option<nat>)
    ensures r.Some? ==> r.value < |labels| && labels[r.value] == l
    ensures r.Some? ==> forall j :: 0 <= j < r.value ==> labels[j] != l
    ensures r.None? ==> forall j :: 0 <= j < |labels| ==> labels[j] != l
  {
    if labels == [] then None
    else if labels[0] == l then Some(0)
    else
      match FindFirst(labels[1..], l)
      case None => None
      case Some(i) => Some(i + 1)
  }

  /** A label that was missing, once appended, is found at the end. */
  lemma {:induction false} FindFirstAppended(labels: seq<string>, l: string)
    requires forall j :: 0 <= j < |labels| ==> labels[j] != l
    ensures FindFirst(labels + [l], l) == Some(|labels|)
    decreases |labels|
  {
    if labels != [] {
      assert (labels + [l])[1..] == labels[1..] + [l];
      FindFirstAppended(labels[1..], l);
    }
  }

  ghost predicate Distinct(labels: seq<string>) {
    forall i, j :: 0 <= i < j < |labels| ==> labels[i] != labels[j]
  }

  /** No two siblings anywhere in the tree share a label. */
  ghost predicate UniqueLabels(t: seq<Subject>) {
    && Distinct(SubjectLabels(t))
    && (forall i :: 0 <= i < |t| ==> Distinct(SessionLabels(t[i].sessions)))
    && (forall i, j :: 0 <= i < |t| && 0 <= j < |t[i].sessions| ==>
          Distinct(AcquisitionLabels(t[i].sessions[j].acquisitions)))
  }

  /** The two trees have the same containers with the same labels in the
      same places; only attached files may differ. */
  ghost predicate SameContainers(t: seq<Subject>, u: seq<Subject>) {
    && SubjectLabels(t) == SubjectLabels(u)
    && (forall i :: 0 <= i < |t| ==> SessionLabels(t[i].sessions) == SessionLabels(u[i].sessions))
    && (forall i, j :: 0 <= i < |t| && 0 <= j < |t[i].sessions| ==>
          AcquisitionLabels(t[i].sessions[j].acquisitions) == AcquisitionLabels(u[i].sessions[j].acquisitions))
  }

  /** A resolved position in the tree: subject, session and acquisition index. */
  datatype Handle = Handle(subject: nat, session: nat, acquisition: nat)

  ghost predicate ValidHandle(t: seq<Subject>, h: Handle) {
    && h.subject < |t|
    && h.session < |t[h.subject].sessions|
    && h.acquisition < |t[h.subject].sessions[h.session].acquisitions|
  }

  /** `h` is where `find_first` at each level leads: a valid handle whose
      containers carry the three labels, each the first among its siblings
      to carry its label. */
  ghost predicate FirstPath(t: seq<Subject>, h: Handle, subject: string, session: string, acquisition: string) {
    && ValidHandle(t, h)
    && t[h.subject].name == subject
    && t[h.subject].sessions[h.session].name == session
    && t[h.subject].sessions[h.session].acquisitions[h.acquisition].name == acquisition
    && (forall j :: 0 <= j < h.subject ==> t[j].name != subject)
    && (forall j :: 0 <= j < h.session ==> t[h.subject].sessions[j].name != session)
    && (forall j :: 0 <= j < h.acquisition ==> t[h.subject].sessions[h.session].acquisitions[j].name != acquisition)
  }

  /** Where a chain of `find_first` lookups for these three labels ends:
      the first-match path, and None exactly when there is none, that is,
      when one of the three lookups finds nothing. */
  function Locate(t: seq<Subject>, subject: string, session: string, acquisition: string): (r: Option<Handle>)
    ensures r.Some? ==> FirstPath(t, r.value, subject, session, acquisition)
    ensures r.None? ==> forall h :: !FirstPath(t, h, subject, session, acquisition)
  {
    match FindFirst(SubjectLabels(t), subject)
    case None => None
    case Some(i) =>
      match FindFirst(SessionLabels(t[i].sessions), session)
      case None => None
      case Some(j) =>
        match FindFirst(AcquisitionLabels(t[i].sessions[j].acquisitions), acquisition)
        case None => None
        case Some(k) => Some(Handle(i, j, k))
  }

  /** Lookups depend on labels only, so trees with the same containers
      resolve every label path alike. */
  lemma LocateSameContainers(t: seq<Subject>, u: seq<Subject>, subject: string, session: string, acquisition: string)
    requires SameContainers(t, u)
    ensures Locate(t, subject, session, acquisition) == Locate(u, subject, session, acquisition)
  {
    var i := FindFirst(SubjectLabels(t), subject);
    if i.Some? {
      assert SessionLabels(t[i.value].sessions) == SessionLabels(u[i.value].sessions);
      var j := FindFirst(SessionLabels(t[i.value].sessions), session);
      if j.Some? {
        assert |t[i.value].sessions| == |u[i.value].sessions|;
        assert AcquisitionLabels(t[i.value].sessions[j.value].acquisitions)
            == AcquisitionLabels(u[i.value].sessions[j.value].acquisitions);
      }
    }
  }

  // Tree updates performed by the store's operations.

  function WithSession(t: seq<Subject>, si: nat, l: string): (r: seq<Subject>)
    requires si < |t|
  {
    t[si := t[si].(sessions := t[si].sessions + [Session(l, [])])]
  }

  function WithAcquisition(t: seq<Subject>, si: nat, ssi: nat, l: string): (r: seq<Subject>)
    requires si < |t| && ssi < |t[si].sessions|
  {
    var s := t[si].sessions[ssi];
    t[si := t[si].(sessions := t[si].sessions[ssi := s.(acquisitions := s.acquisitions + [Acquisition(l, [])])])]
  }

  function WithFile(t: seq<Subject>, h: Handle, f: RemoteFile): (r: seq<Subject>)
    requires ValidHandle(t, h)
  {
    var subj := t[h.subject];
    var sess := subj.sessions[h.session];
    var acq := sess.acquisitions[h.acquisition];
    var acq' := acq.(files := acq.files + [f]);
    var sess' := sess.(acquisitions := sess.acquisitions[h.acquisition := acq']);
    t[h.subject := subj.(sessions := subj.sessions[h.session := sess'])]
  }

  /** The lists `f(x)` of the elements `x` of `xs`, concatenated in order. */
  function FlatMap<T, U>(xs: seq<T>, f: T -> seq<U>): seq<U> {
    if xs == [] then [] else FlatMap(xs[..|xs| - 1], f) + f(xs[|xs| - 1])
  }

  lemma {:induction false} FlatMapConcat<T, U>(a: seq<T>, b: seq<T>, f: T -> seq<U>)
    ensures FlatMap(a + b, f) == FlatMap(a, f) + FlatMap(b, f)
    decreases |b|
  {
    if b == [] {
      assert a + b == a;
    } else {
      var b' := b[..|b| - 1];
      assert (a + b)[..|a + b| - 1] == a + b';
      FlatMapConcat(a, b', f);
    }
  }

  /** One more element contributes its list at the end. */
  lemma FlatMapSnoc<T, U>(xs: seq<T>, i: nat, f: T -> seq<U>)
    requires i < |xs|
    ensures FlatMap(xs[..i + 1], f) == FlatMap(xs[..i], f) + f(xs[i])
  {
    assert xs[..i + 1][..i] == xs[..i];
  }

  /** Replacing one element whose contribution grows by `extra` makes the
      whole grow by `extra` and nothing else. */
  lemma FlatMapUpdate<T, U>(xs: seq<T>, i: nat, x: T, f: T -> seq<U>, extra: multiset<U>)
    requires i < |xs|
    requires multiset(f(x)) == multiset(f(xs[i])) + extra
    ensures multiset(FlatMap(xs[i := x], f)) == multiset(FlatMap(xs, f)) + extra
  {
    assert xs == xs[..i] + [xs[i]] + xs[i + 1..];
    assert xs[i := x] == xs[..i] + [x] + xs[i + 1..];
    FlatMapConcat(xs[..i] + [xs[i]], xs[i + 1..], f);
    FlatMapConcat(xs[..i] + [x], xs[i + 1..], f);
    FlatMapConcat(xs[..i], [xs[i]], f);
    FlatMapConcat(xs[..i], [x], f);
    assert FlatMap([xs[i]], f) == f(xs[i]);
    assert FlatMap([x], f) == f(x);
  }

  /** Appending an element that contributes nothing changes nothing. */
  lemma FlatMapAppendEmpty<T, U>(xs: seq<T>, x: T, f: T -> seq<U>)
    requires f(x) == []
    ensures FlatMap(xs + [x], f) == FlatMap(xs, f)
  {
    assert (xs + [x])[..|xs|] == xs;
  }

  // Iteration order: `project.subjects.iter()`, `subject.sessions.iter()`,
  // `session.acquisitions.iter()`, `acquisition.files`.

  function FilesOfAcquisition(a: Acquisition): seq<RemoteFile> {
    a.files
  }

  function FilesOfSession(s: Session): seq<RemoteFile> {
    FlatMap(s.acquisitions, FilesOfAcquisition)
  }

  function FilesOfSubject(s: Subject): seq<RemoteFile> {
    FlatMap(s.sessions, FilesOfSession)
  }

  /** Every file of the project, in iteration order. */
  function AllFiles(t: seq<Subject>): seq<RemoteFile> {
    FlatMap(t, FilesOfSubject)
  }

  function SessionsOfSubject(s: Subject): seq<Session> {
    s.sessions
  }

  /** Every session of the project, in iteration order. */
  function AllSessions(t: seq<Subject>): seq<Session> {
    FlatMap(t, SessionsOfSubject)
  }

  // How the updates affect labels and files.

  lemma AddSubjectKeepsUnique(t: seq<Subject>, l: string)
    requires UniqueLabels(t)
    requires forall j :: 0 <= j < |t| ==> t[j].name != l
    ensures UniqueLabels(t + [Subject(l, [])])
  {
    var u := t + [Subject(l, [])];
    assert forall i :: 0 <= i < |t| ==> u[i] == t[i];
  }

  lemma WithSessionKeepsUnique(t: seq<Subject>, si: nat, l: string)
    requires UniqueLabels(t) && si < |t|
    requires forall j :: 0 <= j < |t[si].sessions| ==> t[si].sessions[j].name != l
    ensures UniqueLabels(WithSession(t, si, l))
  {
    var u := WithSession(t, si, l);
    assert SubjectLabels(u) == SubjectLabels(t);
    forall i, j | 0 <= i < |u| && 0 <= j < |u[i].sessions|
      ensures Distinct(AcquisitionLabels(u[i].sessions[j].acquisitions))
    {
      if i != si || j < |t[si].sessions| {
        assert u[i].sessions[j] == t[i].sessions[j];
      }
    }
  }

  lemma WithAcquisitionKeepsUnique(t: seq<Subject>, si: nat, ssi: nat, l: string)
    requires UniqueLabels(t) && si < |t| && ssi < |t[si].sessions|
    requires forall j :: 0 <= j < |t[si].sessions[ssi].acquisitions| ==>
               t[si].sessions[ssi].acquisitions[j].name != l
    ensures UniqueLabels(WithAcquisition(t, si, ssi, l))
  {
    var u := WithAcquisition(t, si, ssi, l);
    assert SubjectLabels(u) == SubjectLabels(t);
    forall i | 0 <= i < |u| ensures Distinct(SessionLabels(u[i].sessions)) {
      assert SessionLabels(u[i].sessions) == SessionLabels(t[i].sessions);
    }
    forall i, j | 0 <= i < |u| && 0 <= j < |u[i].sessions|
      ensures Distinct(AcquisitionLabels(u[i].sessions[j].acquisitions))
    {
      if i != si || j != ssi {
        assert u[i].sessions[j] == t[i].sessions[j];
      }
    }
  }

  /** Attaching a file creates and renames nothing. */
  lemma WithFileSameContainers(t: seq<Subject>, h: Handle, f: RemoteFile)
    requires ValidHandle(t, h)
    ensures SameContainers(t, WithFile(t, h, f))
  {
    var u := WithFile(t, h, f);
    assert SubjectLabels(u) == SubjectLabels(t);
    forall i | 0 <= i < |t| ensures SessionLabels(t[i].sessions) == SessionLabels(u[i].sessions) {
    }
    forall i, j | 0 <= i < |t| && 0 <= j < |t[i].sessions|
      ensures AcquisitionLabels(t[i].sessions[j].acquisitions) == AcquisitionLabels(u[i].sessions[j].acquisitions)
    {
    }
  }

  /** Attaching a file keeps sibling labels distinct. */
  lemma WithFileKeepsUnique(t: seq<Subject>, h: Handle, f: RemoteFile)
    requires ValidHandle(t, h) && UniqueLabels(t)
    ensures UniqueLabels(WithFile(t, h, f))
  {
    WithFileSameContainers(t, h, f);
    var u := WithFile(t, h, f);
    forall i, j | 0 <= i < |u| && 0 <= j < |u[i].sessions|
      ensures Distinct(AcquisitionLabels(u[i].sessions[j].acquisitions))
    {
      assert AcquisitionLabels(u[i].sessions[j].acquisitions) == AcquisitionLabels(t[i].sessions[j].acquisitions);
    }
  }

  /** Creating containers attaches no file. */
  lemma AddsKeepFiles(t: seq<Subject>, si: nat, ssi: nat, l: string)
    ensures AllFiles(t + [Subject(l, [])]) == AllFiles(t)
    ensures si < |t| ==> multiset(AllFiles(WithSession(t, si, l))) == multiset(AllFiles(t))
    ensures si < |t| && ssi < |t[si].sessions| ==>
      multiset(AllFiles(WithAcquisition(t, si, ssi, l))) == multiset(AllFiles(t))
  {
    FlatMapAppendEmpty(t, Subject(l, []), FilesOfSubject);
    if si < |t| {
      var ss := t[si].sessions;
      FlatMapAppendEmpty(ss, Session(l, []), FilesOfSession);
      FlatMapUpdate(t, si, t[si].(sessions := ss + [Session(l, [])]), FilesOfSubject, multiset{});
      if ssi < |ss| {
        var acqs := ss[ssi].acquisitions;
        FlatMapAppendEmpty(acqs, Acquisition(l, []), FilesOfAcquisition);
        var s' := ss[ssi].(acquisitions := acqs + [Acquisition(l, [])]);
        FlatMapUpdate(ss, ssi, s', FilesOfSession, multiset{});
        FlatMapUpdate(t, si, t[si].(sessions := ss[ssi := s']), FilesOfSubject, multiset{});
      }
    }
  }

  /** Attaching a file adds exactly that file to the project's files. */
  lemma WithFileAddsOne(t: seq<Subject>, h: Handle, f: RemoteFile)
    requires ValidHandle(t, h)
    ensures multiset(AllFiles(WithFile(t, h, f))) == multiset(AllFiles(t)) + multiset{f}
  {
    var subj := t[h.subject];
    var sess := subj.sessions[h.session];
    var acq := sess.acquisitions[h.acquisition];
    var acq' := acq.(files := acq.files + [f]);
    var sess' := sess.(acquisitions := sess.acquisitions[h.acquisition := acq']);
    FlatMapUpdate(sess.acquisitions, h.acquisition, acq', FilesOfAcquisition, multiset{f});
    FlatMapUpdate(subj.sessions, h.session, sess', FilesOfSession, multiset{f});
    FlatMapUpdate(t, h.subject, subj.(sessions := subj.sessions[h.session := sess']), FilesOfSubject, multiset{f});
  }

  /** The remote project: its label and id, its subject tree, and which
      requests the remote side refuses (the network or the server failing). */
  class RemoteProject {
    const name: string
    const id: string
    const refuses: Call -> bool
    var subjects: seq<Subject>

    constructor (name: string, id: string, subjects: seq<Subject>, refuses: Call -> bool)
      ensures this.name == name && this.id == id
      ensures this.subjects == subjects && this.refuses == refuses
    {
      this.name := name;
      this.id := id;
      this.subjects := subjects;
      this.refuses := refuses;
    }

    /** `project.subjects.find_first("label=l")` */
    method FindFirstSubject(l: string) returns (r: Result<Option<nat>, Call>)
      ensures refuses(FindSubject(l)) ==> r == Err(FindSubject(l))
      ensures !refuses(FindSubject(l)) ==> r == Ok(FindFirst(SubjectLabels(subjects), l))
    {
      if refuses(FindSubject(l)) {
        return Err(FindSubject(l));
      }
      r := Ok(FindFirst(SubjectLabels(subjects), l));
    }

    /** `project.add_subject(label=l)` */
    method AddSubjectNamed(l: string) returns (r: Result<nat, Call>)
      modifies this
      ensures refuses(AddSubject(l)) ==> r == Err(AddSubject(l)) && subjects == old(subjects)
      ensures !refuses(AddSubject(l)) ==>
        r == Ok(|old(subjects)|) && subjects == old(subjects) + [Subject(l, [])]
    {
      if refuses(AddSubject(l)) {
        return Err(AddSubject(l));
      }
      r := Ok(|subjects|);
      subjects := subjects + [Subject(l, [])];
    }

    /** `subject.sessions.find_first("label=l")` */
    method FindFirstSession(si: nat, l: string) returns (r: Result<Option<nat>, Call>)
      requires si < |subjects|
      ensures refuses(FindSession(subjects[si].name, l)) ==> r == Err(FindSession(subjects[si].name, l))
      ensures !refuses(FindSession(subjects[si].name, l)) ==>
        r == Ok(FindFirst(SessionLabels(subjects[si].sessions), l))
    {
      var c := FindSession(subjects[si].name, l);
      if refuses(c) {
        return Err(c);
      }
      r := Ok(FindFirst(SessionLabels(subjects[si].sessions), l));
    }

    /** `subject.add_session(label=l)` */
    method AddSessionNamed(si: nat, l: string) returns (r: Result<nat, Call>)
      requires si < |subjects|
      modifies this
      ensures var c := AddSession(old(subjects)[si].name, l);
        && (refuses(c) ==> r == Err(c) && subjects == old(subjects))
        && (!refuses(c) ==> r == Ok(|old(subjects)[si].sessions|) && subjects == WithSession(old(subjects), si, l))
    {
      var c := AddSession(subjects[si].name, l);
      if refuses(c) {
        return Err(c);
      }
      r := Ok(|subjects[si].sessions|);
      subjects := WithSession(subjects, si, l);
    }

    /** `session.acquisitions.find_first("label=l")` */
    method FindFirstAcquisition(si: nat, ssi: nat, l: string) returns (r: Result<Option<nat>, Call>)
      requires si < |subjects| && ssi < |subjects[si].sessions|
      ensures var c := FindAcquisition(subjects[si].name, subjects[si].sessions[ssi].name, l);
        && (refuses(c) ==> r == Err(c))
        && (!refuses(c) ==> r == Ok(FindFirst(AcquisitionLabels(subjects[si].sessions[ssi].acquisitions), l)))
    {
      var c := FindAcquisition(subjects[si].name, subjects[si].sessions[ssi].name, l);
      if refuses(c) {
        return Err(c);
      }
      r := Ok(FindFirst(AcquisitionLabels(subjects[si].sessions[ssi].acquisitions), l));
    }

    /** `session.add_acquisition(label=l)` */
    method AddAcquisitionNamed(si: nat, ssi: nat, l: string) returns (r: Result<nat, Call>)
      requires si < |subjects| && ssi < |subjects[si].sessions|
      modifies this
      ensures var c := AddAcquisition(old(subjects)[si].name, old(subjects)[si].sessions[ssi].name, l);
        && (refuses(c) ==> r == Err(c) && subjects == old(subjects))
        && (!refuses(c) ==> r == Ok(|old(subjects)[si].sessions[ssi].acquisitions|)
                            && subjects == WithAcquisition(old(subjects), si, ssi, l))
    {
      var c := AddAcquisition(subjects[si].name, subjects[si].sessions[ssi].name, l);
      if refuses(c) {
        return Err(c);
      }
      r := Ok(|subjects[si].sessions[ssi].acquisitions|);
      subjects := WithAcquisition(subjects, si, ssi, l);
    }

    /** `acquisition.upload_file(path, metadata=info)` */
    method UploadFileTo(h: Handle, f: RemoteFile) returns (r: Outcome<Call>)
      requires ValidHandle(subjects, h)
      modifies this
      ensures var sj := old(subjects)[h.subject];
        var c := UploadFile(sj.name, sj.sessions[h.session].name,
                            sj.sessions[h.session].acquisitions[h.acquisition].name, f.name);
        && (refuses(c) ==> r == Fail(c) && subjects == old(subjects))
        && (!refuses(c) ==> r == Pass && subjects == WithFile(old(subjects), h, f))
    {
      var sj := subjects[h.subject];
      var c := UploadFile(sj.name, sj.sessions[h.session].name,
                          sj.sessions[h.session].acquisitions[h.acquisition].name, f.name);
      if refuses(c) {
        return Fail(c);
      }
      r := Pass;
      subjects := WithFile(subjects, h, f);
    }
  }
}
