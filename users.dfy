/**
  Per-annotator sessions (user.py): the `User` object, its transitions, and the files
  under `annotators/<token>/` it persists to: the pickled session record and the two
  append-only journals.
  */
module Users {
  import opened Common

  /** Number of completed or reported opinions after which an annotator may take second passes. */
  const NUM_ANNOTATIONS_BEFORE_SHARED: nat := 8

  /** Everything `pickle.dump(self, ...)` writes: the session's fields. */
  datatype Snapshot = Snapshot(
    token: string,
    currentAnnotation: Option<OpinionId>,
    doneAnnotations: seq<Option<OpinionId>>,
    numSharedBatches: int,
    startAnnotationTime: Option<real>,
    lastUsedLlm: Option<string>)

  /** The content of `user.pkl`: a record `pickle.load` can read, or one it cannot. */
  datatype Pickle = Intact(user: Snapshot) | Corrupt

  /** Which of an annotator's two journals a record goes to. */
  datatype Journal = Annotations | Reports

  /** The session a freshly registered annotator starts with. */
  function Initial(token: string): (s: Snapshot)
    ensures s.token == token && s.currentAnnotation == None && s.doneAnnotations == []
    ensures s.startAnnotationTime == None && s.lastUsedLlm == None
  {
    Snapshot(token, None, [], 0, None, None)
  }

  /** `load_user`: the record stored for `token`, or `ValueError` when it is missing or unreadable. */
  function Load(pickles: map<string, Pickle>, token: string): (r: Result<Snapshot>)
    ensures r.Ok? <==> token in pickles && pickles[token].Intact?
    ensures r.Ok? ==> r.value == pickles[token].user
    ensures r.Err? ==> r.error == ValueError
  {
    if token in pickles && pickles[token].Intact? then Ok(pickles[token].user) else Err(ValueError)
  }

  /** Saving a session and loading it back under its token yields the same session. */
  lemma LoadAfterSave(pickles: map<string, Pickle>, s: Snapshot)
    ensures Load(pickles[s.token := Intact(s)], s.token) == Ok(s)
  {
  }

  /** Saving one annotator's session does not change what loads for any other token. */
  lemma SaveIsolated(pickles: map<string, Pickle>, s: Snapshot, other: string)
    requires other != s.token
    ensures Load(pickles[s.token := Intact(s)], other) == Load(pickles, other)
  {
  }

  /** A journal file after `write_jsonl`: its old lines (none if it did not exist) and one more. */
  function Append(files: map<string, seq<Line>>, token: string, rec: Record): (r: map<string, seq<Line>>)
    ensures r.Keys == files.Keys + {token}
    ensures |r[token]| == (if token in files then |files[token]| else 0) + 1
    ensures token in files ==> r[token][..|files[token]|] == files[token]
    ensures r[token][|r[token]| - 1] == Entry(rec)
    ensures forall t :: t in files && t != token ==> r[t] == files[t]
  {
    var old_lines := if token in files then files[token] else [];
    files[token := old_lines + [Entry(rec)]]
  }

  /** The `annotators/` directory: token directories, session records and journals. */
  class Disk {
    var dirs: set<string>
    var pickles: map<string, Pickle>
    var annotations: map<string, seq<Line>>
    var reports: map<string, seq<Line>>
  }

  /** One annotator's session, identified by the token the company hands out. */
  class User {
    var token: string
    var currentAnnotation: Option<OpinionId>
    var doneAnnotations: seq<Option<OpinionId>>
    var numSharedBatches: int
    var startAnnotationTime: Option<real>
    var lastUsedLlm: Option<string>

    /** The fields as pickled. */
    function State(): Snapshot
      reads this
    {
      Snapshot(token, currentAnnotation, doneAnnotations, numSharedBatches, startAnnotationTime, lastUsedLlm)
    }

    /** `__init__` followed by `create_user`: makes the token's directory and empty journals, saves the fresh session. */
    constructor Create(token: string, disk: Disk)
      requires token !in disk.dirs
      modifies disk
      ensures State() == Initial(token)
      ensures disk.dirs == old(disk.dirs) + {token}
      ensures disk.annotations == old(disk.annotations)[token := []]
      ensures disk.reports == old(disk.reports)[token := []]
      ensures disk.pickles == old(disk.pickles)[token := Intact(Initial(token))]
    {
      this.token := token;
      currentAnnotation := None;
      doneAnnotations := [];
      numSharedBatches := 0;
      startAnnotationTime := None;
      lastUsedLlm := None;
      new;
      disk.dirs := disk.dirs + {token};
      disk.annotations := disk.annotations[token := []];
      disk.reports := disk.reports[token := []];
      SaveUser(disk);
    }

    /** The object `pickle.load` rebuilds from a stored record. */
    constructor FromSnapshot(s: Snapshot)
      ensures State() == s
    {
      token := s.token;
      currentAnnotation := s.currentAnnotation;
      doneAnnotations := s.doneAnnotations;
      numSharedBatches := s.numSharedBatches;
      startAnnotationTime := s.startAnnotationTime;
      lastUsedLlm := s.lastUsedLlm;
    }

    function NumAnnotatedBatch(): nat
      reads this
    {
      |doneAnnotations|
    }

    /** Eligibility for second-pass opinions: strictly more than eight done items. */
    predicate CanBeSecondAnnotator()
      reads this
    {
      NumAnnotatedBatch() > NUM_ANNOTATIONS_BEFORE_SHARED
    }

    /** `save_user`: replaces this token's record by the current fields, touching nothing else. */
    method SaveUser(disk: Disk)
      modifies disk`pickles
      ensures disk.pickles == old(disk.pickles)[token := Intact(State())]
      ensures Load(disk.pickles, token) == Ok(State())
    {
      disk.pickles := disk.pickles[token := Intact(State())];
    }

    /** `write_jsonl`: the journal gains exactly one line, the record, after all its old lines. */
    method WriteJsonl(rec: Record, journal: Journal, disk: Disk)
      modifies disk`annotations, disk`reports
      ensures journal == Annotations ==>
        disk.annotations == Append(old(disk.annotations), token, rec) && disk.reports == old(disk.reports)
      ensures journal == Reports ==>
        disk.reports == Append(old(disk.reports), token, rec) && disk.annotations == old(disk.annotations)
    {
      if journal == Annotations {
        var lines := if token in disk.annotations then disk.annotations[token] else [];
        lines := lines + [Entry(rec)];
        disk.annotations := disk.annotations[token := lines];
      } else {
        var lines := if token in disk.reports then disk.reports[token] else [];
        lines := lines + [Entry(rec)];
        disk.reports := disk.reports[token := lines];
      }
    }

    /** `new_opinion`: the opinion becomes the current one and its clock starts; the done list is untouched. */
    method NewOpinion(opinion: Opinion, now: real, disk: Disk)
      modifies this, disk`pickles
      ensures currentAnnotation == Some(opinion.opinionId)
      ensures startAnnotationTime == Some(now)
      ensures token == old(token) && doneAnnotations == old(doneAnnotations)
      ensures numSharedBatches == old(numSharedBatches) && lastUsedLlm == old(lastUsedLlm)
      ensures disk.pickles == old(disk.pickles)[token := Intact(State())]
    {
      currentAnnotation := Some(opinion.opinionId);
      startAnnotationTime := Some(now);
      SaveUser(disk);
    }

    /** `save_last_llm`: only the last used model changes. */
    method SaveLastLlm(model: string, disk: Disk)
      modifies this, disk`pickles
      ensures State() == old(State()).(lastUsedLlm := Some(model))
      ensures disk.pickles == old(disk.pickles)[token := Intact(State())]
    {
      lastUsedLlm := Some(model);
      SaveUser(disk);
    }

    /**
      `report_data`: one record appended to the reports journal; the current opinion
      (possibly none) moves to the end of the done list and nothing is current any more.
      */
    method ReportData(rec: Record, disk: Disk)
      modifies this, disk`annotations, disk`reports, disk`pickles
      ensures State() == old(State()).(currentAnnotation := None,
                                       doneAnnotations := old(doneAnnotations) + [old(currentAnnotation)])
      ensures disk.reports == Append(old(disk.reports), token, rec)
      ensures disk.annotations == old(disk.annotations)
      ensures disk.pickles == old(disk.pickles)[token := Intact(State())]
      ensures NumAnnotatedBatch() == old(NumAnnotatedBatch()) + 1
      ensures old(CanBeSecondAnnotator()) ==> CanBeSecondAnnotator()
    {
      WriteJsonl(rec, Reports, disk);
      doneAnnotations := doneAnnotations + [currentAnnotation];
      currentAnnotation := None;
      SaveUser(disk);
    }

    /**
      `save_annotation`: as `report_data`, but into the annotations journal and with the
      elapsed `time` and the `date` added to the record. Without a start time the
      subtraction fails before anything is written.
      */
    method SaveAnnotation(rec: Record, now: real, date: string, disk: Disk) returns (r: Result<Record>)
      modifies this, disk`annotations, disk`reports, disk`pickles
      ensures old(startAnnotationTime).None? ==> r == Err(TypeError) && State() == old(State())
      ensures old(startAnnotationTime).None? ==>
        disk.annotations == old(disk.annotations) && disk.pickles == old(disk.pickles)
      ensures old(startAnnotationTime).Some? ==>
        && r == Ok(rec.(fields := rec.fields["time" := Num(now - old(startAnnotationTime).value)]
                                            ["date" := Str(date)]))
        && State() == old(State()).(currentAnnotation := None,
                                    doneAnnotations := old(doneAnnotations) + [old(currentAnnotation)])
        && disk.annotations == Append(old(disk.annotations), token, r.value)
        && disk.pickles == old(disk.pickles)[token := Intact(State())]
        && NumAnnotatedBatch() == old(NumAnnotatedBatch()) + 1
        && (old(CanBeSecondAnnotator()) ==> CanBeSecondAnnotator())
      ensures disk.reports == old(disk.reports)
    {
      if startAnnotationTime.None? {
        return Err(TypeError);
      }
      var stamped := rec.(fields := rec.fields["time" := Num(now - startAnnotationTime.value)]["date" := Str(date)]);
      WriteJsonl(stamped, Annotations, disk);
      doneAnnotations := doneAnnotations + [currentAnnotation];
      currentAnnotation := None;
      SaveUser(disk);
      r := Ok(stamped);
    }
  }

  /**
    `User(token)`: on a token whose directory already exists `__init__` returns a value,
    which Python rejects with a `TypeError`; otherwise the session is created.
    */
  method Register(token: string, disk: Disk) returns (r: Result<User>)
    modifies disk
    ensures token in old(disk.dirs) ==> r == Err(TypeError) && unchanged(disk)
    ensures token !in old(disk.dirs) ==>
      && r.Ok? && fresh(r.value) && r.value.State() == Initial(token)
      && disk.dirs == old(disk.dirs) + {token}
      && disk.pickles == old(disk.pickles)[token := Intact(Initial(token))]
      && Load(disk.pickles, token) == Ok(Initial(token))
      && disk.annotations == old(disk.annotations)[token := []]
      && disk.reports == old(disk.reports)[token := []]
  {
    if token in disk.dirs {
      return Err(TypeError);
    }
    var u := new User.Create(token, disk);
    r := Ok(u);
  }

  /** `load_user`: a fresh object equal to the stored session, or `ValueError`. */
  method LoadUser(token: string, disk: Disk) returns (r: Result<User>)
    ensures Load(disk.pickles, token).Err? ==> r == Err(ValueError)
    ensures Load(disk.pickles, token).Ok? ==>
      r.Ok? && fresh(r.value) && r.value.State() == Load(disk.pickles, token).value
  {
    var loaded := Load(disk.pickles, token);
    if loaded.Err? {
      return Err(ValueError);
    }
    var u := new User.FromSnapshot(loaded.value);
    r := Ok(u);
  }
}
