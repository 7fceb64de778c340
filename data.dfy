/**
  The opinion table (data.py): one row per opinion of the corpus with its annotation
  bookkeeping, the allocation rule `next_data`, the small row updates, the replay of
  the merged journals at start-up, and the merge itself.

  The table is selected by opinion id the way the source selects it: an update
  touches every row carrying the id (none if there is none), and a read takes the
  first such row, failing with `IndexError` when there is none.
  */
module Data {
  import opened Common
  import Users

  /** A table row: the opinion's own columns and the four bookkeeping columns. */
  datatype Row = Row(opinion: Opinion, finished: int, inProgress: bool, llm1: Option<string>, llm2: Option<string>)
  {
    function Id(): OpinionId { opinion.opinionId }
  }

  /** A slot for a model name that Python finds truthy: neither `None` nor the empty string. */
  predicate Filled(slot: Option<string>)
  {
    slot.Some? && slot.value != ""
  }

  /** No two rows share an opinion id. */
  predicate UniqueIds(rows: seq<Row>)
  {
    forall i, j :: 0 <= i < j < |rows| ==> rows[i].Id() != rows[j].Id()
  }

  /** Index of the first row carrying `id`, the row `.iloc[0]` of the selection reads. */
  function Lookup(rows: seq<Row>, id: OpinionId): (r: Option<nat>)
    ensures r.Some? ==> r.value < |rows| && rows[r.value].Id() == id
    ensures r.Some? ==> forall j :: 0 <= j < r.value ==> rows[j].Id() != id
    ensures r.None? <==> forall j :: 0 <= j < |rows| ==> rows[j].Id() != id
  {
    if rows == [] then None
    else if rows[0].Id() == id then Some(0)
    else match Lookup(rows[1..], id)
      case None => None
      case Some(k) => Some(k + 1)
  }

  // ---------------------------------------------------------------------------
  // Row updates, as functions of the table

  /** `.loc[opinionId == id, "is_being_annotated"] = b`. */
  function SetFlag(rows: seq<Row>, id: OpinionId, b: bool): seq<Row>
  {
    seq(|rows|, k requires 0 <= k < |rows| => if rows[k].Id() == id then rows[k].(inProgress := b) else rows[k])
  }

  /**
    One more finished annotation for `id`: the count goes up by one and `llm` goes into
    the first model slot if the first matching row has it empty, else into the second.
    */
  function Credit(rows: seq<Row>, id: OpinionId, llm: Option<string>): Result<seq<Row>>
  {
    match Lookup(rows, id)
    case None => Err(IndexError)
    case Some(k) =>
      var intoFirst := rows[k].llm1 == Some("");
      Ok(seq(|rows|, j requires 0 <= j < |rows| =>
        if rows[j].Id() != id then rows[j]
        else if intoFirst then rows[j].(finished := rows[j].finished + 1, llm1 := llm)
        else rows[j].(finished := rows[j].finished + 1, llm2 := llm)))
  }

  /** `add_finished_annotation`: release the row, then credit it. */
  function Finish(rows: seq<Row>, id: OpinionId, llm: Option<string>): Result<seq<Row>>
  {
    Credit(SetFlag(rows, id, false), id, llm)
  }

  /** Flags do not move rows: the first row with an id is where it was. */
  lemma LookupIgnoresFlags(rows: seq<Row>, id: OpinionId, other: OpinionId, b: bool)
    ensures Lookup(SetFlag(rows, other, b), id) == Lookup(rows, id)
  {
    var flagged := SetFlag(rows, other, b);
    assert forall k :: 0 <= k < |rows| ==> flagged[k].Id() == rows[k].Id();
  }

  /** Completion fails exactly when no row carries the id. */
  lemma FinishFailsOnlyOnUnknownId(rows: seq<Row>, id: OpinionId, llm: Option<string>)
    ensures Finish(rows, id, llm).Ok? <==> Lookup(rows, id).Some?
    ensures Finish(rows, id, llm).Err? ==> Finish(rows, id, llm).error == IndexError
  {
    LookupIgnoresFlags(rows, id, id, false);
  }

  /** A count forced to -1, the mark of a reported opinion. */
  function Revoke(rows: seq<Row>, id: OpinionId): seq<Row>
  {
    seq(|rows|, k requires 0 <= k < |rows| => if rows[k].Id() == id then rows[k].(finished := -1) else rows[k])
  }

  /** `add_reported_annotation`: release the row and mark it reported. */
  function Withdraw(rows: seq<Row>, id: OpinionId): seq<Row>
  {
    Revoke(SetFlag(rows, id, false), id)
  }

  /** Changing the flag of an id present exactly once changes that one row's flag and nothing else. */
  lemma SetFlagChangesOneRow(rows: seq<Row>, k: nat, b: bool)
    requires UniqueIds(rows) && k < |rows|
    ensures SetFlag(rows, rows[k].Id(), b) == rows[k := rows[k].(inProgress := b)]
  {
    var r := SetFlag(rows, rows[k].Id(), b);
    forall j | 0 <= j < |rows|
      ensures r[j] == rows[k := rows[k].(inProgress := b)][j]
    {
      if j != k {
        assert rows[j].Id() != rows[k].Id() by {
          if j < k { assert rows[j].Id() != rows[k].Id(); } else { assert rows[k].Id() != rows[j].Id(); }
        }
      }
    }
  }

  /**
    Completion has no guard: it moves a reported row from -1 to 0 and a row already at
    two annotations to three.
    */
  lemma FinishIsUnguarded(o: Opinion, llm: Option<string>)
    ensures Finish([Row(o, -1, false, Some(""), Some(""))], o.opinionId, llm)
         == Ok([Row(o, 0, false, llm, Some(""))])
    ensures Finish([Row(o, 2, true, Some("m1"), Some("m2"))], o.opinionId, llm)
         == Ok([Row(o, 3, false, Some("m1"), llm)])
  {
    var r1 := [Row(o, -1, false, Some(""), Some(""))];
    assert SetFlag(r1, o.opinionId, false) == r1;
    assert Lookup(r1, o.opinionId) == Some(0);
    var f1 := Credit(r1, o.opinionId, llm).value;
    assert |f1| == 1 && f1[0] == Row(o, 0, false, llm, Some(""));
    assert f1 == [Row(o, 0, false, llm, Some(""))];
    var r2 := [Row(o, 2, true, Some("m1"), Some("m2"))];
    var c2 := [Row(o, 2, false, Some("m1"), Some("m2"))];
    assert SetFlag(r2, o.opinionId, false) == c2;
    assert Lookup(c2, o.opinionId) == Some(0);
    var f2 := Credit(c2, o.opinionId, llm).value;
    assert |f2| == 1 && f2[0] == Row(o, 3, false, Some("m1"), llm);
    assert f2 == [Row(o, 3, false, Some("m1"), llm)];
  }

  // ---------------------------------------------------------------------------
  // The allocation rule

  /** `self.data[self.data["num_finished_annotations"] == c]`: the rows with that count, in table order. */
  function WithCount(rows: seq<Row>, c: int): (r: seq<Row>)
  {
    if rows == [] then []
    else (if rows[0].finished == c then [rows[0]] else []) + WithCount(rows[1..], c)
  }

  /** The scan of one pass: the first candidate not in progress and not already done by the annotator. */
  function FirstFree(cands: seq<Row>, done: seq<Option<OpinionId>>): Option<Row>
  {
    if cands == [] then None
    else if !cands[0].inProgress && Some(cands[0].Id()) !in done then Some(cands[0])
    else FirstFree(cands[1..], done)
  }

  /** `next_data`'s choice: the second-pass scan for an eligible annotator, else the first-pass scan. */
  function Choose(rows: seq<Row>, done: seq<Option<OpinionId>>, eligible: bool): Option<Row>
  {
    var second := if eligible then FirstFree(WithCount(rows, 1), done) else None;
    if second.Some? then second else FirstFree(WithCount(rows, 0), done)
  }

  /** One pass of one of `next_data`'s `while` loops over the candidates: the first free one, in order. */
  method ScanPass(cands: seq<Row>, done: seq<Option<OpinionId>>) returns (r: Option<Row>)
    ensures r == FirstFree(cands, done)
  {
    var i := 0;
    while i < |cands|
      invariant 0 <= i <= |cands|
      invariant FirstFree(cands[i..], done) == FirstFree(cands, done)
    {
      assert cands[i..][1..] == cands[i + 1..];
      if !cands[i].inProgress && Some(cands[i].Id()) !in done {
        return Some(cands[i]);
      }
      i := i + 1;
    }
    return None;
  }

  /** A row a pass with count `c` may hand out to an annotator whose done list is `done`. */
  predicate Available(row: Row, c: int, done: seq<Option<OpinionId>>)
  {
    row.finished == c && !row.inProgress && Some(row.Id()) !in done
  }

  /** Index, in the whole table, of the first row available for a pass with count `c`. */
  function Scan(rows: seq<Row>, c: int, done: seq<Option<OpinionId>>): (r: Option<nat>)
    ensures r.Some? ==> r.value < |rows| && Available(rows[r.value], c, done)
    ensures r.Some? ==> forall j :: 0 <= j < r.value ==> !Available(rows[j], c, done)
    ensures r.None? <==> forall j :: 0 <= j < |rows| ==> !Available(rows[j], c, done)
  {
    if rows == [] then None
    else if Available(rows[0], c, done) then Some(0)
    else match Scan(rows[1..], c, done)
      case None => None
      case Some(k) => Some(k + 1)
  }

  /** Scanning the rows with count `c` finds the first available row of the whole table. */
  lemma {:induction false} FirstFreeIsScan(rows: seq<Row>, c: int, done: seq<Option<OpinionId>>)
    ensures FirstFree(WithCount(rows, c), done)
         == match Scan(rows, c, done) case Some(k) => Some(rows[k]) case None => None
  {
    if rows != [] {
      FirstFreeIsScan(rows[1..], c, done);
      if rows[0].finished == c {
        assert WithCount(rows, c) == [rows[0]] + WithCount(rows[1..], c);
        assert (WithCount(rows, c))[1..] == WithCount(rows[1..], c);
      } else {
        assert WithCount(rows, c) == WithCount(rows[1..], c);
      }
    }
  }

  /**
    The choice in table order: for an eligible annotator the first available row with
    one annotation if there is one; otherwise the first available row with none.
    */
  lemma ChooseIsFirstMatch(rows: seq<Row>, done: seq<Option<OpinionId>>, eligible: bool)
    ensures Choose(rows, done, eligible)
         == if eligible && Scan(rows, 1, done).Some? then Some(rows[Scan(rows, 1, done).value])
            else if Scan(rows, 0, done).Some? then Some(rows[Scan(rows, 0, done).value])
            else None
  {
    FirstFreeIsScan(rows, 1, done);
    FirstFreeIsScan(rows, 0, done);
  }

  /**
    What is handed out is a row of the table with zero or one annotation, not in
    progress and not done by the annotator; a second-pass row goes only to an eligible
    annotator; and nothing is handed out exactly when no row qualifies.
    */
  lemma ChooseIsSafe(rows: seq<Row>, done: seq<Option<OpinionId>>, eligible: bool)
    ensures Choose(rows, done, eligible).Some? ==>
      var row := Choose(rows, done, eligible).value;
      && row in rows
      && (row.finished == 0 || row.finished == 1)
      && !row.inProgress && Some(row.Id()) !in done
      && (row.finished == 1 ==> eligible)
    ensures Choose(rows, done, eligible).None? <==>
      forall k :: 0 <= k < |rows| ==> !Available(rows[k], 0, done) && (eligible ==> !Available(rows[k], 1, done))
  {
    ChooseIsFirstMatch(rows, done, eligible);
  }

  /** A row marked in progress by an allocation is handed to nobody else while it stays so. */
  lemma NoDoubleAssignment(rows: seq<Row>, done: seq<Option<OpinionId>>, eligible: bool,
                           done': seq<Option<OpinionId>>, eligible': bool)
    requires Choose(rows, done, eligible).Some?
    ensures var id := Choose(rows, done, eligible).value.Id();
      var next := Choose(SetFlag(rows, id, true), done', eligible');
      next.Some? ==> next.value.Id() != id
  {
    var id := Choose(rows, done, eligible).value.Id();
    var marked := SetFlag(rows, id, true);
    ChooseIsSafe(marked, done', eligible');
    assert forall k :: 0 <= k < |marked| && marked[k].Id() == id ==> marked[k].inProgress;
  }

  /**
    An opinion reached through the allocation rule ends at one or two annotations when
    it is completed, so with unique ids no count passes two along that path.
    */
  lemma CompletionAfterChoiceAtMostTwo(rows: seq<Row>, done: seq<Option<OpinionId>>, eligible: bool, llm: Option<string>)
    requires UniqueIds(rows)
    requires Choose(rows, done, eligible).Some?
    ensures var row := Choose(rows, done, eligible).value;
      var after := Finish(SetFlag(rows, row.Id(), true), row.Id(), llm);
      && after.Ok?
      && forall k :: 0 <= k < |after.value| && after.value[k].Id() == row.Id() ==>
           after.value[k].finished == row.finished + 1 && 1 <= after.value[k].finished <= 2
  {
    ChooseIsSafe(rows, done, eligible);
    var row := Choose(rows, done, eligible).value;
    var i :| 0 <= i < |rows| && rows[i] == row;
    var marked := SetFlag(SetFlag(rows, row.Id(), true), row.Id(), false);
    assert marked[i].Id() == row.Id();
    var after := Finish(SetFlag(rows, row.Id(), true), row.Id(), llm);
    forall k | 0 <= k < |after.value| && after.value[k].Id() == row.Id()
      ensures after.value[k].finished == row.finished + 1
    {
      assert rows[k].Id() == rows[i].Id();
      assert k == i;
    }
  }

  // ---------------------------------------------------------------------------
  // Sequences of table operations, and the permanence of a report

  /** The table operations the request handlers perform. */
  datatype Op =
    | Next(done: seq<Option<OpinionId>>, eligible: bool)  // next_data
    | Mark(id: OpinionId)                                 // get_data_from_id, set_opinion_annotation
    | Release(id: OpinionId)                              // cancel_opinion_annotation
    | Reported(id: OpinionId)                             // add_reported_annotation
    | Complete(id: OpinionId, llm: Option<string>)        // add_finished_annotation

  /** The table after one operation; an operation that raises leaves it as it was. */
  function Apply(rows: seq<Row>, op: Op): seq<Row>
  {
    match op
    case Next(done, eligible) =>
      (match Choose(rows, done, eligible) case Some(row) => SetFlag(rows, row.Id(), true) case None => rows)
    case Mark(id) => SetFlag(rows, id, true)
    case Release(id) => SetFlag(rows, id, false)
    case Reported(id) => Withdraw(rows, id)
    case Complete(id, llm) => (match Finish(rows, id, llm) case Ok(r) => r case Err(_) => rows)
  }

  function Run(rows: seq<Row>, ops: seq<Op>): seq<Row>
    decreases |ops|
  {
    if ops == [] then rows else Run(Apply(rows, ops[0]), ops[1..])
  }

  /** Every row carrying `id` is marked reported. */
  predicate Withdrawn(rows: seq<Row>, id: OpinionId)
  {
    forall k :: 0 <= k < |rows| && rows[k].Id() == id ==> rows[k].finished == -1
  }

  /** No operation but a completion of `id` itself brings a reported opinion back. */
  lemma ApplyKeepsWithdrawn(rows: seq<Row>, op: Op, id: OpinionId)
    requires Withdrawn(rows, id)
    requires !(op.Complete? && op.id == id)
    ensures Withdrawn(Apply(rows, op), id)
  {
    if op.Complete? {
      var cleared := SetFlag(rows, op.id, false);
      if Lookup(cleared, op.id).Some? {
        var after := Finish(rows, op.id, op.llm).value;
        forall k | 0 <= k < |after| && after[k].Id() == id
          ensures after[k].finished == -1
        {
          assert after[k] == cleared[k];
        }
      }
    }
  }

  /** Reported opinions stay reported over any run of operations that does not complete them. */
  lemma {:induction false} WithdrawnIsPermanent(rows: seq<Row>, ops: seq<Op>, id: OpinionId)
    requires Withdrawn(rows, id)
    requires forall i :: 0 <= i < |ops| ==> !(ops[i].Complete? && ops[i].id == id)
    ensures Withdrawn(Run(rows, ops), id)
    decreases |ops|
  {
    if ops != [] {
      ApplyKeepsWithdrawn(rows, ops[0], id);
      WithdrawnIsPermanent(Apply(rows, ops[0]), ops[1..], id);
    }
  }

  /**
    After `add_reported_annotation(id)`, and any run of operations that does not complete
    `id`, the allocation rule never hands `id` out.
    */
  lemma ReportIsPermanent(rows: seq<Row>, id: OpinionId, ops: seq<Op>, done: seq<Option<OpinionId>>, eligible: bool)
    requires forall i :: 0 <= i < |ops| ==> !(ops[i].Complete? && ops[i].id == id)
    ensures var later := Run(Withdraw(rows, id), ops);
      Choose(later, done, eligible).Some? ==> Choose(later, done, eligible).value.Id() != id
  {
    WithdrawnIsPermanent(Withdraw(rows, id), ops, id);
    var later := Run(Withdraw(rows, id), ops);
    ChooseIsSafe(later, done, eligible);
    if Choose(later, done, eligible).Some? {
      var row := Choose(later, done, eligible).value;
      var k :| 0 <= k < |later| && later[k] == row;
    }
  }

  /** Every row carrying `id` is in progress. */
  predicate Held(rows: seq<Row>, id: OpinionId)
  {
    forall k :: 0 <= k < |rows| && rows[k].Id() == id ==> rows[k].inProgress
  }

  /** The operations that clear the in-progress flag of `id`: a release, a report or a completion of it. */
  predicate Frees(op: Op, id: OpinionId)
  {
    (op.Release? || op.Reported? || op.Complete?) && op.id == id
  }

  /** Only an operation that frees `id` clears the flag of its rows. */
  lemma ApplyKeepsHeld(rows: seq<Row>, op: Op, id: OpinionId)
    requires Held(rows, id)
    requires !Frees(op, id)
    ensures Held(Apply(rows, op), id)
  {
    if op.Complete? {
      var cleared := SetFlag(rows, op.id, false);
      if Lookup(cleared, op.id).Some? {
        var after := Finish(rows, op.id, op.llm).value;
        forall k | 0 <= k < |after| && after[k].Id() == id
          ensures after[k].inProgress
        {
          assert after[k] == cleared[k];
        }
      }
    }
  }

  /** An opinion in progress stays so over any run of operations that does not free it. */
  lemma {:induction false} HeldIsPermanent(rows: seq<Row>, ops: seq<Op>, id: OpinionId)
    requires Held(rows, id)
    requires forall i :: 0 <= i < |ops| ==> !Frees(ops[i], id)
    ensures Held(Run(rows, ops), id)
    decreases |ops|
  {
    if ops != [] {
      ApplyKeepsHeld(rows, ops[0], id);
      HeldIsPermanent(Apply(rows, ops[0]), ops[1..], id);
    }
  }

  /**
    An opinion handed out by `next_data` is handed to nobody else, by any later
    allocation, until a release, a report or a completion of it frees it.
    */
  lemma NoDoubleAssignmentRun(rows: seq<Row>, done: seq<Option<OpinionId>>, eligible: bool, ops: seq<Op>,
                              done': seq<Option<OpinionId>>, eligible': bool)
    requires Choose(rows, done, eligible).Some?
    requires forall i :: 0 <= i < |ops| ==> !Frees(ops[i], Choose(rows, done, eligible).value.Id())
    ensures var id := Choose(rows, done, eligible).value.Id();
      var later := Run(Apply(rows, Next(done, eligible)), ops);
      && Held(later, id)
      && (Choose(later, done', eligible').Some? ==> Choose(later, done', eligible').value.Id() != id)
  {
    var id := Choose(rows, done, eligible).value.Id();
    assert Held(Apply(rows, Next(done, eligible)), id);
    HeldIsPermanent(Apply(rows, Next(done, eligible)), ops, id);
    var later := Run(Apply(rows, Next(done, eligible)), ops);
    ChooseIsSafe(later, done', eligible');
    if Choose(later, done', eligible').Some? {
      var row := Choose(later, done', eligible').value;
      var k :| 0 <= k < |later| && later[k] == row;
    }
  }

  /** Releasing or marking a row changes no count and no model slot. */
  lemma FlagChangesNoCount(rows: seq<Row>, id: OpinionId, b: bool)
    ensures |SetFlag(rows, id, b)| == |rows|
    ensures forall k :: 0 <= k < |rows| ==>
      var r := SetFlag(rows, id, b)[k];
      r.opinion == rows[k].opinion && r.finished == rows[k].finished
      && r.llm1 == rows[k].llm1 && r.llm2 == rows[k].llm2
      && r.inProgress == (if rows[k].Id() == id then b else rows[k].inProgress)
  {
  }

  /** `release` then fetching the same id again leaves the count as it was and the row in progress. */
  lemma ReleaseThenFetch(rows: seq<Row>, id: OpinionId)
    ensures var after := SetFlag(SetFlag(rows, id, false), id, true);
      |after| == |rows|
      && forall k :: 0 <= k < |rows| ==>
           after[k].finished == rows[k].finished && (rows[k].Id() == id ==> after[k].inProgress)
  {
  }

  // ---------------------------------------------------------------------------
  // Start-up: the table as rebuilt from the corpus and the merged journals

  /** A row after `n` replayed annotations: each filled a model slot with the placeholder "a". */
  function Credited(o: Opinion, n: nat): Row
  {
    Row(o, n, false, if n >= 1 then Some("a") else Some(""), if n >= 2 then Some("a") else Some(""))
  }

  /** Number of annotation records about `id` in a journal. */
  function CountFor(lines: seq<Line>, id: OpinionId): nat
  {
    if lines == [] then 0
    else CountFor(lines[..|lines| - 1], id)
         + (if lines[|lines| - 1].Entry? && lines[|lines| - 1].rec.opinionId == id then 1 else 0)
  }

  /** Whether a journal holds a record about `id`. */
  predicate Mentions(lines: seq<Line>, id: OpinionId)
  {
    exists i :: 0 <= i < |lines| && lines[i].Entry? && lines[i].rec.opinionId == id
  }

  /** The row `load_data` builds for an opinion of the corpus. */
  function Loaded(o: Opinion, annotations: seq<Line>, reports: seq<Line>): Row
  {
    var row := Credited(o, CountFor(annotations, o.opinionId));
    if Mentions(reports, o.opinionId) then row.(finished := -1) else row
  }

  /** Whether some opinion of the corpus carries `id`. */
  predicate InCorpus(corpus: seq<Opinion>, id: OpinionId)
  {
    exists k :: 0 <= k < |corpus| && corpus[k].opinionId == id
  }

  /** A journal prefix one line longer counts the new line when it is a record about `id`. */
  lemma CountForStep(lines: seq<Line>, i: nat, id: OpinionId)
    requires i < |lines|
    ensures CountFor(lines[..i + 1], id)
            == CountFor(lines[..i], id) + (if lines[i].Entry? && lines[i].rec.opinionId == id then 1 else 0)
  {
    assert lines[..i + 1][..i] == lines[..i];
  }

  /**
    Replaying record `i` of a journal on the rows built from the records before it: it
    fails exactly when its opinion is not in the corpus, and otherwise every row is
    the one built from the records up to and including it.
    */
  lemma CreditStep(corpus: seq<Opinion>, rows: seq<Row>, lines: seq<Line>, i: nat)
    requires i < |lines| && lines[i].Entry?
    requires |rows| == |corpus|
    requires forall k :: 0 <= k < |rows| ==> rows[k] == Credited(corpus[k], CountFor(lines[..i], corpus[k].opinionId))
    ensures Credit(rows, lines[i].rec.opinionId, Some("a")).Ok? <==> InCorpus(corpus, lines[i].rec.opinionId)
    ensures Credit(rows, lines[i].rec.opinionId, Some("a")).Ok? ==>
      var after := Credit(rows, lines[i].rec.opinionId, Some("a")).value;
      |after| == |rows|
      && forall k :: 0 <= k < |rows| ==> after[k] == Credited(corpus[k], CountFor(lines[..i + 1], corpus[k].opinionId))
  {
    assert forall k :: 0 <= k < |rows| ==> rows[k].Id() == corpus[k].opinionId;
    forall k | 0 <= k < |rows| {
      CountForStep(lines, i, corpus[k].opinionId);
    }
  }

  /** A journal prefix one line longer mentions `id` when the shorter one did or the new line does. */
  lemma MentionsStep(lines: seq<Line>, j: nat, id: OpinionId)
    requires j < |lines|
    ensures Mentions(lines[..j + 1], id)
            <==> Mentions(lines[..j], id) || (lines[j].Entry? && lines[j].rec.opinionId == id)
  {
    var longer := lines[..j + 1];
    assert forall m :: 0 <= m < j ==> longer[m] == lines[..j][m];
    assert longer[j] == lines[j];
  }

  /**
    `load_data`'s replay loops: each annotation record credits its opinion (an opinion
    missing from the corpus makes `.iloc[0]` fail), then each report marks its opinion
    -1; blank and unreadable lines are skipped.
    */
  method LoadData(corpus: seq<Opinion>, annotations: seq<Line>, reports: seq<Line>) returns (r: Result<seq<Row>>)
    ensures r.Err? <==> exists i :: 0 <= i < |annotations| && annotations[i].Entry?
                                    && !InCorpus(corpus, annotations[i].rec.opinionId)
    ensures r.Err? ==> r.error == IndexError
    ensures r.Ok? ==> |r.value| == |corpus|
    ensures r.Ok? ==> forall k :: 0 <= k < |corpus| ==> r.value[k] == Loaded(corpus[k], annotations, reports)
  {
    var credited := ReplayAnnotations(corpus, annotations);
    if credited.Err? {
      return Err(credited.error);
    }
    var rows := ReplayReports(credited.value, reports);
    r := Ok(rows);
  }

  /** The first replay loop: each annotation record credits every row of its opinion. */
  method ReplayAnnotations(corpus: seq<Opinion>, annotations: seq<Line>) returns (r: Result<seq<Row>>)
    ensures r.Err? <==> exists i :: 0 <= i < |annotations| && annotations[i].Entry?
                                    && !InCorpus(corpus, annotations[i].rec.opinionId)
    ensures r.Err? ==> r.error == IndexError
    ensures r.Ok? ==> |r.value| == |corpus| && forall k :: 0 <= k < |corpus| ==>
      r.value[k] == Credited(corpus[k], CountFor(annotations, corpus[k].opinionId))
  {
    var rows := seq(|corpus|, k requires 0 <= k < |corpus| => Credited(corpus[k], 0));
    var i := 0;
    while i < |annotations|
      invariant 0 <= i <= |annotations|
      invariant |rows| == |corpus|
      invariant forall k :: 0 <= k < |corpus| ==> rows[k] == Credited(corpus[k], CountFor(annotations[..i], corpus[k].opinionId))
      invariant forall j :: 0 <= j < i && annotations[j].Entry? ==> InCorpus(corpus, annotations[j].rec.opinionId)
    {
      var line := annotations[i];
      if line.Entry? {
        CreditStep(corpus, rows, annotations, i);
        var credited := Credit(rows, line.rec.opinionId, Some("a"));
        if credited.Err? {
          return Err(IndexError);
        }
        rows := credited.value;
      } else {
        forall k | 0 <= k < |corpus| {
          CountForStep(annotations, i, corpus[k].opinionId);
        }
      }
      i := i + 1;
    }
    assert annotations[..i] == annotations;
    r := Ok(rows);
  }

  /** The second replay loop: each report marks every row of its opinion -1, whatever its count. */
  method ReplayReports(rows: seq<Row>, reports: seq<Line>) returns (out: seq<Row>)
    ensures |out| == |rows|
    ensures forall k :: 0 <= k < |rows| ==>
      out[k] == if Mentions(reports, rows[k].Id()) then rows[k].(finished := -1) else rows[k]
  {
    out := rows;
    var j := 0;
    while j < |reports|
      invariant 0 <= j <= |reports|
      invariant |out| == |rows|
      invariant forall k :: 0 <= k < |rows| ==>
        out[k] == if Mentions(reports[..j], rows[k].Id()) then rows[k].(finished := -1) else rows[k]
    {
      var line := reports[j];
      forall k | 0 <= k < |rows| {
        MentionsStep(reports, j, rows[k].Id());
      }
      if line.Entry? {
        out := Revoke(out, line.rec.opinionId);
      }
      j := j + 1;
    }
    assert reports[..j] == reports;
  }

  // ---------------------------------------------------------------------------
  // collect_all_annotations: merging the per-annotator journals

  /** A record tagged with the annotator whose journal it came from. */
  function Tag(rec: Record, annotator: string): Record
  {
    rec.(fields := rec.fields["annotator" := Str(annotator)])
  }

  /** The records of one journal, blank and unreadable lines dropped, each tagged. */
  function Tagged(lines: seq<Line>, annotator: string): (r: seq<Line>)
  {
    if lines == [] then []
    else (if lines[0].Entry? then [Entry(Tag(lines[0].rec, annotator))] else []) + Tagged(lines[1..], annotator)
  }

  /**
    One merged file: the journals of the directory entries in listing order; an entry
    with no journal (not a directory, or no such file) contributes nothing.
    */
  function Merge(listing: seq<string>, journals: map<string, seq<Line>>): seq<Line>
  {
    if listing == [] then []
    else (if listing[0] in journals then Tagged(journals[listing[0]], listing[0]) else [])
         + Merge(listing[1..], journals)
  }

  /** Tagging keeps exactly the records of a journal, one line per record, each with its annotator. */
  lemma {:induction false} TaggedSpec(lines: seq<Line>, annotator: string)
    ensures forall j :: 0 <= j < |Tagged(lines, annotator)| ==>
      && Tagged(lines, annotator)[j].Entry?
      && "annotator" in Tagged(lines, annotator)[j].rec.fields
      && Tagged(lines, annotator)[j].rec.fields["annotator"] == Str(annotator)
    ensures forall i :: 0 <= i < |lines| && lines[i].Entry? ==> Entry(Tag(lines[i].rec, annotator)) in Tagged(lines, annotator)
    ensures forall j :: 0 <= j < |Tagged(lines, annotator)| ==>
      exists i :: 0 <= i < |lines| && lines[i].Entry? && Tagged(lines, annotator)[j] == Entry(Tag(lines[i].rec, annotator))
    ensures |Tagged(lines, annotator)| == CountEntries(lines)
  {
    if lines != [] {
      var rest := Tagged(lines[1..], annotator);
      TaggedSpec(lines[1..], annotator);
      var head := if lines[0].Entry? then [Entry(Tag(lines[0].rec, annotator))] else [];
      var t := Tagged(lines, annotator);
      assert t == head + rest;
      forall j | 0 <= j < |t|
        ensures t[j].Entry? && "annotator" in t[j].rec.fields && t[j].rec.fields["annotator"] == Str(annotator)
        ensures exists i :: 0 <= i < |lines| && lines[i].Entry? && t[j] == Entry(Tag(lines[i].rec, annotator))
      {
        if j < |head| {
          assert t[j] == Entry(Tag(lines[0].rec, annotator));
        } else {
          assert t[j] == rest[j - |head|];
          var i :| 0 <= i < |lines[1..]| && lines[1..][i].Entry? && rest[j - |head|] == Entry(Tag(lines[1..][i].rec, annotator));
          assert lines[i + 1] == lines[1..][i];
        }
      }
      forall i | 0 <= i < |lines| && lines[i].Entry?
        ensures Entry(Tag(lines[i].rec, annotator)) in t
      {
        if i > 0 {
          assert lines[1..][i - 1] == lines[i];
          assert Entry(Tag(lines[i].rec, annotator)) in rest;
        }
      }
      CountEntriesCons(lines);
    } else {
      assert Tagged(lines, annotator) == [];
    }
  }

  /** The journal line a tagged line was copied from. */
  lemma {:induction false} TaggedOrigin(lines: seq<Line>, annotator: string, j: nat) returns (i: nat)
    requires j < |Tagged(lines, annotator)|
    ensures i < |lines| && lines[i].Entry? && Tagged(lines, annotator)[j] == Entry(Tag(lines[i].rec, annotator))
    decreases |lines|
  {
    var head := if lines[0].Entry? then [Entry(Tag(lines[0].rec, annotator))] else [];
    var rest := Tagged(lines[1..], annotator);
    assert Tagged(lines, annotator) == head + rest;
    if j < |head| {
      i := 0;
    } else {
      var k := TaggedOrigin(lines[1..], annotator, j - |head|);
      assert lines[1..][k] == lines[k + 1];
      i := k + 1;
    }
  }

  /** Number of records (neither blank nor unreadable) in a journal. */
  function CountEntries(lines: seq<Line>): nat
  {
    if lines == [] then 0 else CountEntries(lines[..|lines| - 1]) + (if lines[|lines| - 1].Entry? then 1 else 0)
  }

  lemma {:induction false} CountEntriesCons(lines: seq<Line>)
    requires lines != []
    ensures CountEntries(lines) == (if lines[0].Entry? then 1 else 0) + CountEntries(lines[1..])
    decreases |lines|
  {
    if |lines| > 1 {
      CountEntriesCons(lines[..|lines| - 1]);
      assert lines[..|lines| - 1][1..] == lines[1..][..|lines[1..]| - 1];
      assert lines[..|lines| - 1][0] == lines[0];
    } else {
      assert lines[..0] == [];
      assert lines[1..] == [];
    }
  }

  /** Tagging works line by line: the tagged concatenation is the concatenation of the tagged parts, so records keep their journal order. */
  lemma {:induction false} TaggedConcat(a: seq<Line>, b: seq<Line>, annotator: string)
    ensures Tagged(a + b, annotator) == Tagged(a, annotator) + Tagged(b, annotator)
    decreases |a|
  {
    if a != [] {
      assert (a + b)[0] == a[0];
      assert (a + b)[1..] == a[1..] + b;
      TaggedConcat(a[1..], b, annotator);
    } else {
      assert a + b == b;
    }
  }

  /** Record counts add up over a concatenation of journals. */
  lemma {:induction false} CountForConcat(a: seq<Line>, b: seq<Line>, id: OpinionId)
    ensures CountFor(a + b, id) == CountFor(a, id) + CountFor(b, id)
    decreases |b|
  {
    if b == [] {
      assert a + b == a;
    } else {
      var b' := b[..|b| - 1];
      assert (a + b)[..|a + b| - 1] == a + b';
      assert (a + b)[|a + b| - 1] == b[|b| - 1];
      CountForConcat(a, b', id);
    }
  }

  /** A journal of one line counts that line when it is a record about `id`. */
  lemma CountForSingle(line: Line, id: OpinionId)
    ensures CountFor([line], id) == if line.Entry? && line.rec.opinionId == id then 1 else 0
  {
    assert [line][..0] == [];
  }

  /** Tagging keeps, for every opinion, the number of records about it. */
  lemma {:induction false} TaggedCount(lines: seq<Line>, annotator: string, id: OpinionId)
    ensures CountFor(Tagged(lines, annotator), id) == CountFor(lines, id)
    decreases |lines|
  {
    if lines != [] {
      var head := if lines[0].Entry? then [Entry(Tag(lines[0].rec, annotator))] else [];
      assert Tagged(lines, annotator) == head + Tagged(lines[1..], annotator);
      CountForConcat(head, Tagged(lines[1..], annotator), id);
      TaggedCount(lines[1..], annotator, id);
      assert lines == [lines[0]] + lines[1..];
      CountForConcat([lines[0]], lines[1..], id);
      CountForSingle(lines[0], id);
      if lines[0].Entry? {
        CountForSingle(Entry(Tag(lines[0].rec, annotator)), id);
      } else {
        assert head == [];
      }
    }
  }

  /** The number of records about `id` over the journals of the listed entries that have one. */
  function JournalCount(listing: seq<string>, journals: map<string, seq<Line>>, id: OpinionId): nat
  {
    if listing == [] then 0
    else (if listing[0] in journals then CountFor(journals[listing[0]], id) else 0)
         + JournalCount(listing[1..], journals, id)
  }

  /** The merged journal holds, for every opinion, the sum of its records over the listed journals. */
  lemma {:induction false} MergeCount(listing: seq<string>, journals: map<string, seq<Line>>, id: OpinionId)
    ensures CountFor(Merge(listing, journals), id) == JournalCount(listing, journals, id)
    decreases |listing|
  {
    if listing != [] {
      var a0 := listing[0];
      var head := if a0 in journals then Tagged(journals[a0], a0) else [];
      CountForConcat(head, Merge(listing[1..], journals), id);
      MergeCount(listing[1..], journals, id);
      if a0 in journals {
        TaggedCount(journals[a0], a0, id);
      }
    }
  }

  /** A journal mentions `id` exactly when it counts at least one record about it. */
  lemma {:induction false} MentionsIffCount(lines: seq<Line>, id: OpinionId)
    ensures Mentions(lines, id) <==> CountFor(lines, id) > 0
    decreases |lines|
  {
    if lines != [] {
      var init := lines[..|lines| - 1];
      MentionsIffCount(init, id);
      if Mentions(init, id) {
        var i :| 0 <= i < |init| && init[i].Entry? && init[i].rec.opinionId == id;
        assert lines[i] == init[i];
      }
      if Mentions(lines, id) {
        var i :| 0 <= i < |lines| && lines[i].Entry? && lines[i].rec.opinionId == id;
        if i < |init| {
          assert init[i] == lines[i];
        }
      }
    }
  }

  /** Some listed entry has a journal that mentions `id` exactly when the counts over the listing are positive. */
  lemma {:induction false} JournalCountPositive(listing: seq<string>, journals: map<string, seq<Line>>, id: OpinionId)
    ensures JournalCount(listing, journals, id) > 0
        <==> exists a :: a in listing && a in journals && Mentions(journals[a], id)
    decreases |listing|
  {
    if listing != [] {
      var a0 := listing[0];
      JournalCountPositive(listing[1..], journals, id);
      if a0 in journals {
        MentionsIffCount(journals[a0], id);
      }
      if exists a :: a in listing && a in journals && Mentions(journals[a], id) {
        var a :| a in listing && a in journals && Mentions(journals[a], id);
        if a != a0 {
          assert a in listing[1..];
        } else {
          MentionsIffCount(journals[a], id);
        }
      }
      if exists a :: a in listing[1..] && a in journals && Mentions(journals[a], id) {
        var a :| a in listing[1..] && a in journals && Mentions(journals[a], id);
        assert a in listing;
      }
    }
  }

  /** The merged journal mentions `id` exactly when the journal of some listed entry does. */
  lemma MergeMentions(listing: seq<string>, journals: map<string, seq<Line>>, id: OpinionId)
    ensures Mentions(Merge(listing, journals), id)
        <==> exists a :: a in listing && a in journals && Mentions(journals[a], id)
  {
    MentionsIffCount(Merge(listing, journals), id);
    MergeCount(listing, journals, id);
    JournalCountPositive(listing, journals, id);
  }

  /** A merged line is the tagged copy of a record of some listed annotator's journal. */
  ghost predicate FromJournals(line: Line, listing: seq<string>, journals: map<string, seq<Line>>)
  {
    exists a, i :: a in listing && a in journals && 0 <= i < |journals[a]| && journals[a][i].Entry?
                   && line == Entry(Tag(journals[a][i].rec, a))
  }

  /**
    The merge keeps every record of every listed journal, tagged with its annotator, and
    nothing else: each merged line is a tagged record of some listed annotator's journal.
    */
  lemma {:induction false} MergeSpec(listing: seq<string>, journals: map<string, seq<Line>>)
    ensures forall a, i :: a in listing && a in journals && 0 <= i < |journals[a]| && journals[a][i].Entry? ==>
      Entry(Tag(journals[a][i].rec, a)) in Merge(listing, journals)
    ensures forall j :: 0 <= j < |Merge(listing, journals)| ==> FromJournals(Merge(listing, journals)[j], listing, journals)
  {
    if listing != [] {
      MergeSpec(listing[1..], journals);
      var a0 := listing[0];
      var head := if a0 in journals then Tagged(journals[a0], a0) else [];
      var m := Merge(listing, journals);
      assert m == head + Merge(listing[1..], journals);
      if a0 in journals { TaggedSpec(journals[a0], a0); }
      forall a, i | a in listing && a in journals && 0 <= i < |journals[a]| && journals[a][i].Entry?
        ensures Entry(Tag(journals[a][i].rec, a)) in m
      {
        if a != a0 {
          assert a in listing[1..];
        }
      }
      forall j | 0 <= j < |m|
        ensures FromJournals(m[j], listing, journals)
      {
        if j < |head| {
          assert a0 in journals && head == Tagged(journals[a0], a0);
          var i := TaggedOrigin(journals[a0], a0, j);
          assert m[j] == head[j];
          assert a0 in listing;
          assert m[j] == Entry(Tag(journals[a0][i].rec, a0));
        } else {
          var rest := Merge(listing[1..], journals);
          assert m[j] == rest[j - |head|];
          assert FromJournals(rest[j - |head|], listing[1..], journals);
          var a, i :| a in listing[1..] && a in journals && 0 <= i < |journals[a]| && journals[a][i].Entry?
            && rest[j - |head|] == Entry(Tag(journals[a][i].rec, a));
          assert a in listing;
          assert m[j] == Entry(Tag(journals[a][i].rec, a));
        }
      }
    } else {
      assert Merge(listing, journals) == [];
    }
  }

  // ---------------------------------------------------------------------------
  // The table object

  /** `GDNData`: the table the request handlers share. */
  class OpinionTable {
    var rows: seq<Row>

    constructor FromRows(rows: seq<Row>)
      ensures this.rows == rows
    {
      this.rows := rows;
    }

    /**
      `next_data`: for an annotator with more than eight done items, the first row with one
      annotation that is neither in progress nor done by them; otherwise, or failing that,
      the first such row with none. The chosen opinion is marked in progress and returned;
      with no candidate, `OverflowError` and the table as it was.
      */
    method NextData(user: Users.User) returns (r: Result<Opinion>)
      modifies this
      ensures match Choose(old(rows), user.doneAnnotations, user.CanBeSecondAnnotator())
        case Some(row) => r == Ok(row.opinion) && rows == SetFlag(old(rows), row.Id(), true)
        case None => r == Err(OverflowError) && rows == old(rows)
    {
      var done := user.doneAnnotations;
      var picked: Option<Row> := None;
      if user.CanBeSecondAnnotator() {
        var data := WithCount(rows, 1);
        if data != [] {
          picked := ScanPass(data, done);
        }
      }
      if picked.None? {
        picked := ScanPass(WithCount(rows, 0), done);
      }
      if picked.None? {
        return Err(OverflowError);
      }
      var line := picked.value.opinion;
      rows := SetFlag(rows, line.opinionId, true);
      r := Ok(line);
    }

    /** `cancel_opinion_annotation`: only the in-progress flag of that id, cleared. */
    method CancelOpinionAnnotation(id: OpinionId)
      modifies this
      ensures rows == SetFlag(old(rows), id, false)
    {
      rows := SetFlag(rows, id, false);
    }

    /** `set_opinion_annotation`: only the in-progress flag of that id, set. */
    method SetOpinionAnnotation(id: OpinionId)
      modifies this
      ensures rows == SetFlag(old(rows), id, true)
    {
      rows := SetFlag(rows, id, true);
    }

    /** `add_finished_annotation`; an unknown id raises `IndexError` with the table unchanged. */
    method AddFinishedAnnotation(id: OpinionId, llm: Option<string>) returns (r: Result<()>)
      modifies this
      ensures r.Ok? <==> Lookup(old(rows), id).Some?
      ensures r.Ok? ==> Finish(old(rows), id, llm).Ok? && rows == Finish(old(rows), id, llm).value
      ensures r.Err? ==> r.error == IndexError && rows == old(rows)
    {
      var after := Finish(rows, id, llm);
      FinishFailsOnlyOnUnknownId(rows, id, llm);
      if after.Err? {
        return Err(IndexError);
      }
      rows := after.value;
      r := Ok(());
    }

    /** `add_reported_annotation`: released and marked -1. */
    method AddReportedAnnotation(id: OpinionId)
      modifies this
      ensures rows == Withdraw(old(rows), id)
      ensures Withdrawn(rows, id)
    {
      rows := Withdraw(rows, id);
    }

    /**
      `get_data_from_id`: the first row with that id is returned and every row with it is
      marked in progress, whatever its count; an unknown id raises `IndexError`.
      */
    method GetDataFromId(id: OpinionId) returns (r: Result<Opinion>)
      modifies this
      ensures r.Ok? <==> Lookup(old(rows), id).Some?
      ensures r.Ok? ==> r.value == old(rows)[Lookup(old(rows), id).value].opinion && r.value.opinionId == id
      ensures r.Ok? ==> rows == SetFlag(old(rows), id, true)
      ensures r.Err? ==> r.error == IndexError && rows == old(rows)
    {
      var k := Lookup(rows, id);
      if k.None? {
        return Err(IndexError);
      }
      r := Ok(rows[k.value].opinion);
      rows := SetFlag(rows, id, true);
    }

    /**
      `get_used_llm`: the filled model slots of the first row with that id, first slot
      first, so at most two names and none of them empty.
      */
    function GetUsedLlm(id: OpinionId): (r: Result<seq<string>>)
      reads this
      ensures r.Ok? <==> Lookup(rows, id).Some?
      ensures r.Ok? ==> |r.value| <= 2 && forall m :: m in r.value ==> m != ""
      ensures r.Ok? ==> var row := rows[Lookup(rows, id).value];
        forall m :: m in r.value <==> (Filled(row.llm1) && m == row.llm1.value) || (Filled(row.llm2) && m == row.llm2.value)
      ensures r.Ok? ==> var row := rows[Lookup(rows, id).value];
        Filled(row.llm1) && Filled(row.llm2) ==> r.value == [row.llm1.value, row.llm2.value]
      ensures r.Ok? ==> var row := rows[Lookup(rows, id).value];
        |r.value| == (if Filled(row.llm1) then 1 else 0) + (if Filled(row.llm2) then 1 else 0)
    {
      match Lookup(rows, id)
      case None => Err(IndexError)
      case Some(k) =>
        var row := rows[k];
        Ok((if Filled(row.llm1) then [row.llm1.value] else []) + (if Filled(row.llm2) then [row.llm2.value] else []))
    }
  }

  /**
    `GDNData()`: merge the journals, then replay them over the corpus; a record about an
    opinion missing from the corpus makes start-up fail.
    */
  method Start(corpus: seq<Opinion>, listing: seq<string>,
               annotationJournals: map<string, seq<Line>>, reportJournals: map<string, seq<Line>>)
    returns (r: Result<OpinionTable>)
    ensures var annotations := Merge(listing, annotationJournals);
      var reports := Merge(listing, reportJournals);
      && (r.Err? <==> exists i :: 0 <= i < |annotations| && annotations[i].Entry?
                                  && !InCorpus(corpus, annotations[i].rec.opinionId))
      && (r.Ok? ==> fresh(r.value) && |r.value.rows| == |corpus|
                    && forall k :: 0 <= k < |corpus| ==> r.value.rows[k] == Loaded(corpus[k], annotations, reports))
  {
    var annotations := Merge(listing, annotationJournals);
    var reports := Merge(listing, reportJournals);
    var loaded := LoadData(corpus, annotations, reports);
    if loaded.Err? {
      return Err(loaded.error);
    }
    var table := new OpinionTable.FromRows(loaded.value);
    r := Ok(table);
  }
}
