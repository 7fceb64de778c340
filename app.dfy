/**
  The request handlers of app.py that chain the table, the session and the helpers:
  fetching the next opinion, switching opinion, reporting, asking the models for
  arguments and saving summaries. Routing, CORS and logging are not modelled; each
  handler receives the loaded session and the shared table.
  */
module App {
  import opened Common
  import opened Users
  import opened Data
  import opened Utils

  /** The reasons a client may give for a report, translated for the journal. */
  const REPORT_FR_TO_EN: map<string, string> := map[
    "discours de haine" := "hate speech",
    "incomprehensible" := "incomprehensible",
    "trop d'unit√©s argumentatives" := "too long",
    "autre" := "other"]

  /** The models a completion may be assigned to. */
  const ALL_MODELS: seq<string> := ["llama3-70b-8192", "llama3-8b-8192", "qwen/qwen3-32b", "gpt-4.1"]

  /** What a handler sends back: a JSON body, a `400` reply, or an exception it lets through. */
  datatype Reply<+T> = Reply(value: T) | BadRequest | Raised(error: Error)

  /** `if user.current_annotation:` is a truthiness test, so opinion 0 counts as no current opinion. */
  predicate HasCurrent(current: Option<OpinionId>)
  {
    current.Some? && current.value != 0
  }

  /**
    `get_next`: an annotator with a current opinion gets it again (marked in progress once
    more); any other gets the opinion `next_data` chooses, which becomes their current one.
    With nothing left the reply is a `400`.
    */
  method GetNext(table: OpinionTable, user: User, disk: Disk, now: real) returns (r: Reply<Opinion>)
    modifies table, user, disk`pickles
    ensures HasCurrent(old(user.currentAnnotation)) ==>
      var id := old(user.currentAnnotation).value;
      && user.State() == old(user.State()) && disk.pickles == old(disk.pickles)
      && (r.Reply? <==> Lookup(old(table.rows), id).Some?)
      && (r.Reply? ==> r.value == old(table.rows)[Lookup(old(table.rows), id).value].opinion
                       && r.value.opinionId == id && table.rows == SetFlag(old(table.rows), id, true))
      && (!r.Reply? ==> r == Raised(IndexError) && table.rows == old(table.rows))
    ensures !HasCurrent(old(user.currentAnnotation)) ==>
      match Choose(old(table.rows), old(user.doneAnnotations), old(user.CanBeSecondAnnotator()))
      case Some(row) =>
        && r == Reply(row.opinion) && table.rows == SetFlag(old(table.rows), row.Id(), true)
        && user.State() == old(user.State()).(currentAnnotation := Some(row.Id()), startAnnotationTime := Some(now))
        && disk.pickles == old(disk.pickles)[user.token := Intact(user.State())]
      case None =>
        r == BadRequest && table.rows == old(table.rows)
        && user.State() == old(user.State()) && disk.pickles == old(disk.pickles)
  {
    if HasCurrent(user.currentAnnotation) {
      var resumed := table.GetDataFromId(user.currentAnnotation.value);
      if resumed.Err? {
        return Raised(resumed.error);
      }
      return Reply(resumed.value);
    }
    var next := table.NextData(user);
    if next.Err? {
      return BadRequest;
    }
    user.NewOpinion(next.value, now, disk);
    r := Reply(next.value);
  }

  // ---------------------------------------------------------------------------
  // Switching opinion

  /**
    The table after `get_data_from_id` as the switch handler orders it: the new opinion is
    marked (twice), then the previous one, if any, is released.
    */
  function SwitchedRows(rows: seq<Row>, current: Option<OpinionId>, newId: OpinionId): seq<Row>
  {
    var marked := SetFlag(SetFlag(rows, newId, true), newId, true);
    if current.Some? then SetFlag(marked, current.value, false) else marked
  }

  /**
    Switching to the opinion one is already on releases it: every row of that opinion ends
    up not in progress, so `next_data` may hand it to someone else.
    */
  lemma SwitchToCurrentReleasesIt(rows: seq<Row>, id: OpinionId)
    ensures |SwitchedRows(rows, Some(id), id)| == |rows|
    ensures forall k :: 0 <= k < |rows| && rows[k].Id() == id ==> !SwitchedRows(rows, Some(id), id)[k].inProgress
  {
  }

  /** One opinion, current and in progress, that switching to itself leaves free. */
  lemma SwitchToCurrentExample()
    ensures var row := Row(Opinion(7, "texte", "theme", 5), 0, true, Some(""), Some(""));
      var after := SwitchedRows([row], Some(7), 7);
      && Choose([row], [], false) == None
      && Choose(after, [], false) == Some(after[0])
  {
    var row := Row(Opinion(7, "texte", "theme", 5), 0, true, Some(""), Some(""));
    var after := SwitchedRows([row], Some(7), 7);
    assert after == [row.(inProgress := false)];
    assert WithCount([row], 0) == [row];
    assert WithCount(after, 0) == after;
  }

  /** The intended switch: release the previous opinion first, then mark the new one. */
  function SwitchedRowsFixed(rows: seq<Row>, current: Option<OpinionId>, newId: OpinionId): seq<Row>
  {
    var released := if current.Some? then SetFlag(rows, current.value, false) else rows;
    SetFlag(released, newId, true)
  }

  /**
    After the intended switch the new opinion is in progress, the previous one (if it is
    another) is released, every other row is as it was, and no count or model slot moves.
    */
  lemma SwitchFixedSpec(rows: seq<Row>, current: Option<OpinionId>, newId: OpinionId)
    ensures var after := SwitchedRowsFixed(rows, current, newId);
      && |after| == |rows|
      && (forall k :: 0 <= k < |rows| && rows[k].Id() == newId ==> after[k].inProgress)
      && (forall k :: 0 <= k < |rows| && current.Some? && rows[k].Id() == current.value && current.value != newId
                      ==> !after[k].inProgress)
      && (forall k :: 0 <= k < |rows| && rows[k].Id() != newId && (current.None? || rows[k].Id() != current.value)
                      ==> after[k] == rows[k])
      && (forall k :: 0 <= k < |rows| ==> after[k] == rows[k].(inProgress := after[k].inProgress))
  {
  }

  /**
    `get_data_from_id` (the switch handler) as written: look up and mark the new opinion,
    mark it again, release the previous one, make the new one current. An unknown id
    raises `IndexError` before anything changes.
    */
  method SwitchOpinion(table: OpinionTable, user: User, disk: Disk, newId: OpinionId, now: real)
    returns (r: Result<Opinion>)
    modifies table, user, disk`pickles
    ensures r.Ok? <==> Lookup(old(table.rows), newId).Some?
    ensures r.Err? ==> r.error == IndexError && table.rows == old(table.rows)
                       && user.State() == old(user.State()) && disk.pickles == old(disk.pickles)
    ensures r.Ok? ==>
      && r.value == old(table.rows)[Lookup(old(table.rows), newId).value].opinion
      && r.value.opinionId == newId
      && table.rows == SwitchedRows(old(table.rows), old(user.currentAnnotation), newId)
      && user.State() == old(user.State()).(currentAnnotation := Some(newId), startAnnotationTime := Some(now))
      && disk.pickles == old(disk.pickles)[user.token := Intact(user.State())]
  {
    var opinion := table.GetDataFromId(newId);
    if opinion.Err? {
      return Err(opinion.error);
    }
    table.SetOpinionAnnotation(newId);
    var current := user.currentAnnotation;
    if current.Some? {
      table.CancelOpinionAnnotation(current.value);
    }
    user.NewOpinion(opinion.value, now, disk);
    r := Ok(opinion.value);
  }

  /** The switch with the release first, so the new opinion always ends in progress. */
  method SwitchOpinionFixed(table: OpinionTable, user: User, disk: Disk, newId: OpinionId, now: real)
    returns (r: Result<Opinion>)
    modifies table, user, disk`pickles
    ensures r.Ok? <==> Lookup(old(table.rows), newId).Some?
    ensures r.Err? ==> r.error == IndexError && table.rows == old(table.rows)
                       && user.State() == old(user.State()) && disk.pickles == old(disk.pickles)
    ensures r.Ok? ==>
      && r.value == old(table.rows)[Lookup(old(table.rows), newId).value].opinion
      && r.value.opinionId == newId
      && table.rows == SwitchedRowsFixed(old(table.rows), old(user.currentAnnotation), newId)
      && user.State() == old(user.State()).(currentAnnotation := Some(newId), startAnnotationTime := Some(now))
      && disk.pickles == old(disk.pickles)[user.token := Intact(user.State())]
  {
    var k := Lookup(table.rows, newId);
    if k.None? {
      return Err(IndexError);
    }
    var opinion := table.rows[k.value].opinion;
    var current := user.currentAnnotation;
    if current.Some? {
      table.CancelOpinionAnnotation(current.value);
    }
    table.SetOpinionAnnotation(newId);
    user.NewOpinion(opinion, now, disk);
    r := Ok(opinion);
  }

  // ---------------------------------------------------------------------------
  // Reports and summaries

  /** The journal's `reason`: the English label, or null for a reason outside the table. */
  function Translated(reason: Option<string>): (v: Value)
    ensures v != Null <==> reason.Some? && reason.value in REPORT_FR_TO_EN
    ensures v != Null ==> v == Str(REPORT_FR_TO_EN[reason.value])
  {
    if reason.Some? && reason.value in REPORT_FR_TO_EN then Str(REPORT_FR_TO_EN[reason.value]) else Null
  }

  /**
    `report`: the opinion is withdrawn from allocation, and the annotator's reports journal
    gains one record with the translated reason, their current opinion moving to the done list.
    */
  method Report(table: OpinionTable, user: User, disk: Disk, opinionId: OpinionId, reason: Option<string>)
    returns (rec: Record)
    modifies table, user, disk`annotations, disk`reports, disk`pickles
    ensures rec == Record(opinionId, map["reason" := Translated(reason)])
    ensures table.rows == Withdraw(old(table.rows), opinionId) && Withdrawn(table.rows, opinionId)
    ensures user.State() == old(user.State()).(currentAnnotation := None,
                                               doneAnnotations := old(user.doneAnnotations) + [old(user.currentAnnotation)])
    ensures disk.reports == Append(old(disk.reports), user.token, rec)
    ensures disk.annotations == old(disk.annotations)
    ensures disk.pickles == old(disk.pickles)[user.token := Intact(user.State())]
  {
    rec := Record(opinionId, map["reason" := Translated(reason)]);
    table.AddReportedAnnotation(opinionId);
    user.ReportData(rec, disk);
  }

  /** The record with `llm` set to the annotator's last model, null when there is none. */
  function WithLlm(data: Record, llm: Option<string>): (r: Record)
    ensures r.opinionId == data.opinionId && "llm" in r.fields
    ensures r.fields["llm"] == (if llm.Some? then Str(llm.value) else Null)
    ensures forall f :: f in data.fields && f != "llm" ==> f in r.fields && r.fields[f] == data.fields[f]
  {
    data.(fields := data.fields["llm" := if llm.Some? then Str(llm.value) else Null])
  }

  /** The labelled record has exactly the keys of the original plus `llm`: nothing else is added. */
  lemma WithLlmKeys(data: Record, llm: Option<string>)
    ensures WithLlm(data, llm).fields.Keys == data.fields.Keys + {"llm"}
  {
  }

  /**
    `save_summaries`: the introduction example is acknowledged and nothing is stored.
    Otherwise the table is credited with the annotator's last model, then the record goes
    to the annotations journal. Without a start time the table is already credited when
    the journal write fails.
    */
  method SaveSummaries(table: OpinionTable, user: User, disk: Disk, data: Record, introduction: bool,
                       now: real, date: string)
    returns (r: Result<()>)
    modifies table, user, disk`annotations, disk`reports, disk`pickles
    ensures disk.reports == old(disk.reports)
    ensures introduction ==>
      && r == Ok(()) && table.rows == old(table.rows) && user.State() == old(user.State())
      && disk.annotations == old(disk.annotations) && disk.pickles == old(disk.pickles)
    ensures !introduction && Lookup(old(table.rows), data.opinionId).None? ==>
      && r == Err(IndexError) && table.rows == old(table.rows) && user.State() == old(user.State())
      && disk.annotations == old(disk.annotations) && disk.pickles == old(disk.pickles)
    ensures !introduction && Lookup(old(table.rows), data.opinionId).Some? ==>
      && Finish(old(table.rows), data.opinionId, old(user.lastUsedLlm)).Ok?
      && table.rows == Finish(old(table.rows), data.opinionId, old(user.lastUsedLlm)).value
    ensures !introduction && Lookup(old(table.rows), data.opinionId).Some? && old(user.startAnnotationTime).None? ==>
      && r == Err(TypeError) && user.State() == old(user.State())
      && disk.annotations == old(disk.annotations) && disk.pickles == old(disk.pickles)
    ensures !introduction && Lookup(old(table.rows), data.opinionId).Some? && old(user.startAnnotationTime).Some? ==>
      && r == Ok(())
      && user.State() == old(user.State()).(currentAnnotation := None,
                                            doneAnnotations := old(user.doneAnnotations) + [old(user.currentAnnotation)])
      && disk.pickles == old(disk.pickles)[user.token := Intact(user.State())]
      && var labelled := WithLlm(data, old(user.lastUsedLlm));
         disk.annotations == Append(old(disk.annotations), user.token,
           labelled.(fields := labelled.fields["time" := Num(now - old(user.startAnnotationTime).value)]["date" := Str(date)]))
  {
    var labelled := WithLlm(data, user.lastUsedLlm);
    if introduction {
      return Ok(());
    }
    var credited := table.AddFinishedAnnotation(data.opinionId, user.lastUsedLlm);
    if credited.Err? {
      return Err(credited.error);
    }
    ghost var before := user.State();
    var saved := user.SaveAnnotation(labelled, now, date, disk);
    if saved.Err? {
      return Err(saved.error);
    }
    assert user.token == before.token;
    assert disk.annotations == Append(old(disk.annotations), user.token, saved.value);
    r := Ok(());
  }

  // ---------------------------------------------------------------------------
  // Asking the models

  /** The models not yet used on an opinion, in the order of the model list. */
  function Unused(models: seq<string>, used: seq<string>): (r: seq<string>)
    ensures forall m :: m in r <==> m in models && m !in used
  {
    if models == [] then []
    else (if models[0] in used then [] else [models[0]]) + Unused(models[1..], used)
  }

  /** `r` lies in `models` at the positions `pos`, which strictly increase. */
  predicate PlacedIn(r: seq<string>, models: seq<string>, pos: seq<nat>)
  {
    && |pos| == |r|
    && (forall i :: 0 <= i < |pos| ==> pos[i] < |models| && models[pos[i]] == r[i])
    && (forall i, j :: 0 <= i < j < |pos| ==> pos[i] < pos[j])
  }

  /** A placement in the list's tail, moved one position up, is a placement in the whole list. */
  lemma PlacedShift(r: seq<string>, models: seq<string>, pos: seq<nat>) returns (pos': seq<nat>)
    requires models != [] && PlacedIn(r, models[1..], pos)
    ensures PlacedIn(r, models, pos') && forall i :: 0 <= i < |pos'| ==> pos'[i] > 0
  {
    pos' := seq(|pos|, i requires 0 <= i < |pos| => pos[i] + 1);
    forall i | 0 <= i < |pos'|
      ensures pos'[i] < |models| && models[pos'[i]] == r[i]
    {
      assert models[pos'[i]] == models[1..][pos[i]];
    }
  }

  /** A placement clear of position 0 extends to the list's head in front. */
  lemma PlacedFront(r: seq<string>, models: seq<string>, pos: seq<nat>)
    requires models != [] && PlacedIn(r, models, pos) && forall i :: 0 <= i < |pos| ==> pos[i] > 0
    ensures PlacedIn([models[0]] + r, models, [0] + pos)
  {
    var r', pos' := [models[0]] + r, [0] + pos;
    forall i | 0 <= i < |pos'|
      ensures pos'[i] < |models| && models[pos'[i]] == r'[i]
    {
      if i > 0 {
        assert pos'[i] == pos[i - 1] && r'[i] == r[i - 1];
      }
    }
    forall i, j | 0 <= i < j < |pos'|
      ensures pos'[i] < pos'[j]
    {
      assert pos'[j] == pos[j - 1];
      if i > 0 {
        assert pos'[i] == pos[i - 1];
      }
    }
  }

  /** The unused models keep the order of the model list: they sit at increasing positions of it. */
  lemma {:induction false} UnusedInOrder(models: seq<string>, used: seq<string>) returns (pos: seq<nat>)
    ensures PlacedIn(Unused(models, used), models, pos)
    decreases |models|
  {
    if models == [] {
      pos := [];
    } else {
      var rest := UnusedInOrder(models[1..], used);
      var tail := Unused(models[1..], used);
      pos := PlacedShift(tail, models, rest);
      if models[0] in used {
        assert Unused(models, used) == tail;
      } else {
        assert Unused(models, used) == [models[0]] + tail;
        PlacedFront(tail, models, pos);
        pos := [0] + pos;
      }
    }
  }

  /** One colour's answer: the colour, its segments and what the model extracted from them. */
  datatype Argument = Argument(color: string, segments: Segments, argument: Option<string>)

  /** No segment of any group has a type outside the three known ones. */
  predicate GroupsKnown(groups: seq<(string, Segments)>)
  {
    forall j :: 0 <= j < |groups| ==> AllKnown(groups[j].1)
  }

  /** What the model answers for one colour group. */
  function Answer(text: string, theme: string, segs: Segments, ask: string -> Option<string>): Option<string>
  {
    ask(Prompt(text, theme, TypeTexts(segs)))
  }

  /**
    The loop of `process_opinion`: each colour group in turn is sent to the model; the
    first group holding an unknown segment type raises `KeyError`.
    */
  method AskModel(text: string, theme: string, groups: seq<(string, Segments)>, ask: string -> Option<string>)
    returns (r: Result<seq<Argument>>)
    ensures r.Err? <==> !GroupsKnown(groups)
    ensures r.Err? ==> r.error.KeyError?
    ensures r.Ok? ==> |r.value| == |groups| && forall k :: 0 <= k < |groups| ==>
      && r.value[k].color == groups[k].0 && r.value[k].segments == groups[k].1
      && r.value[k].argument == Answer(text, theme, groups[k].1, ask)
  {
    var results: seq<Argument> := [];
    var k := 0;
    while k < |groups|
      invariant 0 <= k <= |groups|
      invariant |results| == k
      invariant forall j :: 0 <= j < k ==>
        && results[j].color == groups[j].0 && results[j].segments == groups[j].1
        && results[j].argument == Answer(text, theme, groups[j].1, ask)
      invariant forall j :: 0 <= j < k ==> AllKnown(groups[j].1)
    {
      var answer := ExtractArgument(text, groups[k].1, theme, ask);
      if answer.Err? {
        return Err(answer.error);
      }
      var arg := Argument(groups[k].0, groups[k].1, answer.value);
      assert arg.argument == Answer(text, theme, groups[k].1, ask);
      results := results + [arg];
      k := k + 1;
    }
    r := Ok(results);
  }

  /** The groups hold only known types exactly when the whole segment map does. */
  lemma GroupsKnownIff(segs: Segments, groups: seq<(string, Segments)>)
    requires Keys(groups) == Colors(segs)
    requires forall k :: 0 <= k < |groups| ==> groups[k].1 == Group(segs, groups[k].0)
    ensures GroupsKnown(groups) <==> forall i :: 0 <= i < |segs| ==> KnownKind(segs[i].1.kind)
  {
    if GroupsKnown(groups) {
      forall i | 0 <= i < |segs| ensures KnownKind(segs[i].1.kind) {
        KnownThroughGroup(segs, groups, i);
      }
    }
    if forall i :: 0 <= i < |segs| ==> KnownKind(segs[i].1.kind) {
      forall j | 0 <= j < |groups| ensures AllKnown(groups[j].1) {
        GroupOfKnown(segs, groups[j].0);
      }
    }
  }

  /** A segment is of a known type when every group is. */
  lemma KnownThroughGroup(segs: Segments, groups: seq<(string, Segments)>, i: nat)
    requires i < |segs| && GroupsKnown(groups)
    requires Keys(groups) == Colors(segs)
    requires forall k :: 0 <= k < |groups| ==> groups[k].1 == Group(segs, groups[k].0)
    ensures KnownKind(segs[i].1.kind)
  {
    SegmentInOneGroup(segs, groups, i);
    var k :| 0 <= k < |groups| && groups[k].0 == segs[i].1.color;
    AllKnownSpec(groups[k].1);
    assert segs[i] in groups[k].1;
  }

  /** The group of any colour holds only known types when the segments do. */
  lemma GroupOfKnown(segs: Segments, c: string)
    requires forall i :: 0 <= i < |segs| ==> KnownKind(segs[i].1.kind)
    ensures AllKnown(Group(segs, c))
  {
    GroupMembership(segs, c);
    var g := Group(segs, c);
    forall m | 0 <= m < |g| ensures KnownKind(g[m].1.kind) {
      assert g[m] in segs;
    }
    AllKnownSpec(g);
  }

  /**
    `process_opinion`: a request without segments or text gets a `400`. Otherwise a model
    not yet used on the opinion is drawn (`pick` stands for the random draw), each colour
    group is sent to it in turn, and the model becomes the annotator's last used one.
    An unknown opinion, an exhausted model list or an unknown segment type raise.
    */
  method ProcessOpinion(table: OpinionTable, user: User, disk: Disk, opinionId: OpinionId,
                        text: string, theme: string, segs: Segments, pick: nat,
                        llms: string -> string -> Option<string>)
    returns (r: Reply<seq<Argument>>)
    requires DistinctKeys(segs)
    modifies user, disk`pickles
    ensures r.BadRequest? <==> segs == [] || text == ""
    ensures !r.Reply? ==> user.State() == old(user.State()) && disk.pickles == old(disk.pickles)
    ensures segs != [] && text != "" && table.GetUsedLlm(opinionId).Err? ==> r == Raised(IndexError)
    ensures (segs != [] && text != "" && table.GetUsedLlm(opinionId).Ok?
             && Unused(ALL_MODELS, table.GetUsedLlm(opinionId).value) == []) ==> r == Raised(IndexError)
    ensures (segs != [] && text != "" && table.GetUsedLlm(opinionId).Ok?
             && Unused(ALL_MODELS, table.GetUsedLlm(opinionId).value) != []
             && exists i :: 0 <= i < |segs| && !KnownKind(segs[i].1.kind)) ==> r.Raised? && r.error.KeyError?
    ensures (segs != [] && text != "" && table.GetUsedLlm(opinionId).Ok?
             && Unused(ALL_MODELS, table.GetUsedLlm(opinionId).value) != []
             && forall i :: 0 <= i < |segs| ==> KnownKind(segs[i].1.kind)) ==> r.Reply?
    ensures r.Reply? ==>
      && table.GetUsedLlm(opinionId).Ok?
      && old(user.State()).(lastUsedLlm := user.lastUsedLlm) == user.State()
      && user.lastUsedLlm.Some?
      && disk.pickles == old(disk.pickles)[user.token := Intact(user.State())]
      && var model := user.lastUsedLlm.value;
         && model in ALL_MODELS && model !in table.GetUsedLlm(opinionId).value
         && |r.value| == |Colors(segs)|
         && forall k :: 0 <= k < |r.value| ==>
              && r.value[k].color == Colors(segs)[k]
              && r.value[k].segments == Group(segs, r.value[k].color)
              && r.value[k].argument == Answer(text, theme, r.value[k].segments, llms(model))
    ensures r.Reply? ==>
      && table.GetUsedLlm(opinionId).Ok?
      && var candidates := Unused(ALL_MODELS, table.GetUsedLlm(opinionId).value);
         |candidates| > 0 && user.lastUsedLlm == Some(candidates[pick % |candidates|])
  {
    if segs == [] || text == "" {
      return BadRequest;
    }
    var used := table.GetUsedLlm(opinionId);
    if used.Err? {
      return Raised(used.error);
    }
    var candidates := Unused(ALL_MODELS, used.value);
    if candidates == [] {
      return Raised(IndexError);
    }
    var model := candidates[pick % |candidates|];
    assert model in candidates;
    var groups := ProcessSegments(segs);
    GroupsKnownIff(segs, groups);
    var answers := AskModel(text, theme, groups, llms(model));
    if answers.Err? {
      return Raised(answers.error);
    }
    assert forall k :: 0 <= k < |groups| ==> groups[k].0 == Keys(groups)[k];
    ghost var before := user.State();
    user.SaveLastLlm(model, disk);
    assert user.State() == before.(lastUsedLlm := Some(model));
    r := Reply(answers.value);
  }
}
