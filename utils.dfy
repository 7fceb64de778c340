/**
  Request helpers (utils.py): grouping the segments of a submitted opinion by colour,
  assembling the per-type texts and the prompt sent to a language model, and reading
  the token from the Authorization header.
  */
module Utils {
  import opened Common

  /** One highlighted segment: its argumentative type, its text and its colour tag. */
  datatype Segment = Segment(kind: string, text: string, color: string)

  /** A JSON object of segments keyed by segment id, in key order. */
  type Segments = seq<(string, Segment)>

  /** What makes a sequence of pairs a JSON object: no key occurs twice. */
  predicate DistinctKeys(segs: Segments)
  {
    forall i, j :: 0 <= i < j < |segs| ==> segs[i].0 != segs[j].0
  }

  // ---------------------------------------------------------------------------
  // process_segments

  /** The colours of the segments, each once, in the order they first occur. */
  function Colors(segs: Segments): seq<string>
  {
    if segs == [] then []
    else
      var cs := Colors(segs[..|segs| - 1]);
      var c := segs[|segs| - 1].1.color;
      if c in cs then cs else cs + [c]
  }

  /** The segments of colour `c`, in their original order. */
  function Group(segs: Segments, c: string): Segments
  {
    if segs == [] then []
    else Group(segs[..|segs| - 1], c) + (if segs[|segs| - 1].1.color == c then [segs[|segs| - 1]] else [])
  }

  function Keys(groups: seq<(string, Segments)>): seq<string>
  {
    seq(|groups|, k requires 0 <= k < |groups| => groups[k].0)
  }

  predicate Distinct(s: seq<string>)
  {
    forall i, j :: 0 <= i < j < |s| ==> s[i] != s[j]
  }

  /**
    `segments_per_colors[color][segmentId] = segment` on an insertion-ordered
    `defaultdict(dict)`: the colour's group gets the segment at its end, and a colour
    not seen yet opens a new group at the end.
    */
  function AddToGroup(groups: seq<(string, Segments)>, entry: (string, Segment)): seq<(string, Segments)>
  {
    var c := entry.1.color;
    if c in Keys(groups) then
      seq(|groups|, k requires 0 <= k < |groups| =>
        if groups[k].0 == c then (c, groups[k].1 + [entry]) else groups[k])
    else groups + [(c, [entry])]
  }

  /** Adding a segment extends exactly the group of its colour, opening it if needed. */
  lemma AddToGroupSpec(groups: seq<(string, Segments)>, entry: (string, Segment))
    ensures var c := entry.1.color; var r := AddToGroup(groups, entry);
      && Keys(r) == (if c in Keys(groups) then Keys(groups) else Keys(groups) + [c])
      && (forall k :: 0 <= k < |groups| ==>
            r[k].1 == groups[k].1 + (if groups[k].0 == c then [entry] else []))
      && (c !in Keys(groups) ==> r[|groups|].1 == [entry])
  {
    var c := entry.1.color;
    var r := AddToGroup(groups, entry);
    if c in Keys(groups) {
      assert forall k :: 0 <= k < |r| ==> Keys(r)[k] == Keys(groups)[k];
    } else {
      assert forall k :: 0 <= k < |groups| ==> Keys(groups)[k] == groups[k].0;
      assert forall k :: 0 <= k < |groups| ==> groups[k].0 != c by {
        forall k | 0 <= k < |groups| ensures groups[k].0 != c {
          assert Keys(groups)[k] in Keys(groups);
        }
      }
      assert forall k :: 0 <= k < |groups| ==> r[k] == groups[k];
      assert |Keys(r)| == |Keys(groups) + [c]|;
      assert forall k :: 0 <= k < |r| ==> Keys(r)[k] == (Keys(groups) + [c])[k];
    }
  }

  /** The colour list never repeats a colour and holds exactly the colours that occur. */
  lemma {:induction false} ColorsSpec(segs: Segments)
    ensures Distinct(Colors(segs))
    ensures forall c :: c in Colors(segs) <==> exists i :: 0 <= i < |segs| && segs[i].1.color == c
    decreases |segs|
  {
    if segs != [] {
      var init := segs[..|segs| - 1];
      ColorsSpec(init);
      forall c ensures c in Colors(segs) <==> exists i :: 0 <= i < |segs| && segs[i].1.color == c {
        if exists i :: 0 <= i < |init| && init[i].1.color == c {
          var i :| 0 <= i < |init| && init[i].1.color == c;
          assert segs[i] == init[i];
        }
        if exists i :: 0 <= i < |segs| && segs[i].1.color == c {
          var i :| 0 <= i < |segs| && segs[i].1.color == c;
          if i < |init| { assert init[i] == segs[i]; }
        }
      }
    }
  }

  /**
    `process_segments`: one group per colour, in the order colours first occur, each
    holding that colour's segments under their ids in their original order.
    */
  method ProcessSegments(segs: Segments) returns (groups: seq<(string, Segments)>)
    requires DistinctKeys(segs)
    ensures Keys(groups) == Colors(segs)
    ensures forall k :: 0 <= k < |groups| ==> groups[k].1 == Group(segs, groups[k].0)
  {
    groups := [];
    var i := 0;
    while i < |segs|
      invariant 0 <= i <= |segs|
      invariant Keys(groups) == Colors(segs[..i])
      invariant forall k :: 0 <= k < |groups| ==> groups[k].1 == Group(segs[..i], groups[k].0)
    {
      GroupingStep(segs, i, groups);
      groups := AddToGroup(groups, segs[i]);
      i := i + 1;
    }
    assert segs[..i] == segs;
  }

  /** One turn of the grouping loop keeps the groups equal to `Colors` and `Group` of the prefix. */
  lemma GroupingStep(segs: Segments, i: nat, groups: seq<(string, Segments)>)
    requires i < |segs|
    requires Keys(groups) == Colors(segs[..i])
    requires forall k :: 0 <= k < |groups| ==> groups[k].1 == Group(segs[..i], groups[k].0)
    ensures Keys(AddToGroup(groups, segs[i])) == Colors(segs[..i + 1])
    ensures forall k :: 0 <= k < |AddToGroup(groups, segs[i])| ==>
      AddToGroup(groups, segs[i])[k].1 == Group(segs[..i + 1], AddToGroup(groups, segs[i])[k].0)
  {
    var c := segs[i].1.color;
    var prefix := segs[..i];
    assert segs[..i + 1][..i] == prefix;
    AddToGroupSpec(groups, segs[i]);
    var next := AddToGroup(groups, segs[i]);
    forall k | 0 <= k < |next|
      ensures next[k].1 == Group(segs[..i + 1], next[k].0)
    {
      var d := next[k].0;
      assert d == Keys(next)[k];
      assert Group(segs[..i + 1], d) == Group(prefix, d) + (if c == d then [segs[i]] else []);
      if k < |groups| {
        assert groups[k].0 == Keys(groups)[k];
      } else {
        UnseenColorGroup(prefix, c);
      }
    }
  }

  /** A colour that does not occur has an empty group. */
  lemma UnseenColorGroup(segs: Segments, c: string)
    requires c !in Colors(segs)
    ensures Group(segs, c) == []
  {
    ColorsSpec(segs);
    GroupMembership(segs, c);
  }

  /** A segment lies in the group of a colour exactly when that is its colour. */
  lemma {:induction false} GroupMembership(segs: Segments, c: string)
    ensures forall e :: e in Group(segs, c) <==> e in segs && e.1.color == c
    ensures (forall i :: 0 <= i < |segs| ==> segs[i].1.color != c) ==> Group(segs, c) == []
    decreases |segs|
  {
    if segs != [] {
      var init := segs[..|segs| - 1];
      GroupMembership(init, c);
      assert segs == init + [segs[|segs| - 1]];
    }
  }

  /** The number of groups is the number of distinct colours. */
  lemma GroupCount(segs: Segments)
    ensures |Colors(segs)| == |set i | 0 <= i < |segs| :: segs[i].1.color|
  {
    ColorsSpec(segs);
    var cs := Colors(segs);
    assert (set i | 0 <= i < |segs| :: segs[i].1.color) == (set c | c in cs);
    DistinctCard(cs);
  }

  /** A repetition-free sequence has as many elements as its set. */
  lemma {:induction false} DistinctCard(s: seq<string>)
    requires Distinct(s)
    ensures |set c | c in s| == |s|
  {
    if s != [] {
      var tail := s[1..];
      assert Distinct(tail) by {
        forall i, j | 0 <= i < j < |tail| ensures tail[i] != tail[j] { assert s[i + 1] != s[j + 1]; }
      }
      DistinctCard(tail);
      assert (set c | c in s) == {s[0]} + (set c | c in tail);
      assert s[0] !in tail by {
        forall j | 0 <= j < |tail| ensures tail[j] != s[0] { assert s[0] != s[j + 1]; }
      }
    }
  }

  /** Every segment sits in the group of its own colour and in no other group. */
  lemma SegmentInOneGroup(segs: Segments, groups: seq<(string, Segments)>, i: nat)
    requires i < |segs|
    requires Keys(groups) == Colors(segs)
    requires forall k :: 0 <= k < |groups| ==> groups[k].1 == Group(segs, groups[k].0)
    ensures exists k :: 0 <= k < |groups| && groups[k].0 == segs[i].1.color
    ensures forall k :: 0 <= k < |groups| ==> (segs[i] in groups[k].1 <==> groups[k].0 == segs[i].1.color)
  {
    ColorsSpec(segs);
    assert segs[i].1.color in Keys(groups);
    forall k | 0 <= k < |groups|
      ensures segs[i] in groups[k].1 <==> groups[k].0 == segs[i].1.color
    {
      GroupMembership(segs, groups[k].0);
    }
  }

  // ---------------------------------------------------------------------------
  // extract_argument

  const SEPARATOR: string := " [...] "

  /** The segment types `extract_argument` knows; any other raises `KeyError`. */
  const KINDS: set<string> := {"claim", "premise", "solution"}

  predicate KnownKind(kind: string)
  {
    kind in KINDS
  }

  /** The texts of the segments of type `kind`, in order. */
  function TextsOf(segs: Segments, kind: string): seq<string>
  {
    if segs == [] then []
    else TextsOf(segs[..|segs| - 1], kind)
         + (if segs[|segs| - 1].1.kind == kind then [segs[|segs| - 1].1.text] else [])
  }

  /**
    The texts skipped while they are empty, then the first non-empty one, then each
    following text preceded by the separator.
    */
  function Joined(ts: seq<string>): string
  {
    if ts == [] then ""
    else if ts[0] == "" then Joined(ts[1..])
    else ts[0] + Continued(ts[1..])
  }

  function Continued(ts: seq<string>): string
  {
    if ts == [] then "" else SEPARATOR + ts[0] + Continued(ts[1..])
  }

  lemma {:induction false} ContinuedSnoc(ts: seq<string>, t: string)
    ensures Continued(ts + [t]) == Continued(ts) + SEPARATOR + t
  {
    if ts != [] {
      assert (ts + [t])[1..] == ts[1..] + [t];
      ContinuedSnoc(ts[1..], t);
    } else {
      assert Continued([t]) == SEPARATOR + t + Continued([]);
    }
  }

  /**
    The accumulation step of `extract_argument`: the separator goes in before a text
    only when what is accumulated so far is not empty.
    */
  lemma {:induction false} JoinedSnoc(ts: seq<string>, t: string)
    ensures Joined(ts + [t]) == (if Joined(ts) == "" then "" else Joined(ts) + SEPARATOR) + t
  {
    if ts == [] {
      assert Joined([t]) == (if t == "" then "" else t + Continued([]));
    } else {
      assert (ts + [t])[1..] == ts[1..] + [t];
      if ts[0] == "" {
        JoinedSnoc(ts[1..], t);
      } else {
        ContinuedSnoc(ts[1..], t);
      }
    }
  }

  /** The joined text is empty exactly when every text is. */
  lemma {:induction false} JoinedEmpty(ts: seq<string>)
    ensures Joined(ts) == "" <==> forall i :: 0 <= i < |ts| ==> ts[i] == ""
  {
    if ts != [] {
      JoinedEmpty(ts[1..]);
      assert forall i :: 1 <= i < |ts| ==> ts[i] == ts[1..][i - 1];
    }
  }

  /**
    The three accumulated texts of `extract_argument`, keyed by type, after the segments
    in order: each segment of a known type grows that type's text by `Accumulated`.
    */
  function TypeTexts(segs: Segments): (r: map<string, string>)
    ensures r.Keys == KINDS
  {
    if segs == [] then map["claim" := "", "premise" := "", "solution" := ""]
    else
      var before := TypeTexts(segs[..|segs| - 1]);
      var last := segs[|segs| - 1].1;
      if last.kind in before then before[last.kind := Accumulated(before[last.kind], last.text)] else before
  }

  lemma TextsOfStep(segs: Segments, i: nat, kind: string)
    requires i < |segs|
    ensures TextsOf(segs[..i + 1], kind)
            == TextsOf(segs[..i], kind) + (if segs[i].1.kind == kind then [segs[i].1.text] else [])
  {
    assert segs[..i + 1][..i] == segs[..i];
  }

  /** The accumulated text of a type after one more segment text. */
  function Accumulated(acc: string, text: string): string
  {
    (if acc != "" then acc + SEPARATOR else acc) + text
  }

  /** One turn of the accumulation loop, for one type: only the segment's own type gains text. */
  lemma CollectStep(segs: Segments, i: nat, kind: string)
    requires i < |segs|
    ensures var before := Joined(TextsOf(segs[..i], kind));
      Joined(TextsOf(segs[..i + 1], kind))
      == if segs[i].1.kind == kind then Accumulated(before, segs[i].1.text) else before
  {
    TextsOfStep(segs, i, kind);
    if segs[i].1.kind == kind {
      JoinedSnoc(TextsOf(segs[..i], kind), segs[i].1.text);
    } else {
      assert TextsOf(segs[..i + 1], kind) == TextsOf(segs[..i], kind);
    }
  }

  /** Each type's accumulated text is its segments' texts joined as `Joined` says. */
  lemma {:induction false} TypeTextsSpec(segs: Segments)
    ensures forall t :: t in KINDS ==> TypeTexts(segs)[t] == Joined(TextsOf(segs, t))
    decreases |segs|
  {
    if segs != [] {
      var i := |segs| - 1;
      TypeTextsSpec(segs[..i]);
      assert segs[..i + 1] == segs;
      forall t | t in KINDS ensures TypeTexts(segs)[t] == Joined(TextsOf(segs, t)) {
        CollectStep(segs, i, t);
      }
    }
  }

  /** Whether every segment has one of the three known types, read from the back like `TextsOf`. */
  predicate AllKnown(segs: Segments)
  {
    segs == [] || (AllKnown(segs[..|segs| - 1]) && KnownKind(segs[|segs| - 1].1.kind))
  }

  lemma {:induction false} AllKnownSpec(segs: Segments)
    ensures AllKnown(segs) <==> forall j :: 0 <= j < |segs| ==> KnownKind(segs[j].1.kind)
    decreases |segs|
  {
    if segs != [] {
      var init := segs[..|segs| - 1];
      AllKnownSpec(init);
      assert forall j :: 0 <= j < |init| ==> init[j] == segs[j];
    }
  }

  /** A prefix free of unknown types, spelled out index by index on the whole sequence. */
  lemma KnownPrefix(segs: Segments, i: nat)
    requires i <= |segs| && AllKnown(segs[..i])
    ensures forall j :: 0 <= j < i ==> KnownKind(segs[j].1.kind)
  {
    AllKnownSpec(segs[..i]);
    assert forall j :: 0 <= j < i ==> segs[..i][j] == segs[j];
  }

  /** One turn of the accumulation loop: the map gains the segment's text, the prefix stays known. */
  lemma CollectTurn(segs: Segments, i: nat)
    requires i < |segs| && AllKnown(segs[..i]) && KnownKind(segs[i].1.kind)
    ensures var before := TypeTexts(segs[..i]); var kind := segs[i].1.kind;
      TypeTexts(segs[..i + 1]) == before[kind := Accumulated(before[kind], segs[i].1.text)]
    ensures AllKnown(segs[..i + 1])
  {
    assert segs[..i + 1][..i] == segs[..i];
  }

  /**
    The accumulation loop of `extract_argument`: each type's text is its segments' texts
    accumulated in order; the first segment of an unknown type raises `KeyError`.
    */
  method CollectTexts(segs: Segments) returns (r: Result<map<string, string>>)
    ensures r.Err? <==> exists i :: 0 <= i < |segs| && !KnownKind(segs[i].1.kind)
    ensures r.Err? ==> exists i :: 0 <= i < |segs| && !KnownKind(segs[i].1.kind)
                                   && r.error == KeyError(segs[i].1.kind)
                                   && forall j :: 0 <= j < i ==> KnownKind(segs[j].1.kind)
    ensures r.Ok? ==> r.value == TypeTexts(segs)
  {
    var texts := map["claim" := "", "premise" := "", "solution" := ""];
    assert segs[..0] == [];
    var i := 0;
    while i < |segs|
      invariant 0 <= i <= |segs|
      invariant AllKnown(segs[..i])
      invariant texts == TypeTexts(segs[..i])
    {
      var kind := segs[i].1.kind;
      if kind !in texts {
        KnownPrefix(segs, i);
        return Err(KeyError(kind));
      }
      CollectTurn(segs, i);
      var acc := texts[kind];
      if acc != "" {
        acc := acc + SEPARATOR;
      }
      texts := texts[kind := acc + segs[i].1.text];
      i := i + 1;
    }
    assert segs[..i] == segs;
    KnownPrefix(segs, i);
    r := Ok(texts);
  }

  /** The fixed parts of the prompt's opening, around the opinion text and its theme. */
  const PROMPT_OPENING: string := "Etant donnée l-opinion:\n\n    "
  const PROMPT_THEME: string := "\n    \n\n\n    sur le thème "
  const PROMPT_REQUEST: string := "\n    \n\n\n    Extrait, en une phrase, l'argument soujacent composé de:\n"
  const CLAIM_HEADING: string := "- affirmation(s): "
  const PREMISE_HEADING: string := "- argument(s): "
  const SOLUTION_HEADING: string := "- solution(s): "

  /** The fixed opening of the prompt, around the opinion text and its theme. */
  function Header(opinionText: string, theme: string): string
  {
    PROMPT_OPENING + opinionText + PROMPT_THEME + theme + PROMPT_REQUEST
  }

  /** The prompt line of one type: present only when the type's text is not empty. */
  function PromptLine(heading: string, text: string): string
  {
    if text == "" then "" else heading + text + "\n"
  }

  /** The prompt: the header, then claim, premise and solution lines in that order. */
  function Prompt(opinionText: string, theme: string, texts: map<string, string>): string
    requires "claim" in texts && "premise" in texts && "solution" in texts
  {
    Header(opinionText, theme)
    + PromptLine(CLAIM_HEADING, texts["claim"])
    + PromptLine(PREMISE_HEADING, texts["premise"])
    + PromptLine(SOLUTION_HEADING, texts["solution"])
  }

  /**
    The prompt starts with the header, and it is the bare header exactly when all three
    texts are empty: a type's line appears only when its text is non-empty.
    */
  lemma PromptShape(opinionText: string, theme: string, texts: map<string, string>)
    requires "claim" in texts && "premise" in texts && "solution" in texts
    ensures var p := Prompt(opinionText, theme, texts); var h := Header(opinionText, theme);
      && |p| >= |h| && p[..|h|] == h
      && (p == h <==> texts["claim"] == "" && texts["premise"] == "" && texts["solution"] == "")
  {
    var h := Header(opinionText, theme);
    var rest := PromptLine(CLAIM_HEADING, texts["claim"])
      + PromptLine(PREMISE_HEADING, texts["premise"])
      + PromptLine(SOLUTION_HEADING, texts["solution"]);
    assert Prompt(opinionText, theme, texts) == h + rest;
    assert (h + rest)[..|h|] == h;
  }

  /** The middle and the end of a three-part string. */
  lemma ThreeParts(a: string, b: string, c: string)
    ensures (a + b + c)[|a|..|a| + |b|] == b
    ensures (a + b + c)[|a + b + c| - |c|..] == c
  {
    assert (a + b + c)[|a|..|a| + |b|] == b;
    assert (a + b + c)[|a + b|..] == c;
  }

  /**
    A non-empty claim text gives the claim line right after the header, and a non-empty
    solution text gives the solution line at the very end of the prompt.
    */
  lemma PromptLines(opinionText: string, theme: string, texts: map<string, string>)
    requires "claim" in texts && "premise" in texts && "solution" in texts
    ensures var p := Prompt(opinionText, theme, texts); var h := Header(opinionText, theme);
      var line := CLAIM_HEADING + texts["claim"] + "\n";
      texts["claim"] != "" ==> |p| >= |h| + |line| && p[|h|..|h| + |line|] == line
    ensures var p := Prompt(opinionText, theme, texts);
      var line := SOLUTION_HEADING + texts["solution"] + "\n";
      texts["solution"] != "" ==> |p| >= |line| && p[|p| - |line|..] == line
  {
    var h := Header(opinionText, theme);
    var claim := PromptLine(CLAIM_HEADING, texts["claim"]);
    var middle := PromptLine(PREMISE_HEADING, texts["premise"]);
    var solution := PromptLine(SOLUTION_HEADING, texts["solution"]);
    assert Prompt(opinionText, theme, texts) == h + claim + (middle + solution);
    ThreeParts(h, claim, middle + solution);
    assert Prompt(opinionText, theme, texts) == (h + claim) + middle + solution;
    ThreeParts(h + claim, middle, solution);
  }

  /**
    `extract_argument`: the texts, the prompt, and the model's answer (`query`, an
    external call that may give nothing); an unknown segment type raises `KeyError`
    before the model is asked.
    */
  method ExtractArgument(opinionText: string, segs: Segments, theme: string, query: string -> Option<string>)
    returns (r: Result<Option<string>>)
    ensures r.Err? <==> exists i :: 0 <= i < |segs| && !KnownKind(segs[i].1.kind)
    ensures r.Err? <==> !AllKnown(segs)
    ensures r.Err? ==> r.error.KeyError?
    ensures r.Ok? ==> r.value == query(Prompt(opinionText, theme, TypeTexts(segs)))
  {
    AllKnownSpec(segs);
    var texts := CollectTexts(segs);
    if texts.Err? {
      return Err(texts.error);
    }
    var prompt := Prompt(opinionText, theme, texts.value);
    r := Ok(query(prompt));
  }

  // ---------------------------------------------------------------------------
  // get_token

  /** `s.split(" ")`: the pieces between single spaces, empty pieces included. */
  function Split(s: string): (parts: seq<string>)
    ensures |parts| >= 1
  {
    if s == [] then [""]
    else
      var rest := Split(s[1..]);
      if s[0] == ' ' then [""] + rest
      else [[s[0]] + rest[0]] + rest[1..]
  }

  /** No piece of a split contains the separator. */
  lemma {:induction false} SplitNoSpace(s: string)
    ensures forall i :: 0 <= i < |Split(s)| ==> ' ' !in Split(s)[i]
  {
    if s != [] {
      SplitNoSpace(s[1..]);
      var rest := Split(s[1..]);
      if s[0] != ' ' {
        assert ' ' !in [s[0]] + rest[0];
        assert forall i :: 1 <= i < |rest| ==> Split(s)[i] == rest[i];
      } else {
        assert forall i :: 1 <= i < |Split(s)| ==> Split(s)[i] == rest[i - 1];
      }
    }
  }

  /** The last piece of a split is a suffix of the string, at its start or just after a space. */
  lemma {:induction false} LastPiece(s: string)
    ensures |Split(s)| == 1 ==> Split(s)[0] == s
    ensures var t := Split(s)[|Split(s)| - 1];
      && |t| <= |s| && s[|s| - |t|..] == t && (|t| < |s| ==> s[|s| - |t| - 1] == ' ')
      && (|Split(s)| >= 2 ==> |t| < |s|)
  {
    if s != [] {
      var tail := s[1..];
      var rest := Split(tail);
      LastPiece(tail);
      var t := rest[|rest| - 1];
      if s[0] != ' ' && |rest| == 1 {
        assert Split(s) == [[s[0]] + rest[0]];
        assert s == [s[0]] + tail;
      } else {
        SplitLast(s);
        TailOfSuffix(s, t);
      }
    }
  }

  /** Unless the first character joins the only piece of the rest, the last piece comes from the rest. */
  lemma SplitLast(s: string)
    requires s != [] && (s[0] == ' ' || |Split(s[1..])| >= 2)
    ensures |Split(s)| >= 2 && Split(s)[|Split(s)| - 1] == Split(s[1..])[|Split(s[1..])| - 1]
  {
    var rest := Split(s[1..]);
    var parts := Split(s);
    if s[0] == ' ' {
      assert parts == [""] + rest;
      assert parts[|parts| - 1] == rest[|rest| - 1];
    } else {
      var tail := rest[1..];
      assert parts == [[s[0]] + rest[0]] + tail;
      assert parts[|parts| - 1] == tail[|tail| - 1];
    }
  }

  /** A suffix of `s[1..]` is a suffix of `s`, preceded in `s` by what precedes it there, or by `s[0]`. */
  lemma TailOfSuffix(s: string, t: string)
    requires s != [] && |t| <= |s| - 1 && s[1..][|s| - 1 - |t|..] == t
    requires |t| < |s| - 1 ==> s[1..][|s| - 1 - |t| - 1] == ' '
    requires |t| == |s| - 1 ==> s[0] == ' '
    ensures s[|s| - |t|..] == t && s[|s| - |t| - 1] == ' '
  {
    assert s[|s| - |t|..] == s[1..][|s| - 1 - |t|..];
  }

  /**
    `get_token`: no header gives no token; otherwise the last space-separated piece of
    the header, whatever precedes it (the `Bearer` scheme is not checked).
    */
  function GetToken(authorization: Option<string>): (r: Option<string>)
    ensures authorization.None? <==> r.None?
    ensures r.Some? ==> var h := authorization.value;
      && ' ' !in r.value
      && |r.value| <= |h| && h[|h| - |r.value|..] == r.value
      && (|r.value| < |h| ==> h[|h| - |r.value| - 1] == ' ')
  {
    match authorization
    case None => None
    case Some(h) =>
      LastPiece(h);
      SplitNoSpace(h);
      var parts := Split(h);
      Some(parts[|parts| - 1])
  }
}
