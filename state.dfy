/**
 * The stage ledger of a job record (pipeline/state.py).
 *
 * A draft is a JSON object; under its key `_pipeline_state` it carries a map
 * from stage name to an entry. `PipelineState` wraps one draft and updates
 * that map in place. Here the draft's other keys are the field `fields` and
 * the ledger is the field `ledger`; `AsDraft()` puts them back together.
 * Entry timestamps come from the clock and are passed in as `now`.
 */
module State {
  import opened Wrappers
  import opened Json
  import opened PyText

  /** The pipeline's stages, in the order `summary` lists them. */
  const STAGES: seq<string> := [
    "research", "draft", "broll", "voiceover", "whisper",
    "captions", "music", "assemble", "thumbnail", "upload"
  ]

  /**
   * One stage's record. Every field is optional because a ledger loaded from
   * disk may lack any of them; the entries this module writes always have a
   * status and a timestamp. A field present with a value of another JSON
   * type, or an entry that is not an object, has no representation here.
   */
  datatype Entry = Entry(
    status: Option<string>,
    timestamp: Option<string>,
    error: Option<string>,
    artifacts: Option<map<string, Json>>)

  type Ledger = map<string, Entry>

  /** A draft record: its ordinary keys, and the ledger if `_pipeline_state` is present. */
  datatype Draft = Draft(fields: map<string, Json>, pipelineState: Option<Ledger>)

  /** `state.get(stage, {}).get("status")` */
  function StatusOf(l: Ledger, stage: string): Option<string> {
    if stage in l then l[stage].status else None
  }

  /** The entry `complete_stage` writes: no error, artifacts only when some were given. */
  function DoneEntry(artifacts: Option<map<string, Json>>, now: string): Entry {
    Entry(Some("done"), Some(now), None,
          if artifacts.Some? && |artifacts.value| > 0 then artifacts else None)
  }

  /** The entry `fail_stage` writes: an error and no artifacts. */
  function FailedEntry(error: string, now: string): Entry {
    Entry(Some("failed"), Some(now), Some(error), None)
  }

  /** The marker `summary` shows for a status; a missing status counts as "pending". */
  function Marker(status: Option<string>): (m: char)
    ensures m == '+' <==> status == Some("done")
    ensures m == '!' <==> status == Some("failed")
    ensures m == ' ' <==> status == None || status == Some("pending")
    ensures m in "+! ?"
  {
    match status
    case None => ' '
    case Some(s) =>
      if s == "done" then '+' else if s == "failed" then '!' else if s == "pending" then ' ' else '?'
  }

  function SummaryLine(l: Ledger, stage: string): string {
    "  [" + [Marker(StatusOf(l, stage))] + "] " + stage
  }

  /** The lines of `summary()`, one per stage in `STAGES` order. */
  function SummaryLines(l: Ledger): seq<string> {
    seq(|STAGES|, i requires 0 <= i < |STAGES| => SummaryLine(l, STAGES[i]))
  }

  /**
   * Reading the summary back line by line gives exactly ten lines, the i-th
   * naming the i-th stage behind the marker of its status.
   */
  lemma SummaryReadBack(l: Ledger)
    ensures var lines := SplitOn(Join(SummaryLines(l), "\n"), '\n');
      && |lines| == 10
      && forall i :: 0 <= i < 10 ==>
           lines[i] == "  [" + [Marker(StatusOf(l, STAGES[i]))] + "] " + STAGES[i]
  {
    var ls := SummaryLines(l);
    forall i | 0 <= i < |ls| ensures '\n' !in ls[i] {
      StageFree(i);
      LineFree(Marker(StatusOf(l, STAGES[i])), STAGES[i]);
    }
    SplitOnJoinFree(ls, '\n');
  }

  lemma StageFree(i: nat)
    requires i < |STAGES|
    ensures '\n' !in STAGES[i]
  {
  }

  lemma LineFree(m: char, stage: string)
    requires m != '\n' && '\n' !in stage
    ensures '\n' !in "  [" + [m] + "] " + stage
  {
    assert '\n' !in "  [" + [m];
  }

  class PipelineState {
    /** The draft's keys other than `_pipeline_state`. */
    var fields: map<string, Json>
    /** The draft's `_pipeline_state`. */
    var ledger: Ledger

    /** Wraps a draft, installing an empty ledger when it has none and keeping an existing one. */
    constructor (draft: Draft)
      ensures fields == draft.fields
      ensures draft.pipelineState.None? ==> ledger == map[]
      ensures draft.pipelineState.Some? ==> ledger == draft.pipelineState.value
      ensures AsDraft().pipelineState.Some?
    {
      fields := draft.fields;
      ledger := if draft.pipelineState.None? then map[] else draft.pipelineState.value;
    }

    /** The wrapped draft as it now stands. */
    function AsDraft(): Draft
      reads this
    {
      Draft(fields, Some(ledger))
    }

    /** `is_done`: the stage has an entry whose status is exactly "done". */
    function IsDone(stage: string): (r: bool)
      reads this
      ensures r <==> stage in ledger && ledger[stage].status == Some("done")
    {
      StatusOf(ledger, stage) == Some("done")
    }

    /** `is_failed`: the stage has an entry whose status is exactly "failed". */
    function IsFailed(stage: string): (r: bool)
      reads this
      ensures r <==> stage in ledger && ledger[stage].status == Some("failed")
      ensures r ==> !IsDone(stage)
    {
      StatusOf(ledger, stage) == Some("failed")
    }

    /** `get_artifact`: the stored value when the entry's artifacts hold the key, whatever the status. */
    function GetArtifact(stage: string, key: string, default: Json): (r: Json)
      reads this
      ensures var held := stage in ledger && ledger[stage].artifacts.Some? && key in ledger[stage].artifacts.value;
        (held ==> r == ledger[stage].artifacts.value[key]) && (!held ==> r == default)
    {
      if stage in ledger && ledger[stage].artifacts.Some? && key in ledger[stage].artifacts.value
      then ledger[stage].artifacts.value[key]
      else default
    }

    /** `complete_stage`: replaces the stage's entry wholesale and touches nothing else. */
    method CompleteStage(stage: string, artifacts: Option<map<string, Json>>, now: string)
      modifies this
      ensures ledger == old(ledger)[stage := DoneEntry(artifacts, now)]
      ensures fields == old(fields)
      ensures IsDone(stage) && !IsFailed(stage)
      ensures ledger[stage].error.None?
      ensures ledger[stage].artifacts.Some? <==> artifacts.Some? && |artifacts.value| > 0
      ensures forall k, d :: artifacts.Some? && k in artifacts.value ==> GetArtifact(stage, k, d) == artifacts.value[k]
      ensures forall t :: t != stage ==> (t in ledger <==> t in old(ledger))
      ensures forall t :: t != stage && t in ledger ==> ledger[t] == old(ledger)[t]
    {
      ledger := ledger[stage := DoneEntry(artifacts, now)];
    }

    /** `fail_stage`: records the error, drops any artifacts, and touches nothing else. */
    method FailStage(stage: string, error: string, now: string)
      modifies this
      ensures ledger == old(ledger)[stage := FailedEntry(error, now)]
      ensures fields == old(fields)
      ensures IsFailed(stage) && !IsDone(stage)
      ensures ledger[stage].error == Some(error)
      ensures forall k, d :: GetArtifact(stage, k, d) == d
      ensures forall t :: t != stage ==> (t in ledger <==> t in old(ledger))
      ensures forall t :: t != stage && t in ledger ==> ledger[t] == old(ledger)[t]
    {
      ledger := ledger[stage := FailedEntry(error, now)];
    }

    /** `reset`: an empty ledger, so every stage is pending again. */
    method Reset()
      modifies this
      ensures ledger == map[]
      ensures fields == old(fields)
      ensures forall s :: !IsDone(s) && !IsFailed(s)
    {
      ledger := map[];
    }

    /** `summary`: one line per stage, in `STAGES` order, joined with newlines. */
    method Summary() returns (text: string)
      ensures text == Join(SummaryLines(ledger), "\n")
    {
      var lines: seq<string> := [];
      for i := 0 to |STAGES|
        invariant lines == SummaryLines(ledger)[..i]
      {
        var status := StatusOf(ledger, STAGES[i]);
        var marker := match status
          case Some("done") => '+'
          case Some("failed") => '!'
          case None => ' '
          case Some("pending") => ' '
          case _ => '?';
        lines := lines + ["  [" + [marker] + "] " + STAGES[i]];
      }
      assert lines == SummaryLines(ledger);
      text := Join(lines, "\n");
    }
  }
}
