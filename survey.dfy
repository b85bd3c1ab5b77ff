/**
 * The values the survey passes around: slides and their form fields, image
 * conditions, form answers, the comparison log and the final result, and the
 * JSON shape in which results are persisted.
 */
module Survey {
  import opened Wrappers

  /** One image of a scene: its file name and the URL it is served from. */
  datatype Condition = Condition(name: string, url: string)

  /** The two conditions shown for one decision: (new item, pivot). */
  type Pair = (Condition, Condition)

  /** A form answer: text, number, email, date and select inputs give a string; a checkbox gives a boolean. */
  datatype Answer = Text(s: string) | Checked(b: bool)

  type Responses = map<string, Answer>

  /** JavaScript truthiness of `responses[name]`: a missing key, "" and false are falsy. */
  predicate Truthy(a: Option<Answer>): (t: bool)
    ensures !t <==> a == None || a == Some(Text("")) || a == Some(Checked(false))
  {
    match a
    case None => false
    case Some(Text(s)) => s != ""
    case Some(Checked(b)) => b
  }

  function Lookup(responses: Responses, name: string): Option<Answer> {
    if name in responses then Some(responses[name]) else None
  }

  /** JavaScript's String(v) on an answer. */
  function AnswerString(a: Answer): (r: string)
    ensures a.Text? ==> r == a.s
    ensures a.Checked? ==> r == "true" || r == "false"
    ensures r == "" <==> a == Text("")
  {
    match a
    case Text(s) => s
    case Checked(b) => if b then "true" else "false"
  }

  datatype FieldKind = TextInput | NumberInput | EmailInput | DateInput | SelectInput | CheckboxInput

  /** `dependsOn`: the field is shown only while `responses[field] === value`. */
  datatype Dependency = Dependency(field: string, value: Answer)

  datatype Field = Field(
    name: string,
    labelText: string,
    kind: FieldKind,
    required: bool,
    anonymous: bool,
    defaultToday: bool,
    dependsOn: Option<Dependency>)

  /** The renderer hides a dependent field unless its controlling answer has the declared value. */
  predicate Hidden(f: Field, responses: Responses): (h: bool)
    ensures f.dependsOn.None? ==> !h
    ensures (f.dependsOn.Some? && f.dependsOn.value.field in responses
             && responses[f.dependsOn.value.field] == f.dependsOn.value.value) ==> !h
    ensures f.dependsOn.Some? && f.dependsOn.value.field !in responses ==> h
    ensures (f.dependsOn.Some? && f.dependsOn.value.field in responses
             && responses[f.dependsOn.value.field] != f.dependsOn.value.value) ==> h
  {
    f.dependsOn.Some? && Lookup(responses, f.dependsOn.value.field) != Some(f.dependsOn.value.value)
  }

  datatype SlideKind = Compare | Form | Info

  /**
   * A slide. Compare slides use `sceneId` and `conditions`, form slides use
   * `fields`; `timer` is the configured delay in seconds (0 when there is none).
   * Text and image content blocks of information slides are presentation only.
   */
  datatype Slide = Slide(
    kind: SlideKind,
    title: string,
    sceneId: string,
    conditions: seq<Condition>,
    fields: seq<Field>,
    timer: nat)

  const PracticeTitle := "Practice Comparison"
  const RealTitle := "Which image has better quality?"

  /** One decision, logged in engine order (new item left, pivot right). */
  datatype LogEntry = LogEntry(sceneId: string, left: string, right: string, winner: string, durationMs: int)

  /** The reduce over the log that gives `compareDurationMs`. */
  function TotalDuration(log: seq<LogEntry>): (total: int)
    ensures log == [] ==> total == 0
    ensures (forall k :: 0 <= k < |log| ==> log[k].durationMs >= 0) ==>
      total >= 0 && forall k :: 0 <= k < |log| ==> log[k].durationMs <= total
  {
    if log == [] then 0 else TotalDuration(log[..|log| - 1]) + log[|log| - 1].durationMs
  }

  lemma {:induction false} TotalDurationAppend(log: seq<LogEntry>, more: seq<LogEntry>)
    ensures TotalDuration(log + more) == TotalDuration(log) + TotalDuration(more)
    decreases |more|
  {
    if more != [] {
      assert (log + more)[..|log + more| - 1] == log + more[..|more| - 1];
      TotalDurationAppend(log, more[..|more| - 1]);
    } else {
      assert log + more == log;
    }
  }

  /** `timestamp` is the survey start time; its ISO-8601 rendering is not modelled. */
  datatype Timings = Timings(surveyDurationMs: int, compareDurationMs: int, timestamp: int)

  datatype FinalResult = FinalResult(
    responses: Responses,
    anonymous: map<string, string>,
    rankings: map<string, seq<Condition>>,
    timings: Timings,
    comparisons: seq<LogEntry>)

  /** A JSON value as the store receives it; `Undefined` is JavaScript's undefined. */
  datatype Json =
    | Undefined
    | Null
    | Bool(b: bool)
    | Num(n: int)
    | Str(s: string)
    | Arr(items: seq<Json>)
    | Obj(fields: map<string, Json>)
}
