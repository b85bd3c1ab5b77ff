/**
 * The slide controller of src/components/SlideRenderer.js.
 *
 * The component's state and refs become the fields of `Controller`; each
 * handler becomes a method. React runs the index-keyed effects (timer, date
 * defaults, sorter set-up, display order, the start and finalize callbacks)
 * after every change of slide; here the handlers that change the slide set
 * the ghost flag `entryPending`, and `Enter` runs those effects, each on
 * the state of the render that triggered it. Clock readings, Math.random
 * draws and the SHA-256 digest are parameters.
 */
module Renderer {
  import opened Wrappers
  import opened Strings
  import opened Survey
  import Sorter

  // ---------------------------------------------------------------------------
  // Display order

  /** The display effect: the pair as the engine gives it when the draw is below 0.5, else swapped. */
  function DisplayOrder(pair: Option<Pair>, coin: real): (d: Option<Pair>)
    ensures d.None? <==> pair.None?
    ensures pair.Some? ==> SameTwo(d.value, pair.value)
  {
    match pair
    case None => None
    case Some(p) => if coin < 0.5 then Some(p) else Some((p.1, p.0))
  }

  /** d shows the two conditions of p, in either order. */
  predicate SameTwo(d: Pair, p: Pair) {
    d == p || d == (p.1, p.0)
  }

  /** Whatever the order shown, a condition clicked on screen is one of the engine's pair. */
  lemma ShownIsOffered(pair: Pair, coin: real, chosen: Condition)
    requires chosen == DisplayOrder(Some(pair), coin).value.0 || chosen == DisplayOrder(Some(pair), coin).value.1
    ensures chosen == pair.0 || chosen == pair.1
  {
  }

  // ---------------------------------------------------------------------------
  // Date defaults

  /** Names of the date fields among fields[..n] that default to today and have no truthy answer. */
  function DefaultedNames(fields: seq<Field>, responses: Responses, n: nat): set<string>
    requires n <= |fields|
  {
    set j | 0 <= j < n && fields[j].kind == DateInput && fields[j].defaultToday
                        && !Truthy(Lookup(responses, fields[j].name)) :: fields[j].name
  }

  /** The responses after the date-default effect on a form slide with these fields. */
  function DateDefaults(fields: seq<Field>, responses: Responses, today: string): (r: Responses)
    ensures responses.Keys <= r.Keys
    ensures forall k :: k in responses && Truthy(Some(responses[k])) ==> r[k] == responses[k]
    ensures forall k :: k in r && k !in DefaultedNames(fields, responses, |fields|) ==> k in responses && r[k] == responses[k]
    ensures forall k :: k in DefaultedNames(fields, responses, |fields|) ==> k in r && r[k] == Text(today)
  {
    var names := DefaultedNames(fields, responses, |fields|);
    map k | k in responses.Keys + names :: if k in names then Text(today) else responses[k]
  }

  /** A second run of the effect changes nothing: today's date is a truthy answer. */
  lemma DateDefaultsIdempotent(fields: seq<Field>, responses: Responses, today: string)
    requires today != ""
    ensures DateDefaults(fields, DateDefaults(fields, responses, today), today) == DateDefaults(fields, responses, today)
  {
    var r := DateDefaults(fields, responses, today);
    var names := DefaultedNames(fields, responses, |fields|);
    assert DefaultedNames(fields, r, |fields|) == {} by {
      forall j | 0 <= j < |fields| && fields[j].kind == DateInput && fields[j].defaultToday
        ensures Truthy(Lookup(r, fields[j].name))
      {
        if !Truthy(Lookup(responses, fields[j].name)) {
          assert fields[j].name in names;
        }
      }
    }
  }

  /** The effect's loop: collect the updates, then merge them over the responses. */
  method ApplyDateDefaults(fields: seq<Field>, responses: Responses, today: string) returns (r: Responses)
    ensures r == DateDefaults(fields, responses, today)
  {
    var updates: map<string, Answer> := map[];
    for j := 0 to |fields|
      invariant updates == map k | k in DefaultedNames(fields, responses, j) :: Text(today)
    {
      var f := fields[j];
      if f.kind == DateInput && f.defaultToday && !Truthy(Lookup(responses, f.name)) {
        updates := updates[f.name := Text(today)];
      }
      assert DefaultedNames(fields, responses, j + 1)
        == DefaultedNames(fields, responses, j)
           + (if f.kind == DateInput && f.defaultToday && !Truthy(Lookup(responses, f.name)) then {f.name} else {});
    }
    r := responses + updates;
  }

  // ---------------------------------------------------------------------------
  // Required fields

  /** A required field whose answer is falsy stops the form. */
  predicate Blocks(f: Field, responses: Responses) {
    f.required && !Truthy(Lookup(responses, f.name))
  }

  /** The label of the first field that stops the form, if any. */
  function FirstMissing(fields: seq<Field>, responses: Responses): (r: Option<string>)
    ensures r.None? ==> forall j :: 0 <= j < |fields| ==> !Blocks(fields[j], responses)
    ensures fields != [] && Blocks(fields[0], responses) ==> r == Some(fields[0].labelText)
  {
    if fields == [] then None
    else if Blocks(fields[0], responses) then Some(fields[0].labelText)
    else FirstMissing(fields[1..], responses)
  }

  /**
   * The form may proceed exactly when no field blocks; otherwise the alert
   * names a blocking field with none before it.
   */
  lemma {:induction false} FirstMissingIsFirst(fields: seq<Field>, responses: Responses)
    ensures FirstMissing(fields, responses).None? <==> forall j :: 0 <= j < |fields| ==> !Blocks(fields[j], responses)
    ensures FirstMissing(fields, responses).Some? ==>
      exists j :: 0 <= j < |fields| && Blocks(fields[j], responses)
                  && FirstMissing(fields, responses) == Some(fields[j].labelText)
                  && forall i :: 0 <= i < j ==> !Blocks(fields[i], responses)
  {
    if fields != [] && !Blocks(fields[0], responses) {
      FirstMissingIsFirst(fields[1..], responses);
      if FirstMissing(fields, responses).Some? {
        var j :| 0 <= j < |fields[1..]| && Blocks(fields[1..][j], responses)
                 && FirstMissing(fields[1..], responses) == Some(fields[1..][j].labelText)
                 && forall i :: 0 <= i < j ==> !Blocks(fields[1..][i], responses);
        assert fields[j + 1] == fields[1..][j];
        forall i | 0 <= i < j + 1 ensures !Blocks(fields[i], responses) {
          if i > 0 {
            assert fields[i] == fields[1..][i - 1];
          }
        }
      }
      forall j | 0 <= j < |fields| && j > 0 ensures fields[j] == fields[1..][j - 1] {
      }
    } else if fields != [] {
      assert Blocks(fields[0], responses);
    }
  }

  /**
   * A required field hidden by its dependsOn condition still stops the form
   * when its answer is falsy: the check runs over every field of the slide.
   */
  lemma HiddenRequiredBlocks(fields: seq<Field>, responses: Responses, j: int)
    requires 0 <= j < |fields| && fields[j].required && Hidden(fields[j], responses)
    requires !Truthy(Lookup(responses, fields[j].name))
    ensures FirstMissing(fields, responses).Some?
  {
    FirstMissingIsFirst(fields, responses);
    assert Blocks(fields[j], responses);
  }

  /**
   * The browser's own check when a form is submitted, before onSubmit runs.
   * Every field the form shows renders a control that carries `required` when
   * the field is required, and that control's value is empty (an unchecked
   * box, an empty input or select) exactly when the answer is falsy. Hidden
   * fields render nothing, so the browser does not check them.
   */
  predicate SubmitBlocked(fields: seq<Field>, responses: Responses) {
    fields != [] && ((Blocks(fields[0], responses) && !Hidden(fields[0], responses)) || SubmitBlocked(fields[1..], responses))
  }

  /** The browser stops the submit exactly when some shown required field is unanswered. */
  lemma {:induction false} SubmitBlockedIff(fields: seq<Field>, responses: Responses)
    ensures SubmitBlocked(fields, responses) <==>
      exists j :: 0 <= j < |fields| && Blocks(fields[j], responses) && !Hidden(fields[j], responses)
  {
    if fields != [] {
      SubmitBlockedIff(fields[1..], responses);
      forall j | 1 <= j < |fields| ensures fields[j] == fields[1..][j - 1] {
      }
    }
  }

  /**
   * Once the browser lets the submit through, handleFormNext can alert only
   * about a required field that the form hides, which the respondent cannot
   * fill in without first changing the answer it depends on.
   */
  lemma AlertOnlyForHidden(fields: seq<Field>, responses: Responses)
    requires !SubmitBlocked(fields, responses)
    ensures FirstMissing(fields, responses).Some? ==>
      exists j :: 0 <= j < |fields| && Blocks(fields[j], responses) && Hidden(fields[j], responses)
                  && FirstMissing(fields, responses) == Some(fields[j].labelText)
  {
    FirstMissingIsFirst(fields, responses);
    SubmitBlockedIff(fields, responses);
  }

  /** handleFormNext's loop over the fields. */
  method MissingRequired(fields: seq<Field>, responses: Responses) returns (missing: Option<string>)
    ensures missing == FirstMissing(fields, responses)
  {
    var k := 0;
    while k < |fields|
      invariant 0 <= k <= |fields|
      invariant FirstMissing(fields, responses) == FirstMissing(fields[k..], responses)
    {
      assert fields[k..][1..] == fields[k + 1..];
      if fields[k].required && !Truthy(Lookup(responses, fields[k].name)) {
        return Some(fields[k].labelText);
      }
      k := k + 1;
    }
    return None;
  }

  // ---------------------------------------------------------------------------
  // Finalize and anonymize

  /** Field j of slide k is a form field marked anonymous. */
  predicate AnonymousAt(slides: seq<Slide>, k: int, j: int) {
    0 <= k < |slides| && slides[k].kind == Form && 0 <= j < |slides[k].fields| && slides[k].fields[j].anonymous
  }

  /** Some form slide has an anonymous field of this name. */
  ghost predicate IsAnonymous(slides: seq<Slide>, name: string) {
    exists k, j :: AnonymousAt(slides, k, j) && slides[k].fields[j].name == name
  }

  /** The anonFields loop over the slides and their fields. */
  method CollectAnonFields(slides: seq<Slide>) returns (names: set<string>)
    ensures forall name :: name in names <==> IsAnonymous(slides, name)
  {
    names := {};
    for k := 0 to |slides|
      invariant forall name :: name in names <==>
        exists k', j :: k' < k && AnonymousAt(slides, k', j) && slides[k'].fields[j].name == name
    {
      if slides[k].kind == Form {
        var fields := slides[k].fields;
        for j := 0 to |fields|
          invariant forall name :: name in names <==>
            (exists k', j' :: k' < k && AnonymousAt(slides, k', j') && slides[k'].fields[j'].name == name)
            || (exists j' :: j' < j && AnonymousAt(slides, k, j') && fields[j'].name == name)
        {
          if fields[j].anonymous {
            assert AnonymousAt(slides, k, j);
            names := names + {fields[j].name};
          }
        }
      }
    }
  }

  /**
   * The loop over the responses: an anonymous field's answer is replaced by
   * the hash of its string form, every other answer is kept as it is, and
   * each answer lands on exactly one side.
   */
  method Anonymize(responses: Responses, anonNames: set<string>, digest: string -> string)
    returns (safe: Responses, anon: map<string, string>)
    ensures safe.Keys == responses.Keys - anonNames
    ensures anon.Keys == responses.Keys * anonNames
    ensures forall k :: k in safe ==> safe[k] == responses[k]
    ensures forall k :: k in anon ==> anon[k] == Sha256(digest, AnswerString(responses[k]))
  {
    safe, anon := map[], map[];
    var todo := responses.Keys;
    while todo != {}
      invariant todo <= responses.Keys
      invariant Split(responses, anonNames, digest, todo, safe, anon)
      decreases todo
    {
      var k :| k in todo;
      safe, anon := Sort(responses, anonNames, digest, todo, k, safe, anon);
      todo := todo - {k};
    }
    assert safe.Keys == responses.Keys - anonNames;
    assert anon.Keys == responses.Keys * anonNames;
  }

  /**
   * Anonymize's loop invariant: every answer outside `todo` is on exactly one
   * side, hashed when its field is anonymous and in clear otherwise.
   */
  ghost predicate Split(responses: Responses, anonNames: set<string>, digest: string -> string,
                        todo: set<string>, safe: Responses, anon: map<string, string>)
  {
    && (forall k :: k in safe <==> k in responses && k !in todo && k !in anonNames)
    && (forall k :: k in anon <==> k in responses && k !in todo && k in anonNames)
    && (forall k :: k in safe ==> safe[k] == responses[k])
    && (forall k :: k in anon ==> anon[k] == Sha256(digest, AnswerString(responses[k])))
  }

  /** One turn of the loop in Anonymize: key k goes to exactly one side. */
  method Sort(responses: Responses, anonNames: set<string>, digest: string -> string, todo: set<string>,
              k: string, safe: Responses, anon: map<string, string>)
    returns (safe': Responses, anon': map<string, string>)
    requires k in todo && todo <= responses.Keys
    requires Split(responses, anonNames, digest, todo, safe, anon)
    ensures Split(responses, anonNames, digest, todo - {k}, safe', anon')
  {
    if k in anonNames {
      safe', anon' := safe, anon[k := Sha256(digest, AnswerString(responses[k]))];
    } else {
      safe', anon' := safe[k := responses[k]], anon;
    }
  }

  /** The result object the finalize effect hands to onComplete. */
  method BuildResult(slides: seq<Slide>, responses: Responses, rankings: map<string, seq<Condition>>,
                     log: seq<LogEntry>, surveyStart: int, end: int, digest: string -> string)
    returns (result: FinalResult)
    ensures ResultFits(result, slides, responses, rankings, log, surveyStart, end, digest)
  {
    var anonNames := CollectAnonFields(slides);
    var safe, anon := Anonymize(responses, anonNames, digest);
    result := FinalResult(safe, anon, rankings, Timings(end - surveyStart, TotalDuration(log), surveyStart), log);
  }

  /**
   * What the finalize effect promises about its result: the answers of
   * anonymous fields appear only hashed, all others only in clear, the
   * rankings and the log are passed on, and the compare time is the sum of
   * the logged decision times.
   */
  ghost predicate ResultFits(result: FinalResult, slides: seq<Slide>, responses: Responses,
                             rankings: map<string, seq<Condition>>, log: seq<LogEntry>,
                             surveyStart: int, end: int, digest: string -> string)
  {
    && (forall k :: k in result.responses <==> k in responses && !IsAnonymous(slides, k))
    && (forall k :: k in result.anonymous <==> k in responses && IsAnonymous(slides, k))
    && (forall k :: k in result.responses ==> result.responses[k] == responses[k])
    && (forall k :: k in result.anonymous ==> result.anonymous[k] == Sha256(digest, AnswerString(responses[k])))
    && result.rankings == rankings
    && result.comparisons == log
    && result.timings == Timings(end - surveyStart, TotalDuration(log), surveyStart)
  }

  /**
   * `engine.record(chosen)`: the respondent's choice is the winner. Choosing
   * the new item keeps the lower half of the window, choosing the pivot the
   * upper half, and an emptied window places the item. A returned pair is the
   * sorter's outstanding one, and no pair means every item is placed.
   */
  method RecordAnswer(s: Sorter.BinarySorter<Condition>, chosen: Condition) returns (next: Option<Pair>)
    requires s.Searching()
    modifies s
    ensures Sorter.Narrowed(s.items, old(s.sorted), old(s.i), old(s.lo), old(s.hi), old(s.mid), chosen,
                            s.sorted, s.i, s.lo, s.hi)
    ensures s.asked == old(s.asked) + 1
    ensures next.Some? <==> s.Searching()
    ensures next.Some? ==> next.value == s.Current()
    ensures next.None? ==> multiset(s.sorted) == multiset(s.items)
    ensures s.i == old(s.i) || s.i == old(s.i) + 1
    ensures s.i == old(s.i) ==> s.hi - s.lo < old(s.hi) - old(s.lo)
  {
    ghost var prev, at, lo0, hi0, mid0 := s.sorted, s.i, s.lo, s.hi, s.mid;
    next := s.Record(chosen);
    Sorter.AnsweredNarrows(s, prev, at, lo0, hi0, mid0, chosen, next);
  }

  // ---------------------------------------------------------------------------
  // The controller

  class Controller {
    const slides: seq<Slide>
    /** The index of the current slide; |slides| is the thank-you page. */
    var idx: nat
    var responses: Responses
    /** The pair as the sorter gives it: (new item, pivot). */
    var pair: Option<Pair>
    /** The pair in the order it is shown. */
    var displayPair: Option<Pair>
    var sorter: Sorter.BinarySorter?<Condition>
    var log: seq<LogEntry>
    var rankings: map<string, seq<Condition>>
    var started: bool
    var completed: bool
    var canProceed: bool
    const surveyStart: int
    var trialStart: int
    /** The slide changed and its effects have not run yet. */
    ghost var entryPending: bool

    /** On a comparison slide with its effects run, the pair is the sorter's outstanding pair. */
    ghost predicate Valid()
      reads this, sorter
    {
      && idx <= |slides|
      && (!entryPending && idx < |slides| && slides[idx].kind == Compare ==>
            && sorter != null && sorter.items == slides[idx].conditions
            && (pair.None? <==> |slides[idx].conditions| < 2)
            && (pair.None? ==> displayPair.None?)
            && (pair.Some? ==>
                  && sorter.Searching() && pair.value == sorter.Current()
                  && displayPair.Some? && SameTwo(displayPair.value, pair.value)))
    }

    /** The current slide, if idx is not past the end. */
    ghost predicate On(kind: SlideKind)
      reads this
    {
      !entryPending && idx < |slides| && slides[idx].kind == kind
    }

    /** The comparison view offers `chosen`. */
    ghost predicate CanChoose(chosen: Condition)
      reads this
    {
      On(Compare) && displayPair.Some? && (chosen == displayPair.value.0 || chosen == displayPair.value.1)
    }

    /** The Next button of an information slide is enabled. */
    ghost predicate CanNext()
      reads this
    {
      On(Info) && canProceed
    }

    /** The submit button of a form slide is enabled. */
    ghost predicate CanFormNext()
      reads this
    {
      On(Form) && canProceed
    }

    /** The Back button is shown and enabled: not on the first slide, not right after a comparison. */
    ghost predicate CanBack(): (b: bool)
      reads this
      ensures b ==> 0 < idx < |slides| && slides[idx - 1].kind != Compare
      ensures CanNext() && 0 < idx && slides[idx - 1].kind != Compare ==> b
    {
      On(Info) && idx > 0 && slides[idx - 1].kind != Compare && !(slides[idx].timer > 0 && !canProceed)
    }

    constructor (slides: seq<Slide>, surveyStart: int)
      ensures this.slides == slides && this.surveyStart == surveyStart
      ensures idx == 0 && responses == map[] && pair.None? && displayPair.None? && sorter == null
      ensures log == [] && rankings == map[] && !started && !completed && canProceed && trialStart == 0
      ensures entryPending && Valid()
    {
      this.slides := slides;
      this.surveyStart := surveyStart;
      idx := 0;
      responses := map[];
      pair := None;
      displayPair := None;
      sorter := null;
      log := [];
      rankings := map[];
      started := false;
      completed := false;
      canProceed := true;
      trialStart := 0;
      entryPending := true;
    }

    /** The start effect fires here: first comparison slide that is not a practice one. */
    ghost predicate StartsSurvey()
      reads this
    {
      !started && idx < |slides| && slides[idx].kind == Compare && slides[idx].title != PracticeTitle
    }

    /**
     * The effects that follow a change of slide: the timer gate, the date
     * defaults, the sorter for a comparison slide and the display order of its
     * first pair, the one-time start callback and the one-time finalize
     * callback. The callbacks see the responses as they were before the date
     * defaults, as the component's state updates only show on the next render;
     * apart from that the effects touch disjoint state, so the order in which
     * they are applied below does not matter.
     */
    method Enter(today: string, now: int, coin: real, digest: string -> string)
      returns (onStart: Option<Responses>, onComplete: Option<FinalResult>)
      requires Valid() && entryPending
      modifies this
      ensures Valid() && !entryPending
      ensures idx == old(idx) && log == old(log) && rankings == old(rankings)
      ensures canProceed == (idx == |slides| || slides[idx].timer == 0)
      ensures responses == if idx < |slides| && slides[idx].kind == Form
        then DateDefaults(slides[idx].fields, old(responses), today) else old(responses)
      ensures idx < |slides| && slides[idx].kind == Compare ==>
        var conds := slides[idx].conditions;
        && fresh(sorter) && trialStart == now
        && pair == (if |conds| >= 2 then Some((conds[1], conds[0])) else None)
        && displayPair == DisplayOrder(pair, coin)
      ensures !(idx < |slides| && slides[idx].kind == Compare) ==>
        sorter == old(sorter) && pair == old(pair) && displayPair == old(displayPair) && trialStart == old(trialStart)
      ensures onStart.Some? <==> old(StartsSurvey())
      ensures onStart.Some? ==> onStart.value == old(responses)
      ensures started == (old(started) || old(StartsSurvey()))
      ensures onComplete.Some? <==> idx == |slides| && !old(completed)
      ensures onComplete.Some? ==>
        ResultFits(onComplete.value, slides, old(responses), rankings, log, surveyStart, now, digest)
      ensures completed == (old(completed) || onComplete.Some?)
    {
      SetGate();
      onStart := FireStart(responses);
      onComplete := Finalize(responses, now, digest);
      EnterForm(today);
      EnterCompare(now, coin);
    }

    /** Effect 0: a slide with a timer keeps its buttons disabled until the timer runs out. */
    method SetGate()
      requires idx <= |slides|
      modifies this`canProceed
      ensures canProceed == (idx == |slides| || slides[idx].timer == 0)
    {
      canProceed := idx == |slides| || slides[idx].timer == 0;
    }

    /** Effect 1: today's date for the unanswered date fields of a form slide. */
    method EnterForm(today: string)
      requires idx <= |slides|
      modifies this`responses
      ensures responses == if idx < |slides| && slides[idx].kind == Form
        then DateDefaults(slides[idx].fields, old(responses), today) else old(responses)
    {
      if idx < |slides| && slides[idx].kind == Form {
        responses := ApplyDateDefaults(slides[idx].fields, responses, today);
      }
    }

    /** Effects 3 and 2: a new sorter for a comparison slide, its first pair and the order it is shown in. */
    method EnterCompare(now: int, coin: real)
      requires idx <= |slides|
      modifies this`sorter, this`pair, this`displayPair, this`trialStart, this`entryPending
      ensures Valid() && !entryPending
      ensures idx < |slides| && slides[idx].kind == Compare ==>
        var conds := slides[idx].conditions;
        && fresh(sorter) && sorter.items == conds && trialStart == now
        && pair == (if |conds| >= 2 then Some((conds[1], conds[0])) else None)
        && displayPair == DisplayOrder(pair, coin)
        && (pair.Some? ==> sorter.Searching() && pair.value == sorter.Current())
      ensures !(idx < |slides| && slides[idx].kind == Compare) ==>
        sorter == old(sorter) && pair == old(pair) && displayPair == old(displayPair) && trialStart == old(trialStart)
    {
      if idx < |slides| && slides[idx].kind == Compare {
        var conds := slides[idx].conditions;
        var s := new Sorter.BinarySorter(conds);
        var first: Option<Pair> := None;
        if |conds| >= 1 {
          first := s.Start();
        }
        sorter := s;
        pair := first;
        displayPair := DisplayOrder(first, coin);
        trialStart := now;
      }
      entryPending := false;
    }

    /** Effect 3.5: onStart with the responses so far, the first time a non-practice comparison slide shows. */
    method FireStart(current: Responses) returns (onStart: Option<Responses>)
      modifies this`started
      ensures onStart.Some? <==> old(StartsSurvey())
      ensures onStart.Some? ==> onStart.value == current
      ensures started == (old(started) || old(StartsSurvey()))
    {
      onStart := None;
      if !started && idx < |slides| && slides[idx].kind == Compare && slides[idx].title != PracticeTitle {
        started := true;
        onStart := Some(current);
      }
    }

    /** Effect 6: past the last slide, the result is built and handed over once. */
    method Finalize(current: Responses, now: int, digest: string -> string) returns (onComplete: Option<FinalResult>)
      modifies this`completed
      ensures onComplete.Some? <==> idx >= |slides| && !old(completed)
      ensures onComplete.Some? ==>
        ResultFits(onComplete.value, slides, current, rankings, log, surveyStart, now, digest)
      ensures completed == (old(completed) || onComplete.Some?)
    {
      onComplete := None;
      if idx >= |slides| && !completed {
        var result := BuildResult(slides, current, rankings, log, surveyStart, now, digest);
        completed := true;
        onComplete := Some(result);
      }
    }

    /**
     * handleChoose: logs the decision in the engine's order, passes it to the
     * sorter and either shows the next pair or, with the scene placed, stores
     * its ranking and moves to the next slide.
     */
    method Choose(chosen: Condition, now: int, restart: int, coin: real)
      requires Valid() && CanChoose(chosen)
      modifies this`log, this`pair, this`displayPair, this`trialStart, this`rankings, this`idx, this`entryPending, sorter
      ensures Valid()
      ensures old(pair).Some? && (chosen == old(pair).value.0 || chosen == old(pair).value.1)
      ensures log == old(log) + [LogEntry(slides[old(idx)].sceneId, old(pair).value.0.name,
                                          old(pair).value.1.name, chosen.name, now - old(trialStart))]
      ensures idx == old(idx) || idx == old(idx) + 1
      ensures sorter != null && sorter == old(sorter)
      ensures sorter.i == old(sorter.i) || sorter.i == old(sorter.i) + 1
      ensures sorter.i == old(sorter.i) ==> sorter.hi - sorter.lo < old(sorter.hi) - old(sorter.lo)
      ensures Sorter.Narrowed(sorter.items, old(sorter.sorted), old(sorter.i), old(sorter.lo), old(sorter.hi),
                              old(sorter.mid), chosen, sorter.sorted, sorter.i, sorter.lo, sorter.hi)
      ensures sorter.asked == old(sorter.asked) + 1
      ensures idx == old(idx) ==>
        && !entryPending && pair.Some? && sorter.Searching() && pair.value == sorter.Current()
        && displayPair == DisplayOrder(pair, coin) && trialStart == restart && rankings == old(rankings)
      ensures idx == old(idx) + 1 ==>
        var scene := slides[old(idx)].sceneId;
        && entryPending && pair == old(pair) && displayPair == old(displayPair) && trialStart == old(trialStart)
        && rankings == old(rankings)[scene := sorter.sorted]
        && multiset(rankings[scene]) == multiset(slides[old(idx)].conditions)
      ensures responses == old(responses)
      ensures started == old(started) && completed == old(completed) && canProceed == old(canProceed)
    {
      var p := pair.value;
      var scene := slides[idx].sceneId;
      log := log + [LogEntry(scene, p.0.name, p.1.name, chosen.name, now - trialStart)];
      Answer(chosen, scene, coin, restart);
    }

    /** The sorter's part of handleChoose: the answer is recorded and its outcome shown. */
    method Answer(chosen: Condition, scene: string, coin: real, restart: int)
      requires Valid() && CanChoose(chosen) && scene == slides[idx].sceneId
      modifies this`pair, this`displayPair, this`trialStart, this`rankings, this`idx, this`entryPending, sorter
      ensures Valid()
      ensures idx == old(idx) || idx == old(idx) + 1
      ensures sorter != null && sorter == old(sorter)
      ensures sorter.i == old(sorter.i) || sorter.i == old(sorter.i) + 1
      ensures sorter.i == old(sorter.i) ==> sorter.hi - sorter.lo < old(sorter.hi) - old(sorter.lo)
      ensures Sorter.Narrowed(sorter.items, old(sorter.sorted), old(sorter.i), old(sorter.lo), old(sorter.hi),
                              old(sorter.mid), chosen, sorter.sorted, sorter.i, sorter.lo, sorter.hi)
      ensures sorter.asked == old(sorter.asked) + 1
      ensures idx == old(idx) ==>
        && !entryPending && pair.Some? && sorter.Searching() && pair.value == sorter.Current()
        && displayPair == DisplayOrder(pair, coin) && trialStart == restart && rankings == old(rankings)
      ensures idx == old(idx) + 1 ==>
        && entryPending && pair == old(pair) && displayPair == old(displayPair) && trialStart == old(trialStart)
        && rankings == old(rankings)[scene := sorter.sorted]
        && multiset(rankings[scene]) == multiset(slides[old(idx)].conditions)
      ensures responses == old(responses) && log == old(log)
      ensures started == old(started) && completed == old(completed) && canProceed == old(canProceed)
    {
      var next := RecordAnswer(sorter, chosen);
      Follow(next, scene, coin, restart);
    }

    /** After an answer: the sorter's next pair is shown, or with none left the slide is closed. */
    method Follow(next: Option<Pair>, scene: string, coin: real, restart: int)
      requires !entryPending && idx < |slides| && slides[idx].kind == Compare && |slides[idx].conditions| >= 2
      requires scene == slides[idx].sceneId
      requires sorter != null && sorter.items == slides[idx].conditions
      requires next.Some? <==> sorter.Searching()
      requires next.Some? ==> next.value == sorter.Current()
      requires next.None? ==> multiset(sorter.sorted) == multiset(sorter.items)
      modifies this`pair, this`displayPair, this`trialStart, this`rankings, this`idx, this`entryPending
      ensures Valid()
      ensures idx == old(idx) || idx == old(idx) + 1
      ensures idx == old(idx) ==>
        && !entryPending && pair.Some? && sorter.Searching() && pair.value == sorter.Current()
        && displayPair == DisplayOrder(pair, coin) && trialStart == restart && rankings == old(rankings)
      ensures idx == old(idx) + 1 ==>
        && entryPending && pair == old(pair) && displayPair == old(displayPair) && trialStart == old(trialStart)
        && rankings == old(rankings)[scene := sorter.sorted]
        && multiset(rankings[scene]) == multiset(slides[old(idx)].conditions)
    {
      if next.Some? {
        ShowPair(next.value, coin, restart);
      } else {
        CloseSlide(scene);
      }
    }

    /** A further pair of the same comparison slide, shown in a fresh random order with the trial clock restarted. */
    method ShowPair(next: Pair, coin: real, restart: int)
      requires !entryPending && idx < |slides| && slides[idx].kind == Compare && |slides[idx].conditions| >= 2
      requires sorter != null && sorter.items == slides[idx].conditions && sorter.Searching() && next == sorter.Current()
      modifies this`pair, this`displayPair, this`trialStart
      ensures Valid()
      ensures pair == Some(next) && displayPair == DisplayOrder(pair, coin) && trialStart == restart
    {
      pair := Some(next);
      displayPair := DisplayOrder(pair, coin);
      trialStart := restart;
    }

    /** The last answer of a comparison slide: its ranking is stored under the scene and the next slide follows. */
    method CloseSlide(scene: string)
      requires idx < |slides| && sorter != null
      modifies this`rankings, this`idx, this`entryPending
      ensures Valid() && entryPending && idx == old(idx) + 1
      ensures rankings == old(rankings)[scene := sorter.sorted]
    {
      rankings := rankings[scene := sorter.sorted];
      idx := idx + 1;
      entryPending := true;
    }

    /** handleFieldChange, followed by the date-default effect that depends on the responses. */
    method FieldChange(name: string, value: Answer, today: string)
      requires Valid() && On(Form)
      modifies this
      ensures Valid() && !entryPending && idx == old(idx)
      ensures responses == DateDefaults(slides[idx].fields, old(responses)[name := value], today)
      ensures pair == old(pair) && displayPair == old(displayPair) && sorter == old(sorter)
      ensures log == old(log) && rankings == old(rankings) && trialStart == old(trialStart)
      ensures started == old(started) && completed == old(completed) && canProceed == old(canProceed)
    {
      responses := responses[name := value];
      responses := ApplyDateDefaults(slides[idx].fields, responses, today);
    }

    /**
     * Submitting a form slide. The browser's required check on the shown
     * fields runs first and may stop the submit; otherwise handleFormNext
     * alerts about the first missing required field or moves to the next slide.
     */
    method FormNext() returns (blocked: bool, alert: Option<string>)
      requires Valid() && CanFormNext()
      modifies this
      ensures Valid()
      ensures blocked <==> SubmitBlocked(slides[old(idx)].fields, responses)
      ensures alert == if blocked then None else FirstMissing(slides[old(idx)].fields, responses)
      ensures blocked || alert.Some? ==> idx == old(idx) && !entryPending
      ensures !blocked && alert.None? ==> idx == old(idx) + 1 && entryPending
      ensures responses == old(responses) && pair == old(pair) && displayPair == old(displayPair) && sorter == old(sorter)
      ensures log == old(log) && rankings == old(rankings) && trialStart == old(trialStart)
      ensures started == old(started) && completed == old(completed) && canProceed == old(canProceed)
    {
      blocked := SubmitBlocked(slides[idx].fields, responses);
      alert := None;
      if !blocked {
        alert := MissingRequired(slides[idx].fields, responses);
        if alert.None? {
          idx := idx + 1;
          entryPending := true;
        }
      }
    }

    /** The Next (or Submit, on the last slide) button of an information slide. */
    method Next()
      requires Valid() && CanNext()
      modifies this
      ensures Valid() && entryPending && idx == old(idx) + 1
      ensures responses == old(responses) && pair == old(pair) && displayPair == old(displayPair) && sorter == old(sorter)
      ensures log == old(log) && rankings == old(rankings) && trialStart == old(trialStart)
      ensures started == old(started) && completed == old(completed) && canProceed == old(canProceed)
    {
      idx := idx + 1;
      entryPending := true;
    }

    /** The Back button: the previous slide, which is never a comparison slide. */
    method Back()
      requires Valid() && CanBack()
      modifies this
      ensures Valid() && entryPending && idx == old(idx) - 1
      ensures slides[idx].kind != Compare
      ensures responses == old(responses) && pair == old(pair) && displayPair == old(displayPair) && sorter == old(sorter)
      ensures log == old(log) && rankings == old(rankings) && trialStart == old(trialStart)
      ensures started == old(started) && completed == old(completed) && canProceed == old(canProceed)
    {
      idx := idx - 1;
      entryPending := true;
    }

    /** The timer of the current slide has run out: its buttons are enabled. */
    method TimerElapsed()
      requires Valid() && !entryPending && idx < |slides| && slides[idx].timer > 0
      modifies this
      ensures Valid() && canProceed && !entryPending && idx == old(idx)
      ensures responses == old(responses) && pair == old(pair) && displayPair == old(displayPair) && sorter == old(sorter)
      ensures log == old(log) && rankings == old(rankings) && trialStart == old(trialStart)
      ensures started == old(started) && completed == old(completed)
    {
      canProceed := true;
    }
  }

  /**
   * A comparison slide with fewer than two conditions never shows a pair, and
   * none of the handlers can leave it: the survey stalls there.
   */
  lemma StalledOnShortScene(c: Controller)
    requires c.Valid() && c.On(Compare) && |c.slides[c.idx].conditions| < 2
    ensures forall chosen :: !c.CanChoose(chosen)
    ensures !c.CanNext() && !c.CanFormNext() && !c.CanBack()
  {
  }
}
