/**
 * The application shell of src/App.js: the respondent's identity, the session
 * documents and their merge, the Fisher-Yates shuffle, the cleaning of
 * results before they are stored, the collision-avoiding save, the
 * assembly of the slide deck from a survey configuration and the image
 * manifest, and the two callbacks the renderer invokes.
 *
 * Firestore is modelled by two maps held by the App object: `sessions`
 * (document id to a flat string map) and `results` (document id to JSON).
 * The clock, uuidv4, Math.random and the SHA-256 digest are parameters.
 */
module App {
  import opened Wrappers
  import opened Strings
  import opened Survey
  import Sorter

  // ---------------------------------------------------------------------------
  // Identity

  /**
   * deriveBaseId: the hash of the e-mail when it is truthy, else the hash of
   * the name when that is truthy, else a fresh uuid. `None` is the TypeError
   * thrown when the chosen answer is a checkbox value, which has no trim().
   */
  function DeriveBaseId(responses: Responses, digest: string -> string, uuid: string): (r: Option<string>)
    ensures Truthy(Lookup(responses, "email")) ==>
      match responses["email"]
      case Text(e) => r == Some(Sha256(digest, e))
      case Checked(_) => r.None?
    ensures !Truthy(Lookup(responses, "email")) && Truthy(Lookup(responses, "name")) ==>
      match responses["name"]
      case Text(n) => r == Some(Sha256(digest, n))
      case Checked(_) => r.None?
    ensures !Truthy(Lookup(responses, "email")) && !Truthy(Lookup(responses, "name")) ==> r == Some(uuid)
  {
    if Truthy(Lookup(responses, "email")) then
      match responses["email"]
      case Text(e) =>
        NormalizeIdempotent(e);
        Some(Sha256(digest, Lower(Trim(e))))
      case Checked(_) => None
    else if Truthy(Lookup(responses, "name")) then
      match responses["name"]
      case Text(n) =>
        TrimIdempotent(n);
        Some(Sha256(digest, Trim(n)))
      case Checked(_) => None
    else
      Some(uuid)
  }

  /**
   * Two respondents whose e-mails agree up to surrounding whitespace and ASCII
   * letter case get the same id, whatever their names and whatever uuid
   * would have been drawn.
   */
  lemma SameEmailSameId(digest: string -> string, r1: Responses, r2: Responses, u1: string, u2: string)
    requires "email" in r1 && "email" in r2 && r1["email"].Text? && r2["email"].Text?
    requires r1["email"].s != "" && r2["email"].s != ""
    requires Lower(Trim(r1["email"].s)) == Lower(Trim(r2["email"].s))
    ensures DeriveBaseId(r1, digest, u1) == DeriveBaseId(r2, digest, u2)
    ensures DeriveBaseId(r1, digest, u1).Some?
  {
  }

  /**
   * Without an e-mail the name decides, and since the hash wrapper lower-cases
   * its input the name is compared case-insensitively too.
   */
  lemma SameNameSameId(digest: string -> string, r1: Responses, r2: Responses, u1: string, u2: string)
    requires !Truthy(Lookup(r1, "email")) && !Truthy(Lookup(r2, "email"))
    requires "name" in r1 && "name" in r2 && r1["name"].Text? && r2["name"].Text?
    requires r1["name"].s != "" && r2["name"].s != ""
    requires Lower(r1["name"].s) == Lower(r2["name"].s)
    ensures DeriveBaseId(r1, digest, u1) == DeriveBaseId(r2, digest, u2)
  {
    Sha256CaseInsensitive(digest, r1["name"].s, r2["name"].s);
  }

  // ---------------------------------------------------------------------------
  // Session documents

  const StartedStatus := "started"
  const CompletedStatus := "completed"

  /** The writeSession payload; `now` is the ISO-8601 time of the write. */
  function SessionPayload(baseId: string, status: string, now: string): (m: map<string, string>)
    ensures "userId" in m && m["userId"] == baseId && "status" in m && m["status"] == status
    ensures "timestampStart" in m <==> status == StartedStatus
    ensures "timestampEnd" in m <==> status != StartedStatus
    ensures m.Keys == {"userId", "status", if status == StartedStatus then "timestampStart" else "timestampEnd"}
  {
    var stamp := if status == StartedStatus then "timestampStart" else "timestampEnd";
    map["userId" := baseId, "status" := status, stamp := now]
  }

  /** setDoc with { merge: true } on a flat document: the payload's fields win, all others stay. */
  function Merge(doc: Option<map<string, string>>, payload: map<string, string>): (m: map<string, string>)
    ensures m.Keys == payload.Keys + (if doc.Some? then doc.value.Keys else {})
    ensures forall k :: k in payload ==> m[k] == payload[k]
    ensures doc.Some? ==> forall k :: k in doc.value && k !in payload ==> m[k] == doc.value[k]
  {
    match doc
    case None => payload
    case Some(old_) => old_ + payload
  }

  function Get(store: map<string, map<string, string>>, id: string): Option<map<string, string>> {
    if id in store then Some(store[id]) else None
  }

  /**
   * A session first written as started and later as completed keeps both
   * time stamps: the merge preserves `timestampStart`, and the status reads
   * completed.
   */
  lemma SessionLifecycle(doc: Option<map<string, string>>, baseId: string, t1: string, t2: string)
    ensures
      var s := Merge(doc, SessionPayload(baseId, StartedStatus, t1));
      var c := Merge(Some(s), SessionPayload(baseId, CompletedStatus, t2));
      && c["userId"] == baseId && c["status"] == CompletedStatus
      && c["timestampStart"] == t1 && c["timestampEnd"] == t2
  {
    var p1 := SessionPayload(baseId, StartedStatus, t1);
    var p2 := SessionPayload(baseId, CompletedStatus, t2);
    assert "timestampStart" in p1 && "timestampStart" !in p2;
  }

  // ---------------------------------------------------------------------------
  // Shuffle

  /** `Math.floor(x * n)` for a draw x in [0, 1): an index below n. */
  function Draw(x: real, n: nat): (j: int)
    requires 0.0 <= x < 1.0 && n >= 1
    ensures 0 <= j < n
  {
    assert x * n as real < n as real by {
      assert (1.0 - x) * n as real > 0.0;
    }
    (x * n as real).Floor
  }

  /** Exchanging two entries keeps the multiset of values. */
  lemma SwapPermutes<T>(s: seq<T>, i: int, j: int)
    requires 0 <= i < |s| && 0 <= j < |s|
    ensures multiset(s[i := s[j]][j := s[i]]) == multiset(s)
  {
  }

  /**
   * The Fisher-Yates shuffle on a copy of the input. `rand` holds the values
   * Math.random returns, one per swap, in the order they are drawn.
   */
  method Shuffle<T>(s: seq<T>, rand: seq<real>) returns (r: seq<T>)
    requires |s| <= |rand| + 1
    requires forall k :: 0 <= k < |rand| ==> 0.0 <= rand[k] < 1.0
    ensures |r| == |s| && multiset(r) == multiset(s)
  {
    var a := new T[|s|](k requires 0 <= k < |s| => s[k]);
    assert a[..] == s;
    var i := |s| - 1;
    while i > 0
      invariant -1 <= i < a.Length == |s|
      invariant multiset(a[..]) == multiset(s)
      decreases i
    {
      var j := Draw(rand[|s| - 1 - i], i + 1);
      ghost var before := a[..];
      a[i], a[j] := a[j], a[i];
      assert a[..] == before[i := before[j]][j := before[i]];
      SwapPermutes(before, i, j);
      i := i - 1;
    }
    r := a[..];
  }

  // ---------------------------------------------------------------------------
  // Cleaning results before they are stored

  /** No `undefined` anywhere in the value. */
  predicate Clean(v: Json) {
    match v
    case Undefined => false
    case Arr(items) => forall k :: 0 <= k < |items| ==> Clean(items[k])
    case Obj(fields) => forall key :: key in fields ==> Clean(fields[key])
    case _ => true
  }

  /** deepClean: undefined becomes null at every depth; the shape is kept. */
  function DeepClean(v: Json): (r: Json)
    ensures Clean(r)
    ensures r.Null? <==> v.Undefined? || v.Null?
    ensures v.Arr? <==> r.Arr?
    ensures v.Arr? ==> |r.items| == |v.items|
    ensures v.Obj? <==> r.Obj?
    ensures v.Obj? ==> r.fields.Keys == v.fields.Keys
    ensures v.Bool? || v.Num? || v.Str? ==> r == v
  {
    match v
    case Undefined => Null
    case Arr(items) => Arr(seq(|items|, k requires 0 <= k < |items| => DeepClean(items[k])))
    case Obj(fields) => Obj(map key | key in fields :: DeepClean(fields[key]))
    case _ => v
  }

  /** A value without undefined is left exactly as it is. */
  lemma {:induction false} CleanIsFixpoint(v: Json)
    requires Clean(v)
    ensures DeepClean(v) == v
  {
    match v
    case Arr(items) =>
      forall k | 0 <= k < |items| ensures DeepClean(items[k]) == items[k] {
        CleanIsFixpoint(items[k]);
      }
      assert DeepClean(v).items == items;
    case Obj(fields) =>
      forall key | key in fields ensures DeepClean(fields[key]) == fields[key] {
        CleanIsFixpoint(fields[key]);
      }
      assert DeepClean(v).fields == fields;
    case _ =>
  }

  /**
   * r is v with every undefined, at any depth, replaced by null: the same
   * arrays element by element, the same objects key by key, and every other
   * value unchanged.
   */
  predicate NullForUndefined(v: Json, r: Json) {
    match v
    case Undefined => r == Null
    case Arr(items) =>
      && r.Arr? && |r.items| == |items|
      && forall k :: 0 <= k < |items| ==> NullForUndefined(items[k], r.items[k])
    case Obj(fields) =>
      && r.Obj? && r.fields.Keys == fields.Keys
      && forall key :: key in fields ==> NullForUndefined(fields[key], r.fields[key])
    case _ => r == v
  }

  /** deepClean replaces undefined by null at every depth and changes nothing else. */
  lemma {:induction false} DeepCleanReplacesUndefined(v: Json)
    ensures NullForUndefined(v, DeepClean(v))
  {
    match v
    case Arr(items) =>
      forall k | 0 <= k < |items| ensures NullForUndefined(items[k], DeepClean(v).items[k]) {
        DeepCleanReplacesUndefined(items[k]);
      }
    case Obj(fields) =>
      forall key | key in fields ensures NullForUndefined(fields[key], DeepClean(v).fields[key]) {
        DeepCleanReplacesUndefined(fields[key]);
      }
    case _ =>
  }

  /** That replacement determines the result: deepClean is the only function that performs it. */
  lemma {:induction false} NullForUndefinedIsDeepClean(v: Json, r: Json)
    requires NullForUndefined(v, r)
    ensures r == DeepClean(v)
  {
    match v
    case Arr(items) =>
      forall k | 0 <= k < |items| ensures r.items[k] == DeepClean(v).items[k] {
        NullForUndefinedIsDeepClean(items[k], r.items[k]);
      }
      assert r.items == DeepClean(v).items;
    case Obj(fields) =>
      forall key | key in fields ensures r.fields[key] == DeepClean(v).fields[key] {
        NullForUndefinedIsDeepClean(fields[key], r.fields[key]);
      }
      assert r.fields == DeepClean(v).fields;
    case _ =>
  }

  lemma DeepCleanIdempotent(v: Json)
    ensures DeepClean(DeepClean(v)) == DeepClean(v)
  {
    CleanIsFixpoint(DeepClean(v));
  }

  // ---------------------------------------------------------------------------
  // The result document

  function AnswerJson(a: Answer): (j: Json)
    ensures Clean(j)
  {
    match a
    case Text(s) => Str(s)
    case Checked(b) => Bool(b)
  }

  function ConditionJson(c: Condition): (j: Json)
    ensures Clean(j)
  {
    Obj(map["name" := Str(c.name), "url" := Str(c.url)])
  }

  function EntryJson(e: LogEntry): (j: Json)
    ensures Clean(j)
  {
    Obj(map["sceneId" := Str(e.sceneId), "left" := Str(e.left), "right" := Str(e.right),
            "winner" := Str(e.winner), "durationMs" := Num(e.durationMs)])
  }

  function RankingJson(ranking: seq<Condition>): (j: Json)
    ensures Clean(j)
  {
    Arr(seq(|ranking|, n requires 0 <= n < |ranking| => ConditionJson(ranking[n])))
  }

  function ResponsesJson(responses: Responses): (j: Json)
    ensures Clean(j)
  {
    Obj(map k | k in responses :: AnswerJson(responses[k]))
  }

  function AnonymousJson(anonymous: map<string, string>): (j: Json)
    ensures Clean(j)
  {
    Obj(map k | k in anonymous :: Str(anonymous[k]))
  }

  function RankingsJson(rankings: map<string, seq<Condition>>): (j: Json)
    ensures Clean(j)
  {
    Obj(map k | k in rankings :: RankingJson(rankings[k]))
  }

  function TimingsJson(t: Timings): (j: Json)
    ensures Clean(j)
  {
    Obj(map["surveyDurationMs" := Num(t.surveyDurationMs),
            "compareDurationMs" := Num(t.compareDurationMs),
            "timestamp" := Num(t.timestamp)])
  }

  function LogJson(log: seq<LogEntry>): (j: Json)
    ensures Clean(j)
  {
    Arr(seq(|log|, n requires 0 <= n < |log| => EntryJson(log[n])))
  }

  /** The renderer's result object as JSON. */
  function ResultJson(result: FinalResult): (j: Json)
    ensures j.Obj? && j.fields.Keys == {"responses", "anonymous", "rankings", "timings", "comparisons"}
    ensures Clean(j)
  {
    var fields := map["responses" := ResponsesJson(result.responses),
                      "anonymous" := AnonymousJson(result.anonymous),
                      "rankings" := RankingsJson(result.rankings),
                      "timings" := TimingsJson(result.timings),
                      "comparisons" := LogJson(result.comparisons)];
    assert forall k :: k in fields ==> Clean(fields[k]);
    Obj(fields)
  }

  /** deepClean of an object cleans each field. */
  lemma DeepCleanFields(fields: map<string, Json>)
    ensures DeepClean(Obj(fields)).fields == map k | k in fields :: DeepClean(fields[k])
  {
  }

  /**
   * deepClean of { surveyId, device, ...rest } where `rest` is already clean
   * and names neither surveyId nor device: only the device is changed.
   */
  lemma CleanPayload(surveyId: string, device: Json, rest: map<string, Json>)
    requires "surveyId" !in rest && "device" !in rest
    requires forall k :: k in rest ==> Clean(rest[k])
    ensures
      var j := DeepClean(Obj(map["surveyId" := Str(surveyId), "device" := device] + rest));
      && j.fields.Keys == {"surveyId", "device"} + rest.Keys
      && j.fields["surveyId"] == Str(surveyId)
      && j.fields["device"] == DeepClean(device)
      && forall k :: k in rest ==> j.fields[k] == rest[k]
  {
    var fields := map["surveyId" := Str(surveyId), "device" := device] + rest;
    DeepCleanFields(fields);
    forall k | k in rest ensures DeepClean(rest[k]) == rest[k] {
      CleanIsFixpoint(rest[k]);
    }
  }

  /**
   * The stored payload: deepClean of { surveyId, device, ...result }. It has no
   * undefined left, the device information is cleaned, and the result's own
   * fields arrive unchanged.
   */
  function ResultPayload(surveyId: string, device: Json, result: FinalResult): (j: Json)
    ensures j.Obj? && Clean(j)
    ensures j.fields.Keys == {"surveyId", "device"} + ResultJson(result).fields.Keys
    ensures j.fields["surveyId"] == Str(surveyId)
    ensures j.fields["device"] == DeepClean(device)
    ensures forall k :: k in ResultJson(result).fields ==> j.fields[k] == ResultJson(result).fields[k]
  {
    var rest := ResultJson(result).fields;
    CleanPayload(surveyId, device, rest);
    DeepClean(Obj(map["surveyId" := Str(surveyId), "device" := device] + rest))
  }

  // ---------------------------------------------------------------------------
  // Survey selection and deck assembly

  const SurveyIds := ["survey1", "survey2", "survey3"]

  /** `params.get('survey') || 'survey1'`, then anything but a known id falls back to survey1. */
  function SelectSurvey(param: Option<string>): (id: string)
    ensures id in SurveyIds
    ensures param.Some? && param.value in SurveyIds ==> id == param.value
    ensures !(param.Some? && param.value in SurveyIds) ==> id == "survey1"
  {
    var id := if param.Some? && param.value != "" then param.value else "survey1";
    if id in SurveyIds then id else "survey1"
  }

  /** A scene id is selected when it starts with one of the configured prefixes. */
  predicate Selected(name: string, prefixes: seq<string>) {
    exists p :: p in prefixes && StartsWith(name, p)
  }

  /**
   * The prefix expansion: every manifest key that starts with some configured
   * prefix, each once, in the insertion order of the JavaScript Set.
   */
  method ExpandScenes(prefixes: seq<string>, keys: seq<string>) returns (scenes: seq<string>)
    ensures forall n :: n in scenes <==> n in keys && Selected(n, prefixes)
    ensures Sorter.Distinct(scenes)
  {
    scenes := [];
    for p := 0 to |prefixes|
      invariant forall n :: n in scenes <==> n in keys && Selected(n, prefixes[..p])
      invariant Sorter.Distinct(scenes)
    {
      for k := 0 to |keys|
        invariant forall n :: n in scenes <==>
          (n in keys && Selected(n, prefixes[..p])) || (n in keys[..k] && StartsWith(n, prefixes[p]))
        invariant Sorter.Distinct(scenes)
      {
        var name := keys[k];
        if StartsWith(name, prefixes[p]) && name !in scenes {
          scenes := scenes + [name];
        }
      }
      forall n ensures Selected(n, prefixes[..p + 1]) <==> Selected(n, prefixes[..p]) || StartsWith(n, prefixes[p]) {
        assert prefixes[..p + 1] == prefixes[..p] + [prefixes[p]];
      }
      assert keys[..|keys|] == keys;
    }
    assert prefixes[..|prefixes|] == prefixes;
  }

  /** The image manifest: scene ids in file order and each scene's image file names. */
  datatype Manifest = Manifest(keys: seq<string>, files: map<string, seq<string>>)
  {
    /** `keys` is Object.keys(manifest): every scene of the map, each once. */
    ghost predicate Valid() {
      (forall n :: n in keys <==> n in files) && Sorter.Distinct(keys)
    }
  }

  /** `manifest[sceneId] || []`. */
  function FilesOf(manifest: Manifest, sceneId: string): (files: seq<string>)
    ensures sceneId !in manifest.files ==> files == []
    ensures sceneId in manifest.files ==> files == manifest.files[sceneId]
  {
    if sceneId in manifest.files then manifest.files[sceneId] else []
  }

  /**
   * A survey configuration. `preSlides` and `postSlides` are spread without a
   * guard, so a missing one makes the assembly throw (None); the optional
   * lists behave as empty when missing.
   */
  datatype Config = Config(
    preSlides: Option<seq<Slide>>,
    practiceIntroSlides: seq<Slide>,
    practiceScenes: seq<string>,
    practiceOutroSlides: seq<Slide>,
    compareScenes: seq<string>,
    postSlides: Option<seq<Slide>>,
    footer: string)

  /** The comparison slide the deck gets for one scene. */
  function CompareSlide(title: string, sceneId: string, manifest: Manifest): (sl: Slide)
    ensures sl.kind == Compare && sl.title == title && sl.sceneId == sceneId && sl.timer == 0
    ensures |sl.conditions| == |FilesOf(manifest, sceneId)|
    ensures forall k :: 0 <= k < |sl.conditions| ==> sl.conditions[k].name == FilesOf(manifest, sceneId)[k]
    ensures forall k :: 0 <= k < |sl.conditions| ==>
      sl.conditions[k].url == "/images/" + sceneId + "/" + FilesOf(manifest, sceneId)[k]
  {
    var files := FilesOf(manifest, sceneId);
    Slide(Compare, title, sceneId,
          seq(|files|, k requires 0 <= k < |files| => Condition(files[k], "/images/" + sceneId + "/" + files[k])),
          [], 0)
  }

  /** Distinct file names give distinct conditions, so the sorter's identity test tells them apart. */
  lemma CompareSlideDistinct(title: string, sceneId: string, manifest: Manifest)
    requires Sorter.Distinct(FilesOf(manifest, sceneId))
    ensures Sorter.Distinct(CompareSlide(title, sceneId, manifest).conditions)
  {
  }

  function CompareSlides(title: string, sceneIds: seq<string>, manifest: Manifest): seq<Slide> {
    seq(|sceneIds|, k requires 0 <= k < |sceneIds| => CompareSlide(title, sceneIds[k], manifest))
  }

  /** The deck for a configuration and an order of the selected scenes; None when init throws. */
  function Deck(cfg: Config, manifest: Manifest, scenes: seq<string>): (d: Option<seq<Slide>>)
    ensures d.Some? <==> cfg.preSlides.Some? && cfg.postSlides.Some?
  {
    if cfg.preSlides.None? || cfg.postSlides.None? then None
    else Some(cfg.preSlides.value + cfg.practiceIntroSlides
              + CompareSlides(PracticeTitle, cfg.practiceScenes, manifest)
              + cfg.practiceOutroSlides
              + CompareSlides(RealTitle, scenes, manifest)
              + cfg.postSlides.value)
  }

  /**
   * The shape of the deck: the pre-slides open it, the post-slides close it,
   * and right before them come the real comparison slides, one per selected
   * scene in the given order.
   */
  lemma DeckLayout(cfg: Config, manifest: Manifest, scenes: seq<string>)
    requires cfg.preSlides.Some? && cfg.postSlides.Some?
    ensures var d := Deck(cfg, manifest, scenes).value;
      && |d| == |cfg.preSlides.value| + |cfg.practiceIntroSlides| + |cfg.practiceScenes|
                + |cfg.practiceOutroSlides| + |scenes| + |cfg.postSlides.value|
      && d[..|cfg.preSlides.value|] == cfg.preSlides.value
      && d[|d| - |cfg.postSlides.value|..] == cfg.postSlides.value
      && forall k :: 0 <= k < |scenes| ==>
           d[|d| - |cfg.postSlides.value| - |scenes| + k] == CompareSlide(RealTitle, scenes[k], manifest)
  {
  }

  /**
   * The practice part of the deck, right after the pre-slides: the practice
   * introduction, one practice comparison slide per practice scene in order,
   * and the practice outro.
   */
  lemma DeckPractice(cfg: Config, manifest: Manifest, scenes: seq<string>)
    requires cfg.preSlides.Some? && cfg.postSlides.Some?
    ensures var d := Deck(cfg, manifest, scenes).value;
      var intro := |cfg.preSlides.value|;
      var practice := intro + |cfg.practiceIntroSlides|;
      var outro := practice + |cfg.practiceScenes|;
      && outro + |cfg.practiceOutroSlides| <= |d|
      && d[intro..practice] == cfg.practiceIntroSlides
      && (forall k :: 0 <= k < |cfg.practiceScenes| ==>
            d[practice + k] == CompareSlide(PracticeTitle, cfg.practiceScenes[k], manifest))
      && d[outro..outro + |cfg.practiceOutroSlides|] == cfg.practiceOutroSlides
  {
    var pre := cfg.preSlides.value;
    var head := pre + cfg.practiceIntroSlides + CompareSlides(PracticeTitle, cfg.practiceScenes, manifest)
                + cfg.practiceOutroSlides;
    var d := Deck(cfg, manifest, scenes).value;
    assert d == head + (CompareSlides(RealTitle, scenes, manifest) + cfg.postSlides.value);
    assert d[..|head|] == head;
  }

  /** The deck assembly of init, push by push. */
  method AssembleDeck(cfg: Config, manifest: Manifest, scenes: seq<string>) returns (deck: Option<seq<Slide>>)
    ensures deck == Deck(cfg, manifest, scenes)
  {
    if cfg.preSlides.None? {
      return None;
    }
    var d := cfg.preSlides.value;
    d := d + cfg.practiceIntroSlides;
    var start := d;
    for k := 0 to |cfg.practiceScenes|
      invariant d == start + CompareSlides(PracticeTitle, cfg.practiceScenes[..k], manifest)
    {
      d := d + [CompareSlide(PracticeTitle, cfg.practiceScenes[k], manifest)];
    }
    assert cfg.practiceScenes[..|cfg.practiceScenes|] == cfg.practiceScenes;
    d := d + cfg.practiceOutroSlides;
    start := d;
    for k := 0 to |scenes|
      invariant d == start + CompareSlides(RealTitle, scenes[..k], manifest)
    {
      d := d + [CompareSlide(RealTitle, scenes[k], manifest)];
    }
    assert scenes[..|scenes|] == scenes;
    if cfg.postSlides.None? {
      return None;
    }
    deck := Some(d + cfg.postSlides.value);
  }

  /** `deck.filter(sl => sl.type !== 'compare')`. */
  function WithoutCompare(deck: seq<Slide>): (r: seq<Slide>)
    ensures forall k :: 0 <= k < |r| ==> r[k].kind != Compare
    ensures |r| <= |deck|
  {
    if deck == [] then []
    else if deck[0].kind == Compare then WithoutCompare(deck[1..])
    else [deck[0]] + WithoutCompare(deck[1..])
  }

  lemma {:induction false} WithoutCompareAppend(a: seq<Slide>, b: seq<Slide>)
    ensures WithoutCompare(a + b) == WithoutCompare(a) + WithoutCompare(b)
  {
    if a != [] {
      assert (a + b)[1..] == a[1..] + b;
      WithoutCompareAppend(a[1..], b);
    } else {
      assert a + b == b;
    }
  }

  /** A comparison slide on its own is dropped, wherever it comes from. */
  lemma WithoutCompareDropsOne(s: Slide)
    requires s.kind == Compare
    ensures WithoutCompare([s]) == []
  {
    assert [s][1..] == [];
  }

  /** A list without comparison slides passes the filter unchanged. */
  lemma {:induction false} WithoutCompareKeeps(a: seq<Slide>)
    requires forall k :: 0 <= k < |a| ==> a[k].kind != Compare
    ensures WithoutCompare(a) == a
  {
    if a != [] {
      WithoutCompareKeeps(a[1..]);
    }
  }

  lemma {:induction false} WithoutCompareDropsGenerated(title: string, scenes: seq<string>, manifest: Manifest)
    ensures WithoutCompare(CompareSlides(title, scenes, manifest)) == []
  {
    if scenes != [] {
      assert CompareSlides(title, scenes, manifest)[1..] == CompareSlides(title, scenes[1..], manifest);
      WithoutCompareDropsGenerated(title, scenes[1..], manifest);
    }
  }

  /**
   * With skipCompare the deck loses every comparison slide, practice and real
   * alike, and keeps the configured non-comparison slides in their order.
   */
  lemma SkipCompareDeck(cfg: Config, manifest: Manifest, scenes: seq<string>)
    requires cfg.preSlides.Some? && cfg.postSlides.Some?
    ensures
      var pre, post := cfg.preSlides.value, cfg.postSlides.value;
      WithoutCompare(Deck(cfg, manifest, scenes).value)
      == WithoutCompare(pre) + WithoutCompare(cfg.practiceIntroSlides)
         + WithoutCompare(cfg.practiceOutroSlides) + WithoutCompare(post)
  {
    var pre, post := cfg.preSlides.value, cfg.postSlides.value;
    var practice := CompareSlides(PracticeTitle, cfg.practiceScenes, manifest);
    var generated := CompareSlides(RealTitle, scenes, manifest);
    WithoutCompareDropsGenerated(PracticeTitle, cfg.practiceScenes, manifest);
    WithoutCompareDropsGenerated(RealTitle, scenes, manifest);
    WithoutCompareAppend(pre + cfg.practiceIntroSlides + practice + cfg.practiceOutroSlides + generated, post);
    WithoutCompareAppend(pre + cfg.practiceIntroSlides + practice + cfg.practiceOutroSlides, generated);
    WithoutCompareAppend(pre + cfg.practiceIntroSlides + practice, cfg.practiceOutroSlides);
    WithoutCompareAppend(pre + cfg.practiceIntroSlides, practice);
    WithoutCompareAppend(pre, cfg.practiceIntroSlides);
  }

  // ---------------------------------------------------------------------------
  // The application object

  /** A list of strictly longer strings than any key, so some string is never a key. */
  lemma FreshKeyExists<V>(m: map<string, V>)
    ensures exists id: string :: id !in m
  {
    var n := LongestKey(m.Keys);
    var id := seq(n + 1, _ => 'x');
    assert id !in m;
  }

  ghost function LongestKey(keys: set<string>): (n: nat)
    ensures forall k :: k in keys ==> |k| <= n
    decreases keys
  {
    if keys == {} then 0
    else
      var k :| k in keys;
      var rest := LongestKey(keys - {k});
      if |k| > rest then |k| else rest
  }

  class AppState {
    /** The surveyId state. */
    var surveyId: string
    /** The slides state: None while "Loading survey…" is shown. */
    var slides: Option<seq<Slide>>
    var footer: string
    /** The sessionId state, set by handleStart. */
    var sessionId: Option<string>
    /** The Firestore `sessions` collection. */
    var sessions: map<string, map<string, string>>
    /** The Firestore `results` collection. */
    var results: map<string, Json>
    /** The order init gave the selected scenes. */
    ghost var sceneOrder: seq<string>

    constructor (sessions: map<string, map<string, string>>, results: map<string, Json>)
      ensures surveyId == "survey1" && slides.None? && footer == "" && sessionId.None?
      ensures this.sessions == sessions && this.results == results
    {
      surveyId := "survey1";
      slides := None;
      footer := "";
      sessionId := None;
      this.sessions := sessions;
      this.results := results;
      sceneOrder := [];
    }

    /** writeSession: upsert of the session document with merge. */
    method WriteSession(baseId: string, status: string, now: string)
      modifies this
      ensures sessions == old(sessions)[baseId := Merge(Get(old(sessions), baseId), SessionPayload(baseId, status, now))]
      ensures results == old(results) && sessionId == old(sessionId)
      ensures surveyId == old(surveyId) && slides == old(slides) && footer == old(footer)
    {
      sessions := sessions[baseId := Merge(Get(sessions, baseId), SessionPayload(baseId, status, now))];
    }

    /**
     * saveWithRetry: the payload goes under baseId when that id is free and
     * under a fresh generated id otherwise; no existing result is overwritten.
     */
    method SaveWithRetry(baseId: string, payload: Json) returns (id: string)
      modifies this
      ensures id !in old(results)
      ensures baseId !in old(results) ==> id == baseId
      ensures results == old(results)[id := payload]
      ensures sessions == old(sessions) && sessionId == old(sessionId)
      ensures surveyId == old(surveyId) && slides == old(slides) && footer == old(footer)
    {
      if baseId !in results {
        results := results[baseId := payload];
        id := baseId;
      } else {
        FreshKeyExists(results);
        id :| id !in results;
        results := results[id := payload];
      }
    }

    /**
     * handleStart: derives the id, remembers it and marks the session started.
     * When the derivation throws nothing is remembered or written.
     */
    method HandleStart(responses: Responses, digest: string -> string, uuid: string, now: string)
      modifies this
      ensures var id := DeriveBaseId(responses, digest, uuid);
        match id
        case None => sessionId == old(sessionId) && sessions == old(sessions)
        case Some(baseId) =>
          && sessionId == Some(baseId)
          && sessions == old(sessions)[baseId := Merge(Get(old(sessions), baseId), SessionPayload(baseId, StartedStatus, now))]
      ensures results == old(results)
      ensures surveyId == old(surveyId) && slides == old(slides) && footer == old(footer)
    {
      var id := DeriveBaseId(responses, digest, uuid);
      if id.Some? {
        sessionId := id;
        WriteSession(id.value, StartedStatus, now);
      }
    }

    /**
     * handleComplete: with a session id, marks the session completed and saves
     * the cleaned payload without overwriting an earlier result. Without one
     * (onStart never ran) the first Firestore call throws, the error is caught
     * and nothing is written.
     */
    method HandleComplete(result: FinalResult, device: Json, now: string) returns (finalId: Option<string>)
      modifies this
      ensures old(sessionId).None? ==> finalId.None? && sessions == old(sessions) && results == old(results)
      ensures old(sessionId).Some? ==>
        var baseId := old(sessionId).value;
        && finalId.Some? && finalId.value !in old(results)
        && (baseId !in old(results) ==> finalId.value == baseId)
        && results == old(results)[finalId.value := ResultPayload(old(surveyId), device, result)]
        && sessions == old(sessions)[baseId := Merge(Get(old(sessions), baseId), SessionPayload(baseId, CompletedStatus, now))]
      ensures sessionId == old(sessionId) && surveyId == old(surveyId) && slides == old(slides) && footer == old(footer)
    {
      var payload := ResultPayload(surveyId, device, result);
      if sessionId.None? {
        return None;
      }
      var baseId := sessionId.value;
      WriteSession(baseId, CompletedStatus, now);
      var id := SaveWithRetry(baseId, payload);
      finalId := Some(id);
    }

    /**
     * One run of the load effect and its init. The effect stores the survey
     * named by the URL, but init fetches the configuration of the surveyId the
     * run was started with (None when that fetch, or the manifest's, fails),
     * expands and shuffles the scenes, sets the footer, assembles the deck and
     * drops comparisons with skipCompare. `rerun` says that surveyId changed,
     * so React runs the effect once more.
     */
    method Init(surveyParam: Option<string>, skipParam: Option<string>, configs: map<string, Config>,
                manifest: Option<Manifest>, rand: seq<real>)
      returns (rerun: bool)
      requires forall k :: 0 <= k < |rand| ==> 0.0 <= rand[k] < 1.0
      requires manifest.Some? ==> manifest.value.Valid() && |manifest.value.keys| <= |rand| + 1
      modifies this
      ensures surveyId == SelectSurvey(surveyParam)
      ensures rerun <==> surveyId != old(surveyId)
      ensures old(surveyId) !in configs || manifest.None? ==>
        slides == old(slides) && footer == old(footer) && sceneOrder == old(sceneOrder)
      ensures old(surveyId) in configs && manifest.Some? ==>
        var cfg := configs[old(surveyId)];
        && footer == cfg.footer
        && (forall n :: n in sceneOrder <==> n in manifest.value.files && Selected(n, cfg.compareScenes))
        && Sorter.Distinct(sceneOrder)
        && slides == Loaded(cfg, manifest.value, sceneOrder, skipParam, old(slides))
      ensures sessionId == old(sessionId) && sessions == old(sessions) && results == old(results)
    {
      var skipCompare := skipParam == Some("true");
      var fetched := surveyId;
      surveyId := SelectSurvey(surveyParam);
      rerun := surveyId != fetched;
      if fetched !in configs || manifest.None? {
        return;
      }
      var cfg := configs[fetched];
      var scenes := ExpandScenes(cfg.compareScenes, manifest.value.keys);
      assert |scenes| <= |manifest.value.keys| by {
        ScenesFitKeys(scenes, manifest.value.keys);
      }
      var shuffled := Shuffle(scenes, rand);
      sceneOrder := shuffled;
      forall n ensures n in shuffled <==> n in scenes {
        assert n in multiset(shuffled) <==> n in multiset(scenes);
      }
      ShuffledDistinct(scenes, shuffled);
      footer := cfg.footer;
      var deck := AssembleDeck(cfg, manifest.value, shuffled);
      if deck.Some? {
        slides := Some(if skipCompare then WithoutCompare(deck.value) else deck.value);
      }
    }

    /**
     * The load effect on mount: a first run with the initial surveyId and, when
     * the URL names another survey, a second run with that one, applied in the
     * order they start. When only the first run's fetches succeed its deck stays,
     * while surveyId already names the other survey.
     */
    method Mount(surveyParam: Option<string>, skipParam: Option<string>, configs: map<string, Config>,
                 manifest: Option<Manifest>, rand1: seq<real>, rand2: seq<real>)
      requires surveyId == "survey1" && slides.None?
      requires forall k :: 0 <= k < |rand1| ==> 0.0 <= rand1[k] < 1.0
      requires forall k :: 0 <= k < |rand2| ==> 0.0 <= rand2[k] < 1.0
      requires manifest.Some? ==> manifest.value.Valid() && |manifest.value.keys| <= |rand1| + 1
      requires manifest.Some? ==> |manifest.value.keys| <= |rand2| + 1
      modifies this
      ensures surveyId == SelectSurvey(surveyParam)
      ensures surveyId in configs && manifest.Some? ==>
        && (forall n :: n in sceneOrder <==> n in manifest.value.files && Selected(n, configs[surveyId].compareScenes))
        && (Deck(configs[surveyId], manifest.value, sceneOrder).Some? ==>
              slides == Loaded(configs[surveyId], manifest.value, sceneOrder, skipParam, None))
      ensures surveyId != "survey1" && surveyId !in configs && "survey1" in configs && manifest.Some? ==>
        slides == Loaded(configs["survey1"], manifest.value, sceneOrder, skipParam, None)
      ensures manifest.None? ==> slides.None?
      ensures sessionId == old(sessionId) && sessions == old(sessions) && results == old(results)
    {
      var rerun := Init(surveyParam, skipParam, configs, manifest, rand1);
      if rerun {
        rerun := Init(surveyParam, skipParam, configs, manifest, rand2);
      }
    }
  }

  /**
   * The slides a successful init leaves: the deck, without its comparison
   * slides under skipCompare; `before` when the assembly throws.
   */
  function Loaded(cfg: Config, manifest: Manifest, order: seq<string>, skipParam: Option<string>,
                  before: Option<seq<Slide>>): (r: Option<seq<Slide>>)
    ensures Deck(cfg, manifest, order).None? ==> r == before
    ensures Deck(cfg, manifest, order).Some? && skipParam != Some("true") ==> r == Deck(cfg, manifest, order)
    ensures Deck(cfg, manifest, order).Some? && skipParam == Some("true") ==>
      r.Some? && r.value == WithoutCompare(Deck(cfg, manifest, order).value)
  {
    match Deck(cfg, manifest, order)
    case None => before
    case Some(d) => Some(if skipParam == Some("true") then WithoutCompare(d) else d)
  }

  /** Distinct values drawn from a list are no more than the list's length. */
  lemma ScenesFitKeys(scenes: seq<string>, keys: seq<string>)
    requires Sorter.Distinct(scenes) && forall n :: n in scenes ==> n in keys
    ensures |scenes| <= |keys|
  {
    var a := set n | n in scenes;
    var b := set n | n in keys;
    SetSizeOfDistinct(scenes);
    SetSizeAtMost(keys);
    SubsetCard(a, b);
  }

  lemma SubsetCard<V>(a: set<V>, b: set<V>)
    requires a <= b
    ensures |a| <= |b|
  {
    if a != {} {
      var x :| x in a;
      SubsetCard(a - {x}, b - {x});
    }
  }

  lemma {:induction false} SetSizeOfDistinct<V>(s: seq<V>)
    requires Sorter.Distinct(s)
    ensures |set x | x in s| == |s|
  {
    if s != [] {
      var t := s[..|s| - 1];
      assert Sorter.Distinct(t);
      SetSizeOfDistinct(t);
      assert (set x | x in s) == (set x | x in t) + {s[|s| - 1]};
      assert s[|s| - 1] !in (set x | x in t);
    }
  }

  lemma {:induction false} SetSizeAtMost<V>(s: seq<V>)
    ensures |set x | x in s| <= |s|
  {
    if s != [] {
      var t := s[..|s| - 1];
      SetSizeAtMost(t);
      assert (set x | x in s) == (set x | x in t) + {s[|s| - 1]};
    }
  }

  /** A permutation of a duplicate-free list is duplicate-free. */
  lemma ShuffledDistinct<V>(s: seq<V>, r: seq<V>)
    requires Sorter.Distinct(s) && multiset(r) == multiset(s)
    ensures Sorter.Distinct(r)
  {
    forall x ensures multiset(s)[x] <= 1 {
      DistinctCount(s, x);
    }
    forall j, k | 0 <= j < k < |r| ensures r[j] != r[k] {
      var x := r[k];
      assert r == r[..k] + [x] + r[k + 1..];
      assert multiset(r)[x] == multiset(r[..k])[x] + 1 + multiset(r[k + 1..])[x];
      assert r[j] in r[..k];
    }
  }

  lemma {:induction false} DistinctCount<V>(s: seq<V>, x: V)
    requires Sorter.Distinct(s)
    ensures multiset(s)[x] <= 1
  {
    if s != [] {
      var t := s[1..];
      assert s == [s[0]] + t;
      assert Sorter.Distinct(t);
      DistinctCount(t, x);
      if s[0] == x {
        assert x !in t;
      }
    }
  }
}
