/** Runs of saves that may crash, on a platform whose rename does not replace: the target is removed, then
    the temporary file renamed. */
module SessionFallback {
  import opened Text
  import opened FileSystem
  import opened Messages
  import opened SessionCodec
  import opened SessionStore

  /** All that later saves and loads depend on: which of the two files there are, what loads, and what
      would load without `.sess`. */
  datatype View = View(sess: bool, jsonFile: bool, loads: LoadResult, behind: LoadResult)

  function ViewOf(fs: Files, json: Option<JsonFormat>): View
  {
    View(Sess in fs, Json in fs, Load(fs, json), Load(fs - {Sess}, json))
  }

  /** How far an attempt got: its first rename or removal not reached, `.sess` removed, `.sess` renamed,
      `.json` removed, all done (without a JSON library nothing follows the rename of `.sess`). */
  datatype Stage = Unseen | SessGone | SessDone | JsonGone | AllDone

  function StageOf(v: View, json: Option<JsonFormat>, a: Attempt): Stage
  {
    var sess := |Encode(a.session)| + if v.sess then 2 else 1;
    if a.steps <= |Encode(a.session)| + 1 then Unseen
    else if a.steps <= sess then SessGone
    else if json.None? || a.steps <= sess + |json.value.write(WithoutMarkers(a.session))| + 2 then SessDone
    else if v.jsonFile && a.steps == sess + |json.value.write(WithoutMarkers(a.session))| + 3 then JsonGone
    else AllDone
  }

  function ViewThen(v: View, json: Option<JsonFormat>, a: Attempt): View
  {
    var saved := Loaded(Filtered(a.session));
    match StageOf(v, json, a)
    case Unseen => v
    case SessGone => View(false, v.jsonFile, v.behind, v.behind)
    case SessDone => View(true, v.jsonFile, saved, v.behind)
    case JsonGone => View(true, false, saved, Loaded([]))
    case AllDone => View(true, true, saved, saved)
  }

  function ViewAfter(v: View, json: Option<JsonFormat>, attempts: seq<Attempt>): View
  {
    if attempts == [] then v
    else ViewThen(ViewAfter(v, json, attempts[..|attempts| - 1]), json, attempts[|attempts| - 1])
  }

  /** The attempt stops while `.sess` is missing, and what loads then is neither. */
  predicate Loses(v: View, json: Option<JsonFormat>, a: Attempt)
  {
    StageOf(v, json, a).SessGone? && v.behind != v.loads && v.behind != Loaded(Filtered(a.session))
  }

  ghost predicate FaithfulIfAny(json: Option<JsonFormat>)
  {
    json.Some? ==> Faithful(json.value)
  }

  // ---------------------------------------------------------------------------------------------
  // One attempt
  // ---------------------------------------------------------------------------------------------

  lemma SameView(a: Files, b: Files, json: Option<JsonFormat>)
    requires Sess in a <==> Sess in b
    requires Sess in a ==> a[Sess] == b[Sess]
    requires Json in a <==> Json in b
    requires Json in a ==> a[Json] == b[Json]
    ensures ViewOf(a, json) == ViewOf(b, json)
  {
    LoadIgnoresTemporaries(a, b, json);
    LoadIgnoresTemporaries(a - {Sess}, b - {Sess}, json);
  }

  /** What the directory holds while `p` is written. */
  lemma StateWhileWriting(fs: Files, p: Name, data: string, k: nat)
    requires !p.Tmp?
    ensures |WriteStates(fs, p, data, false)| == |data| + if p in fs then 3 else 2
    ensures
      k < |WriteStates(fs, p, data, false)| ==>
        var t := WriteStates(fs, p, data, false)[k];
        && (forall q: Name :: !q.Tmp? && q != p ==> (q in t <==> q in fs) && (q in fs ==> t[q] == fs[q]))
        && (k <= |data| ==> (p in t <==> p in fs) && (p in fs ==> t[p] == fs[p]))
        && (p in fs && k == |data| + 1 ==> p !in t)
        && (k == |data| + (if p in fs then 2 else 1) ==> p in t && t[p] == data)
  {
  }

  /** The view while `.sess` is written, and then `.json`. */
  function SessPhase(v: View, s: Session, k: nat): View
  {
    if k <= |Encode(s)| then v
    else if v.sess && k == |Encode(s)| + 1 then View(false, v.jsonFile, v.behind, v.behind)
    else View(true, v.jsonFile, Loaded(Filtered(s)), v.behind)
  }

  function JsonPhase(v: View, s: Session, n: nat, k: nat): View
  {
    var saved := Loaded(Filtered(s));
    if k <= n then View(true, v.jsonFile, saved, v.behind)
    else if v.jsonFile && k == n + 1 then View(true, false, saved, Loaded([]))
    else View(true, true, saved, saved)
  }

  lemma SessView(fs: Files, json: Option<JsonFormat>, s: Session, k: nat)
    requires k < |WriteStates(fs, Sess, Encode(s), false)|
    ensures ViewOf(WriteStates(fs, Sess, Encode(s), false)[k], json) == SessPhase(ViewOf(fs, json), s, k)
  {
    var t := WriteStates(fs, Sess, Encode(s), false)[k];
    StateWhileWriting(fs, Sess, Encode(s), k);
    if k <= |Encode(s)| {
      SameView(t, fs, json);
    } else {
      LoadIgnoresTemporaries(t - {Sess}, fs - {Sess}, json);
      if Sess in t {
        LoadNew(t, json, s);
      } else {
        LoadIgnoresTemporaries(t, fs - {Sess}, json);
      }
    }
  }

  lemma JsonView(fs: Files, json: JsonFormat, s: Session, k: nat)
    requires Faithful(json) && Sess in fs && fs[Sess] == Encode(s)
    requires k < |WriteStates(fs, Json, json.write(WithoutMarkers(s)), false)|
    ensures ViewOf(WriteStates(fs, Json, json.write(WithoutMarkers(s)), false)[k], Some(json)) ==
      JsonPhase(ViewOf(fs, Some(json)), s, |json.write(WithoutMarkers(s))|, k)
  {
    var t := WriteStates(fs, Json, json.write(WithoutMarkers(s)), false)[k];
    StateWhileWriting(fs, Json, json.write(WithoutMarkers(s)), k);
    LoadNew(t, Some(json), s);
    StoredFormsAgree(s);
    if k <= |json.write(WithoutMarkers(s))| {
      SameView(t, fs, Some(json));
    }
  }

  /** How many states the write of `.sess` passes through, and how many the save. */
  function SessLength(v: View, s: Session): nat
  {
    |Encode(s)| + if v.sess then 3 else 2
  }

  function Length(v: View, json: Option<JsonFormat>, s: Session): nat
  {
    SessLength(v, s)
    + if json.None? then 0 else |json.value.write(WithoutMarkers(s))| + if v.jsonFile then 3 else 2
  }

  lemma StageInSess(v: View, json: Option<JsonFormat>, s: Session, k: nat)
    requires k < SessLength(v, s)
    ensures ViewThen(v, json, Attempt(s, k + 1)) == SessPhase(v, s, k)
  {
  }

  lemma StageInJson(v: View, json: JsonFormat, s: Session, k: nat)
    requires SessLength(v, s) <= k < Length(v, Some(json), s)
    ensures ViewThen(v, Some(json), Attempt(s, k + 1)) ==
      JsonPhase(v, s, |json.write(WithoutMarkers(s))|, k - SessLength(v, s))
  {
  }

  /** The views that a save passes through are those of its two writes, one after the other. */
  lemma InSave(fs: Files, json: Option<JsonFormat>, s: Session, k: nat)
    requires FaithfulIfAny(json)
    ensures |SaveStates(fs, json, s, false)| == Length(ViewOf(fs, json), json, s)
    ensures k < |SaveStates(fs, json, s, false)| ==>
      ViewOf(SaveStates(fs, json, s, false)[k], json) == ViewThen(ViewOf(fs, json), json, Attempt(s, k + 1))
  {
    var v := ViewOf(fs, json);
    var first := WriteStates(fs, Sess, Encode(s), false);
    SessLengthIs(fs, json, s);
    if json.None? {
      Nothing(first);
      if k < |first| {
        SessView(fs, json, s, k);
        StageInSess(v, json, s, k);
      }
    } else {
      InBoth(fs, json.value, s, k);
    }
  }

  lemma SessLengthIs(fs: Files, json: Option<JsonFormat>, s: Session)
    ensures |WriteStates(fs, Sess, Encode(s), false)| == SessLength(ViewOf(fs, json), s)
  {
    StateWhileWriting(fs, Sess, Encode(s), 0);
  }

  lemma MidView(fs: Files, json: Option<JsonFormat>, s: Session)
    ensures
      var mid, v := Written(fs, Sess, Encode(s)), ViewOf(fs, json);
      Sess in mid && mid[Sess] == Encode(s) && ViewOf(mid, json) == View(true, v.jsonFile, Loaded(Filtered(s)), v.behind)
  {
    WrittenIsLast(fs, Encode(s));
    SessLengthIs(fs, json, s);
    SessView(fs, json, s, |WriteStates(fs, Sess, Encode(s), false)| - 1);
  }

  lemma InBoth(fs: Files, json: JsonFormat, s: Session, k: nat)
    requires Faithful(json)
    ensures
      var v, states := ViewOf(fs, Some(json)), SaveStates(fs, Some(json), s, false);
      && |states| == Length(v, Some(json), s)
      && (k < |states| ==> ViewOf(states[k], Some(json)) == ViewThen(v, Some(json), Attempt(s, k + 1)))
  {
    var v, mid := ViewOf(fs, Some(json)), Written(fs, Sess, Encode(s));
    var first := WriteStates(fs, Sess, Encode(s), false);
    var second := WriteStates(mid, Json, json.write(WithoutMarkers(s)), false);
    var states := SaveStates(fs, Some(json), s, false);
    SessLengthIs(fs, Some(json), s);
    JsonLengthIs(fs, json, s);
    assert states == first + second;
    At(first, second, k);
    if k < |first| {
      SessView(fs, Some(json), s, k);
      StageInSess(v, Some(json), s, k);
    } else if k < |states| {
      MidView(fs, Some(json), s);
      JsonView(mid, json, s, k - |first|);
      StageInJson(v, json, s, k);
    }
  }

  lemma JsonLengthIs(fs: Files, json: JsonFormat, s: Session)
    ensures |WriteStates(Written(fs, Sess, Encode(s)), Json, json.write(WithoutMarkers(s)), false)| ==
      |json.write(WithoutMarkers(s))| + if ViewOf(fs, Some(json)).jsonFile then 3 else 2
  {
    StateWhileWriting(Written(fs, Sess, Encode(s)), Json, json.write(WithoutMarkers(s)), 0);
  }

  lemma At(a: seq<Files>, b: seq<Files>, k: nat)
    ensures k < |a| ==> (a + b)[k] == a[k]
    ensures |a| <= k < |a + b| ==> (a + b)[k] == b[k - |a|]
  {
  }

  lemma StepsPastTheEnd(v: View, json: Option<JsonFormat>, s: Session, steps: nat)
    requires steps >= Length(v, json, s)
    ensures ViewThen(v, json, Attempt(s, steps)) == ViewThen(v, json, Attempt(s, Length(v, json, s)))
  {
  }

  /** The directory after so many of these states. */
  function Reached(fs: Files, states: seq<Files>, steps: nat): Files
    requires states != []
  {
    if steps == 0 then fs else if steps <= |states| then states[steps - 1] else states[|states| - 1]
  }

  lemma AttemptReaches(fs: Files, json: Option<JsonFormat>, a: Attempt)
    ensures
      var states := SaveStates(fs, json, a.session, false);
      states != [] && AfterAttempt(fs, json, a, false) == Reached(fs, states, a.steps)
  {
  }

  ghost predicate Views(states: seq<Files>, v: View, json: Option<JsonFormat>, s: Session)
  {
    forall k :: 0 <= k < |states| ==> ViewOf(states[k], json) == ViewThen(v, json, Attempt(s, k + 1))
  }

  lemma SaveHasViews(fs: Files, json: Option<JsonFormat>, s: Session)
    requires FaithfulIfAny(json)
    ensures Views(SaveStates(fs, json, s, false), ViewOf(fs, json), json, s)
  {
    forall k | 0 <= k < |SaveStates(fs, json, s, false)|
      ensures ViewOf(SaveStates(fs, json, s, false)[k], json) == ViewThen(ViewOf(fs, json), json, Attempt(s, k + 1))
    {
      InSave(fs, json, s, k);
    }
  }

  lemma ReachedView(fs: Files, states: seq<Files>, json: Option<JsonFormat>, a: Attempt)
    requires states != [] && |states| == Length(ViewOf(fs, json), json, a.session)
    requires Views(states, ViewOf(fs, json), json, a.session)
    ensures ViewOf(Reached(fs, states, a.steps), json) == ViewThen(ViewOf(fs, json), json, a)
  {
    if a.steps > |states| {
      assert ViewOf(states[|states| - 1], json) == ViewThen(ViewOf(fs, json), json, Attempt(a.session, |states|));
      StepsPastTheEnd(ViewOf(fs, json), json, a.session, a.steps);
    } else if a.steps > 0 {
      assert ViewOf(states[a.steps - 1], json) == ViewThen(ViewOf(fs, json), json, Attempt(a.session, a.steps));
    }
  }

  lemma AttemptIsStep(fs: Files, json: Option<JsonFormat>, a: Attempt)
    requires FaithfulIfAny(json)
    ensures ViewOf(AfterAttempt(fs, json, a, false), json) == ViewThen(ViewOf(fs, json), json, a)
  {
    InSave(fs, json, a.session, 0);
    SaveHasViews(fs, json, a.session);
    AttemptReaches(fs, json, a);
    ReachedView(fs, SaveStates(fs, json, a.session, false), json, a);
  }

  lemma UnsafeIffLoses(fs: Files, json: Option<JsonFormat>, a: Attempt)
    requires FaithfulIfAny(json)
    ensures OldOrNew(AfterAttempt(fs, json, a, false), fs, json, a.session) <==> !Loses(ViewOf(fs, json), json, a)
  {
    AttemptIsStep(fs, json, a);
    StepLoses(ViewOf(fs, json), json, a);
  }

  lemma StepLoses(v: View, json: Option<JsonFormat>, a: Attempt)
    ensures Loses(v, json, a) <==>
      ViewThen(v, json, a).loads != v.loads && ViewThen(v, json, a).loads != Loaded(Filtered(a.session))
  {
  }

  lemma WrittenIsLast(fs: Files, data: string)
    ensures
      var states := WriteStates(fs, Sess, data, false);
      states != [] && states[|states| - 1] == Written(fs, Sess, data)
  {
  }

  // ---------------------------------------------------------------------------------------------
  // Runs
  // ---------------------------------------------------------------------------------------------

  /** Any run of saves, each finished or crashed at any point: what loads afterwards, with and without
      `.sess`, follows the stages that the attempts reached. */
  lemma {:induction false} RunsFollowTheStages(fs: Files, json: Option<JsonFormat>, attempts: seq<Attempt>)
    requires FaithfulIfAny(json)
    ensures ViewOf(AfterAttempts(fs, json, attempts, false), json) == ViewAfter(ViewOf(fs, json), json, attempts)
  {
    if attempts != [] {
      var n := |attempts| - 1;
      RunsFollowTheStages(fs, json, attempts[..n]);
      AttemptIsStep(AfterAttempts(fs, json, attempts[..n], false), json, attempts[n]);
    }
  }

  /** After every attempt a load finds what it found before, or the session of that attempt. */
  predicate SafeRun(fs: Files, json: Option<JsonFormat>, attempts: seq<Attempt>)
  {
    attempts == [] ||
      var before, a := attempts[..|attempts| - 1], attempts[|attempts| - 1];
      && SafeRun(fs, json, before)
      && OldOrNew(AfterAttempts(fs, json, attempts, false), AfterAttempts(fs, json, before, false), json, a.session)
  }

  predicate NoneLoses(v: View, json: Option<JsonFormat>, attempts: seq<Attempt>)
  {
    attempts == [] ||
      var before := attempts[..|attempts| - 1];
      NoneLoses(v, json, before) && !Loses(ViewAfter(v, json, before), json, attempts[|attempts| - 1])
  }

  /** The runs that are safe are exactly those in which no attempt stops with `.sess` missing while another
      session stands behind it. */
  lemma {:induction false} SafeIffNoneLoses(fs: Files, json: Option<JsonFormat>, attempts: seq<Attempt>)
    requires FaithfulIfAny(json)
    ensures SafeRun(fs, json, attempts) <==> NoneLoses(ViewOf(fs, json), json, attempts)
  {
    if attempts != [] {
      var n := |attempts| - 1;
      SafeIffNoneLoses(fs, json, attempts[..n]);
      RunsFollowTheStages(fs, json, attempts[..n]);
      UnsafeIffLoses(AfterAttempts(fs, json, attempts[..n], false), json, attempts[n]);
    }
  }

  /** The attempt stops between the rename of `.sess` and that of `.json`. */
  predicate StopsBetween(v: View, json: Option<JsonFormat>, a: Attempt)
  {
    StageOf(v, json, a).SessDone? || StageOf(v, json, a).JsonGone?
  }

  predicate NoneBetween(v: View, json: Option<JsonFormat>, attempts: seq<Attempt>)
  {
    attempts == [] ||
      var before := attempts[..|attempts| - 1];
      NoneBetween(v, json, before) && !StopsBetween(ViewAfter(v, json, before), json, attempts[|attempts| - 1])
  }

  /** From a directory with one session behind the other, for example after a finished save, it takes an
      attempt that stops between the two renames to lose anything. */
  lemma {:induction false} SafeUnlessStoppedBetween(fs: Files, json: Option<JsonFormat>, attempts: seq<Attempt>)
    requires FaithfulIfAny(json) && ViewOf(fs, json).behind == ViewOf(fs, json).loads
    requires NoneBetween(ViewOf(fs, json), json, attempts)
    ensures SafeRun(fs, json, attempts)
    ensures var v := ViewAfter(ViewOf(fs, json), json, attempts); v.behind == v.loads
  {
    if attempts != [] {
      SafeUnlessStoppedBetween(fs, json, attempts[..|attempts| - 1]);
      SafeIffNoneLoses(fs, json, attempts[..|attempts| - 1]);
      SafeIffNoneLoses(fs, json, attempts);
    }
  }
}
