/** Saving a session to `.sess` and `.json`, each by writing a temporary file and renaming it, and
    loading it back.  The session format is the one of SessionCodec; the JSON text format is a
    parameter. */
module SessionStore {
  import opened Text
  import opened FileSystem
  import opened Messages
  import opened SessionCodec

  /** A JSON reader and writer for message lists.  `read` gives None for text that does not parse. */
  datatype JsonFormat = JsonFormat(write: Session -> string, read: string -> Option<Session>)

  /** Reading back what was written gives the same messages. */
  ghost predicate Faithful(json: JsonFormat)
  {
    forall ms: Session :: json.read(json.write(ms)) == Some(ms)
  }

  datatype LoadResult = Loaded(session: Session) | LoadFailed

  const TOOL_CALL := "[tool_call] name="
  const TOOL_RESULT := "[tool_result] name="

  predicate IsToolMarker(m: Message)
  {
    m.role == Assistant && (StartsWith(m.content, TOOL_CALL) || StartsWith(m.content, TOOL_RESULT))
  }

  /** The session without tool markers, its contents as C strings. */
  function Filtered(s: Session): Session
  {
    if s == [] then []
    else (if IsToolMarker(s[0]) then [] else [Message(s[0].role, CStr(s[0].content))]) + Filtered(s[1..])
  }

  /** The messages written to the JSON file: markers dropped, contents as they are. */
  function WithoutMarkers(s: Session): Session
  {
    if s == [] then []
    else (if IsToolMarker(s[0]) then [] else [s[0]]) + WithoutMarkers(s[1..])
  }

  // ---------------------------------------------------------------------------------------------
  // Load
  // ---------------------------------------------------------------------------------------------

  /** `.sess` when it decodes, else `.json`, else a new session.  `json` is None in a build without
      a JSON library. */
  function Load(fs: Files, json: Option<JsonFormat>): LoadResult
  {
    if Sess in fs && Decode(fs[Sess]).Some? then Loaded(Filtered(Decode(fs[Sess]).value))
    else if json.Some? && Json in fs then
      match json.value.read(fs[Json])
      case Some(ms) => Loaded(Filtered(ms))
      case None => LoadFailed
    else Loaded([])
  }

  method FilterMessages(s: Session) returns (filtered: Session)
    ensures filtered == Filtered(s)
  {
    filtered := [];
    for i := 0 to |s|
      invariant filtered == Filtered(s[..i])
    {
      FilteredAppend(s[..i], [s[i]]);
      assert s[..i + 1] == s[..i] + [s[i]] && [s[i]][1..] == [];
      if IsToolMarker(s[i]) {
        continue;
      }
      filtered := filtered + [Message(s[i].role, CStr(s[i].content))];
    }
    assert s[..|s|] == s;
  }

  method LoadSession(disk: Disk, json: Option<JsonFormat>) returns (r: LoadResult)
    ensures r == Load(disk.files, json)
  {
    if Sess in disk.files {
      var decoded := DecodeSession(disk.files[Sess]);
      if decoded.Some? {
        var filtered := FilterMessages(decoded.value);
        return Loaded(filtered);
      }
    }
    if json.Some? && Json in disk.files {
      var parsed := json.value.read(disk.files[Json]);
      if parsed.None? {
        return LoadFailed;
      }
      var filtered := FilterMessages(parsed.value);
      return Loaded(filtered);
    }
    return Loaded([]);
  }

  // ---------------------------------------------------------------------------------------------
  // Save
  // ---------------------------------------------------------------------------------------------

  /** The directory after `p` was written. */
  function Written(fs: Files, p: Name, data: string): Files
    requires !p.Tmp?
  {
    Renamed(fs[Tmp(p) := data], Tmp(p), p)
  }

  /** The states the directory passes through while `p` is written. */
  function WriteStates(fs: Files, p: Name, data: string, overwrites: bool): seq<Files>
    requires !p.Tmp?
  {
    [fs[Tmp(p) := ""]] + AppendStates(fs[Tmp(p) := ""], Tmp(p), data)
    + ReplaceStates(fs[Tmp(p) := data], Tmp(p), p, overwrites)
  }

  method WriteFileAtomic(disk: Disk, p: Name, data: string)
    requires disk.Valid() && !p.Tmp?
    modifies disk
    ensures disk.Valid() && disk.files == Written(old(disk.files), p, data)
    ensures disk.trace == old(disk.trace) + WriteStates(old(disk.files), p, data, disk.renameReplaces)
  {
    ghost var fs, trace := disk.files, disk.trace;
    disk.Truncate(Tmp(p));
    disk.Append(Tmp(p), data);
    TemporaryWritten(fs, p, data);
    var _ := disk.RenameOrReplace(Tmp(p), p);
    Regroup(trace + [fs[Tmp(p) := ""]], AppendStates(fs[Tmp(p) := ""], Tmp(p), data),
      ReplaceStates(fs[Tmp(p) := data], Tmp(p), p, disk.renameReplaces));
    WriteTrace(trace, fs, p, data, disk.renameReplaces);
  }

  lemma TemporaryWritten(fs: Files, p: Name, data: string)
    ensures fs[Tmp(p) := ""][Tmp(p) := "" + data] == fs[Tmp(p) := data]
  {
    assert "" + data == data;
  }

  lemma WriteTrace(trace: seq<Files>, fs: Files, p: Name, data: string, overwrites: bool)
    requires !p.Tmp?
    ensures trace + WriteStates(fs, p, data, overwrites) ==
      trace + [fs[Tmp(p) := ""]] + AppendStates(fs[Tmp(p) := ""], Tmp(p), data)
      + ReplaceStates(fs[Tmp(p) := data], Tmp(p), p, overwrites)
  {
    var a, b, c := [fs[Tmp(p) := ""]], AppendStates(fs[Tmp(p) := ""], Tmp(p), data),
      ReplaceStates(fs[Tmp(p) := data], Tmp(p), p, overwrites);
    Regroup(trace, a + b, c);
    Regroup(trace, a, b);
  }

  function Saved(fs: Files, json: Option<JsonFormat>, s: Session): Files
  {
    var fs' := Written(fs, Sess, Encode(s));
    if json.None? then fs' else Written(fs', Json, json.value.write(WithoutMarkers(s)))
  }

  function SaveStates(fs: Files, json: Option<JsonFormat>, s: Session, overwrites: bool): seq<Files>
  {
    WriteStates(fs, Sess, Encode(s), overwrites)
    + if json.None? then []
      else WriteStates(Written(fs, Sess, Encode(s)), Json, json.value.write(WithoutMarkers(s)), overwrites)
  }

  method SaveSession(disk: Disk, json: Option<JsonFormat>, s: Session)
    requires disk.Valid()
    modifies disk
    ensures disk.Valid() && disk.files == Saved(old(disk.files), json, s)
    ensures disk.trace == old(disk.trace) + SaveStates(old(disk.files), json, s, disk.renameReplaces)
  {
    ghost var fs, trace := disk.files, disk.trace;
    var encoded := EncodeSession(s);
    WriteFileAtomic(disk, Sess, encoded);
    ghost var first := WriteStates(fs, Sess, encoded, disk.renameReplaces);
    if json.Some? {
      var messages := MessagesForJson(s);
      WriteFileAtomic(disk, Json, json.value.write(messages));
      Regroup(trace, first, WriteStates(Written(fs, Sess, encoded), Json, json.value.write(messages), disk.renameReplaces));
    } else {
      assert first + [] == first;
    }
  }

  method MessagesForJson(s: Session) returns (messages: Session)
    ensures messages == WithoutMarkers(s)
  {
    messages := [];
    for i := 0 to |s|
      invariant messages == WithoutMarkers(s[..i])
    {
      WithoutMarkersAppend(s[..i], [s[i]]);
      assert s[..i + 1] == s[..i] + [s[i]] && [s[i]][1..] == [];
      if IsToolMarker(s[i]) {
        continue;
      }
      messages := messages + [s[i]];
    }
    assert s[..|s|] == s;
  }

  // ---------------------------------------------------------------------------------------------
  // Filtering
  // ---------------------------------------------------------------------------------------------

  lemma {:induction false} FilteredAppend(a: Session, b: Session)
    ensures Filtered(a + b) == Filtered(a) + Filtered(b)
  {
    if a == [] {
      assert a + b == b;
    } else {
      assert (a + b)[1..] == a[1..] + b;
      FilteredAppend(a[1..], b);
    }
  }

  lemma {:induction false} WithoutMarkersAppend(a: Session, b: Session)
    ensures WithoutMarkers(a + b) == WithoutMarkers(a) + WithoutMarkers(b)
  {
    if a == [] {
      assert a + b == b;
    } else {
      assert (a + b)[1..] == a[1..] + b;
      WithoutMarkersAppend(a[1..], b);
    }
  }

  lemma MarkerOfCString(m: Message)
    ensures IsToolMarker(Message(m.role, CStr(m.content))) <==> IsToolMarker(m)
  {
    CStrKeepsPrefix(m.content, TOOL_CALL);
    CStrKeepsPrefix(m.content, TOOL_RESULT);
  }

  /** Both stored forms of a session load as the same filtered session. */
  lemma {:induction false} StoredFormsAgree(s: Session)
    ensures Filtered(Truncated(s)) == Filtered(s) == Filtered(WithoutMarkers(s))
  {
    if s == [] {
      assert Truncated(s) == [];
    } else {
      assert Truncated(s)[1..] == Truncated(s[1..]);
      StoredFormsAgree(s[1..]);
      MarkerOfCString(s[0]);
      CStrTwice(s[0].content);
      assert WithoutMarkers(s) == if IsToolMarker(s[0]) then WithoutMarkers(s[1..]) else [s[0]] + WithoutMarkers(s[1..]);
    }
  }

  /** Filtering only removes markers exactly when no kept message holds a NUL. */
  lemma {:induction false} FilteringKeepsText(s: Session)
    ensures Filtered(s) == WithoutMarkers(s) <==>
      forall i :: 0 <= i < |s| && !IsToolMarker(s[i]) ==> '\0' !in s[i].content
  {
    if s != [] {
      FilteringKeepsText(s[1..]);
      CStrNulFree(s[0].content);
      assert forall i :: 0 < i < |s| ==> s[i] == s[1..][i - 1];
      assert forall i :: 0 <= i < |s| - 1 ==> s[1..][i] == s[i + 1];
      var head, kept := Message(s[0].role, CStr(s[0].content)), WithoutMarkers(s[1..]);
      assert [head] + Filtered(s[1..]) == [s[0]] + kept <==> head == s[0] && Filtered(s[1..]) == kept by {
        assert ([head] + Filtered(s[1..]))[1..] == Filtered(s[1..]) && ([s[0]] + kept)[1..] == kept;
      }
    }
  }

  // ---------------------------------------------------------------------------------------------
  // Crash safety of one save
  // ---------------------------------------------------------------------------------------------

  /** Loading looks at `.sess` and `.json` only. */
  lemma LoadIgnoresTemporaries(a: Files, b: Files, json: Option<JsonFormat>)
    requires Sess in a <==> Sess in b
    requires Sess in a ==> a[Sess] == b[Sess]
    requires Json in a <==> Json in b
    requires Json in a ==> a[Json] == b[Json]
    ensures Load(a, json) == Load(b, json)
  {
  }

  lemma LoadNew(fs: Files, json: Option<JsonFormat>, s: Session)
    requires Sess in fs && fs[Sess] == Encode(s)
    ensures Load(fs, json) == Loaded(Filtered(s))
  {
    DecodeEncode(s);
    StoredFormsAgree(s);
  }

  /** While `.sess` is written a load sees the old directory, then possibly (where rename does not
      replace) the directory without `.sess`, then the new session. */
  lemma SessStates(fs: Files, json: Option<JsonFormat>, s: Session, overwrites: bool, k: nat)
    requires k < |WriteStates(fs, Sess, Encode(s), overwrites)|
    ensures
      var n, t := |Encode(s)| + 1, WriteStates(fs, Sess, Encode(s), overwrites)[k];
      && |WriteStates(fs, Sess, Encode(s), overwrites)| == (if overwrites || Sess !in fs then n + 1 else n + 2)
      && (k < n ==> Load(t, json) == Load(fs, json))
      && (k == n && !overwrites && Sess in fs ==> Load(t, json) == Load(fs - {Sess}, json))
      && (k >= n && !(k == n && !overwrites && Sess in fs) ==> Load(t, json) == Loaded(Filtered(s)))
  {
    var n, t := |Encode(s)| + 1, WriteStates(fs, Sess, Encode(s), overwrites)[k];
    if k < n {
      assert t == fs[Tmp(Sess) := t[Tmp(Sess)]];
      LoadIgnoresTemporaries(t, fs, json);
    } else if k == n && !overwrites && Sess in fs {
      assert t == fs[Tmp(Sess) := Encode(s)] - {Sess};
      LoadIgnoresTemporaries(t, fs - {Sess}, json);
    } else {
      assert t == Written(fs, Sess, Encode(s));
      LoadNew(t, json, s);
    }
  }

  /** Writing `.json` next to a `.sess` that holds `s` never shows. */
  lemma JsonStates(fs: Files, json: Option<JsonFormat>, s: Session, data: string, overwrites: bool, k: nat)
    requires Sess in fs && fs[Sess] == Encode(s) && k < |WriteStates(fs, Json, data, overwrites)|
    ensures Load(WriteStates(fs, Json, data, overwrites)[k], json) == Loaded(Filtered(s))
  {
    LoadNew(WriteStates(fs, Json, data, overwrites)[k], json, s);
  }

  /** A load finds the filtered old session or the filtered new one. */
  predicate OldOrNew(t: Files, fs: Files, json: Option<JsonFormat>, s: Session)
  {
    Load(t, json) == Load(fs, json) || Load(t, json) == Loaded(Filtered(s))
  }

  ghost predicate CrashSafe(fs: Files, json: Option<JsonFormat>, s: Session, overwrites: bool)
  {
    forall k :: 0 <= k < |SaveStates(fs, json, s, overwrites)| ==>
      OldOrNew(SaveStates(fs, json, s, overwrites)[k], fs, json, s)
  }

  /** Where rename replaces its target, every crash point of every save is safe; elsewhere a save is
      crash-safe exactly when there was no `.sess`, or what loads without it is the old session or
      happens to be the new one. */
  lemma SaveIsCrashSafe(fs: Files, json: Option<JsonFormat>, s: Session, overwrites: bool)
    ensures CrashSafe(fs, json, s, overwrites) <==>
      overwrites || Sess !in fs || OldOrNew(fs - {Sess}, fs, json, s)
  {
    var all, first := SaveStates(fs, json, s, overwrites), WriteStates(fs, Sess, Encode(s), overwrites);
    forall k | 0 <= k < |all|
      ensures overwrites || Sess !in fs || OldOrNew(fs - {Sess}, fs, json, s) ==> OldOrNew(all[k], fs, json, s)
    {
      if k < |first| {
        SessStates(fs, json, s, overwrites, k);
        assert all[k] == first[k];
      } else {
        JsonStates(Written(fs, Sess, Encode(s)), json, s, json.value.write(WithoutMarkers(s)), overwrites, k - |first|);
      }
    }
    if !overwrites && Sess in fs {
      var n := |Encode(s)| + 1;
      SessStates(fs, json, s, overwrites, 0);
      SessStates(fs, json, s, overwrites, n);
      assert all[n] == first[n];
    }
  }

  /** Without a crash a load returns exactly what was saved, filtered; with a JSON library it still
      does after `.sess` is lost. */
  lemma LoadAfterSave(fs: Files, json: Option<JsonFormat>, s: Session)
    ensures Load(Saved(fs, json, s), json) == Loaded(Filtered(s))
    ensures json.Some? && Faithful(json.value) ==>
      Load(Saved(fs, json, s) - {Sess}, json) == Loaded(Filtered(s))
  {
    LoadNew(Saved(fs, json, s), json, s);
    StoredFormsAgree(s);
  }

  /** So with a faithful JSON format a save that follows a finished save is crash-safe everywhere. */
  lemma SaveAfterSaveIsCrashSafe(fs: Files, json: JsonFormat, before: Session, s: Session, overwrites: bool)
    requires Faithful(json)
    ensures CrashSafe(Saved(fs, Some(json), before), Some(json), s, overwrites)
  {
    LoadAfterSave(fs, Some(json), before);
    SaveIsCrashSafe(Saved(fs, Some(json), before), Some(json), s, overwrites);
  }

  // ---------------------------------------------------------------------------------------------
  // Runs of saves that may crash
  // ---------------------------------------------------------------------------------------------

  /** A save of `session` that got `steps` states far; at least as many as there are means it finished. */
  datatype Attempt = Attempt(session: Session, steps: nat)

  function AfterAttempt(fs: Files, json: Option<JsonFormat>, a: Attempt, overwrites: bool): Files
  {
    var states := SaveStates(fs, json, a.session, overwrites);
    if a.steps == 0 then fs else if a.steps <= |states| then states[a.steps - 1] else states[|states| - 1]
  }

  function AfterAttempts(fs: Files, json: Option<JsonFormat>, attempts: seq<Attempt>, overwrites: bool): Files
  {
    if attempts == [] then fs
    else
      var n := |attempts| - 1;
      AfterAttempt(AfterAttempts(fs, json, attempts[..n], overwrites), json, attempts[n], overwrites)
  }

  /** The attempt got past the rename of `.sess` (on a platform whose rename replaces). */
  predicate Renames(a: Attempt)
  {
    a.steps >= |Encode(a.session)| + 2
  }

  /** What is to be loaded after a run: the session of the last attempt that got past its rename. */
  function Expected(initial: LoadResult, attempts: seq<Attempt>): LoadResult
  {
    if attempts == [] then initial
    else
      var n := |attempts| - 1;
      if Renames(attempts[n]) then Loaded(Filtered(attempts[n].session)) else Expected(initial, attempts[..n])
  }

  lemma AttemptLoads(fs: Files, json: Option<JsonFormat>, a: Attempt)
    ensures Load(AfterAttempt(fs, json, a, true), json)
         == if Renames(a) then Loaded(Filtered(a.session)) else Load(fs, json)
    ensures a.steps >= |SaveStates(fs, json, a.session, true)| ==> Renames(a)
  {
    var all := SaveStates(fs, json, a.session, true);
    SaveIsLonger(fs, json, a.session);
    if a.steps > 0 {
      AttemptStateLoads(fs, json, a.session, if a.steps <= |all| then a.steps - 1 else |all| - 1);
    }
  }

  lemma SaveIsLonger(fs: Files, json: Option<JsonFormat>, s: Session)
    ensures |SaveStates(fs, json, s, true)| >= |Encode(s)| + 2
  {
    SessStates(fs, json, s, true, 0);
  }

  lemma AttemptStateLoads(fs: Files, json: Option<JsonFormat>, s: Session, k: nat)
    requires k < |SaveStates(fs, json, s, true)|
    ensures Load(SaveStates(fs, json, s, true)[k], json)
         == if k > |Encode(s)| then Loaded(Filtered(s)) else Load(fs, json)
  {
    var all, first := SaveStates(fs, json, s, true), WriteStates(fs, Sess, Encode(s), true);
    SessStates(fs, json, s, true, 0);
    if k < |first| {
      SessStates(fs, json, s, true, k);
      assert all[k] == first[k];
    } else {
      JsonStates(Written(fs, Sess, Encode(s)), json, s, json.value.write(WithoutMarkers(s)), true, k - |first|);
    }
  }

  /** Over any run of saves, each finished or crashed at any point, a load finds exactly the last
      session that got past its rename: never a mixture, and never older than a finished save. */
  lemma {:induction false} RunsOfCrashesLoadTheLastRename(fs: Files, json: Option<JsonFormat>, attempts: seq<Attempt>)
    ensures Load(AfterAttempts(fs, json, attempts, true), json) == Expected(Load(fs, json), attempts)
  {
    if attempts != [] {
      var n := |attempts| - 1;
      RunsOfCrashesLoadTheLastRename(fs, json, attempts[..n]);
      AttemptLoads(AfterAttempts(fs, json, attempts[..n], true), json, attempts[n]);
    }
  }

  /** Where rename does not replace, two crashes in a row can bring back a session older than both:
      `a` saved, then `b` crashed between its two files, then `c` crashed while `.sess` was missing. */
  lemma TwoCrashesOnFallbackRevive(fs: Files, json: JsonFormat, a: Session, b: Session, c: Session)
    requires Faithful(json)
    ensures
      var saved := Saved(fs, Some(json), a);
      var crashed := AfterAttempt(saved, Some(json), Attempt(b, |Encode(b)| + 3), false);
      var crashedAgain := AfterAttempt(crashed, Some(json), Attempt(c, |Encode(c)| + 2), false);
      && Load(crashed, Some(json)) == Loaded(Filtered(b))
      && Load(crashedAgain, Some(json)) == Loaded(Filtered(a))
      && (Filtered(a) != Filtered(b) && Filtered(a) != Filtered(c) ==>
            !OldOrNew(crashedAgain, crashed, Some(json), c))
  {
    var saved := Saved(fs, Some(json), a);
    CrashBetweenFiles(saved, json, b);
    var crashed := AfterAttempt(saved, Some(json), Attempt(b, |Encode(b)| + 3), false);
    CrashWithoutSess(crashed, json, c);
    LoadAfterSave(fs, Some(json), a);
    LoadIgnoresTemporaries(crashed - {Sess}, saved - {Sess}, Some(json));
  }

  lemma CrashedInSess(fs: Files, json: JsonFormat, s: Session, k: nat)
    requires k < |WriteStates(fs, Sess, Encode(s), false)|
    ensures AfterAttempt(fs, Some(json), Attempt(s, k + 1), false) == WriteStates(fs, Sess, Encode(s), false)[k]
  {
  }

  lemma CrashBetweenFiles(fs: Files, json: JsonFormat, s: Session)
    requires Sess in fs && Json in fs
    ensures
      var crashed := AfterAttempt(fs, Some(json), Attempt(s, |Encode(s)| + 3), false);
      Sess in crashed && Json in crashed && crashed[Json] == fs[Json] && Load(crashed, Some(json)) == Loaded(Filtered(s))
  {
    var k := |Encode(s)| + 2;
    SessStates(fs, Some(json), s, false, 0);
    CrashedInSess(fs, json, s, k);
    SessStates(fs, Some(json), s, false, k);
    assert WriteStates(fs, Sess, Encode(s), false)[k] == Written(fs, Sess, Encode(s));
  }

  lemma CrashWithoutSess(fs: Files, json: JsonFormat, s: Session)
    requires Sess in fs
    ensures Load(AfterAttempt(fs, Some(json), Attempt(s, |Encode(s)| + 2), false), Some(json))
         == Load(fs - {Sess}, Some(json))
  {
    var k := |Encode(s)| + 1;
    SessStates(fs, Some(json), s, false, 0);
    CrashedInSess(fs, json, s, k);
    SessStates(fs, Some(json), s, false, k);
  }
}
