/** Which messages survive a save and a load, in characters. */
module SessionMarkers {
  import opened Text
  import opened FileSystem
  import opened Messages
  import opened SessionCodec
  import opened SessionStore

  /** A message that is not stored: an assistant's, beginning with one of the two texts. */
  predicate Transcript(m: Message)
  {
    m.role == Assistant && ("[tool_call] name=" <= m.content || "[tool_result] name=" <= m.content)
  }

  predicate NoTranscript(s: Session)
  {
    forall i :: 0 <= i < |s| ==> !Transcript(s[i])
  }

  lemma MarkerIsTranscript(m: Message)
    ensures IsToolMarker(m) <==> Transcript(m)
  {
  }

  lemma {:induction false} FilteredLength(s: Session)
    ensures |Filtered(s)| <= |s|
    ensures |Filtered(s)| == |s| <==> NoTranscript(s)
    ensures NoTranscript(s) ==> Filtered(s) == Truncated(s)
  {
    if s == [] {
      assert Truncated(s) == [];
    } else {
      var rest := s[1..];
      assert s == [s[0]] + rest;
      FilteredLength(rest);
      MarkerIsTranscript(s[0]);
      TruncatedInFront(s[0], rest);
      NoneInFront(s[0], rest);
    }
  }

  lemma TruncatedInFront(m: Message, s: Session)
    ensures Truncated([m] + s) == [Message(m.role, CStr(m.content))] + Truncated(s)
  {
    assert ([m] + s)[1..] == s;
  }

  lemma TruncatedIff(s: Session)
    ensures Truncated(s) == s <==> forall i :: 0 <= i < |s| ==> '\0' !in s[i].content
  {
    forall i | 0 <= i < |s|
      ensures Truncated(s)[i] == s[i] <==> '\0' !in s[i].content
    {
      CStrNulFree(s[i].content);
    }
  }

  /** A saved session is loaded, each content up to its first NUL, exactly when it holds no transcript
      message; and as it was, exactly when no content holds a NUL either. */
  lemma LoadedAsSaved(fs: Files, json: Option<JsonFormat>, s: Session)
    ensures Load(Saved(fs, json, s), json) == Loaded(Truncated(s)) <==> NoTranscript(s)
    ensures Load(Saved(fs, json, s), json) == Loaded(s) <==>
      NoTranscript(s) && forall i :: 0 <= i < |s| ==> '\0' !in s[i].content
  {
    LoadAfterSave(fs, json, s);
    FilteredLength(s);
    TruncatedIff(s);
  }

  /** One message in front of a session is loaded in front, or not at all, and changes nothing else. */
  lemma LoadedInFront(fs: Files, json: Option<JsonFormat>, m: Message, s: Session)
    ensures Load(Saved(fs, json, []), json) == Loaded([]) && Load(Saved(fs, json, s), json).Loaded?
    ensures Load(Saved(fs, json, [m] + s), json) == Loaded(
      (if Transcript(m) then [] else [Message(m.role, m.content[..FirstIndex(m.content, '\0')])])
      + Load(Saved(fs, json, s), json).session)
  {
    LoadAfterSave(fs, json, []);
    LoadAfterSave(fs, json, s);
    LoadAfterSave(fs, json, [m] + s);
    MarkerIsTranscript(m);
    assert ([m] + s)[1..] == s;
  }

  /** The same of the list that is written to `.json`, whose contents are as they were. */
  lemma WrittenInFront(m: Message, s: Session)
    ensures WithoutMarkers([]) == [] && WithoutMarkers([m] + s) == (if Transcript(m) then [] else [m]) + WithoutMarkers(s)
  {
    assert ([m] + s)[1..] == s;
    MarkerIsTranscript(m);
  }

  lemma NoneInFront(m: Message, s: Session)
    ensures NoTranscript([m] + s) <==> !Transcript(m) && NoTranscript(s)
  {
    var all := [m] + s;
    assert all[0] == m && forall i :: 0 < i < |all| ==> all[i] == s[i - 1];
    if NoTranscript(all) {
      forall i | 0 <= i < |s|
        ensures !Transcript(s[i])
      {
        assert all[i + 1] == s[i];
      }
    }
  }

  lemma {:induction false} WrittenToJson(s: Session)
    ensures |WithoutMarkers(s)| <= |s|
    ensures |WithoutMarkers(s)| == |s| <==> NoTranscript(s)
    ensures NoTranscript(s) ==> WithoutMarkers(s) == s
  {
    if s != [] {
      var rest := s[1..];
      assert s == [s[0]] + rest;
      WrittenToJson(rest);
      WrittenInFront(s[0], rest);
      NoneInFront(s[0], rest);
    }
  }

  /** What a load does with whatever it finds: a `.sess` that can be read wins; a `.json` that cannot makes
      the load fail; and with neither the session is new. */
  lemma LoadedInWords(fs: Files, json: JsonFormat)
    ensures Sess in fs && Decode(fs[Sess]).Some? ==>
      Load(fs, Some(json)) == Loaded(Filtered(Decode(fs[Sess]).value)) == Load(fs, None)
    ensures !(Sess in fs && Decode(fs[Sess]).Some?) ==>
      Load(fs, None) == Loaded([])
      && (Json !in fs ==> Load(fs, Some(json)) == Loaded([]))
      && (Json in fs && json.read(fs[Json]).None? ==> Load(fs, Some(json)) == LoadFailed)
      && (Json in fs && json.read(fs[Json]).Some? ==> Load(fs, Some(json)) == Loaded(Filtered(json.read(fs[Json]).value)))
  {
  }
}
