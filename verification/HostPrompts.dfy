/** The pinned system prompts at the head of a host session. */
module HostPrompts {
  import opened Text
  import opened Messages

  const SCAN_LIMIT := 12
  const HOST_PREFIX := "You are a host-side coding agent"
  const PROFILE_PREFIX := "HOST_SYSTEM_PROFILE="
  const CLIENT_PREFIX := "CLIENT_PROFILE="
  const PROJECT_PREFIX := "PROJECT_INSTRUCTIONS=agmd-v1"

  /** What a caller wants pinned.  `hostPrompt` is the prompt found for the profile: that of the default
      profile when the profile is not known. */
  datatype Request = Request(
    hostPrompt: string, profile: string, clientPrompt: string, clientMarker: string, projectPrompt: string)
  {
    function HostMarker(): string { PROFILE_PREFIX + if profile == "" then "default" else profile }

    predicate WantsClient() { clientPrompt != "" && clientMarker != "" }

    predicate WantsProject() { projectPrompt != "" }
  }

  // ---------------------------------------------------------------------------------------------
  // The scans
  // ---------------------------------------------------------------------------------------------

  /** One of the first `limit` messages passes, and all messages up to it are system messages. */
  predicate LeadingHas(s: Session, limit: nat, pass: string -> bool)
  {
    s != [] && limit > 0 && s[0].role.System? && (pass(s[0].content) || LeadingHas(s[1..], limit - 1, pass))
  }

  function HasPrefix(prefix: string): string -> bool { content => StartsWith(content, prefix) }

  function HasPart(part: string): string -> bool { content => Contains(content, part) }

  function Is(text: string): string -> bool { content => content == text }

  /** The loop all three scans run. */
  method Scan(s: Session, pass: string -> bool) returns (found: bool)
    ensures found == LeadingHas(s, SCAN_LIMIT, pass)
  {
    var i := 0;
    assert s[0..] == s;
    while i < |s| && i < SCAN_LIMIT
      invariant 0 <= i <= |s| && i <= SCAN_LIMIT
      invariant LeadingHas(s, SCAN_LIMIT, pass) == LeadingHas(s[i..], SCAN_LIMIT - i, pass)
      decreases |s| - i
    {
      assert s[i..][0] == s[i] && s[i..][1..] == s[i + 1..];
      if !s[i].role.System? { return false; }
      if pass(s[i].content) { return true; }
      i := i + 1;
    }
    found := false;
  }

  /** Nothing has to be done. */
  predicate UpToDate(s: Session, r: Request)
  {
    && LeadingHas(s, SCAN_LIMIT, HasPrefix(HOST_PREFIX))
    && LeadingHas(s, SCAN_LIMIT, HasPart(r.HostMarker()))
    && (if r.WantsClient() then LeadingHas(s, SCAN_LIMIT, HasPart(r.clientMarker))
        else !LeadingHas(s, SCAN_LIMIT, HasPrefix(CLIENT_PREFIX)))
    && (if r.WantsProject() then LeadingHas(s, SCAN_LIMIT, Is(r.projectPrompt))
        else !LeadingHas(s, SCAN_LIMIT, HasPrefix(PROJECT_PREFIX)))
  }

  // ---------------------------------------------------------------------------------------------
  // The rebuild
  // ---------------------------------------------------------------------------------------------

  predicate IsManaged(m: Message)
  {
    m.role.System? && (StartsWith(m.content, HOST_PREFIX) || StartsWith(m.content, PROFILE_PREFIX)
      || StartsWith(m.content, CLIENT_PREFIX) || StartsWith(m.content, PROJECT_PREFIX))
  }

  /** Adding a message copies its text up to the first NUL. */
  function Added(m: Message): Message { m.(content := CStr(m.content)) }

  function Pinned(r: Request): Session
  {
    [Added(Message(System, r.hostPrompt))]
    + (if r.WantsClient() then [Added(Message(System, r.clientPrompt))] else [])
    + if r.WantsProject() then [Added(Message(System, r.projectPrompt))] else []
  }

  /** All other messages, in their order. */
  function Unmanaged(s: Session): Session
  {
    if s == [] then []
    else
      var last := s[|s| - 1];
      Unmanaged(s[..|s| - 1]) + if IsManaged(last) then [] else [Added(last)]
  }

  function Rebuilt(s: Session, r: Request): Session { Pinned(r) + Unmanaged(s) }

  function Ensured(s: Session, r: Request): (Session, bool)
  {
    if UpToDate(s, r) then (s, false) else (Rebuilt(s, r), true)
  }

  method Copy(msgs: Session, start: Session) returns (rebuilt: Session)
    ensures rebuilt == start + Unmanaged(msgs)
  {
    rebuilt := start;
    Nothing(start);
    for i := 0 to |msgs|
      invariant rebuilt == start + Unmanaged(msgs[..i])
    {
      var m := msgs[i];
      UnmanagedSnoc(msgs, i);
      Regroup(start, Unmanaged(msgs[..i]), [Added(m)]);
      if m.role.System? && m.content != "" {
        if StartsWith(m.content, HOST_PREFIX) { continue; }
        if StartsWith(m.content, PROFILE_PREFIX) { continue; }
        if StartsWith(m.content, CLIENT_PREFIX) { continue; }
        if StartsWith(m.content, PROJECT_PREFIX) { continue; }
      }
      rebuilt := rebuilt + [Added(m)];
    }
    assert msgs[..|msgs|] == msgs;
  }

  lemma UnmanagedSnoc(msgs: Session, i: nat)
    requires i < |msgs|
    ensures Unmanaged(msgs[..i + 1]) ==
      if IsManaged(msgs[i]) then Unmanaged(msgs[..i]) else Unmanaged(msgs[..i]) + [Added(msgs[i])]
    ensures IsManaged(msgs[i]) ==> msgs[i].content != ""
  {
    assert msgs[..i + 1][..i] == msgs[..i];
    Nothing(Unmanaged(msgs[..i]));
  }

  /** `ensure_pinned_host_session_prompts`. */
  method Ensure(s: Session, r: Request) returns (session: Session, changed: bool)
    ensures (session, changed) == Ensured(s, r)
  {
    var haveHost := Scan(s, HasPrefix(HOST_PREFIX));
    var haveProfile := Scan(s, HasPart(r.HostMarker()));
    var haveAnyClient := Scan(s, HasPrefix(CLIENT_PREFIX));
    var haveClient := true;
    if r.WantsClient() {
      haveClient := Scan(s, HasPart(r.clientMarker));
    }
    var haveAnyProject := Scan(s, HasPrefix(PROJECT_PREFIX));
    var haveProject := true;
    if r.WantsProject() {
      haveProject := Scan(s, Is(r.projectPrompt));
    }
    var staleClient := !r.WantsClient() && haveAnyClient;
    var staleProject := !r.WantsProject() && haveAnyProject;
    if haveHost && haveProfile && haveClient && haveProject && !staleClient && !staleProject {
      return s, false;
    }
    session := [Added(Message(System, r.hostPrompt))];
    if r.WantsClient() {
      session := session + [Added(Message(System, r.clientPrompt))];
    }
    if r.WantsProject() {
      session := session + [Added(Message(System, r.projectPrompt))];
    }
    Nothing([Added(Message(System, r.hostPrompt))]);
    Nothing(session);
    session := Copy(s, session);
    changed := true;
  }

  // ---------------------------------------------------------------------------------------------
  // What a rebuild keeps
  // ---------------------------------------------------------------------------------------------

  lemma {:induction false} UnmanagedAppend(a: Session, b: Session)
    ensures Unmanaged(a + b) == Unmanaged(a) + Unmanaged(b)
  {
    if b == [] {
      assert a + b == a;
      Nothing(Unmanaged(a));
    } else {
      var n := |b| - 1;
      assert (a + b)[..|a| + n] == a + b[..n];
      UnmanagedAppend(a, b[..n]);
      Regroup(Unmanaged(a), Unmanaged(b[..n]), if IsManaged(b[n]) then [] else [Added(b[n])]);
    }
  }

  lemma AddedIsManaged(m: Message)
    ensures IsManaged(Added(m)) <==> IsManaged(m)
    ensures Added(Added(m)) == Added(m)
  {
    CStrTwice(m.content);
    NoNulInPrefixes();
    CStrKeepsPrefix(m.content, HOST_PREFIX);
    CStrKeepsPrefix(m.content, PROFILE_PREFIX);
    CStrKeepsPrefix(m.content, CLIENT_PREFIX);
    CStrKeepsPrefix(m.content, PROJECT_PREFIX);
  }

  lemma NoNulInPrefixes()
    ensures '\0' !in HOST_PREFIX && '\0' !in PROFILE_PREFIX && '\0' !in CLIENT_PREFIX && '\0' !in PROJECT_PREFIX
  {
  }

  /** The unmanaged messages stay as they are. */
  lemma {:induction false} UnmanagedTwice(s: Session)
    ensures Unmanaged(Unmanaged(s)) == Unmanaged(s)
  {
    if s != [] {
      var n := |s| - 1;
      UnmanagedTwice(s[..n]);
      if IsManaged(s[n]) {
        Nothing(Unmanaged(s[..n]));
      } else {
        AddedIsManaged(s[n]);
        UnmanagedAppend(Unmanaged(s[..n]), [Added(s[n])]);
        OneUnmanaged(Added(s[n]));
      }
    }
  }

  lemma OneUnmanaged(m: Message)
    ensures Unmanaged([m]) == if IsManaged(m) then [] else [Added(m)]
  {
    assert [m][..0] == [];
    Nothing([Added(m)]);
  }

  /** The prompts are recognised as managed ones. */
  predicate Recognised(r: Request)
  {
    && StartsWith(r.hostPrompt, HOST_PREFIX)
    && (r.WantsClient() ==> IsManaged(Message(System, r.clientPrompt)))
    && (r.WantsProject() ==> IsManaged(Message(System, r.projectPrompt)))
  }

  lemma PinnedIsManaged(r: Request)
    requires Recognised(r)
    ensures Unmanaged(Pinned(r)) == []
  {
    var host, client, project := Message(System, r.hostPrompt), Message(System, r.clientPrompt), Message(System, r.projectPrompt);
    AddedIsManaged(host);
    AddedIsManaged(client);
    AddedIsManaged(project);
    OneUnmanaged(Added(host));
    OneUnmanaged(Added(client));
    OneUnmanaged(Added(project));
    var first := [Added(host)];
    var second := if r.WantsClient() then [Added(client)] else [];
    var third := if r.WantsProject() then [Added(project)] else [];
    UnmanagedAppend(first + second, third);
    UnmanagedAppend(first, second);
  }

  /** Rebuilding loses, adds and reorders none of the unmanaged messages. */
  lemma RebuildKeepsUnmanaged(s: Session, r: Request)
    requires Recognised(r)
    ensures Unmanaged(Rebuilt(s, r)) == Unmanaged(s)
  {
    UnmanagedAppend(Pinned(r), Unmanaged(s));
    PinnedIsManaged(r);
    UnmanagedTwice(s);
    Nothing(Unmanaged(s));
  }

  /** The unmanaged messages as they were given. */
  function Others(s: Session): Session
  {
    if s == [] then []
    else
      var last := s[|s| - 1];
      Others(s[..|s| - 1]) + if IsManaged(last) then [] else [last]
  }

  predicate Keeps(m: Message) { IsManaged(m) || '\0' !in m.content }

  predicate AllKeep(s: Session) { forall i :: 0 <= i < |s| ==> Keeps(s[i]) }

  lemma AllKeepSnoc(s: Session, n: nat)
    requires |s| == n + 1
    ensures AllKeep(s) <==> AllKeep(s[..n]) && Keeps(s[n])
  {
    assert AllKeep(s[..n]) ==> forall i :: 0 <= i < n ==> s[i] == s[..n][i];
  }

  lemma AddedSame(m: Message)
    ensures Added(m) == m <==> '\0' !in m.content
  {
    CStrNulFree(m.content);
  }

  /** Their text is kept exactly when none of it holds a NUL. */
  lemma {:induction false} TextKeptIffNoNul(s: Session)
    ensures Unmanaged(s) == Others(s) <==> AllKeep(s)
    ensures |Unmanaged(s)| == |Others(s)|
  {
    if s != [] {
      var n := |s| - 1;
      TextKeptIffNoNul(s[..n]);
      AllKeepSnoc(s, n);
      AddedSame(s[n]);
      LastSame(Unmanaged(s[..n]), Added(s[n]), Others(s[..n]), s[n]);
      Nothing(Unmanaged(s[..n]));
      Nothing(Others(s[..n]));
    }
  }

  lemma LastSame(a: Session, m: Message, b: Session, n: Message)
    requires |a| == |b|
    ensures a + [m] == b + [n] <==> a == b && m == n
  {
    assert (a + [m])[..|a|] == a && (a + [m])[|a|] == m;
    assert (b + [n])[..|b|] == b && (b + [n])[|b|] == n;
  }

  /** A rebuild of a rebuilt session changes nothing, whatever the profile. */
  lemma RebuildIsStable(s: Session, r: Request)
    requires Recognised(r)
    ensures Rebuilt(Rebuilt(s, r), r) == Rebuilt(s, r)
  {
    RebuildKeepsUnmanaged(s, r);
  }

  // ---------------------------------------------------------------------------------------------
  // The second call
  // ---------------------------------------------------------------------------------------------

  /** What the callers see to: prompts without NUL, each wanted one with its own prefix, the client's
      with its marker. */
  predicate WellFormed(r: Request)
  {
    && StartsWith(r.hostPrompt, HOST_PREFIX) && '\0' !in r.hostPrompt
    && (r.WantsClient() ==> StartsWith(r.clientPrompt, CLIENT_PREFIX) && '\0' !in r.clientPrompt)
    && (r.WantsClient() ==> Contains(r.clientPrompt, r.clientMarker))
    && (r.WantsProject() ==> StartsWith(r.projectPrompt, PROJECT_PREFIX) && '\0' !in r.projectPrompt)
  }

  lemma LeadingAt(s: Session, limit: nat, pass: string -> bool, i: nat)
    requires i < |s| && i < limit && pass(s[i].content) && forall k :: 0 <= k <= i ==> s[k].role.System?
    ensures LeadingHas(s, limit, pass)
  {
    if i > 0 && !pass(s[0].content) {
      LeadingAt(s[1..], limit - 1, pass, i - 1);
    }
  }

  lemma {:induction false} NotLeading(s: Session, limit: nat, pass: string -> bool)
    requires forall k :: 0 <= k < |s| && s[k].role.System? ==> !pass(s[k].content)
    ensures !LeadingHas(s, limit, pass)
    decreases |s|
  {
    if s != [] && limit > 0 {
      NotLeading(s[1..], limit - 1, pass);
    }
  }

  /** The prompts as they are pinned. */
  lemma PinnedPrompts(r: Request)
    requires WellFormed(r)
    ensures
      var p := Pinned(r);
      && 1 <= |p| <= 3 && (forall k :: 0 <= k < |p| ==> p[k].role.System?)
      && p[0].content == r.hostPrompt
      && (r.WantsClient() ==> |p| > 1 && p[1].content == r.clientPrompt)
      && (r.WantsProject() ==> p[|p| - 1].content == r.projectPrompt)
      && |p| == 1 + (if r.WantsClient() then 1 else 0) + if r.WantsProject() then 1 else 0
  {
    CStrNulFree(r.hostPrompt);
    CStrNulFree(r.clientPrompt);
    CStrNulFree(r.projectPrompt);
  }

  lemma {:induction false} NoneManaged(s: Session, k: nat)
    requires k < |Unmanaged(s)|
    ensures !IsManaged(Unmanaged(s)[k])
  {
    var n := |s| - 1;
    if k < |Unmanaged(s[..n])| {
      NoneManaged(s[..n], k);
    } else {
      AddedIsManaged(s[n]);
    }
  }

  lemma PrefixesDiffer(text: string)
    ensures StartsWith(text, HOST_PREFIX) ==> !StartsWith(text, CLIENT_PREFIX) && !StartsWith(text, PROJECT_PREFIX)
    ensures StartsWith(text, CLIENT_PREFIX) ==> !StartsWith(text, PROJECT_PREFIX)
  {
    assert HOST_PREFIX[0] == 'Y' && CLIENT_PREFIX[0] == 'C' && PROJECT_PREFIX[0] == 'P';
  }

  /** After a rebuild no unwanted prompt leads the session. */
  lemma NoStalePrompt(s: Session, r: Request)
    requires WellFormed(r)
    ensures !r.WantsClient() ==> !LeadingHas(Rebuilt(s, r), SCAN_LIMIT, HasPrefix(CLIENT_PREFIX))
    ensures !r.WantsProject() ==> !LeadingHas(Rebuilt(s, r), SCAN_LIMIT, HasPrefix(PROJECT_PREFIX))
  {
    var t := Rebuilt(s, r);
    forall k | 0 <= k < |t| && t[k].role.System?
      ensures !r.WantsClient() ==> !StartsWith(t[k].content, CLIENT_PREFIX)
      ensures !r.WantsProject() ==> !StartsWith(t[k].content, PROJECT_PREFIX)
    {
      StaleAt(s, r, k);
    }
    if !r.WantsClient() { NotLeading(t, SCAN_LIMIT, HasPrefix(CLIENT_PREFIX)); }
    if !r.WantsProject() { NotLeading(t, SCAN_LIMIT, HasPrefix(PROJECT_PREFIX)); }
  }

  lemma StaleAt(s: Session, r: Request, k: nat)
    requires WellFormed(r) && k < |Rebuilt(s, r)| && Rebuilt(s, r)[k].role.System?
    ensures !r.WantsClient() ==> !StartsWith(Rebuilt(s, r)[k].content, CLIENT_PREFIX)
    ensures !r.WantsProject() ==> !StartsWith(Rebuilt(s, r)[k].content, PROJECT_PREFIX)
  {
    PinnedPrompts(r);
    PrefixesDiffer(Rebuilt(s, r)[k].content);
    if k >= |Pinned(r)| {
      NoneManaged(s, k - |Pinned(r)|);
    }
  }

  /** The wanted prompts lead a rebuilt session. */
  lemma WantedPromptsLead(s: Session, r: Request)
    requires WellFormed(r)
    ensures LeadingHas(Rebuilt(s, r), SCAN_LIMIT, HasPrefix(HOST_PREFIX))
    ensures r.WantsClient() ==> LeadingHas(Rebuilt(s, r), SCAN_LIMIT, HasPart(r.clientMarker))
    ensures r.WantsProject() ==> LeadingHas(Rebuilt(s, r), SCAN_LIMIT, Is(r.projectPrompt))
    ensures Contains(r.hostPrompt, r.HostMarker()) ==> LeadingHas(Rebuilt(s, r), SCAN_LIMIT, HasPart(r.HostMarker()))
  {
    var t, n := Rebuilt(s, r), |Pinned(r)|;
    PinnedPrompts(r);
    assert forall k :: 0 <= k < n ==> t[k] == Pinned(r)[k];
    LeadingAt(t, SCAN_LIMIT, HasPrefix(HOST_PREFIX), 0);
    if r.WantsClient() { LeadingAt(t, SCAN_LIMIT, HasPart(r.clientMarker), 1); }
    if r.WantsProject() { LeadingAt(t, SCAN_LIMIT, Is(r.projectPrompt), n - 1); }
    if Contains(r.hostPrompt, r.HostMarker()) { LeadingAt(t, SCAN_LIMIT, HasPart(r.HostMarker()), 0); }
  }

  lemma WellFormedIsRecognised(r: Request)
    requires WellFormed(r)
    ensures Recognised(r)
  {
  }

  /** After a rebuild the session itself never changes again, and the next call says so exactly when the
      marker of the profile shows at its head. */
  lemma SecondCall(s: Session, r: Request)
    requires WellFormed(r)
    ensures Ensured(Rebuilt(s, r), r) ==
      (Rebuilt(s, r), !LeadingHas(Rebuilt(s, r), SCAN_LIMIT, HasPart(r.HostMarker())))
  {
    WantedPromptsLead(s, r);
    NoStalePrompt(s, r);
    WellFormedIsRecognised(r);
    RebuildIsStable(s, r);
  }

  /** For a known profile, whose prompt holds its marker, the second call does nothing and says so. */
  lemma EnsureIsIdempotent(s: Session, r: Request)
    requires WellFormed(r) && Contains(r.hostPrompt, r.HostMarker())
    ensures Ensured(Ensured(s, r).0, r) == (Ensured(s, r).0, false)
  {
    SecondCall(s, r);
    WantedPromptsLead(s, r);
  }

  /** For an unknown profile, whose marker is in no message, every call rebuilds the session again. */
  lemma UnknownProfileNeverSettles(s: Session, r: Request)
    requires WellFormed(r)
    requires forall k :: 0 <= k < |Rebuilt(s, r)| ==> !Contains(Rebuilt(s, r)[k].content, r.HostMarker())
    ensures Ensured(Rebuilt(s, r), r) == (Rebuilt(s, r), true)
  {
    SecondCall(s, r);
    NotLeading(Rebuilt(s, r), SCAN_LIMIT, HasPart(r.HostMarker()));
  }
}
