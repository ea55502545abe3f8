/** What leads a session after the prompts were pinned, in characters. */
module HostHead {
  import opened Text
  import opened Messages
  import opened HostPrompts

  /** Message k is one of the first twelve, and no message up to it is another than a system message. */
  predicate Leads(s: Session, k: nat)
  {
    k < |s| && k < 12 && forall j :: 0 <= j <= k ==> s[j].role == System
  }

  predicate HeadHas(s: Session, pass: string -> bool)
  {
    exists k :: 0 <= k < |s| && Leads(s, k) && pass(s[k].content)
  }

  predicate LeadsWithin(s: Session, k: nat, limit: nat)
  {
    k < |s| && k < limit && forall j :: 0 <= j <= k ==> s[j].role == System
  }

  lemma {:induction false} LeadingFinds(s: Session, limit: nat, pass: string -> bool) returns (k: nat)
    requires LeadingHas(s, limit, pass)
    ensures LeadsWithin(s, k, limit) && pass(s[k].content)
    decreases |s|
  {
    if pass(s[0].content) {
      k := 0;
    } else {
      var rest := LeadingFinds(s[1..], limit - 1, pass);
      k := rest + 1;
      forall j | 0 <= j <= k
        ensures s[j].role == System
      {
        assert j > 0 ==> s[j] == s[1..][j - 1];
      }
    }
  }

  lemma LeadingIff(s: Session, pass: string -> bool)
    ensures LeadingHas(s, SCAN_LIMIT, pass) <==> HeadHas(s, pass)
  {
    if LeadingHas(s, SCAN_LIMIT, pass) {
      var k := LeadingFinds(s, SCAN_LIMIT, pass);
      assert Leads(s, k);
    }
    if k: nat :| k < |s| && Leads(s, k) && pass(s[k].content) {
      LeadingAt(s, SCAN_LIMIT, pass, k);
    }
  }

  function Begins(prefix: string): string -> bool { content => prefix <= content }

  function Marker(r: Request): string
  {
    "HOST_SYSTEM_PROFILE=" + if r.profile == "" then "default" else r.profile
  }

  /** What a caller wants to find at the head, the profile's marker apart. */
  predicate InPlace(s: Session, r: Request)
  {
    && HeadHas(s, Begins("You are a host-side coding agent"))
    && (if r.clientPrompt != "" && r.clientMarker != "" then HeadHas(s, HasPart(r.clientMarker))
        else !HeadHas(s, Begins("CLIENT_PROFILE=")))
    && (if r.projectPrompt != "" then HeadHas(s, Is(r.projectPrompt))
        else !HeadHas(s, Begins("PROJECT_INSTRUCTIONS=agmd-v1")))
  }

  lemma SamePass(s: Session, p: string -> bool, q: string -> bool)
    requires forall c :: p(c) == q(c)
    ensures HeadHas(s, p) <==> HeadHas(s, q)
  {
    if k: nat :| k < |s| && Leads(s, k) && p(s[k].content) {
      assert q(s[k].content);
    }
    if k: nat :| k < |s| && Leads(s, k) && q(s[k].content) {
      assert p(s[k].content);
    }
  }

  lemma LeadingBegins(s: Session, prefix: string)
    ensures LeadingHas(s, SCAN_LIMIT, HasPrefix(prefix)) <==> HeadHas(s, Begins(prefix))
  {
    LeadingIff(s, HasPrefix(prefix));
    SamePass(s, HasPrefix(prefix), Begins(prefix));
  }

  /** The call does nothing exactly when everything is in place and the profile's marker shows. */
  lemma UpToDateIff(s: Session, r: Request)
    ensures Ensured(s, r) == (s, false) <==> InPlace(s, r) && HeadHas(s, HasPart(Marker(r)))
    ensures Ensured(s, r).1 <==> !(InPlace(s, r) && HeadHas(s, HasPart(Marker(r))))
  {
    LeadingBegins(s, "You are a host-side coding agent");
    LeadingBegins(s, "CLIENT_PROFILE=");
    LeadingBegins(s, "PROJECT_INSTRUCTIONS=agmd-v1");
    LeadingIff(s, HasPart(Marker(r)));
    LeadingIff(s, HasPart(r.clientMarker));
    LeadingIff(s, Is(r.projectPrompt));
  }

  lemma InPlaceIff(s: Session, r: Request)
    ensures InPlace(s, r) <==>
      && LeadingHas(s, SCAN_LIMIT, HasPrefix(HOST_PREFIX))
      && (if r.WantsClient() then LeadingHas(s, SCAN_LIMIT, HasPart(r.clientMarker))
          else !LeadingHas(s, SCAN_LIMIT, HasPrefix(CLIENT_PREFIX)))
      && (if r.WantsProject() then LeadingHas(s, SCAN_LIMIT, Is(r.projectPrompt))
          else !LeadingHas(s, SCAN_LIMIT, HasPrefix(PROJECT_PREFIX)))
  {
    LeadingBegins(s, HOST_PREFIX);
    LeadingBegins(s, CLIENT_PREFIX);
    LeadingBegins(s, PROJECT_PREFIX);
    LeadingIff(s, HasPart(r.clientMarker));
    LeadingIff(s, Is(r.projectPrompt));
  }

  /** After every call, whatever the session was: the wanted prompts lead it and the unwanted ones do not;
      and the marker of a known profile does. */
  lemma InPlaceAfterEnsure(s: Session, r: Request)
    requires WellFormed(r)
    ensures InPlace(Ensured(s, r).0, r)
    ensures Contains(r.hostPrompt, Marker(r)) ==> HeadHas(Ensured(s, r).0, HasPart(Marker(r)))
  {
    if UpToDate(s, r) {
      UpToDateIff(s, r);
    } else {
      WantedPromptsLead(s, r);
      NoStalePrompt(s, r);
      InPlaceIff(Rebuilt(s, r), r);
      LeadingIff(Rebuilt(s, r), HasPart(Marker(r)));
    }
  }

  // ---------------------------------------------------------------------------------------------
  // Which messages a rebuild drops
  // ---------------------------------------------------------------------------------------------

  /** A system message that begins as one of the four kinds of prompts. */
  predicate Prompt(m: Message)
  {
    m.role == System
    && ("You are a host-side coding agent" <= m.content || "HOST_SYSTEM_PROFILE=" <= m.content
        || "CLIENT_PROFILE=" <= m.content || "PROJECT_INSTRUCTIONS=agmd-v1" <= m.content)
  }

  /** Exactly these are dropped: one message more in the session is one more in the rebuilt one, or none. */
  lemma DroppedInCharacters(a: Session, m: Message, b: Session, r: Request)
    ensures Rebuilt(a + [m] + b, r) == Rebuilt(a, r)
      + ((if Prompt(m) then [] else [Message(m.role, m.content[..FirstIndex(m.content, '\0')])]) + Unmanaged(b))
  {
    UnmanagedInside(a, m, b);
    Regroup(Pinned(r), Unmanaged(a), Unmanaged([m]) + Unmanaged(b));
    OneUnmanaged(m);
  }

  lemma UnmanagedInside(a: Session, m: Message, b: Session)
    ensures Unmanaged(a + [m] + b) == Unmanaged(a) + (Unmanaged([m]) + Unmanaged(b))
  {
    UnmanagedAppend(a + [m], b);
    UnmanagedAppend(a, [m]);
    Regroup(Unmanaged(a), Unmanaged([m]), Unmanaged(b));
  }
}
