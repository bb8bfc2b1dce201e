/** One-time tickets for streams and for browser events: one map, one issuer, two
consumers with different rules, sweeps of expired entries, and revocation. */
module StreamTickets {
  import opened Wrappers
  import opened Text

  const TTL := 60_000_000_000
  const BROWSER_EVENTS := "__browser_events__"

  /** `scopes` and `allowedAssets` are `None` where the request context carries no list. */
  datatype Principal = Principal(
    actorId: string,
    role: string,
    scopes: Option<seq<string>>,
    allowedAssets: Option<seq<string>>,
    apiKeyId: string,
    authSessionId: string)

  datatype Ticket = Ticket(sessionId: string, holder: Principal, expiresAt: int)

  type Tickets = map<string, Ticket>

  /** An issue reads the clock once for the expiry and again for every entry it looks at; `readings`
      has the ones that differ from `now`. */
  datatype Event =
    | Issue(ticket: string, session: string, principal: Principal, now: int, readings: map<string, int>)
    | ConsumeStream(ticket: string, session: string, now: int)
    | ConsumeEvents(ticket: string, now: int, active: bool)
    | Revoke(tickets: set<string>, now: int)

  // ----- The specification of one event -----

  /** A copied list that is empty is no list. */
  function CopiedList(list: Option<seq<string>>): Option<seq<string>> {
    if list == Some([]) then None else list
  }

  /** `auth.NormalizeRole` */
  function NormalizeRole(role: string): string {
    var name := ToLower(TrimSpace(role));
    if name in {"owner", "admin", "operator"} then name else "viewer"
  }

  function Carried(p: Principal): Principal {
    p.(actorId := TrimSpace(p.actorId),
       role := NormalizeRole(p.role),
       scopes := CopiedList(p.scopes),
       allowedAssets := CopiedList(p.allowedAssets))
  }

  /** The time at which a sweep looks at entry `t`. */
  function Reading(now: int, readings: map<string, int>, t: string): int {
    if t in readings then readings[t] else now
  }

  function Live(s: Tickets, now: int, readings: map<string, int>): Tickets {
    map t | t in s && s[t].expiresAt >= Reading(now, readings, t) :: s[t]
  }

  predicate CanIssue(session: string, p: Principal) {
    TrimSpace(session) != "" && TrimSpace(p.actorId) != ""
  }

  function Next(s: Tickets, e: Event): Tickets {
    match e
    case Issue(t, session, p, now, readings) =>
      if CanIssue(session, p)
      then Live(s, now, readings)[t := Ticket(TrimSpace(session), Carried(p), now + TTL)] else s
    case ConsumeStream(t, session, now) =>
      if session == "" || t == "" then s
      else if t in Live(s, now, map[]) && s[t].sessionId == session then Live(s, now, map[]) - {t}
      else Live(s, now, map[])
    case ConsumeEvents(t, _, _) =>
      if t in s && s[t].sessionId == BROWSER_EVENTS then s - {t} else s
    case Revoke(tickets, _) =>
      s - tickets
  }

  /** Whom the event admits, if anyone. */
  function Admits(s: Tickets, e: Event): Option<Principal> {
    match e
    case ConsumeStream(t, session, now) =>
      if session != "" && t != "" && t in s && s[t].expiresAt >= now && s[t].sessionId == session
      then Some(s[t].holder) else None
    case ConsumeEvents(t, now, active) =>
      if t in s && s[t].sessionId == BROWSER_EVENTS && s[t].expiresAt >= now && active && !AssetBound(s[t].holder)
      then Some(s[t].holder) else None
    case _ => None
  }

  /** An API key limited to some assets gets no browser events. */
  predicate AssetBound(p: Principal) {
    p.apiKeyId != "" && p.allowedAssets.Some? && p.allowedAssets.value != []
  }

  // ----- The store as it runs -----

  class TicketStore {
    var tickets: Tickets

    constructor ()
      ensures tickets == map[]
    {
      tickets := map[];
    }

    method Sweep(now: int, readings: map<string, int>)
      modifies this
      ensures tickets == Live(old(tickets), now, readings)
    {
      ghost var before := tickets;
      var rest := tickets.Keys;
      while rest != {}
        invariant rest <= before.Keys
        invariant tickets ==
                  map t | t in before && (t in rest || before[t].expiresAt >= Reading(now, readings, t)) :: before[t]
        decreases rest
      {
        var t :| t in rest;
        if tickets[t].expiresAt < Reading(now, readings, t) {
          tickets := tickets - {t};
        }
        rest := rest - {t};
      }
    }

    /** `issueStreamTicket`, given the random ticket */
    method IssueTicket(ticket: string, session: string, p: Principal, now: int, readings: map<string, int>)
      returns (expiresAt: Option<int>)
      modifies this
      ensures tickets == Next(old(tickets), Issue(ticket, session, p, now, readings))
      ensures expiresAt == if CanIssue(session, p) then Some(now + TTL) else None
    {
      var sessionId := TrimSpace(session);
      if sessionId == "" {
        return None;
      }
      var actorId := TrimSpace(p.actorId);
      var role := NormalizeRole(p.role);
      if actorId == "" || role == "" {
        return None;
      }
      Sweep(now, readings);
      tickets := tickets[ticket := Ticket(sessionId, Carried(p), now + TTL)];
      return Some(now + TTL);
    }

    /** `consumeStreamTicketAuth`, given the session and ticket named by the request */
    method ConsumeStreamTicket(ticket: string, session: string, now: int) returns (admitted: Option<Principal>)
      modifies this
      ensures tickets == Next(old(tickets), ConsumeStream(ticket, session, now))
      ensures admitted == Admits(old(tickets), ConsumeStream(ticket, session, now))
    {
      if session == "" || ticket == "" {
        return None;
      }
      Sweep(now, map[]);
      if ticket !in tickets {
        return None;
      }
      var entry := tickets[ticket];
      if entry.sessionId != session {
        return None;
      }
      tickets := tickets - {ticket};
      return Some(entry.holder);
    }

    /** `consumeEventTicketPrincipals`; `active` is whether the credential still exists */
    method ConsumeEventTicket(ticket: string, now: int, active: bool) returns (admitted: Option<Principal>)
      modifies this
      ensures tickets == Next(old(tickets), ConsumeEvents(ticket, now, active))
      ensures admitted == Admits(old(tickets), ConsumeEvents(ticket, now, active))
    {
      if ticket !in tickets || tickets[ticket].sessionId != BROWSER_EVENTS {
        return None;
      }
      var entry := tickets[ticket];
      tickets := tickets - {ticket};
      if entry.expiresAt < now || AssetBound(entry.holder) || !active {
        return None;
      }
      return Some(entry.holder);
    }
  }

  // ----- Runs from an empty store -----

  function After(events: seq<Event>): Tickets {
    if events == [] then map[] else Next(After(events[..|events| - 1]), events[|events| - 1])
  }

  /** Whom event `i` of the run admits. */
  function AdmittedAt(events: seq<Event>, i: nat): Option<Principal>
    requires i < |events|
  {
    Admits(After(events[..i]), events[i])
  }

  predicate Issues(e: Event, t: string) {
    e.Issue? && e.ticket == t && CanIssue(e.session, e.principal)
  }

  predicate Redeems(e: Event, t: string) {
    (e.ConsumeStream? || e.ConsumeEvents?) && e.ticket == t
  }

  /** Random tickets do not repeat. */
  predicate FreshTickets(events: seq<Event>) {
    forall i, j :: 0 <= i < j < |events| && events[i].Issue? && events[j].Issue? ==>
      events[i].ticket != events[j].ticket
  }

  lemma AfterNext(events: seq<Event>, i: nat)
    requires i < |events|
    ensures After(events[..i + 1]) == Next(After(events[..i]), events[i])
  {
    assert events[..i + 1][..i] == events[..i];
  }

  function Issued(e: Event): Ticket
    requires e.Issue?
  {
    Ticket(TrimSpace(e.session), Carried(e.principal), e.now + TTL)
  }

  lemma EntryFrom(s: Tickets, e: Event, t: string)
    requires t in Next(s, e)
    ensures Issues(e, t) ==> Next(s, e)[t] == Issued(e)
    ensures !Issues(e, t) ==> t in s && Next(s, e)[t] == s[t]
  {
  }

  /** Every entry goes back to an issue and says what that issue said. */
  lemma {:induction false} Origin(events: seq<Event>, n: nat, t: string) returns (j: nat)
    requires n <= |events| && t in After(events[..n])
    ensures j < n && Issues(events[j], t)
    ensures After(events[..n])[t] == Issued(events[j])
  {
    assert n > 0;
    AfterNext(events, n - 1);
    EntryFrom(After(events[..n - 1]), events[n - 1], t);
    if Issues(events[n - 1], t) {
      j := n - 1;
    } else {
      j := Origin(events, n - 1, t);
    }
  }

  /** A ticket that was gone and is back was issued in between. */
  lemma {:induction false} Reissued(events: seq<Event>, m: nat, n: nat, t: string) returns (j: nat)
    requires m <= n <= |events| && t !in After(events[..m]) && t in After(events[..n])
    ensures m <= j < n && Issues(events[j], t)
    decreases n - m
  {
    assert m < n;
    var s, e := After(events[..n - 1]), events[n - 1];
    AfterNext(events, n - 1);
    assert t in Next(s, e);
    EntryFrom(s, e, t);
    if Issues(e, t) {
      j := n - 1;
    } else {
      j := Reissued(events, m, n - 1, t);
    }
  }

  /** Whoever is admitted holds a ticket issued earlier in the run, for this very session, at most
      the lifetime ago, and is admitted as the principal it was issued to. */
  lemma AdmittedAsIssued(events: seq<Event>, i: nat) returns (j: nat)
    requires i < |events| && AdmittedAt(events, i).Some?
    ensures j < i && Redeems(events[i], events[i].ticket) && Issues(events[j], events[i].ticket)
    ensures TrimSpace(events[j].session) == if events[i].ConsumeStream? then events[i].session else BROWSER_EVENTS
    ensures events[i].now <= events[j].now + TTL
    ensures AdmittedAt(events, i).value == Carried(events[j].principal)
  {
    j := Origin(events, i, events[i].ticket);
  }

  lemma AdmissionSpends(s: Tickets, e: Event)
    requires Admits(s, e).Some?
    ensures e.ticket !in Next(s, e)
  {
  }

  /** No ticket admits twice, whichever consumers are tried in whatever order. */
  lemma AtMostOnce(events: seq<Event>, i: nat, k: nat)
    requires FreshTickets(events) && i < k < |events|
    requires AdmittedAt(events, i).Some? && AdmittedAt(events, k).Some?
    ensures events[i].ticket != events[k].ticket
  {
    if events[i].ticket == events[k].ticket {
      var t := events[i].ticket;
      AfterNext(events, i);
      AdmissionSpends(After(events[..i]), events[i]);
      var first := Origin(events, i, t);
      var second := Reissued(events, i + 1, k, t);
    }
  }

  /** A stream attempt for another session, or an event attempt with a stream ticket, spends nothing. */
  lemma WrongSessionSpendsNothing(s: Tickets, e: Event, t: string)
    requires t in s && Redeems(e, t) && s[t].expiresAt >= e.now
    requires s[t].sessionId != if e.ConsumeStream? then e.session else BROWSER_EVENTS
    ensures Admits(s, e).None?
    ensures t in Next(s, e) && Next(s, e)[t] == s[t]
  {
  }

  // ----- What a ticket holder may do -----

  /** `apikeys.ScopeAllows` */
  predicate ScopeAllows(granted: seq<string>, required: string) {
    && required != ""
    && exists g :: g in granted && GrantCovers(g, required)
  }

  /** One granted scope: everything, the scope itself, or its category with or without `:*`. */
  predicate GrantCovers(g: string, required: string) {
    || g == "*"
    || g == required
    || (|g| >= 2 && g[|g| - 2..] == ":*" && g[..|g| - 1] <= required)
    || (':' !in g && g + ":" <= required)
  }

  /** `apiv2.ScopeCheck`: no list is full access. */
  predicate ScopeCheck(p: Principal, required: string) {
    p.scopes.None? || ScopeAllows(p.scopes.value, required)
  }

  /** `apiv2.AssetCheck`: no list and an empty list are both full access. */
  predicate AssetCheck(p: Principal, asset: string) {
    p.allowedAssets.None? || p.allowedAssets.value == [] || asset in p.allowedAssets.value
  }

  /** A ticket gives its holder the assets and the events its issuer had; and every scope check
      answers as for the issuer exactly if the issuer's scope list was not present but empty. */
  lemma TicketRights(p: Principal, required: string, asset: string)
    ensures AssetCheck(Carried(p), asset) == AssetCheck(p, asset)
    ensures AssetBound(Carried(p)) == AssetBound(p)
    ensures ScopeCheck(Carried(p), required) == ScopeCheck(p, required) <==> p.scopes != Some([])
  {
  }

  // ----- As whom a ticket admits -----

  const ROLES := {"owner", "admin", "operator", "viewer"}

  lemma RoleNames()
    ensures forall name :: name in ROLES ==> TrimSpace(name) == name && ToLower(name) == name
  {
    forall name | name in ROLES
      ensures TrimSpace(name) == name && ToLower(name) == name
    {
      TrimCore("", name, "");
      assert "" + name + "" == name;
      LowerStays(name);
    }
  }

  lemma LowerStays(s: string)
    requires forall c :: c in s ==> 'a' <= c <= 'z'
    ensures ToLower(s) == s
  {
    forall i | 0 <= i < |s|
      ensures ToLower(s)[i] == s[i]
    {
      assert s[i] in s;
    }
  }

  /** A ticket carries one of the four roles: the issuer's own if it is one of them, and more than a
      viewer's only if the issuer's role, spaces and case aside, is that role.  The actor is the trimmed
      one; API key and login session are the issuer's. */
  lemma TicketIdentity(p: Principal)
    ensures Carried(p).role in ROLES
    ensures p.role in ROLES ==> Carried(p).role == p.role
    ensures Carried(p).role != "viewer" ==> ToLower(TrimSpace(p.role)) == Carried(p).role
    ensures ToLower(TrimSpace(p.role)) in ROLES ==> Carried(p).role == ToLower(TrimSpace(p.role))
    ensures Carried(p).actorId == TrimSpace(p.actorId)
    ensures Carried(p).apiKeyId == p.apiKeyId && Carried(p).authSessionId == p.authSessionId
  {
    RoleNames();
  }

  /** So in every run: whoever is admitted may do what the principal of an earlier issue for that ticket
      may do, as far as assets go always, and as far as scopes go unless that principal's list was
      present but empty. */
  lemma AdmittedRights(events: seq<Event>, i: nat, required: string, asset: string) returns (j: nat)
    requires i < |events| && AdmittedAt(events, i).Some?
    ensures j < i && Issues(events[j], events[i].ticket)
    ensures var p, issuer := AdmittedAt(events, i).value, events[j].principal;
            && AssetCheck(p, asset) == AssetCheck(issuer, asset)
            && p.actorId == TrimSpace(issuer.actorId)
            && p.apiKeyId == issuer.apiKeyId && p.authSessionId == issuer.authSessionId
            && (issuer.role in ROLES ==> p.role == issuer.role)
            && (p.role != "viewer" ==> p.role == ToLower(TrimSpace(issuer.role)))
            && (issuer.scopes != Some([]) <==> ScopeCheck(p, required) == ScopeCheck(issuer, required))
  {
    j := AdmittedAsIssued(events, i);
    TicketRights(events[j].principal, required, asset);
    TicketIdentity(events[j].principal);
  }

  // ----- The store that never sweeps -----

  function KeepNext(s: Tickets, e: Event): Tickets {
    match e
    case Issue(t, session, p, now, _) =>
      if CanIssue(session, p) then s[t := Ticket(TrimSpace(session), Carried(p), now + TTL)] else s
    case ConsumeStream(t, _, _) =>
      if Admits(s, e).Some? then s - {t} else s
    case _ => Next(s, e)
  }

  function KeepAfter(events: seq<Event>): Tickets {
    if events == [] then map[] else KeepNext(KeepAfter(events[..|events| - 1]), events[|events| - 1])
  }

  lemma KeepAfterNext(events: seq<Event>, i: nat)
    requires i < |events|
    ensures KeepAfter(events[..i + 1]) == KeepNext(KeepAfter(events[..i]), events[i])
  {
    assert events[..i + 1][..i] == events[..i];
  }

  /** Whom event `i` of the run would admit had nothing been swept. */
  function KeptAt(events: seq<Event>, i: nat): Option<Principal>
    requires i < |events|
  {
    Admits(KeepAfter(events[..i]), events[i])
  }

  predicate Within(s: Tickets, keep: Tickets) {
    forall t :: t in s ==> t in keep && keep[t] == s[t]
  }

  lemma StepWithin(s: Tickets, keep: Tickets, e: Event)
    requires Within(s, keep)
    ensures Within(Next(s, e), KeepNext(keep, e))
  {
  }

  lemma {:induction false} SweptWithinKept(events: seq<Event>, n: nat)
    requires n <= |events|
    ensures Within(After(events[..n]), KeepAfter(events[..n]))
    decreases n
  {
    if n > 0 {
      SweptWithinKept(events, n - 1);
      AfterNext(events, n - 1);
      KeepAfterNext(events, n - 1);
      StepWithin(After(events[..n - 1]), KeepAfter(events[..n - 1]), events[n - 1]);
    }
  }

  /** Sweeping admits no one who would not be admitted without it, in any run. */
  lemma SweepsOnlyRefuse(events: seq<Event>, i: nat)
    requires i < |events| && AdmittedAt(events, i).Some?
    ensures KeptAt(events, i) == AdmittedAt(events, i)
  {
    SweptWithinKept(events, i);
  }

  // ----- Exactly when a sweep shows -----

  /** Whether `e` sweeps, and looks at `t` after time `expiry`. */
  predicate SweepsPast(e: Event, t: string, expiry: int) {
    match e
    case Issue(_, session, p, now, readings) => CanIssue(session, p) && expiry < Reading(now, readings, t)
    case ConsumeStream(ticket, session, now) => session != "" && ticket != "" && expiry < now
    case _ => false
  }

  /** Some event between `o` and `n` swept past the expiry of the ticket issued at `o`. */
  predicate SweptSince(events: seq<Event>, o: nat, n: nat)
    requires o < n <= |events| && events[o].Issue?
  {
    exists j :: o < j < n && SweepsPast(events[j], events[o].ticket, events[o].now + TTL)
  }

  lemma SweptSinceNext(events: seq<Event>, o: nat, n: nat)
    requires o < n < |events| && events[o].Issue?
    ensures SweptSince(events, o, n + 1) <==>
            SweptSince(events, o, n) || SweepsPast(events[n], events[o].ticket, events[o].now + TTL)
  {
  }

  lemma StepSweeps(s: Tickets, keep: Tickets, e: Event, t: string)
    requires Within(s, keep) && t in s && !Issues(e, t)
    ensures t in Next(s, e) <==> t in KeepNext(keep, e) && !SweepsPast(e, t, s[t].expiresAt)
  {
  }

  lemma KeepEntryFrom(keep: Tickets, e: Event, t: string)
    requires t in KeepNext(keep, e)
    ensures Issues(e, t) ==> KeepNext(keep, e)[t] == Issued(e)
    ensures !Issues(e, t) ==> t in keep && KeepNext(keep, e)[t] == keep[t]
  {
  }

  /** One event more: the ticket leaves the swept store when it leaves the other one or is swept. */
  lemma StepInStore(s: Tickets, keep: Tickets, e: Event, t: string, expiry: int, swept: bool)
    requires Within(s, keep) && !Issues(e, t)
    requires t in s ==> s[t].expiresAt == expiry
    requires t in s <==> t in keep && !swept
    ensures t in Next(s, e) <==> t in KeepNext(keep, e) && !(swept || SweepsPast(e, t, expiry))
  {
    StepWithin(s, keep, e);
    if t in s {
      StepSweeps(s, keep, e, t);
    } else {
      if t in Next(s, e) {
        EntryFrom(s, e, t);
      }
      if t in KeepNext(keep, e) {
        KeepEntryFrom(keep, e, t);
      }
    }
  }

  lemma JustIssued(events: seq<Event>, o: nat, t: string)
    requires o < |events| && Issues(events[o], t)
    ensures t in After(events[..o + 1]) && t in KeepAfter(events[..o + 1])
  {
    AfterNext(events, o);
    KeepAfterNext(events, o);
  }

  lemma IssuedOnce(events: seq<Event>, i: nat, j: nat, t: string)
    requires FreshTickets(events) && i < |events| && j < |events| && Issues(events[i], t) && Issues(events[j], t)
    ensures i == j
  {
  }

  /** Tickets do not repeat, so an entry is what the one issue of its ticket stored. */
  lemma OnlyIssue(events: seq<Event>, o: nat, n: nat, t: string)
    requires FreshTickets(events) && o < n < |events| && Issues(events[o], t)
    ensures !Issues(events[n], t)
    ensures t in After(events[..n]) ==> After(events[..n])[t] == Issued(events[o])
  {
    if Issues(events[n], t) {
      IssuedOnce(events, o, n, t);
    }
    if t in After(events[..n]) {
      var j := Origin(events, n, t);
      IssuedOnce(events, o, j, t);
    }
  }

  /** A ticket is in the swept store as long as it is in the other one and no sweep went past it. */
  lemma {:induction false} InStoreExactly(events: seq<Event>, o: nat, n: nat, t: string)
    requires FreshTickets(events) && o < n <= |events| && Issues(events[o], t)
    ensures t in After(events[..n]) <==> t in KeepAfter(events[..n]) && !SweptSince(events, o, n)
    decreases n
  {
    if n == o + 1 {
      JustIssued(events, o, t);
    } else {
      var m := n - 1;
      InStoreExactly(events, o, m, t);
      InStoreNext(events, o, m, t);
    }
  }

  lemma InStoreNext(events: seq<Event>, o: nat, m: nat, t: string)
    requires FreshTickets(events) && o < m < |events| && Issues(events[o], t)
    requires t in After(events[..m]) <==> t in KeepAfter(events[..m]) && !SweptSince(events, o, m)
    ensures t in After(events[..m + 1]) <==> t in KeepAfter(events[..m + 1]) && !SweptSince(events, o, m + 1)
  {
    AfterNext(events, m);
    KeepAfterNext(events, m);
    SweptWithinKept(events, m);
    SweptSinceNext(events, o, m);
    OnlyIssue(events, o, m, t);
    var s, keep := After(events[..m]), KeepAfter(events[..m]);
    StepInStore(s, keep, events[m], t, events[o].now + TTL, SweptSince(events, o, m));
  }

  lemma {:induction false} KeptOrigin(events: seq<Event>, n: nat, t: string) returns (o: nat)
    requires n <= |events| && t in KeepAfter(events[..n])
    ensures o < n && Issues(events[o], t)
    ensures KeepAfter(events[..n])[t] == Issued(events[o])
  {
    assert n > 0;
    KeepAfterNext(events, n - 1);
    KeepEntryFrom(KeepAfter(events[..n - 1]), events[n - 1], t);
    if Issues(events[n - 1], t) {
      o := n - 1;
    } else {
      o := KeptOrigin(events, n - 1, t);
    }
  }

  /** Where the store that never sweeps admits, the store decides the same exactly if no sweep since
      the issue read the clock past the ticket's expiry. */
  lemma SweepShowsExactly(events: seq<Event>, o: nat, i: nat)
    requires FreshTickets(events) && o < i < |events|
    requires KeptAt(events, i).Some? && Issues(events[o], events[i].ticket)
    ensures AdmittedAt(events, i) == KeptAt(events, i) <==> !SweptSince(events, o, i)
  {
    InStoreExactly(events, o, i, events[i].ticket);
    SweptWithinKept(events, i);
  }

  /** No reading of an earlier event is after the reading of a later one. */
  ghost predicate InOrder(events: seq<Event>) {
    forall i, j, t :: 0 <= i < j < |events| ==> LatestReading(events[i], t) <= events[j].now
  }

  function LatestReading(e: Event, t: string): int {
    if e.Issue? then Reading(e.now, e.readings, t) else e.now
  }

  /** With readings in order, sweeping changes no decision of any run. */
  lemma SweepsAreInvisible(events: seq<Event>, i: nat)
    requires FreshTickets(events) && InOrder(events) && i < |events|
    ensures AdmittedAt(events, i) == KeptAt(events, i)
  {
    if KeptAt(events, i).Some? {
      var t := events[i].ticket;
      var o := KeptOrigin(events, i, t);
      forall j | o < j < i
        ensures !SweepsPast(events[j], t, events[o].now + TTL)
      {
        assert LatestReading(events[j], t) <= events[i].now;
      }
      SweepShowsExactly(events, o, i);
    } else if AdmittedAt(events, i).Some? {
      SweepsOnlyRefuse(events, i);
    }
  }

  /** A run on which a sweep shows: a stream attempt reads the clock before the ticket expires and
      gets the lock after another attempt that read it later. */
  lemma LateSweepShows(t: string, other: string, session: string, p: Principal, early: int, late: int)
    requires t != "" && other != "" && other != t && CanIssue(session, p) && TrimSpace(session) == session
    requires early <= TTL < late
    ensures AdmittedAt(LateSweep(t, other, session, p, early, late), 2) == None
    ensures KeptAt(LateSweep(t, other, session, p, early, late), 2) == Some(Carried(p))
  {
    var events := LateSweep(t, other, session, p, early, late);
    assert events[..0] == [];
    KeepAfterNext(events, 0);
    KeepAfterNext(events, 1);
    assert KeepAfter(events[..2])[t] == Issued(events[0]);
    assert SweepsPast(events[1], t, TTL);
    SweepShowsExactly(events, 0, 2);
    if AdmittedAt(events, 2).Some? {
      SweepsOnlyRefuse(events, 2);
    }
  }

  function LateSweep(t: string, other: string, session: string, p: Principal, early: int, late: int): seq<Event> {
    [Issue(t, session, p, 0, map[]), ConsumeStream(other, session, late), ConsumeStream(t, session, early)]
  }

  // ----- Exactly who is admitted -----

  /** The event issues ticket `t` for `session`. */
  predicate IssuesFor(e: Event, t: string, session: string) {
    && e.Issue? && e.ticket == t && TrimSpace(e.session) == session
    && session != "" && TrimSpace(e.principal.actorId) != ""
  }

  /** The event takes a ticket for `session` that is good until `expiry` out of the store: redeemed in time
      for its session, presented for events whether in time or not, or revoked. */
  predicate Spends(e: Event, t: string, session: string, expiry: int) {
    match e
    case ConsumeStream(ticket, s, now) => ticket == t && t != "" && s == session && now <= expiry
    case ConsumeEvents(ticket, _, _) => ticket == t && session == BROWSER_EVENTS
    case Revoke(tickets, _) => t in tickets
    case Issue(_, _, _, _, _) => false
  }

  predicate SpentSince(events: seq<Event>, o: nat, n: nat, t: string, session: string)
    requires o < n <= |events| && events[o].Issue?
  {
    exists j :: o < j < n && Spends(events[j], t, session, events[o].now + TTL)
  }

  lemma StepKeeps(keep: Tickets, e: Event, t: string, session: string)
    requires t in keep && keep[t].sessionId == session && session != "" && !Issues(e, t)
    ensures t in KeepNext(keep, e) <==> !Spends(e, t, session, keep[t].expiresAt)
  {
  }

  lemma SpentSinceNext(events: seq<Event>, o: nat, n: nat, t: string, session: string)
    requires o < n < |events| && events[o].Issue?
    ensures SpentSince(events, o, n + 1, t, session) <==>
            SpentSince(events, o, n, t, session) || Spends(events[n], t, session, events[o].now + TTL)
  {
  }

  lemma KeptJustIssued(events: seq<Event>, o: nat, t: string, session: string)
    requires o < |events| && IssuesFor(events[o], t, session)
    ensures t in KeepAfter(events[..o + 1]) && KeepAfter(events[..o + 1])[t] == Issued(events[o])
  {
    KeepAfterNext(events, o);
  }

  lemma KeptEntry(events: seq<Event>, o: nat, n: nat, t: string)
    requires FreshTickets(events) && o < n <= |events| && Issues(events[o], t) && t in KeepAfter(events[..n])
    ensures KeepAfter(events[..n])[t] == Issued(events[o])
  {
    var j := KeptOrigin(events, n, t);
    IssuedOnce(events, o, j, t);
  }

  lemma KeptNext(events: seq<Event>, o: nat, m: nat, t: string, session: string)
    requires FreshTickets(events) && o < m < |events| && IssuesFor(events[o], t, session)
    requires t in KeepAfter(events[..m]) <==> !SpentSince(events, o, m, t, session)
    ensures t in KeepAfter(events[..m + 1]) <==> !SpentSince(events, o, m + 1, t, session)
  {
    var keep := KeepAfter(events[..m]);
    KeepAfterNext(events, m);
    SpentSinceNext(events, o, m, t, session);
    if Issues(events[m], t) {
      IssuedOnce(events, o, m, t);
    }
    if t in keep {
      KeptEntry(events, o, m, t);
      StepKeeps(keep, events[m], t, session);
    } else if t in KeepNext(keep, events[m]) {
      KeepEntryFrom(keep, events[m], t);
    }
  }

  /** A ticket stays in the store that never sweeps exactly until it is spent. */
  lemma {:induction false} KeptExactly(events: seq<Event>, o: nat, n: nat, t: string, session: string)
    requires FreshTickets(events) && o < n <= |events| && IssuesFor(events[o], t, session)
    ensures t in KeepAfter(events[..n]) <==> !SpentSince(events, o, n, t, session)
    decreases n
  {
    if n == o + 1 {
      KeptJustIssued(events, o, t, session);
    } else {
      KeptExactly(events, o, n - 1, t, session);
      KeptNext(events, o, n - 1, t, session);
    }
  }

  /** The event presents `t` where a ticket for `session` issued to `p` is good: a stream of that session,
      or browser events with a credential that is still active and not bound to assets. */
  predicate PresentsWell(e: Event, t: string, session: string, p: Principal) {
    match e
    case ConsumeStream(ticket, s, _) => ticket == t && t != "" && s == session
    case ConsumeEvents(ticket, _, active) =>
      && ticket == t && session == BROWSER_EVENTS && active
      && !(p.apiKeyId != "" && p.allowedAssets.Some? && p.allowedAssets.value != [])
    case _ => false
  }

  lemma AdmitsEntry(s: Tickets, e: Event, t: string, session: string, p: Principal)
    requires Redeems(e, t) && session != ""
    requires t in s ==> s[t].sessionId == session && s[t].holder == Carried(p)
    ensures Admits(s, e).Some? <==> t in s && e.now <= s[t].expiresAt && PresentsWell(e, t, session, p)
  {
  }

  /** A ticket that was issued is admitted, and as its issuer, exactly if it is presented well, within its
      lifetime, and was neither spent nor swept past its expiry since. */
  lemma AdmittedExactly(events: seq<Event>, o: nat, i: nat, t: string, session: string)
    requires FreshTickets(events) && o < i < |events| && IssuesFor(events[o], t, session) && Redeems(events[i], t)
    ensures AdmittedAt(events, i).Some? <==>
            && PresentsWell(events[i], t, session, events[o].principal)
            && events[i].now <= events[o].now + 60_000_000_000
            && !SpentSince(events, o, i, t, session)
            && !SweptSince(events, o, i)
  {
    var s := After(events[..i]);
    InStoreExactly(events, o, i, t);
    KeptExactly(events, o, i, t, session);
    OnlyIssue(events, o, i, t);
    AdmitsEntry(s, events[i], t, session, events[o].principal);
  }
}
