/** The voice panel of one issue: sessions that a user starts and ends, and callbacks that arrive between
    any two of its steps, from the microphone, the call service, the transcript stream and the timer. */
module Voice {
  import opened Wrappers

  const MAX_ERROR_CHARACTERS: nat := 250

  // ----- State

  datatype Captions = NotOpened | Streaming | StreamAborted

  /** One attempt; empty strings stand for an absent ticket and an absent server error. */
  datatype Session = Session(aborted: bool, ticket: string, captions: Captions, serverError: string)

  datatype Status = Idle | Connecting | Live | CallOver

  datatype Message = Disconnecting | Interrupted | MicrophoneDenied | CannotConnect | Said(text: string)

  /** What the user sees. */
  datatype Display = Display(status: Status, error: Option<Message>, captionNotice: bool, lines: seq<string>,
                             links: seq<string>, muted: bool)

  /** `attempt` is the session started last. The four logs record the transcript streams opened, by session,
      the tickets handed to sessions, those sent for deletion, and those overwritten by a later one. */
  datatype Panel = Panel(mounted: bool, attempt: Option<nat>, sessions: seq<Session>, display: Display,
                         streams: seq<nat>, issued: seq<string>, deleted: seq<string>, replaced: seq<string>)

  const FRESH := Session(false, [], NotOpened, [])

  function Initial(): Panel { Panel(true, None, [], Display(Idle, None, false, [], [], false), [], [], [], []) }

  // ----- Events

  datatype Creation = Created(ticket: string, links: seq<string>) | Refused(error: Option<string>)

  datatype Line = Transcript(lines: seq<string>) | Unavailable | Finished | OtherLine

  datatype Event =
    // the user, the timer, the page
    | Start(available: bool)
    | HangUp
    | ToggleMute
    | TimeLimit
    | AvailabilityFailed(text: string)
    | Cleanup
    | Mount
    // callbacks of one session
    | StartFails(session: nat, denied: bool)
    | CallCreated(session: nat, result: Creation)
    | StopCall(session: nat)
    | DeletionFails(session: nat, answered: bool)
    | OnLive(session: nat)
    | OnEnd(session: nat)
    | OnError(session: nat)
    | OnLine(session: nat, line: Line)
    | CaptionsFail(session: nat)

  predicate IsCallback(e: Event) {
    !(e.Start? || e.HangUp? || e.ToggleMute? || e.TimeLimit? || e.AvailabilityFailed? || e.Cleanup? || e.Mount?)
  }

  predicate OfSession(e: Event, s: nat) { IsCallback(e) && e.session == s }

  // ----- Pieces of the steps

  predicate Known(p: Panel, s: nat) { s < |p.sessions| }

  /** The session is the one displayed. */
  predicate Current(p: Panel, s: nat) { p.mounted && p.attempt == Some(s) }

  predicate Active(p: Panel, s: nat)
    requires Known(p, s)
  {
    Current(p, s) && !p.sessions[s].aborted
  }

  function With(p: Panel, s: nat, session: Session): Panel
    requires Known(p, s)
  {
    p.(sessions := p.sessions[s := session])
  }

  function Aborted(p: Panel, s: nat): Panel
    requires Known(p, s)
  {
    With(p, s, p.sessions[s].(aborted := true, captions :=
           if p.sessions[s].captions.Streaming? then StreamAborted else p.sessions[s].captions))
  }

  /** The ticket is taken from the session before its deletion is sent, so it is sent once. */
  function Released(p: Panel, s: nat): Panel
    requires Known(p, s)
  {
    var ticket := p.sessions[s].ticket;
    if ticket == [] then p
    else With(p, s, p.sessions[s].(ticket := [])).(deleted := p.deleted + [ticket])
  }

  function Shown(p: Panel, s: nat): Panel {
    if Current(p, s) then p.(display := p.display.(status := CallOver, muted := false)) else p
  }

  function Ended(p: Panel, s: nat): Panel
    requires Known(p, s)
  {
    Shown(Released(Aborted(p, s), s), s)
  }

  function Error(p: Panel, m: Message): Panel { p.(display := p.display.(error := Some(m))) }

  function Noticed(p: Panel): Panel { p.(display := p.display.(captionNotice := true)) }

  function Started(p: Panel): Panel {
    p.(attempt := Some(|p.sessions|), sessions := p.sessions + [FRESH],
       display := Display(Connecting, None, false, [], [], false))
  }

  predicate MayStart(p: Panel, available: bool) {
    available && (p.attempt.Some? && Known(p, p.attempt.value) ==> p.sessions[p.attempt.value].aborted)
  }

  function CaptionsOpened(p: Panel, s: nat): Panel
    requires Known(p, s)
  {
    if !p.sessions[s].captions.NotOpened? || p.sessions[s].ticket == [] then p
    else With(p, s, p.sessions[s].(captions := Streaming)).(streams := p.streams + [s])
  }

  function TicketTaken(p: Panel, s: nat, ticket: string): Panel
    requires Known(p, s)
  {
    var held := p.sessions[s].ticket;
    With(p, s, p.sessions[s].(ticket := ticket))
      .(issued := if ticket == [] then p.issued else p.issued + [ticket],
        replaced := if held == [] then p.replaced else p.replaced + [held])
  }

  function Reason(p: Panel, s: nat): Message
    requires Known(p, s)
  {
    if p.sessions[s].serverError != [] then Said(p.sessions[s].serverError) else CannotConnect
  }

  function Prefix(s: string, n: nat): string { if |s| <= n then s else s[..n] }

  // ----- Steps

  function UserStep(p: Panel, e: Event): Panel {
    match e
    case Start(available) => if MayStart(p, available) then Started(p) else p
    case HangUp => if p.attempt.Some? && Known(p, p.attempt.value) then Ended(p, p.attempt.value) else p
    case ToggleMute => p.(display := p.display.(muted := !p.display.muted))
    case TimeLimit =>
      if p.attempt.Some? && Known(p, p.attempt.value) then
        With(p, p.attempt.value, p.sessions[p.attempt.value].(aborted := true))
      else p
    case AvailabilityFailed(text) => Error(p, Said(text))
    case Cleanup =>
      var gone := p.(mounted := false);
      if p.attempt.Some? && Known(p, p.attempt.value) then Released(Aborted(gone, p.attempt.value), p.attempt.value)
      else gone
    case Mount => p.(mounted := true)
    case _ => p
  }

  /** The start of a call and the requests made for it. */
  function RequestStep(p: Panel, e: Event, s: nat): Panel
    requires Known(p, s)
  {
    match e
    case StartFails(_, denied) =>
      if Active(p, s) then Ended(Error(p, if denied then MicrophoneDenied else CannotConnect), s) else p
    case CallCreated(_, Created(ticket, links)) =>
      var taken := TicketTaken(p, s, ticket);
      if Active(p, s) then taken.(display := p.display.(links := links)) else taken
    case CallCreated(_, Refused(Some(text))) =>
      With(p, s, p.sessions[s].(serverError := Prefix(text, MAX_ERROR_CHARACTERS)))
    case StopCall(_) => Released(p, s)
    case DeletionFails(_, answered) =>
      if Current(p, s) then Error(p, if answered then Disconnecting else Interrupted) else p
    case _ => p
  }

  /** The hooks of the call itself. */
  function HookStep(p: Panel, e: Event, s: nat): Panel
    requires Known(p, s)
  {
    match e
    case OnLive(_) =>
      if Active(p, s) then CaptionsOpened(p.(display := p.display.(status := Live)), s) else p
    case OnEnd(_) => Ended(p, s)
    case OnError(_) => Ended(if Active(p, s) then Error(p, Reason(p, s)) else p, s)
    case _ => p
  }

  /** The transcript stream. */
  function CaptionStep(p: Panel, e: Event, s: nat): Panel
    requires Known(p, s)
  {
    if !Current(p, s) || !p.sessions[s].captions.Streaming? then p
    else
      match e
      case OnLine(_, Transcript(lines)) => p.(display := p.display.(lines := lines))
      case OnLine(_, Unavailable) => Noticed(p)
      case OnLine(_, Finished) => Ended(p, s)
      case CaptionsFail(_) => Noticed(p)
      case _ => p
  }

  function CallStep(p: Panel, e: Event, s: nat): Panel
    requires Known(p, s)
  {
    match e
    case OnLive(_) => HookStep(p, e, s)
    case OnEnd(_) => HookStep(p, e, s)
    case OnError(_) => HookStep(p, e, s)
    case OnLine(_, _) => CaptionStep(p, e, s)
    case CaptionsFail(_) => CaptionStep(p, e, s)
    case _ => RequestStep(p, e, s)
  }

  /** A callback of a session that was never started cannot arrive; it changes nothing. */
  function Step(p: Panel, e: Event): Panel {
    if !IsCallback(e) then UserStep(p, e)
    else if Known(p, e.session) then CallStep(p, e, e.session)
    else p
  }

  function Run(p: Panel, events: seq<Event>): Panel
    decreases |events|
  {
    if events == [] then p else Run(Step(p, events[0]), events[1..])
  }

  // ----- What every run keeps

  /** Only the session started last can be live. */
  ghost predicate OneLive(p: Panel) {
    && (p.attempt.Some? ==> p.attempt.value < |p.sessions|)
    && forall i :: 0 <= i < |p.sessions| && !p.sessions[i].aborted ==> p.attempt == Some(i)
  }

  /** A transcript stream is recorded exactly for the sessions that opened one, once. */
  ghost predicate StreamsOnce(p: Panel) {
    && (forall i, j :: 0 <= i < j < |p.streams| ==> p.streams[i] != p.streams[j])
    && (forall s: nat :: s in p.streams <==> s < |p.sessions| && !p.sessions[s].captions.NotOpened?)
  }

  /** How many sessions hold the ticket. */
  function HeldBy(sessions: seq<Session>, ticket: string): nat {
    if sessions == [] then 0
    else HeldBy(sessions[..|sessions| - 1], ticket) + (if sessions[|sessions| - 1].ticket == ticket then 1 else 0)
  }

  /** The ticket is never lost: as often as it was handed out, it is still held, was overwritten, or was
      sent for deletion. */
  ghost predicate Conserved(p: Panel, ticket: string) {
    multiset(p.issued)[ticket] == multiset(p.deleted)[ticket] + multiset(p.replaced)[ticket] + HeldBy(p.sessions, ticket)
  }

  ghost predicate Inv(p: Panel, ticket: string) { OneLive(p) && StreamsOnce(p) && Conserved(p, ticket) }

  lemma {:induction false} HeldWith(sessions: seq<Session>, s: nat, session: Session, ticket: string)
    requires s < |sessions|
    ensures HeldBy(sessions[s := session], ticket) + (if sessions[s].ticket == ticket then 1 else 0)
         == HeldBy(sessions, ticket) + (if session.ticket == ticket then 1 else 0)
  {
    var last := |sessions| - 1;
    var updated := sessions[s := session];
    if s == last {
      assert updated[..last] == sessions[..last];
    } else {
      HeldWith(sessions[..last], s, session, ticket);
      assert updated[..last] == sessions[..last][s := session];
    }
  }

  lemma CountSnoc(log: seq<string>, last: string, ticket: string)
    ensures multiset(log + [last])[ticket] == multiset(log)[ticket] + (if last == ticket then 1 else 0)
  {
    assert multiset(log + [last]) == multiset(log) + multiset{last};
  }

  lemma WithKeepsStructure(p: Panel, s: nat, session: Session)
    requires Known(p, s) && OneLive(p) && StreamsOnce(p)
    requires p.sessions[s].aborted ==> session.aborted
    requires session.captions.NotOpened? == p.sessions[s].captions.NotOpened?
    ensures OneLive(With(p, s, session)) && StreamsOnce(With(p, s, session))
  {
  }

  /** A session may be aborted, and its server error may change. */
  lemma WithKeeps(p: Panel, s: nat, session: Session, ticket: string)
    requires Known(p, s) && Inv(p, ticket)
    requires p.sessions[s].aborted ==> session.aborted
    requires session.captions.NotOpened? == p.sessions[s].captions.NotOpened? && session.ticket == p.sessions[s].ticket
    ensures Inv(With(p, s, session), ticket)
  {
    HeldWith(p.sessions, s, session, ticket);
  }

  lemma ReleasedKeeps(p: Panel, s: nat, ticket: string)
    requires Known(p, s) && Inv(p, ticket) && ticket != []
    ensures Inv(Released(p, s), ticket)
  {
    var session := p.sessions[s].(ticket := []);
    var held := p.sessions[s].ticket;
    HeldWith(p.sessions, s, session, ticket);
    CountSnoc(p.deleted, held, ticket);
    WithKeepsStructure(p, s, session);
  }

  lemma EndedKeeps(p: Panel, s: nat, ticket: string)
    requires Known(p, s) && Inv(p, ticket) && ticket != []
    ensures Inv(Ended(p, s), ticket)
  {
    WithKeeps(p, s, Aborted(p, s).sessions[s], ticket);
    ReleasedKeeps(Aborted(p, s), s, ticket);
    DisplayKeeps(Released(Aborted(p, s), s), Ended(p, s).display, p.mounted, ticket);
  }

  lemma TicketTakenKeeps(p: Panel, s: nat, taken: string, ticket: string)
    requires Known(p, s) && Inv(p, ticket) && ticket != []
    ensures Inv(TicketTaken(p, s, taken), ticket)
  {
    var session := p.sessions[s].(ticket := taken);
    var held := p.sessions[s].ticket;
    HeldWith(p.sessions, s, session, ticket);
    CountSnoc(p.issued, taken, ticket);
    CountSnoc(p.replaced, held, ticket);
    WithKeepsStructure(p, s, session);
  }

  lemma CaptionsOpenedKeeps(p: Panel, s: nat, ticket: string)
    requires Known(p, s) && Inv(p, ticket)
    ensures Inv(CaptionsOpened(p, s), ticket)
  {
    var session := p.sessions[s].(captions := Streaming);
    HeldWith(p.sessions, s, session, ticket);
    assert OneLive(With(p, s, session));
    assert s in p.streams <==> !p.sessions[s].captions.NotOpened?;
  }

  lemma StartedKeeps(p: Panel, ticket: string)
    requires Inv(p, ticket) && MayStart(p, true) && ticket != []
    ensures Inv(Started(p), ticket)
  {
    var n := |p.sessions|;
    assert (p.sessions + [FRESH])[..n] == p.sessions;
    assert forall i :: 0 <= i < n ==> p.sessions[i].aborted;
  }

  lemma DisplayKeeps(p: Panel, d: Display, mounted: bool, ticket: string)
    requires Inv(p, ticket)
    ensures Inv(p.(display := d, mounted := mounted), ticket)
  {
  }

  lemma AbortedAndReleasedKeeps(p: Panel, s: nat, ticket: string)
    requires Known(p, s) && Inv(p, ticket) && ticket != []
    ensures Inv(Released(Aborted(p, s), s), ticket)
  {
    WithKeeps(p, s, Aborted(p, s).sessions[s], ticket);
    ReleasedKeeps(Aborted(p, s), s, ticket);
  }

  lemma CleanupKeeps(p: Panel, ticket: string)
    requires Inv(p, ticket) && ticket != []
    ensures Inv(UserStep(p, Cleanup), ticket)
  {
    DisplayKeeps(p, p.display, false, ticket);
    if p.attempt.Some? {
      AbortedAndReleasedKeeps(p.(mounted := false), p.attempt.value, ticket);
    }
  }

  lemma TimeLimitKeeps(p: Panel, ticket: string)
    requires Inv(p, ticket)
    ensures Inv(UserStep(p, TimeLimit), ticket)
  {
    if p.attempt.Some? {
      var s := p.attempt.value;
      WithKeeps(p, s, p.sessions[s].(aborted := true), ticket);
    }
  }

  lemma UserStepKeeps(p: Panel, e: Event, ticket: string)
    requires Inv(p, ticket) && !IsCallback(e) && ticket != []
    ensures Inv(UserStep(p, e), ticket)
  {
    match e
    case Start(available) =>
      if MayStart(p, available) {
        StartedKeeps(p, ticket);
      }
    case HangUp =>
      if p.attempt.Some? {
        EndedKeeps(p, p.attempt.value, ticket);
      }
    case TimeLimit => TimeLimitKeeps(p, ticket);
    case Cleanup => CleanupKeeps(p, ticket);
    case _ => DisplayKeeps(p, UserStep(p, e).display, UserStep(p, e).mounted, ticket);
  }

  lemma ReportedEndKeeps(p: Panel, s: nat, d: Display, ticket: string)
    requires Known(p, s) && Inv(p, ticket) && ticket != []
    ensures Inv(Ended(p.(display := d), s), ticket)
  {
    DisplayKeeps(p, d, p.mounted, ticket);
    EndedKeeps(p.(display := d), s, ticket);
  }

  lemma CreationKeeps(p: Panel, s: nat, result: Creation, ticket: string)
    requires Inv(p, ticket) && Known(p, s) && ticket != []
    ensures Inv(RequestStep(p, CallCreated(s, result), s), ticket)
  {
    match result
    case Created(taken, links) => TicketTakenKeeps(p, s, taken, ticket);
    case Refused(Some(text)) =>
      WithKeeps(p, s, p.sessions[s].(serverError := Prefix(text, MAX_ERROR_CHARACTERS)), ticket);
    case Refused(None) =>
  }

  lemma RequestStepKeeps(p: Panel, e: Event, s: nat, ticket: string)
    requires Inv(p, ticket) && Known(p, s) && ticket != []
    ensures Inv(RequestStep(p, e, s), ticket)
  {
    match e
    case StartFails(_, denied) =>
      ReportedEndKeeps(p, s, Error(p, if denied then MicrophoneDenied else CannotConnect).display, ticket);
    case CallCreated(_, result) =>
      assert RequestStep(p, e, s) == RequestStep(p, CallCreated(s, result), s);
      CreationKeeps(p, s, result, ticket);
    case StopCall(_) => ReleasedKeeps(p, s, ticket);
    case _ =>
  }

  lemma HookStepKeeps(p: Panel, e: Event, s: nat, ticket: string)
    requires Inv(p, ticket) && Known(p, s) && ticket != []
    ensures Inv(HookStep(p, e, s), ticket)
  {
    match e
    case OnLive(_) =>
      DisplayKeeps(p, p.display.(status := Live), p.mounted, ticket);
      CaptionsOpenedKeeps(p.(display := p.display.(status := Live)), s, ticket);
    case OnEnd(_) => EndedKeeps(p, s, ticket);
    case OnError(_) =>
      EndedKeeps(p, s, ticket);
      ReportedEndKeeps(p, s, Error(p, Reason(p, s)).display, ticket);
    case _ =>
  }

  lemma CaptionStepKeeps(p: Panel, e: Event, s: nat, ticket: string)
    requires Inv(p, ticket) && Known(p, s) && ticket != []
    ensures Inv(CaptionStep(p, e, s), ticket)
  {
    EndedKeeps(p, s, ticket);
  }

  lemma CallStepKeeps(p: Panel, e: Event, s: nat, ticket: string)
    requires Inv(p, ticket) && Known(p, s) && ticket != []
    ensures Inv(CallStep(p, e, s), ticket)
  {
    RequestStepKeeps(p, e, s, ticket);
    HookStepKeeps(p, e, s, ticket);
    CaptionStepKeeps(p, e, s, ticket);
  }

  lemma StepKeeps(p: Panel, e: Event, ticket: string)
    requires Inv(p, ticket) && ticket != []
    ensures Inv(Step(p, e), ticket)
  {
    if !IsCallback(e) {
      UserStepKeeps(p, e, ticket);
    } else if Known(p, e.session) {
      CallStepKeeps(p, e, e.session, ticket);
    }
  }

  lemma {:induction false} RunsKeep(p: Panel, events: seq<Event>, ticket: string)
    requires Inv(p, ticket) && ticket != []
    ensures Inv(Run(p, events), ticket)
    decreases |events|
  {
    if events != [] {
      StepKeeps(p, events[0], ticket);
      RunsKeep(Step(p, events[0]), events[1..], ticket);
    }
  }

  /** The invariant for every ticket at once. */
  ghost predicate Protocol(p: Panel) { forall ticket: string :: ticket != [] ==> Inv(p, ticket) }

  lemma ProtocolIsOneLive(p: Panel)
    requires Protocol(p)
    ensures OneLive(p)
  {
    var ticket := ['t'];
    assert Inv(p, ticket);
  }

  lemma StepKeepsProtocol(p: Panel, e: Event)
    requires Protocol(p)
    ensures Protocol(Step(p, e))
  {
    forall ticket: string | ticket != [] ensures Inv(Step(p, e), ticket) {
      StepKeeps(p, e, ticket);
    }
  }

  lemma DisplayKeepsProtocol(p: Panel, d: Display, mounted: bool)
    requires Protocol(p)
    ensures Protocol(p.(display := d, mounted := mounted))
  {
    forall ticket: string | ticket != [] ensures Inv(p.(display := d, mounted := mounted), ticket) {
      DisplayKeeps(p, d, mounted, ticket);
    }
  }

  lemma EndingKeepsProtocol(p: Panel, s: nat)
    requires Protocol(p) && Known(p, s)
    ensures Protocol(Aborted(p, s)) && Protocol(Released(p, s)) && Protocol(Ended(p, s))
  {
    forall ticket: string | ticket != []
      ensures Inv(Aborted(p, s), ticket) && Inv(Released(p, s), ticket) && Inv(Ended(p, s), ticket)
    {
      WithKeeps(p, s, Aborted(p, s).sessions[s], ticket);
      ReleasedKeeps(p, s, ticket);
      EndedKeeps(p, s, ticket);
    }
  }

  lemma CaptionsKeepProtocol(p: Panel, s: nat)
    requires Protocol(p) && Known(p, s)
    ensures Protocol(CaptionsOpened(p, s))
  {
    forall ticket: string | ticket != [] ensures Inv(CaptionsOpened(p, s), ticket) {
      CaptionsOpenedKeeps(p, s, ticket);
    }
  }

  /** In every run, whatever arrives and when: at most one session is live, and it is the one started
      last; every ticket is accounted for, so it is sent for deletion at most as often as it was handed
      out; and no session opens a second transcript stream. */
  lemma SessionProtocol(events: seq<Event>, ticket: string)
    requires ticket != []
    ensures var p := Run(Initial(), events); Inv(p, ticket) && multiset(p.deleted)[ticket] <= multiset(p.issued)[ticket]
  {
    RunsKeep(Initial(), events, ticket);
  }

  // ----- Sessions that have ended

  predicate Settled(p: Panel, s: nat) { Known(p, s) && p.sessions[s].aborted && p.sessions[s].ticket == [] }

  lemma EndedIsSettled(p: Panel, s: nat)
    requires Known(p, s)
    ensures Settled(Ended(p, s), s)
  {
  }

  lemma RequestStepStaysSettled(p: Panel, e: Event, x: nat, s: nat)
    requires Known(p, x) && Settled(p, s) && (e.CallCreated? ==> x != s)
    ensures Settled(RequestStep(p, e, x), s)
  {
    EndedIsSettled(p, x);
  }

  lemma OtherStepsStaySettled(p: Panel, e: Event, x: nat, s: nat)
    requires Known(p, x) && Settled(p, s)
    ensures Settled(HookStep(p, e, x), s) && Settled(CaptionStep(p, e, x), s)
  {
    EndedIsSettled(p, x);
  }

  lemma UserStepStaysSettled(p: Panel, e: Event, s: nat)
    requires Settled(p, s)
    ensures Settled(UserStep(p, e), s)
  {
  }

  lemma StaysSettled(p: Panel, e: Event, s: nat)
    requires Settled(p, s) && !(e.CallCreated? && e.session == s)
    ensures Settled(Step(p, e), s)
  {
    if !IsCallback(e) {
      UserStepStaysSettled(p, e, s);
    } else if Known(p, e.session) {
      RequestStepStaysSettled(p, e, e.session, s);
      OtherStepsStaySettled(p, e, e.session, s);
    }
  }

  /** Once a session has ended, by its own end, by an error, or, as the last one, by the user or by leaving
      the page, it is never live again and holds no ticket, unless the answer to its call creation comes later. */
  lemma {:induction false} EndedSessionsStaySettled(p: Panel, s: nat, e: Event, events: seq<Event>)
    requires Known(p, s)
    requires e == OnEnd(s) || e == OnError(s) || ((e == HangUp || e == Cleanup) && p.attempt == Some(s))
    requires forall k :: 0 <= k < |events| ==> !(events[k].CallCreated? && events[k].session == s)
    ensures Settled(Run(Step(p, e), events), s)
  {
    EndedIsSettled(p, s);
    EndedIsSettled(Error(p, Reason(p, s)), s);
    EndedIsSettled(p.(mounted := false), s);
    SettledRuns(Step(p, e), s, events);
  }

  lemma {:induction false} SettledRuns(p: Panel, s: nat, events: seq<Event>)
    requires Settled(p, s)
    requires forall k :: 0 <= k < |events| ==> !(events[k].CallCreated? && events[k].session == s)
    ensures Settled(Run(p, events), s)
    decreases |events|
  {
    if events != [] {
      StaysSettled(p, events[0], s);
      SettledRuns(Step(p, events[0]), s, events[1..]);
    }
  }

  lemma {:induction false} NoneHeld(sessions: seq<Session>, ticket: string)
    requires ticket != [] && forall s :: 0 <= s < |sessions| ==> sessions[s].ticket == []
    ensures HeldBy(sessions, ticket) == 0
  {
    if sessions != [] {
      NoneHeld(sessions[..|sessions| - 1], ticket);
    }
  }

  /** When every session of a run is settled and no ticket was overwritten, each ticket was sent for
      deletion exactly as often as it was handed out. */
  lemma SettledRunsReturnEveryTicket(events: seq<Event>, ticket: string)
    requires ticket != []
    requires Run(Initial(), events).replaced == []
    requires forall s :: 0 <= s < |Run(Initial(), events).sessions| ==> Settled(Run(Initial(), events), s)
    ensures var p := Run(Initial(), events); multiset(p.deleted)[ticket] == multiset(p.issued)[ticket]
  {
    var p := Run(Initial(), events);
    RunsKeep(Initial(), events, ticket);
    forall s | 0 <= s < |p.sessions| ensures p.sessions[s].ticket == [] {
      assert Settled(p, s);
    }
    NoneHeld(p.sessions, ticket);
  }

  // ----- Superseded sessions

  /** A callback of a session that is no longer displayed shows nothing. */
  lemma StaleCallbacksAreInvisible(p: Panel, e: Event)
    requires IsCallback(e) && !Current(p, e.session)
    ensures Step(p, e).display == p.display
    ensures Step(p, e).mounted == p.mounted && Step(p, e).attempt == p.attempt
  {
  }

  /** Two panels that differ at most in session `s`, which neither displays, and in the logs. */
  ghost predicate SameBut(s: nat, p: Panel, q: Panel) {
    && p.mounted == q.mounted && p.attempt == q.attempt && p.display == q.display
    && |p.sessions| == |q.sessions| && s < |p.sessions| && p.attempt.Some? && p.attempt != Some(s)
    && forall i :: 0 <= i < |p.sessions| && i != s ==> p.sessions[i] == q.sessions[i]
  }

  lemma CallStepTouchesOneSession(p: Panel, e: Event, s: nat)
    requires Known(p, s)
    ensures var r := CallStep(p, e, s);
            |r.sessions| == |p.sessions| && forall i :: 0 <= i < |p.sessions| && i != s ==> r.sessions[i] == p.sessions[i]
  {
  }

  lemma OwnStepStays(s: nat, p: Panel, q: Panel, e: Event)
    requires SameBut(s, p, q) && OfSession(e, s)
    ensures SameBut(s, Step(p, e), q)
  {
    StaleCallbacksAreInvisible(p, e);
    CallStepTouchesOneSession(p, e, s);
  }

  /** Two panels that show the same and agree on session `s`. */
  ghost predicate AgreeOn(s: nat, p: Panel, q: Panel) {
    && Known(p, s) && Known(q, s) && p.sessions[s] == q.sessions[s]
    && p.mounted == q.mounted && p.attempt == q.attempt && p.display == q.display
  }

  lemma EndedIsLocal(s: nat, p: Panel, q: Panel)
    requires AgreeOn(s, p, q)
    ensures AgreeOn(s, Ended(p, s), Ended(q, s))
  {
  }

  lemma RequestStepIsLocal(s: nat, p: Panel, q: Panel, e: Event)
    requires AgreeOn(s, p, q)
    ensures AgreeOn(s, RequestStep(p, e, s), RequestStep(q, e, s))
  {
    match e
    case StartFails(_, denied) =>
      var m := if denied then MicrophoneDenied else CannotConnect;
      EndedIsLocal(s, Error(p, m), Error(q, m));
    case _ =>
  }

  lemma HookStepIsLocal(s: nat, p: Panel, q: Panel, e: Event)
    requires AgreeOn(s, p, q)
    ensures AgreeOn(s, HookStep(p, e, s), HookStep(q, e, s))
  {
    EndedIsLocal(s, p, q);
    EndedIsLocal(s, Error(p, Reason(p, s)), Error(q, Reason(q, s)));
  }

  /** What a callback does depends on its own session and on what is displayed, and on nothing else. */
  lemma CallStepIsLocal(s: nat, p: Panel, q: Panel, e: Event)
    requires AgreeOn(s, p, q)
    ensures AgreeOn(s, CallStep(p, e, s), CallStep(q, e, s))
  {
    RequestStepIsLocal(s, p, q, e);
    HookStepIsLocal(s, p, q, e);
    EndedIsLocal(s, p, q);
  }

  lemma EndedAgrees(s: nat, p: Panel, q: Panel, x: nat)
    requires SameBut(s, p, q) && x != s && Known(p, x)
    ensures SameBut(s, Ended(p, x), Ended(q, x))
    ensures SameBut(s, Released(Aborted(p, x), x), Released(Aborted(q, x), x))
  {
  }

  lemma StartedAgrees(s: nat, p: Panel, q: Panel)
    requires SameBut(s, p, q)
    ensures SameBut(s, Started(p), Started(q))
  {
  }

  lemma UserStepAgrees(s: nat, p: Panel, q: Panel, e: Event)
    requires SameBut(s, p, q) && !IsCallback(e)
    ensures SameBut(s, UserStep(p, e), UserStep(q, e))
  {
    match e
    case Start(available) => StartedAgrees(s, p, q);
    case HangUp =>
      if Known(p, p.attempt.value) {
        EndedAgrees(s, p, q, p.attempt.value);
      }
    case Cleanup =>
      if Known(p, p.attempt.value) {
        EndedAgrees(s, p.(mounted := false), q.(mounted := false), p.attempt.value);
      }
    case _ =>
  }

  lemma OtherStepAgrees(s: nat, p: Panel, q: Panel, e: Event)
    requires SameBut(s, p, q) && !OfSession(e, s)
    ensures SameBut(s, Step(p, e), Step(q, e))
  {
    if !IsCallback(e) {
      UserStepAgrees(s, p, q, e);
    } else if Known(p, e.session) {
      CallStepIsLocal(e.session, p, q, e);
      CallStepTouchesOneSession(p, e, e.session);
      CallStepTouchesOneSession(q, e, e.session);
      AttemptStays(p, e, e.session);
    }
  }

  lemma AttemptStays(p: Panel, e: Event, s: nat)
    requires Known(p, s)
    ensures CallStep(p, e, s).attempt == p.attempt
  {
  }

  function Without(events: seq<Event>, s: nat): seq<Event> {
    if events == [] then []
    else if OfSession(events[0], s) then Without(events[1..], s)
    else [events[0]] + Without(events[1..], s)
  }

  lemma RunCons(p: Panel, e: Event, rest: seq<Event>)
    ensures Run(p, [e] + rest) == Run(Step(p, e), rest)
  {
    assert ([e] + rest)[1..] == rest;
  }

  /** Non-interference: taking every callback of a superseded session out of a run changes neither what the
      user sees at the end nor any other session. */
  lemma {:induction false} SupersededSessionsDoNotInterfere(s: nat, p: Panel, q: Panel, events: seq<Event>)
    requires SameBut(s, p, q)
    ensures SameBut(s, Run(p, events), Run(q, Without(events, s)))
    decreases |events|
  {
    if events != [] {
      var e := events[0];
      if OfSession(e, s) {
        OwnStepStays(s, p, q, e);
        SupersededSessionsDoNotInterfere(s, Step(p, e), q, events[1..]);
      } else {
        OtherStepAgrees(s, p, q, e);
        SupersededSessionsDoNotInterfere(s, Step(p, e), Step(q, e), events[1..]);
        RunCons(q, e, Without(events[1..], s));
      }
    }
  }
}
