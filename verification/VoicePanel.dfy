/** The voice panel as it runs: its variables, changed in place by its handlers. */
module VoicePanel {
  import opened Wrappers
  import opened Voice

  class IssueVoice {
    var mounted: bool
    var attempt: Option<nat>
    var sessions: seq<Session>
    var display: Display
    var streams: seq<nat>
    var issued: seq<string>
    var deleted: seq<string>
    var replaced: seq<string>

    function Value(): Panel
      reads this
    {
      Panel(mounted, attempt, sessions, display, streams, issued, deleted, replaced)
    }

    /** One live session, every ticket accounted for, one transcript stream a session. */
    ghost predicate Valid()
      reads this
    {
      Protocol(Value())
    }

    constructor ()
      ensures Valid() && Value() == Initial()
    {
      mounted, attempt, sessions, streams := true, None, [], [];
      display := Display(Idle, None, false, [], [], false);
      issued, deleted, replaced := [], [], [];
    }

    // ----- What the handlers share

    /** Takes the ticket before the request is sent, so that a second call finds none. */
    method ReleaseSession(s: nat)
      requires Valid() && s < |sessions|
      modifies this
      ensures Valid() && Value() == Released(old(Value()), s)
      ensures sessions == old(sessions[s := sessions[s].(ticket := [])]) && display == old(display)
      ensures deleted == old(deleted) + (if old(sessions[s].ticket) == [] then [] else [old(sessions[s].ticket)])
    {
      EndingKeepsProtocol(Value(), s);
      var ticket := sessions[s].ticket;
      if ticket == [] {
        return;
      }
      sessions := sessions[s := sessions[s].(ticket := [])];
      deleted := deleted + [ticket];
    }

    method AbortSession(s: nat)
      requires Valid() && s < |sessions|
      modifies this
      ensures Valid() && Value() == Aborted(old(Value()), s)
      ensures |sessions| == |old(sessions)| && sessions[s].aborted && sessions[s].ticket == old(sessions[s].ticket)
      ensures sessions[s].captions == if old(sessions[s].captions.Streaming?) then StreamAborted else old(sessions[s].captions)
      ensures display == old(display) && deleted == old(deleted)
    {
      EndingKeepsProtocol(Value(), s);
      var session := sessions[s].(aborted := true);
      if session.captions.Streaming? {
        session := session.(captions := StreamAborted);
      }
      sessions := sessions[s := session];
    }

    method End(s: nat)
      requires Valid() && s < |sessions|
      modifies this
      ensures Valid() && Value() == Ended(old(Value()), s)
      ensures |sessions| == |old(sessions)|
      ensures sessions[s].aborted && sessions[s].ticket == [] && !sessions[s].captions.Streaming?
      ensures deleted == old(deleted) + (if old(sessions[s].ticket) == [] then [] else [old(sessions[s].ticket)])
      ensures mounted == old(mounted) && attempt == old(attempt)
      ensures display == if mounted && attempt == Some(s) then old(display).(status := CallOver, muted := false)
                         else old(display)
    {
      EndingKeepsProtocol(Value(), s);
      AbortSession(s);
      ReleaseSession(s);
      if mounted && attempt == Some(s) {
        display := display.(status := CallOver, muted := false);
      }
    }

    method OpenCaptions(s: nat)
      requires Valid() && s < |sessions|
      modifies this
      ensures Valid() && Value() == CaptionsOpened(old(Value()), s)
      ensures var opens := old(sessions[s].captions.NotOpened? && sessions[s].ticket != []);
              && streams == old(streams) + (if opens then [s] else [])
              && sessions == if opens then old(sessions[s := sessions[s].(captions := Streaming)]) else old(sessions)
      ensures display == old(display)
    {
      CaptionsKeepProtocol(Value(), s);
      if !sessions[s].captions.NotOpened? || sessions[s].ticket == [] {
        return;
      }
      sessions := sessions[s := sessions[s].(captions := Streaming)];
      streams := streams + [s];
    }

    method Show(d: Display)
      requires Valid()
      modifies this
      ensures Valid() && Value() == old(Value()).(display := d)
    {
      DisplayKeepsProtocol(Value(), d, mounted);
      display := d;
    }

    // ----- The user, the timer, the page

    method Begin(available: bool)
      requires Valid() && OneLive(Value())
      modifies this
      ensures Valid() && Value() == Step(old(Value()), Start(available))
      ensures var starts := available && old(attempt.None? || sessions[attempt.value].aborted);
              if starts then
                && sessions == old(sessions) + [Session(false, [], NotOpened, [])] && attempt == Some(|old(sessions)|)
                && display == Display(Connecting, None, false, [], [], false)
              else sessions == old(sessions) && attempt == old(attempt) && display == old(display)
    {
      ProtocolIsOneLive(Value());
      StepKeepsProtocol(Value(), Start(available));
      if (attempt.Some? && !sessions[attempt.value].aborted) || !available {
        return;
      }
      sessions := sessions + [FRESH];
      attempt := Some(|sessions| - 1);
      display := Display(Connecting, None, false, [], [], false);
    }

    method Unmount()
      requires Valid()
      modifies this
      ensures Valid() && Value() == Step(old(Value()), Cleanup)
      ensures !mounted && attempt == old(attempt) && display == old(display) && issued == old(issued)
      ensures attempt.None? ==> sessions == old(sessions) && deleted == old(deleted)
      ensures attempt.Some? ==>
                var s := attempt.value;
                && s < |sessions| == |old(sessions)|
                && sessions[s].aborted && sessions[s].ticket == [] && !sessions[s].captions.Streaming?
                && deleted == old(deleted) + (if old(sessions[s].ticket) == [] then [] else [old(sessions[s].ticket)])
                && forall k :: 0 <= k < |sessions| && k != s ==> sessions[k] == old(sessions[k])
    {
      ProtocolIsOneLive(Value());
      DisplayKeepsProtocol(Value(), display, false);
      mounted := false;
      if attempt.None? {
        return;
      }
      AbortSession(attempt.value);
      ReleaseSession(attempt.value);
    }

    /** The five minutes are over: the call is told to end, and its end will do the rest. */
    method ReachTimeLimit()
      requires Valid()
      modifies this
      ensures Valid() && Value() == Step(old(Value()), TimeLimit)
      ensures display == old(display) && deleted == old(deleted) && attempt == old(attempt)
      ensures attempt.None? ==> sessions == old(sessions)
      ensures attempt.Some? ==>
                var s := attempt.value;
                && s < |sessions| == |old(sessions)|
                && sessions[s] == old(sessions[s]).(aborted := true)
                && forall k :: 0 <= k < |sessions| && k != s ==> sessions[k] == old(sessions[k])
    {
      ProtocolIsOneLive(Value());
      StepKeepsProtocol(Value(), TimeLimit);
      if attempt.Some? {
        sessions := sessions[attempt.value := sessions[attempt.value].(aborted := true)];
      }
    }

    // ----- Callbacks of one session

    method OnCallEvent(e: Event)
      requires Valid() && (e.OnLive? || e.OnEnd? || e.OnError?) && e.session < |sessions|
      modifies this
      ensures Valid() && Value() == Step(old(Value()), e)
      ensures var s := e.session;
              var active := old(mounted && attempt == Some(s) && !sessions[s].aborted);
              var shown := old(mounted && attempt == Some(s));
              && |sessions| == |old(sessions)|
              && (e.OnLive? && active ==>
                    && display == old(display).(status := Live)
                    && (old(sessions[s].captions.NotOpened? && sessions[s].ticket != []) ==>
                          streams == old(streams) + [s] && sessions[s].captions.Streaming?))
              && (e.OnLive? && !active ==> Value() == old(Value()))
              && (e.OnEnd? || e.OnError? ==>
                    && sessions[s].aborted && sessions[s].ticket == [] && !sessions[s].captions.Streaming?
                    && deleted == old(deleted) + (if old(sessions[s].ticket) == [] then [] else [old(sessions[s].ticket)])
                    && display.status == (if shown then CallOver else old(display).status)
                    && (shown ==> !display.muted)
                    && display.error == (if e.OnError? && active then
                                           Some(if old(sessions[s].serverError) == [] then CannotConnect
                                                else Said(old(sessions[s].serverError)))
                                         else old(display).error))
    {
      var s := e.session;
      var active := mounted && attempt == Some(s) && !sessions[s].aborted;
      match e
      case OnLive(_) =>
        if !active {
          return;
        }
        Show(display.(status := Live));
        OpenCaptions(s);
      case OnEnd(_) => End(s);
      case OnError(_) =>
        if active {
          var reason := if sessions[s].serverError != [] then Said(sessions[s].serverError) else CannotConnect;
          Show(display.(error := Some(reason)));
        }
        End(s);
    }

    method OnTranscript(line: Line, s: nat)
      requires Valid() && s < |sessions|
      modifies this
      ensures Valid() && Value() == Step(old(Value()), OnLine(s, line))
      ensures var heard := old(mounted && attempt == Some(s) && sessions[s].captions.Streaming?);
              && (!heard || line.OtherLine? ==> Value() == old(Value()))
              && (heard && line.Transcript? ==> display == old(display).(lines := line.lines))
              && (heard && line.Unavailable? ==> display == old(display).(captionNotice := true))
              && (heard && line.Finished? ==>
                    && |sessions| == |old(sessions)| && sessions[s].aborted && sessions[s].ticket == []
                    && display.status == CallOver)
    {
      if !mounted || attempt != Some(s) || !sessions[s].captions.Streaming? {
        return;
      }
      match line
      case Transcript(lines) => Show(display.(lines := lines));
      case Unavailable => Show(display.(captionNotice := true));
      case Finished => End(s);
      case OtherLine =>
    }

    method OnCreated(result: Creation, s: nat)
      requires Valid() && s < |sessions|
      modifies this
      ensures Valid() && Value() == Step(old(Value()), CallCreated(s, result))
      ensures var active := old(mounted && attempt == Some(s) && !sessions[s].aborted);
              && |sessions| == |old(sessions)| && sessions[s].aborted == old(sessions[s].aborted)
              && (result.Created? ==>
                    && sessions[s].ticket == result.ticket
                    && issued == old(issued) + (if result.ticket == [] then [] else [result.ticket])
                    && display == if active then old(display).(links := result.links) else old(display))
              && (result.Refused? ==>
                    && sessions[s].ticket == old(sessions[s].ticket) && display == old(display)
                    && (result.error.Some? ==>
                          sessions[s].serverError == if |result.error.value| <= 250 then result.error.value
                                                     else result.error.value[..250])
                    && (result.error.None? ==> sessions == old(sessions)))
    {
      StepKeepsProtocol(Value(), CallCreated(s, result));
      match result
      case Created(ticket, links) =>
        var held := sessions[s].ticket;
        sessions := sessions[s := sessions[s].(ticket := ticket)];
        issued := if ticket == [] then issued else issued + [ticket];
        replaced := if held == [] then replaced else replaced + [held];
        if mounted && !sessions[s].aborted && attempt == Some(s) {
          display := display.(links := links);
        }
      case Refused(Some(text)) =>
        sessions := sessions[s := sessions[s].(serverError := Prefix(text, MAX_ERROR_CHARACTERS))];
      case Refused(None) =>
    }

    method OnStartFailure(denied: bool, s: nat)
      requires Valid() && s < |sessions|
      modifies this
      ensures Valid() && Value() == Step(old(Value()), StartFails(s, denied))
      ensures var active := old(mounted && attempt == Some(s) && !sessions[s].aborted);
              && (!active ==> Value() == old(Value()))
              && (active ==>
                    && |sessions| == |old(sessions)| && sessions[s].aborted && sessions[s].ticket == []
                    && display.status == CallOver
                    && display.error == Some(if denied then MicrophoneDenied else CannotConnect))
    {
      if !mounted || sessions[s].aborted || attempt != Some(s) {
        return;
      }
      Show(display.(error := Some(if denied then MicrophoneDenied else CannotConnect)));
      End(s);
    }

    method OnDeletionFailure(answered: bool, s: nat)
      requires Valid() && s < |sessions|
      modifies this
      ensures Valid() && Value() == Step(old(Value()), DeletionFails(s, answered))
      ensures sessions == old(sessions)
      ensures display == if mounted && attempt == Some(s) then
                           old(display).(error := Some(if answered then Disconnecting else Interrupted))
                         else old(display)
    {
      if mounted && attempt == Some(s) {
        Show(display.(error := Some(if answered then Disconnecting else Interrupted)));
      }
    }

    method OnCaptionsFailure(s: nat)
      requires Valid() && s < |sessions|
      modifies this
      ensures Valid() && Value() == Step(old(Value()), CaptionsFail(s))
      ensures sessions == old(sessions)
      ensures display == if mounted && attempt == Some(s) && sessions[s].captions.Streaming? then
                           old(display).(captionNotice := true)
                         else old(display)
    {
      if sessions[s].captions.Streaming? && mounted && attempt == Some(s) {
        Show(display.(captionNotice := true));
      }
    }

    // ----- Whole runs

    method OnPageEvent(e: Event)
      requires Valid() && !IsCallback(e)
      modifies this
      ensures Valid() && Value() == Step(old(Value()), e)
      ensures e == ToggleMute ==> display == old(display).(muted := !old(display).muted) && sessions == old(sessions)
      ensures e == Mount ==> mounted && display == old(display) && sessions == old(sessions)
      ensures e.AvailabilityFailed? ==> display == old(display).(error := Some(Said(e.text))) && sessions == old(sessions)
    {
      ProtocolIsOneLive(Value());
      match e
      case Start(available) =>
        ProtocolIsOneLive(Value());
        Begin(available);
      case HangUp =>
        if attempt.Some? {
          End(attempt.value);
        }
      case ToggleMute => Show(display.(muted := !display.muted));
      case TimeLimit => ReachTimeLimit();
      case AvailabilityFailed(text) => Show(display.(error := Some(Said(text))));
      case Cleanup => Unmount();
      case Mount =>
        DisplayKeepsProtocol(Value(), display, true);
        mounted := true;
    }

    method OnCallback(e: Event)
      requires Valid() && IsCallback(e) && e.session < |sessions|
      modifies this
      ensures Valid() && Value() == Step(old(Value()), e)
      ensures e.StopCall? ==>
                && sessions == old(sessions[e.session := sessions[e.session].(ticket := [])])
                && deleted == old(deleted) + (if old(sessions[e.session].ticket) == [] then []
                                              else [old(sessions[e.session].ticket)])
    {
      match e
      case StartFails(s, denied) => OnStartFailure(denied, s);
      case CallCreated(s, result) => OnCreated(result, s);
      case StopCall(s) => ReleaseSession(s);
      case DeletionFails(s, answered) => OnDeletionFailure(answered, s);
      case OnLine(s, line) => OnTranscript(line, s);
      case CaptionsFail(s) => OnCaptionsFailure(s);
      case OnLive(_) => OnCallEvent(e);
      case OnEnd(_) => OnCallEvent(e);
      case OnError(_) => OnCallEvent(e);
    }

    /** Whatever arrives, in whatever order: the panel goes through the protocol's run. */
    method Deliver(events: seq<Event>)
      requires Valid()
      modifies this
      ensures Valid() && Value() == Run(old(Value()), events)
    {
      var i := 0;
      while i < |events|
        invariant 0 <= i <= |events|
        invariant Valid() && Run(Value(), events[i..]) == Run(old(Value()), events)
      {
        assert events[i..][0] == events[i] && events[i..][1..] == events[i + 1..];
        if !IsCallback(events[i]) {
          OnPageEvent(events[i]);
        } else if events[i].session < |sessions| {
          OnCallback(events[i]);
        }
        i := i + 1;
      }
    }
  }
}
