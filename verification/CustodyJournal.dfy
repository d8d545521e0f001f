/** The journal entries around one custody session, whatever its launcher, authority loop and client do in between. */
module CustodyJournal {
  import opened Text
  import opened Sorting

  /** The two launchers: the direct client also waits for its child to exit. */
  datatype Kind = Direct | Systemd

  datatype Outcome = Succeeded | Uncertain

  /** What happened, in order. */
  datatype Event =
    | Began
    | StartFailed
    | FrameRefused
    | CloseAnswered(ok: bool)
    | PoisonRead
    | ChildWaited(clean: bool)
    | Finished(outcome: Outcome)

  datatype Phase = Unbegun | Starting | Serving | Open | CloseAsked | PoisonSeen | Waited | Over

  datatype Session = Session(
    kind: Kind, role: string, phase: Phase, poisoned: bool, requestOk: bool, poisonSeen: bool, clean: bool,
    log: seq<Event>)

  /** A frame on the authority socket, with what its checks would answer. */
  datatype Frame = Frame(verb: string, nonceMatches: bool, journalPresent: bool, payloadDecodes: bool,
                         journalAccepts: bool)

  predicate IsMutation(f: Frame) {
    f.verb == "mutation-begin" || f.verb == "mutation-finish"
  }

  /** An authenticated mutation frame whose answer is not OK; it poisons the session for good. */
  predicate Refused(role: string, f: Frame) {
    && f.nonceMatches && IsMutation(f)
    && !(role == "retention" && f.journalPresent && f.payloadDecodes && f.journalAccepts)
  }

  datatype Action =
    | Begin(ok: bool)       // validation, then BeginCustody
    | StartFails            // any later launch step fails, and the deferred FinishCustody runs; there is no client
    | AuthorityStarts       // the client exists and its authority loop is running
    | Ready                 // the ready request succeeded and the client is returned
    | Receive(frame: Frame) // the authority loop handles a frame
    | AskClose(ok: bool)    // Close: the close request
    | ReadPoison            // Close: the poison flag is read
    | WaitChild(clean: bool) // Close, direct client: the child's exit
    | Journal               // Close: FinishCustody; nothing keeps the caller from closing again

  function Logged(s: Session, e: Event): Session {
    s.(log := s.log + [e])
  }

  function ClosingOutcome(s: Session): Outcome {
    if !s.requestOk || s.poisonSeen || (s.kind == Direct && !s.clean) then Uncertain else Succeeded
  }

  function Step(s: Session, a: Action): Session {
    match a
    case Begin(ok) => if s.phase == Unbegun && ok then Logged(s, Began).(phase := Starting) else s
    case StartFails =>
      if s.phase == Starting || s.phase == Serving
      then Logged(Logged(s, StartFailed), Finished(Uncertain)).(phase := Over) else s
    case AuthorityStarts => if s.phase == Starting then s.(phase := Serving) else s
    case Ready => if s.phase == Serving then s.(phase := Open) else s
    case Receive(f) =>
      if s.phase == Unbegun || s.phase == Starting || !Refused(s.role, f) then s
      else Logged(s, FrameRefused).(poisoned := true)
    case AskClose(ok) =>
      if s.phase == Open then Logged(s, CloseAnswered(ok)).(phase := CloseAsked, requestOk := ok) else s
    case ReadPoison =>
      if s.phase == CloseAsked then Logged(s, PoisonRead).(phase := PoisonSeen, poisonSeen := s.poisoned) else s
    case WaitChild(clean) =>
      if s.phase == PoisonSeen && s.kind == Direct then Logged(s, ChildWaited(clean)).(phase := Waited, clean := clean)
      else s
    case Journal =>
      if s.phase == Waited || (s.phase == PoisonSeen && s.kind == Systemd)
      then Logged(s, Finished(ClosingOutcome(s))).(phase := Open) else s
  }

  function Start(kind: Kind, role: string): Session {
    Session(kind, role, Unbegun, false, true, false, true, [])
  }

  function Exec(s: Session, actions: seq<Action>): Session {
    if actions == [] then s else Step(Exec(s, actions[..|actions| - 1]), actions[|actions| - 1])
  }

  // ----- what the log says

  /** The answer to the last close request. */
  function LastClose(log: seq<Event>): Option<bool> {
    if log == [] then None
    else
      match log[|log| - 1]
      case CloseAnswered(ok) => Some(ok)
      case _ => LastClose(log[..|log| - 1])
  }

  /** The child's exit, as far as it was awaited since the last close request. */
  function LastExit(log: seq<Event>): Option<bool> {
    if log == [] then None
    else
      match log[|log| - 1]
      case ChildWaited(clean) => Some(clean)
      case CloseAnswered(_) => None
      case _ => LastExit(log[..|log| - 1])
  }

  /** Whether a mutation frame had been refused when the poison flag was last read. */
  predicate RefusedAtRead(log: seq<Event>) {
    && log != []
    && if log[|log| - 1] == PoisonRead then FrameRefused in log[..|log| - 1] else RefusedAtRead(log[..|log| - 1])
  }

  /** Something went wrong that an entry written now must show. */
  predicate Doubtful(log: seq<Event>) {
    StartFailed in log || LastClose(log) == Some(false) || RefusedAtRead(log) || LastExit(log) == Some(false)
  }

  /** Every entry says exactly whether anything was doubtful when it was written. */
  predicate Truthful(log: seq<Event>) {
    forall n :: 0 <= n < |log| && log[n].Finished? ==> (log[n].outcome == Uncertain <==> Doubtful(log[..n]))
  }

  predicate IsFinished(e: Event) { e.Finished? }

  predicate IsClose(e: Event) { e.CloseAnswered? }

  predicate IsFailure(e: Event) { e.StartFailed? }

  // ----- how the log grows

  datatype Facts = Facts(
    began: bool, failed: bool, refused: bool, close: Option<bool>, exit: Option<bool>, atRead: bool,
    entries: nat, closes: nat, failures: nat)

  function FactsOf(log: seq<Event>): Facts {
    Facts(Began in log, StartFailed in log, FrameRefused in log, LastClose(log), LastExit(log), RefusedAtRead(log),
          CountIf(log, IsFinished), CountIf(log, IsClose), CountIf(log, IsFailure))
  }

  function After(f: Facts, e: Event): Facts {
    match e
    case Began => f.(began := true)
    case StartFailed => f.(failed := true, failures := f.failures + 1)
    case FrameRefused => f.(refused := true)
    case CloseAnswered(ok) => f.(close := Some(ok), exit := None, closes := f.closes + 1)
    case PoisonRead => f.(atRead := f.refused)
    case ChildWaited(clean) => f.(exit := Some(clean))
    case Finished(_) => f.(entries := f.entries + 1)
  }

  lemma LogGrows(log: seq<Event>, e: Event)
    ensures FactsOf(log + [e]) == After(FactsOf(log), e)
  {
    var more := log + [e];
    assert more[|more| - 1] == e && more[..|more| - 1] == log;
    assert forall x :: x in more <==> x in log || x == e;
  }

  lemma TruthfulGrows(log: seq<Event>, e: Event)
    requires Truthful(log) && (e.Finished? ==> (e.outcome == Uncertain <==> Doubtful(log)))
    ensures Truthful(log + [e])
  {
    var more := log + [e];
    forall n | 0 <= n < |more| && more[n].Finished? ensures more[n].outcome == Uncertain <==> Doubtful(more[..n]) {
      assert more[..n] == log[..n];
      if n == |log| {
        assert log[..n] == log;
      }
    }
  }

  // ----- the invariant

  predicate Closing(p: Phase) {
    p == CloseAsked || p == PoisonSeen || p == Waited
  }

  /** The session's fields are what the log says. */
  predicate Matches(s: Session, f: Facts) {
    && (f.began <==> s.phase != Unbegun) && (f.failed <==> s.phase == Over) && (f.refused <==> s.poisoned)
    && (Closing(s.phase) ==> f.close == Some(s.requestOk))
    && (s.phase == PoisonSeen || s.phase == Waited ==> f.atRead == s.poisonSeen)
    && (s.phase == CloseAsked || s.phase == PoisonSeen ==> f.exit == None)
    && (s.phase == Waited ==> s.kind == Direct && f.exit == Some(s.clean))
    && Balanced(s.phase, f)
  }

  /** One entry for every completed close, and one for a failed start, which leaves no client to close. */
  predicate Balanced(p: Phase, f: Facts) {
    && f.entries + (if Closing(p) then 1 else 0) == f.closes + f.failures
    && f.failures == (if p == Over then 1 else 0)
    && (p == Unbegun || p == Starting || p == Serving || p == Over ==> f.closes == 0)
  }

  ghost predicate Inv(s: Session) {
    Matches(s, FactsOf(s.log)) && Truthful(s.log)
  }

  /** What a step logs. */
  function EventsOf(s: Session, a: Action): seq<Event> {
    match a
    case Begin(ok) => if s.phase == Unbegun && ok then [Began] else []
    case StartFails => if s.phase == Starting || s.phase == Serving then [StartFailed, Finished(Uncertain)] else []
    case Receive(f) => if s.phase == Unbegun || s.phase == Starting || !Refused(s.role, f) then [] else [FrameRefused]
    case AskClose(ok) => if s.phase == Open then [CloseAnswered(ok)] else []
    case ReadPoison => if s.phase == CloseAsked then [PoisonRead] else []
    case WaitChild(clean) => if s.phase == PoisonSeen && s.kind == Direct then [ChildWaited(clean)] else []
    case Journal =>
      if s.phase == Waited || (s.phase == PoisonSeen && s.kind == Systemd) then [Finished(ClosingOutcome(s))] else []
    case _ => []
  }

  predicate IsClosing(a: Action) {
    a.AskClose? || a.ReadPoison? || a.WaitChild? || a.Journal?
  }

  /** The facts after what a step logs. */
  function Following(f: Facts, events: seq<Event>): Facts {
    if events == [] then f else After(f, events[0])
  }

  lemma StepLogs(s: Session, a: Action)
    requires !a.StartFails?
    ensures Step(s, a).log == s.log + EventsOf(s, a) && |EventsOf(s, a)| <= 1
  {
    if EventsOf(s, a) == [] {
      assert s.log + EventsOf(s, a) == s.log;
    }
  }

  /** The fields follow what is logged. */
  lemma FieldsFollow(s: Session, f: Facts, a: Action)
    requires Matches(s, f) && !a.StartFails? && |EventsOf(s, a)| <= 1
    ensures Matches(Step(s, a), Following(f, EventsOf(s, a)))
  {
    if IsClosing(a) {
      ClosingFollows(s, f, a);
    }
  }

  lemma ClosingFollows(s: Session, f: Facts, a: Action)
    requires Matches(s, f) && IsClosing(a)
    ensures Matches(Step(s, a), Following(f, EventsOf(s, a)))
  {
    match a
    case AskClose(ok) =>
      if s.phase == Open {
        assert Following(f, EventsOf(s, a)) == After(f, CloseAnswered(ok));
      }
    case ReadPoison =>
    case WaitChild(_) =>
    case Journal =>
  }

  /** The outcome a close computes is what its log calls for. */
  lemma OutcomeIsDoubt(s: Session)
    requires Matches(s, FactsOf(s.log)) && (s.phase == Waited || (s.phase == PoisonSeen && s.kind == Systemd))
    ensures ClosingOutcome(s) == Uncertain <==> Doubtful(s.log)
  {
  }

  lemma StepKeeps(s: Session, a: Action)
    requires Inv(s)
    ensures Inv(Step(s, a))
  {
    if a.StartFails? {
      if Step(s, a) != s {
        StartFailureKeeps(s);
      }
    } else {
      StepLogs(s, a);
      FieldsFollow(s, FactsOf(s.log), a);
      var events := EventsOf(s, a);
      if events == [] {
        assert s.log + events == s.log;
      } else {
        assert s.log + events == s.log + [events[0]];
        LogGrows(s.log, events[0]);
        if a.Journal? {
          OutcomeIsDoubt(s);
        }
        TruthfulGrows(s.log, events[0]);
      }
    }
  }

  lemma FailureMatches(s: Session, f: Facts)
    requires Matches(s, f) && (s.phase == Starting || s.phase == Serving)
    ensures Matches(Step(s, StartFails), After(After(f, StartFailed), Finished(Uncertain)))
    ensures Step(s, StartFails).log == s.log + [StartFailed] + [Finished(Uncertain)]
  {
  }

  lemma StartFailureKeeps(s: Session)
    requires Inv(s) && (s.phase == Starting || s.phase == Serving)
    ensures Inv(Step(s, StartFails))
  {
    var failed := s.log + [StartFailed];
    FailureMatches(s, FactsOf(s.log));
    LogGrows(s.log, StartFailed);
    TruthfulGrows(s.log, StartFailed);
    assert StartFailed in failed;
    LogGrows(failed, Finished(Uncertain));
    TruthfulGrows(failed, Finished(Uncertain));
  }

  lemma {:induction false} Invariant(kind: Kind, role: string, actions: seq<Action>)
    ensures Inv(Exec(Start(kind, role), actions))
  {
    if actions != [] {
      Invariant(kind, role, actions[..|actions| - 1]);
      StepKeeps(Exec(Start(kind, role), actions[..|actions| - 1]), actions[|actions| - 1]);
    }
  }

  // ----- main results

  /** In every run, however often the client is closed: there is one entry for every completed close and one for a
      failed start, none before BeginCustody succeeded, and each is uncertain exactly when the start failed, the close
      request failed, a mutation frame had been refused when that close read the poison flag, or a direct child exited
      uncleanly. */
  lemma OneTruthfulEntryPerClose(kind: Kind, role: string, actions: seq<Action>)
    ensures var s := Exec(Start(kind, role), actions);
      && Truthful(s.log)
      && (Began in s.log <==> s.phase != Unbegun)
      && CountIf(s.log, IsFinished) + (if Closing(s.phase) then 1 else 0) ==
         CountIf(s.log, IsClose) + CountIf(s.log, IsFailure)
      && CountIf(s.log, IsFailure) <= 1 && (CountIf(s.log, IsFailure) == 1 ==> CountIf(s.log, IsClose) == 0)
  {
    Invariant(kind, role, actions);
  }

  /** A client closed at most once gets at most one entry, and exactly one once its start has failed or its close is
      done. */
  lemma ClosedOnceFinishedOnce(kind: Kind, role: string, actions: seq<Action>)
    requires CountIf(Exec(Start(kind, role), actions).log, IsClose) <= 1
    ensures var s := Exec(Start(kind, role), actions);
      && CountIf(s.log, IsFinished) <= 1
      && (CountIf(s.log, IsFinished) == 1 <==> s.phase == Over || (CountIf(s.log, IsClose) == 1 && !Closing(s.phase)))
  {
    Invariant(kind, role, actions);
  }

  predicate OnlyFrames(actions: seq<Action>) {
    forall i :: 0 <= i < |actions| ==> actions[i].Receive?
  }

  lemma {:induction false} FramesKeepPhase(s: Session, frames: seq<Action>)
    requires OnlyFrames(frames)
    ensures Exec(s, frames).phase == s.phase && Exec(s, frames).kind == s.kind && Exec(s, frames).role == s.role
  {
    if frames != [] {
      FramesKeepPhase(s, frames[..|frames| - 1]);
    }
  }

  /** Whatever happened before, a close carried through ends with its entry, and frames handled in between do not
      prevent it. */
  lemma CloseEndsWithItsEntry(s: Session, ok: bool, clean: bool, f1: seq<Action>, f2: seq<Action>, f3: seq<Action>)
    requires s.phase == Open && OnlyFrames(f1) && OnlyFrames(f2) && OnlyFrames(f3)
    ensures var t := Step(Exec(Step(Exec(s, f1), AskClose(ok)), f2), ReadPoison);
      var u := if s.kind == Direct then Step(Exec(t, f3), WaitChild(clean)) else Exec(t, f3);
      var done := Step(u, Journal);
      done.phase == Open && done.log == u.log + [Finished(ClosingOutcome(u))]
  {
    FramesKeepPhase(s, f1);
    var asked := Step(Exec(s, f1), AskClose(ok));
    FramesKeepPhase(asked, f2);
    FramesKeepPhase(Step(Exec(asked, f2), ReadPoison), f3);
  }

  // ----- the frames themselves

  /** A mutation frame with the session's nonce that the journal did not take: the role may not mutate, there is no
      journal, the payload is not decoded, or the journal refuses it. */
  predicate BadMutation(role: string, f: Frame) {
    && f.nonceMatches && f.verb in {"mutation-begin", "mutation-finish"}
    && (role != "retention" || !f.journalPresent || !f.payloadDecodes || !f.journalAccepts)
  }

  /** The n-th action is such a frame, received once the authority loop was running. */
  predicate BadAt(kind: Kind, role: string, actions: seq<Action>, n: int) {
    && 0 <= n < |actions| && actions[n].Receive? && BadMutation(role, actions[n].frame)
    && Exec(Start(kind, role), actions[..n]).phase !in {Unbegun, Starting}
  }

  ghost predicate SawBadFrame(kind: Kind, role: string, actions: seq<Action>) {
    exists n :: BadAt(kind, role, actions, n)
  }

  lemma SawBadGrows(kind: Kind, role: string, before: seq<Action>, a: Action)
    ensures SawBadFrame(kind, role, before + [a]) <==>
      SawBadFrame(kind, role, before) || BadAt(kind, role, before + [a], |before|)
  {
    var actions := before + [a];
    forall n | 0 <= n < |before| ensures BadAt(kind, role, actions, n) == BadAt(kind, role, before, n) {
      assert actions[..n] == before[..n];
    }
    if n :| BadAt(kind, role, before, n) {
      assert BadAt(kind, role, actions, n);
    }
    if n :| BadAt(kind, role, actions, n) {
      assert n < |before| ==> BadAt(kind, role, before, n);
    }
  }

  lemma RefusedIsBad(role: string, f: Frame)
    ensures Refused(role, f) <==> BadMutation(role, f)
  {
  }

  lemma StepPoisons(s: Session, a: Action)
    ensures var t := Step(s, a);
      && t.kind == s.kind && t.role == s.role
      && (t.poisoned <==>
            s.poisoned || (a.Receive? && BadMutation(s.role, a.frame) && s.phase !in {Unbegun, Starting}))
  {
    if a.Receive? {
      RefusedIsBad(s.role, a.frame);
    }
  }

  lemma SawBadLast(kind: Kind, role: string, actions: seq<Action>)
    requires actions != []
    ensures var before, a := actions[..|actions| - 1], actions[|actions| - 1];
      SawBadFrame(kind, role, actions) <==>
        || SawBadFrame(kind, role, before)
        || (a.Receive? && BadMutation(role, a.frame)
            && Exec(Start(kind, role), before).phase !in {Unbegun, Starting})
  {
    var before, a := actions[..|actions| - 1], actions[|actions| - 1];
    SawBadGrows(kind, role, before, a);
    assert before + [a] == actions;
  }

  /** In every run the session is poisoned exactly when it received such a frame. */
  lemma {:induction false} PoisonedExactly(kind: Kind, role: string, actions: seq<Action>)
    ensures var s := Exec(Start(kind, role), actions);
      s.kind == kind && s.role == role && (s.poisoned <==> SawBadFrame(kind, role, actions))
  {
    if actions != [] {
      PoisonedExactly(kind, role, actions[..|actions| - 1]);
      SawBadLast(kind, role, actions);
      StepPoisons(Exec(Start(kind, role), actions[..|actions| - 1]), actions[|actions| - 1]);
    }
  }

  predicate AnyBad(role: string, frames: seq<Action>) {
    exists n :: 0 <= n < |frames| && frames[n].Receive? && BadMutation(role, frames[n].frame)
  }

  lemma {:induction false} FramesPoison(s: Session, frames: seq<Action>)
    requires OnlyFrames(frames) && s.phase !in {Unbegun, Starting}
    ensures var t := Exec(s, frames);
      && t.phase == s.phase && t.kind == s.kind && t.role == s.role && t.requestOk == s.requestOk
      && t.poisonSeen == s.poisonSeen && t.clean == s.clean && (t.poisoned <==> s.poisoned || AnyBad(s.role, frames))
  {
    if frames != [] {
      var before, a := frames[..|frames| - 1], frames[|frames| - 1];
      FramesPoison(s, before);
      assert forall n :: 0 <= n < |before| ==> frames[n] == before[n];
    }
  }

  /** Only what the frames in between leave is needed of each stage of a close. */
  lemma CloseFromOpen(s: Session, ok: bool, clean: bool, f1: seq<Action>, f2: seq<Action>, f3: seq<Action>)
    requires s.phase == Open && OnlyFrames(f1) && OnlyFrames(f2) && OnlyFrames(f3)
    ensures var t := Step(Exec(Step(Exec(s, f1), AskClose(ok)), f2), ReadPoison);
      var u := if s.kind == Direct then Step(Exec(t, f3), WaitChild(clean)) else Exec(t, f3);
      var uncertain := !ok || s.poisoned || AnyBad(s.role, f1) || AnyBad(s.role, f2) || (s.kind == Direct && !clean);
      Step(u, Journal).log == u.log + [Finished(if uncertain then Uncertain else Succeeded)]
  {
    FramesPoison(s, f1);
    var asked := AskedOf(s, Exec(s, f1), ok);
    FramesPoison(asked, f2);
    var read := ReadOf(Exec(asked, f2));
    FramesPoison(read, f3);
    Journals(Exec(read, f3), clean);
  }

  lemma AskedOf(s: Session, open: Session, ok: bool) returns (asked: Session)
    requires open.phase == Open && open.kind == s.kind && open.role == s.role
    ensures asked == Step(open, AskClose(ok)) && asked.phase == CloseAsked && asked.requestOk == ok
    ensures asked.kind == s.kind && asked.role == s.role && asked.poisoned == open.poisoned
  {
    asked := Step(open, AskClose(ok));
  }

  lemma ReadOf(asked: Session) returns (read: Session)
    requires asked.phase == CloseAsked
    ensures read == Step(asked, ReadPoison) && read.phase == PoisonSeen && read.poisonSeen == asked.poisoned
    ensures read.kind == asked.kind && read.role == asked.role && read.requestOk == asked.requestOk
  {
    read := Step(asked, ReadPoison);
  }

  lemma Journals(read: Session, clean: bool)
    requires read.phase == PoisonSeen
    ensures var u := if read.kind == Direct then Step(read, WaitChild(clean)) else read;
      var uncertain := !read.requestOk || read.poisonSeen || (read.kind == Direct && !clean);
      Step(u, Journal).log == u.log + [Finished(if uncertain then Uncertain else Succeeded)]
  {
  }

  /** A close carried through, from any open state of any run and with any frames in between, ends with an entry that is
      uncertain exactly when its request failed, a bad mutation frame had been received in the whole run until it read
      the poison flag, or a direct child exited uncleanly. */
  lemma CloseTellsOfFrames(kind: Kind, role: string, run: seq<Action>, ok: bool, clean: bool, f1: seq<Action>,
                           f2: seq<Action>, f3: seq<Action>)
    requires Exec(Start(kind, role), run).phase == Open && OnlyFrames(f1) && OnlyFrames(f2) && OnlyFrames(f3)
    ensures var s := Exec(Start(kind, role), run);
      var t := Step(Exec(Step(Exec(s, f1), AskClose(ok)), f2), ReadPoison);
      var u := if s.kind == Direct then Step(Exec(t, f3), WaitChild(clean)) else Exec(t, f3);
      var bad := SawBadFrame(kind, role, run) || AnyBad(role, f1) || AnyBad(role, f2);
      var uncertain := !ok || bad || (kind == Direct && !clean);
      Step(u, Journal).log == u.log + [Finished(if uncertain then Uncertain else Succeeded)]
  {
    PoisonedExactly(kind, role, run);
    CloseFromOpen(Exec(Start(kind, role), run), ok, clean, f1, f2, f3);
  }

  /** A session that starts and closes in order leaves exactly the entries of both, whatever frames arrive while it is
      open; with none refused and all steps well it succeeded. */
  lemma OrderlySession(kind: Kind, role: string, ok: bool, clean: bool, frames: seq<Action>)
    requires OnlyFrames(frames)
    ensures var open := Exec(Start(kind, role), [Begin(true), AuthorityStarts, Ready]);
      var asked := Step(Step(Exec(open, frames), AskClose(ok)), ReadPoison);
      var waited := if kind == Direct then Step(asked, WaitChild(clean)) else asked;
      var uncertain := !ok || AnyBad(role, frames) || (kind == Direct && !clean);
      && open.phase == Open && open.log == [Began]
      && Step(waited, Journal).log == waited.log + [Finished(if uncertain then Uncertain else Succeeded)]
  {
    var open := Opened(kind, role);
    CloseFromOpen(open, ok, clean, frames, [], []);
  }

  lemma Opened(kind: Kind, role: string) returns (open: Session)
    ensures open == Exec(Start(kind, role), [Begin(true), AuthorityStarts, Ready])
    ensures open.phase == Open && open.log == [Began] && !open.poisoned && open.kind == kind && open.role == role
  {
    var s := Start(kind, role);
    var actions := [Begin(true), AuthorityStarts, Ready];
    assert actions[..2] == [Begin(true), AuthorityStarts] && actions[..2][..1] == [Begin(true)];
    assert [Begin(true)][..0] == [];
    assert Exec(s, [Begin(true)]) == Step(s, Begin(true));
    assert Exec(s, actions[..2]) == Step(Exec(s, [Begin(true)]), AuthorityStarts);
    open := Exec(s, actions);
    assert open == Step(Exec(s, actions[..2]), Ready);
  }
}
