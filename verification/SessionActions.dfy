/** The session status and auth-level machine with its event log: session_actions.go and
    session_manager.go of internal/auth/session. */
module SessionActions {
  import opened Histories
  import opened Options

  datatype Status = Active | Downgraded | StepUpRequired | Terminated

  /** Actions are strings, and policy rules may name any: the declared five and all others. */
  datatype Action = NoAction | Monitor | RequireMFA | Downgrade | Terminate | Undeclared(name: string)

  /** The part of a session its lifecycle acts on; times are integers. */
  datatype SessionData = SessionData(
    status: Status, authLevel: int, riskLevel: string, lastEvaluatedAt: int, lastActivityAt: int, expiresAt: int,
    stepUpReason: string, stepUpRequiredAt: int, lastStepUpAt: int,
    downgradeReason: string, downgradedAt: int, terminateReason: string, terminatedAt: int)

  /** The part of a session an event records. */
  datatype Snapshot = Snapshot(status: Status, riskLevel: string, authLevel: int, lastEvaluatedAt: int)

  datatype Kind = Created | Upgraded | Did(action: Action)

  /** The event type is the action's name; two undeclared names are those of other event types. */
  function KindOf(action: Action): Kind {
    if action == Undeclared("upgraded") then Upgraded
    else if action == Undeclared("created") then Created
    else Did(action)
  }

  /** The creation event has no previous state. */
  datatype Event = Event(kind: Kind, previous: Option<Snapshot>, next: Snapshot, reason: string)

  function GetState(s: SessionData): Snapshot {
    Snapshot(s.status, s.riskLevel, s.authLevel, s.lastEvaluatedAt)
  }

  /** The session after the action itself, before persistence. */
  function Acted(s: SessionData, action: Action, reason: string, now: int): SessionData {
    match action
    case NoAction | Monitor | Undeclared(_) => s
    case RequireMFA => s.(status := StepUpRequired, stepUpReason := reason, stepUpRequiredAt := now)
    case Downgrade => s.(status := Downgraded, downgradeReason := reason, downgradedAt := now,
                         authLevel := if s.authLevel > 1 then s.authLevel - 1 else 1)
    case Terminate => s.(status := Terminated, terminateReason := reason, terminatedAt := now)
  }

  function Raised(s: SessionData, now: int): SessionData {
    s.(status := Active, stepUpReason := "", lastStepUpAt := now,
       authLevel := if s.authLevel + 1 < 4 then s.authLevel + 1 else 4)
  }

  class Session {
    var data: SessionData

    constructor (data: SessionData)
      ensures this.data == data
    {
      this.data := data;
    }
  }

  /** There may be no event store at all, which counts as success. */
  datatype EventStore = Absent | Accepts | Refuses

  /** The session store and the event store may each refuse a write. */
  datatype Writes = Writes(update: bool, event: EventStore)

  class Executor {
    var log: seq<Event>

    constructor ()
      ensures log == []
    {
      log := [];
    }

    method RecordEvent(session: Session, kind: Kind, previous: Option<Snapshot>, reason: string, store: EventStore)
      returns (ok: bool)
      modifies this
      ensures ok == !store.Refuses?
      ensures log == if store.Accepts? then old(log) + [Event(kind, previous, GetState(session.data), reason)]
                     else old(log)
    {
      if store.Absent? {
        return true;
      }
      if store.Accepts? {
        log := log + [Event(kind, previous, GetState(session.data), reason)];
      }
      ok := store.Accepts?;
    }

    /** CreateSession, once the initial evaluation is done: the creation event, whose failure is ignored. */
    method RecordCreation(session: Session, store: EventStore)
      modifies this
      ensures log == if store.Accepts? then old(log) + [Event(Created, None, GetState(session.data), "Session Created")]
                     else old(log)
    {
      var _ := RecordEvent(session, Created, None, "Session Created", store);
    }

    method Execute(session: Session, action: Action, reason: string, now: int, writes: Writes) returns (ok: bool)
      modifies this, session
      ensures (session.data, log, ok) == Executed(old(session.data), old(log), action, reason, now, writes)
    {
      var previous := GetState(session.data);
      match action {
        case NoAction => return true;
        case Monitor | Undeclared(_) =>
        case RequireMFA =>
          session.data := session.data.(status := StepUpRequired, stepUpReason := reason, stepUpRequiredAt := now);
          if !writes.update { return false; }
        case Downgrade =>
          session.data := session.data.(status := Downgraded, downgradeReason := reason, downgradedAt := now);
          if session.data.authLevel > 1 {
            session.data := session.data.(authLevel := session.data.authLevel - 1);
          } else {
            session.data := session.data.(authLevel := 1);
          }
          if !writes.update { return false; }
        case Terminate =>
          session.data := session.data.(status := Terminated, terminatedAt := now, terminateReason := reason);
          if !writes.update { return false; }
      }
      ok := RecordEvent(session, KindOf(action), Some(previous), reason, writes.event);
    }

    method Upgrade(session: Session, now: int, writes: Writes) returns (ok: bool)
      modifies this, session
      ensures (session.data, log, ok) == Promoted(old(session.data), old(log), now, writes)
    {
      var previous := GetState(session.data);
      session.data := session.data.(status := Active, stepUpReason := "");
      var raised := session.data.authLevel + 1;
      session.data := session.data.(authLevel := if raised < 4 then raised else 4);
      session.data := session.data.(lastStepUpAt := now);
      if !writes.update {
        return false;
      }
      ok := RecordEvent(session, Upgraded, Some(previous), "MFA Verification Successful", writes.event);
    }

    /** ValidateSession. The look-up may fail, and the risk check may give no verdict. It succeeds
        exactly for a found session that is neither terminated, expired, judged unsafe nor waiting
        for step-up, and then only notes the activity. */
    method ValidateSession(session: Session, found: bool, now: int, judged: bool, safe: bool) returns (ok: bool)
      modifies session
      ensures ok <==> found && !old(session.data).status.Terminated? && now <= old(session.data).expiresAt &&
                      !(judged && !safe) && !old(session.data).status.StepUpRequired?
      ensures session.data == if ok then old(session.data).(lastActivityAt := now) else old(session.data)
    {
      if !found {
        return false;
      }
      if session.data.status == Terminated {
        return false;
      }
      if now > session.data.expiresAt {
        return false;
      }
      if judged && !safe {
        return false;
      }
      if session.data.status == StepUpRequired {
        return false;
      }
      session.data := session.data.(lastActivityAt := now);
      return true;
    }
  }

  /** The action writes the session back. */
  predicate Persists(action: Action) {
    action in {RequireMFA, Downgrade, Terminate}
  }

  /** A failed update leaves the object changed and the log silent; None neither writes nor logs. */
  function Executed(
    s: SessionData, log: seq<Event>, action: Action, reason: string, now: int, w: Writes
  ): (SessionData, seq<Event>, bool) {
    var t := Acted(s, action, reason, now);
    if action.NoAction? then (s, log, true)
    else if Persists(action) && !w.update then (t, log, false)
    else if !w.event.Accepts? then (t, log, w.event.Absent?)
    else (t, log + [Event(KindOf(action), Some(GetState(s)), GetState(t), reason)], true)
  }

  function Promoted(s: SessionData, log: seq<Event>, now: int, w: Writes): (SessionData, seq<Event>, bool) {
    var t := Raised(s, now);
    if !w.update then (t, log, false)
    else if !w.event.Accepts? then (t, log, w.event.Absent?)
    else (t, log + [Event(Upgraded, Some(GetState(s)), GetState(t), "MFA Verification Successful")], true)
  }

  // ---------- Runs ----------

  datatype Step =
    | Execute(action: Action, reason: string, now: int, writes: Writes)
    | Upgrade(now: int, writes: Writes)
    | Touch(now: int)                          // a successful ValidateSession
    | Evaluate(riskLevel: string, now: int)    // the scheduler's re-evaluation

  /** CreateSession: an active session at the caller's auth level, and its event if it was stored. */
  datatype Creation = Creation(data: SessionData, recorded: bool)

  type History = Run<Creation, Step>

  datatype Machine = Machine(session: SessionData, log: seq<Event>)

  function Opened(c: Creation): Machine {
    var s := c.data.(status := Active);
    Machine(s, if c.recorded then [Event(Created, None, GetState(s), "Session Created")] else [])
  }

  function Next(m: Machine, step: Step): (Machine, bool) {
    match step
    case Execute(action, reason, now, w) =>
      var (s, log, ok) := Executed(m.session, m.log, action, reason, now, w);
      (Machine(s, log), ok)
    case Upgrade(now, w) =>
      var (s, log, ok) := Promoted(m.session, m.log, now, w);
      (Machine(s, log), ok)
    case Touch(now) => (m.(session := m.session.(lastActivityAt := now)), true)
    case Evaluate(level, now) => (m.(session := m.session.(riskLevel := level, lastEvaluatedAt := now)), true)
  }

  function After(run: History): Machine {
    match run
    case Start(creation) => Opened(creation)
    case Then(before, step) => Next(After(before), step).0
  }

  // ---------- What one call does ----------

  /** A call succeeds exactly when it asks for nothing, or its update works and the event store, if
      there is one, accepts; doing nothing is silent, and calls that persist nothing leave the session
      alone. */
  lemma {:induction false} SucceedsExactly(m: Machine, action: Action, reason: string, now: int, w: Writes)
    ensures var (t, ok) := Next(m, Execute(action, reason, now, w));
            (ok <==> action.NoAction? || ((Persists(action) ==> w.update) && !w.event.Refuses?)) &&
            (action.NoAction? ==> t == m) && (!Persists(action) ==> t.session == m.session)
    ensures var (t, ok) := Next(m, Upgrade(now, w)); ok <==> w.update && !w.event.Refuses?
  {}

  /** The snapshot has the session's status, risk level, auth level and time of evaluation. */
  predicate Shows(n: Snapshot, s: SessionData) {
    n.status == s.status && n.riskLevel == s.riskLevel && n.authLevel == s.authLevel &&
    n.lastEvaluatedAt == s.lastEvaluatedAt
  }

  /** A recorded call appends one event: the session before and after it, the caller's reason, and the
      action's own name but for those of other event types. Any other call leaves the log alone. */
  lemma {:induction false} OneEventACall(m: Machine, step: Step)
    ensures var t := Next(m, step).0;
            if !Recorded(step) then t.log == m.log
            else
              |t.log| == |m.log| + 1 && t.log[..|m.log|] == m.log &&
              var e := t.log[|m.log|];
              e.previous.Some? && Shows(e.previous.value, m.session) && Shows(e.next, t.session) &&
              match step
              case Execute(action, reason, _, _) =>
                e.reason == reason &&
                (action !in {Undeclared("upgraded"), Undeclared("created")} ==> e.kind == Did(action))
              case _ => e.kind == Upgraded && e.reason == "MFA Verification Successful"
  {}

  /** A reason and the time it was given. */
  datatype Mark = Mark(reason: string, at: int)

  /** The last time an action was asked for in the run, failed calls included. */
  function LastMark(run: History, action: Action, origin: Mark): Mark {
    match run
    case Start(_) => origin
    case Then(before, Execute(a, reason, now, _)) =>
      if a == action then Mark(reason, now) else LastMark(before, action, origin)
    case Then(before, _) => LastMark(before, action, origin)
  }

  /** The reason for a pending step-up: the last demand's, or none since the last upgrade. */
  function StepUpReason(run: History): string {
    match run
    case Start(creation) => creation.data.stepUpReason
    case Then(before, Execute(RequireMFA, reason, _, _)) => reason
    case Then(before, Upgrade(_, _)) => ""
    case Then(before, _) => StepUpReason(before)
  }

  /** Over every run the session carries the reason and time of its last termination, downgrade and
      step-up demand, whether or not the calls were recorded, and keeps its expiry. */
  lemma {:induction false} MarksAreLast(run: History)
    ensures var s, o := After(run).session, Origin(run);
            Mark(s.terminateReason, s.terminatedAt) ==
              LastMark(run, Terminate, Mark(o.terminateReason, o.terminatedAt)) &&
            Mark(s.downgradeReason, s.downgradedAt) ==
              LastMark(run, Downgrade, Mark(o.downgradeReason, o.downgradedAt)) &&
            s.stepUpRequiredAt == LastMark(run, RequireMFA, Mark("", o.stepUpRequiredAt)).at &&
            s.stepUpReason == StepUpReason(run) && s.expiresAt == o.expiresAt
  {
    if run.Then? {
      MarksAreLast(run.before);
      MarkStep(After(run.before), run.step);
    }
  }

  lemma {:induction false} MarkStep(m: Machine, step: Step)
    ensures var s, t := m.session, Next(m, step).0.session;
            t.expiresAt == s.expiresAt &&
            Mark(t.terminateReason, t.terminatedAt) ==
              (if step.Execute? && step.action == Terminate then Mark(step.reason, step.now)
               else Mark(s.terminateReason, s.terminatedAt)) &&
            Mark(t.downgradeReason, t.downgradedAt) ==
              (if step.Execute? && step.action == Downgrade then Mark(step.reason, step.now)
               else Mark(s.downgradeReason, s.downgradedAt)) &&
            t.stepUpRequiredAt ==
              (if step.Execute? && step.action == RequireMFA then step.now else s.stepUpRequiredAt) &&
            t.stepUpReason ==
              (if step.Upgrade? then "" else if step.Execute? && step.action == RequireMFA then step.reason
               else s.stepUpReason)
  {}

  /** The session carries the times of its last upgrade, validation and evaluation too. */
  lemma {:induction false} TimesAreLast(m: Machine, step: Step)
    ensures var s, t := m.session, Next(m, step).0.session;
            t.lastStepUpAt == (if step.Upgrade? then step.now else s.lastStepUpAt) &&
            t.lastActivityAt == (if step.Touch? then step.now else s.lastActivityAt) &&
            t.lastEvaluatedAt == (if step.Evaluate? then step.now else s.lastEvaluatedAt) &&
            t.riskLevel == (if step.Evaluate? then step.riskLevel else s.riskLevel)
  {}

  // ---------- The log is a chain that rebuilds the state ----------

  datatype Key = Key(status: Status, authLevel: int)

  function KeyOf(s: Snapshot): Key { Key(s.status, s.authLevel) }

  function Current(m: Machine): Key { KeyOf(GetState(m.session)) }

  predicate Chained(log: seq<Event>) {
    forall i :: 0 < i < |log| ==> log[i].previous.Some? && KeyOf(log[i].previous.value) == KeyOf(log[i - 1].next)
  }

  /** What an event of a kind does to status and auth level, told from its kind alone. */
  function Replayed(k: Key, kind: Kind): Key {
    match kind
    case Created => k
    case Upgraded => Key(Active, if k.authLevel < 3 then k.authLevel + 1 else 4)
    case Did(RequireMFA) => k.(status := StepUpRequired)
    case Did(Downgrade) => Key(Downgraded, if k.authLevel > 1 then k.authLevel - 1 else 1)
    case Did(Terminate) => k.(status := Terminated)
    case Did(_) => k
  }

  function Replay(log: seq<Event>): Key
    requires log != []
  {
    if |log| == 1 then KeyOf(log[0].next) else Replayed(Replay(log[..|log| - 1]), log[|log| - 1].kind)
  }

  ghost predicate Faithful(m: Machine) {
    m.log != [] && Chained(m.log) && KeyOf(m.log[|m.log| - 1].next) == Current(m) && Replay(m.log) == Current(m)
  }

  /** The call reaches the event store and is accepted. */
  predicate Recorded(step: Step) {
    match step
    case Execute(action, _, _, w) => !action.NoAction? && (Persists(action) ==> w.update) && w.event.Accepts?
    case Upgrade(_, w) => w.update && w.event.Accepts?
    case _ => false
  }

  /** The action leaves this status and auth level as they are. */
  predicate Idle(k: Key, action: Action) {
    match action
    case RequireMFA => k.status.StepUpRequired?
    case Downgrade => k == Key(Downgraded, 1)
    case Terminate => k.status.Terminated?
    case _ => true
  }

  /** What a caller can check beforehand: an unrecorded call must be one that changes nothing, and no
      recorded action may pass for an upgrade, unless the session is active at the top level anyway. */
  predicate Harmless(k: Key, step: Step) {
    match step
    case Execute(action, _, _, _) =>
      if Recorded(step) then action == Undeclared("upgraded") ==> k == Key(Active, 4) else Idle(k, action)
    case Upgrade(_, _) => Recorded(step) || k == Key(Active, 4)
    case _ => true
  }

  lemma {:induction false} EventKeepsFaith(m: Machine, t: Machine, e: Event)
    requires Faithful(m) && t.log == m.log + [e]
    requires e.previous == Some(GetState(m.session)) && e.next == GetState(t.session)
    ensures Faithful(t) <==> Replayed(Current(m), e.kind) == Current(t)
  {
    assert t.log[..|t.log| - 1] == m.log;
  }

  /** One call, successful or not, keeps the log faithful exactly when it is harmless. */
  lemma {:induction false} FaithfulStepExactly(m: Machine, step: Step)
    requires Faithful(m)
    ensures Faithful(Next(m, step).0) <==> Harmless(Current(m), step)
  {
    var t := Next(m, step).0;
    if Recorded(step) {
      EventKeepsFaith(m, t, t.log[|t.log| - 1]);
    } else {
      assert t.log == m.log;
    }
  }

  /** A failed call leaves the log alone, and keeps it faithful exactly for Monitor or an undeclared
      action, a step-up demand on a session waiting for one, a downgrade at the bottom, a termination
      of a terminated session, or an upgrade at the top: the object is changed before the write that
      fails. */
  lemma {:induction false} FailureKeepsLogExactly(m: Machine, step: Step)
    requires Faithful(m) && !Next(m, step).1
    ensures Next(m, step).0.log == m.log
    ensures var k := Current(m);
            Faithful(Next(m, step).0) <==>
            match step
            case Execute(RequireMFA, _, _, _) => k.status.StepUpRequired?
            case Execute(Downgrade, _, _, _) => k.status.Downgraded? && k.authLevel == 1
            case Execute(Terminate, _, _, _) => k.status.Terminated?
            case Upgrade(_, _) => k.status.Active? && k.authLevel == 4
            case _ => true
  {
    FaithfulStepExactly(m, step);
  }

  /** The log is faithful now and was at every earlier moment of the run. */
  ghost predicate AlwaysFaithful(run: History) {
    Faithful(After(run)) && (run.Then? ==> AlwaysFaithful(run.before))
  }

  predicate AllHarmless(run: History) {
    match run
    case Start(creation) => creation.recorded
    case Then(before, step) => AllHarmless(before) && Harmless(Current(After(before)), step)
  }

  /** Over every run, failures included: the log stays faithful throughout exactly when the creation
      was recorded and every call was harmless. */
  lemma {:induction false} LogFaithfulExactly(run: History)
    ensures AlwaysFaithful(run) <==> AllHarmless(run)
  {
    match run {
      case Start(_) =>
      case Then(before, step) =>
        LogFaithfulExactly(before);
        if AllHarmless(before) { FaithfulStepExactly(After(before), step); }
    }
  }

  /** Every call of the run succeeded, with an event store and under a name of its own. */
  predicate Successful(run: History) {
    match run
    case Start(creation) => creation.recorded
    case Then(before, step) =>
      Successful(before) && Next(After(before), step).1 &&
      match step
      case Execute(action, _, _, w) => !w.event.Absent? && action != Undeclared("upgraded")
      case Upgrade(_, w) => !w.event.Absent?
      case _ => true
  }

  /** For every run of successful calls, each event's previous (status, auth level) is the preceding
      event's new one, the last is the session's own, and replaying the event kinds from the
      creation event rebuilds it. */
  lemma {:induction false} LogRebuildsSession(run: History)
    requires Successful(run)
    ensures AllHarmless(run) && Faithful(After(run))
  {
    if run.Then? { LogRebuildsSession(run.before); }
    LogFaithfulExactly(run);
  }

  /** A downgrade whose update fails, then a recorded Monitor: the two events no longer chain. */
  lemma {:induction false} FailedDowngradeBreaksChain(data: SessionData)
    requires data.authLevel == 3
    ensures var run := Then(Then(Start(Creation(data, true)), Execute(Downgrade, "risk", 1, Writes(false, Accepts))),
                            Execute(Monitor, "watch", 2, Writes(true, Accepts)));
            |After(run).log| == 2 && !Chained(After(run).log)
  {
    var r0 := Start(Creation(data, true));
    var m := Opened(r0.init);
    assert After(r0) == m && Current(m) == Key(Active, 3);
    var r1 := Then(r0, Execute(Downgrade, "risk", 1, Writes(false, Accepts)));
    assert After(r1) == Next(m, r1.step).0;
    assert After(r1).log == m.log && Current(After(r1)) == Key(Downgraded, 2);
    var log := After(Then(r1, Execute(Monitor, "watch", 2, Writes(true, Accepts)))).log;
    assert KeyOf(log[1].previous.value) == Key(Downgraded, 2) && KeyOf(log[0].next) == Key(Active, 3);
  }

  /** An action named "upgraded" logs an upgrade that never took place, and replay believes it. */
  lemma {:induction false} FalseUpgradeReplayed(data: SessionData)
    requires data.authLevel == 1
    ensures var run := Then(Start(Creation(data, true)),
                            Execute(Undeclared("upgraded"), "", 1, Writes(true, Accepts)));
            Next(After(run.before), run.step).1 && After(run).session.authLevel == 1 &&
            Chained(After(run).log) && Replay(After(run).log) == Key(Active, 2)
  {
    var run := Then(Start(Creation(data, true)), Execute(Undeclared("upgraded"), "", 1, Writes(true, Accepts)));
    var log := After(run).log;
    assert log[..1] == After(run.before).log;
  }

  // ---------- Auth levels ----------

  lemma {:induction false} LevelStep(m: Machine, step: Step)
    ensures var l, l' := m.session.authLevel, Next(m, step).0.session.authLevel;
            (1 <= l ==> 1 <= l') && (l <= 4 ==> l' <= 4) && (1 <= l ==> l' <= l + if step.Upgrade? then 1 else 0)
  {}

  /** Between 1 and 4 the auth level stays there, whether calls succeed or fail. */
  lemma {:induction false} AuthLevelInRange(run: History)
    requires 1 <= Origin(run).authLevel <= 4
    ensures 1 <= After(run).session.authLevel <= 4
  {
    if run.Then? {
      AuthLevelInRange(run.before);
      LevelStep(After(run.before), run.step);
    }
  }

  function Origin(run: History): SessionData {
    match run
    case Start(creation) => creation.data
    case Then(before, _) => Origin(before)
  }

  function Upgrades(log: seq<Event>): nat {
    if log == [] then 0 else Upgrades(log[..|log| - 1]) + if log[|log| - 1].kind.Upgraded? then 1 else 0
  }

  predicate UpgradesRecorded(run: History) {
    run.Then? ==> UpgradesRecorded(run.before) && (run.step.Upgrade? ==> Recorded(run.step))
  }

  /** When every upgrade is recorded, whatever else fails, the level never exceeds the initial one by
      more than the logged upgrades. */
  lemma {:induction false} LevelNeedsUpgrades(run: History)
    requires UpgradesRecorded(run) && 1 <= Origin(run).authLevel
    ensures 1 <= After(run).session.authLevel <= Origin(run).authLevel + Upgrades(After(run).log)
  {
    match run {
      case Start(_) =>
      case Then(before, step) =>
        LevelNeedsUpgrades(before);
        LevelStep(After(before), step);
        var log, log' := After(before).log, After(run).log;
        if log' != log {
          assert log'[..|log'| - 1] == log;
        }
    }
  }

  // ---------- Termination ----------

  predicate Revives(step: Step) {
    step.Upgrade? || (step.Execute? && step.action in {RequireMFA, Downgrade})
  }

  predicate NeverRevived(run: History, later: History) {
    later == run || (later.Then? && !Revives(later.step) && NeverRevived(run, later.before))
  }

  /** Termination is not final in the code: one call ends it exactly when it is an upgrade, a step-up
      demand or a downgrade; without such calls it lasts. */
  lemma {:induction false} TerminationEndsExactly(m: Machine, step: Step)
    requires m.session.status.Terminated?
    ensures !Next(m, step).0.session.status.Terminated? <==> Revives(step)
  {}

  lemma {:induction false} TerminationLasts(run: History, later: History)
    requires After(run).session.status.Terminated? && NeverRevived(run, later)
    ensures After(later).session.status.Terminated?
  {
    if later != run {
      TerminationLasts(run, later.before);
    }
  }

  /** A terminated session back in use: one upgrade makes it active, a level higher. */
  lemma {:induction false} TerminatedSessionRevived(data: SessionData)
    requires data.authLevel == 1
    ensures var fine := Writes(true, Accepts);
            var ended := Then(Start(Creation(data, true)), Execute(Terminate, "risk", 1, fine));
            var revived := Then(ended, Upgrade(2, fine));
            Successful(revived) && After(ended).session.status.Terminated? &&
            Current(After(revived)) == Key(Active, 2)
  {
    var ended := Then(Start(Creation(data, true)), Execute(Terminate, "risk", 1, Writes(true, Accepts)));
    assert After(ended).session.status.Terminated? && After(ended).session.authLevel == 1;
  }
}
