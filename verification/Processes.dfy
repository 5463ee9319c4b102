/**
 The server as concurrent processes: the accepting loop, the tracker thread, the
 mutex they share, and any number of forked children with their alarms, deaths
 and connections. A run is any sequence of enabled steps.
 */
module Processes {
  import opened CTypes
  import opened Mapper
  import opened Service
  import opened Wire
  import opened Wrappers

  /** A connection, by its descriptor in the parent, which never closes it early. */
  type Fd = nat
  type Pid = nat

  /** Where a child is in `gestion_client`, up to its end. */
  datatype Phase =
    | Starting                            // forked, the timer not yet set
    | Reading
    | Searching(m: Message)
    | Verifying(m: Message, f: Function)
    | Executing(m: Message, f: Function)  // for as long as the function takes
    | Answering(frame: seq<SChar>)
    | Failing(status: SChar)              // in `send_error`, before the `send`
    | Finishing                           // after a `send`, before `_exit`
    | Astray                              // behaving in a way C leaves open
    | Exited
    | Signalled

  /** A child, and whether its alarm has fired. */
  datatype Child = Child(pid: Pid, phase: Phase, alarmed: bool)

  /** `struct alive` */
  datatype Entry = Entry(son: Pid, clientFd: Fd)

  datatype MainPhase =
    | Accepting
    | Accepted(fd: Fd)
    | Forked(pid: Pid, fd: Fd)  // waiting for the mutex
    | Locked(pid: Pid, fd: Fd)
    | Inserted

  datatype TrackerPhase =
    | Asleep
    | Scanning(todo: seq<Entry>)                             // the entry `p` and those after it
    | Collected(p: Entry, signalled: bool, todo: seq<Entry>) // `p` waited for, not yet removed
    | Missing(p: Entry)                                      // the ECHILD branch
    | Sending(fd: Fd)                                        // in `send_error` for a signalled child

  datatype Owner = Nobody | Main | Tracker

  datatype State = State(
    up: bool,
    main: MainPhase,
    tracker: TrackerPhase,
    mutex: Owner,
    tracked: seq<Entry>,                  // `processus_alive`
    children: map<Fd, Child>,             // every child ever forked
    reaped: set<Fd>,                      // those whose status has been collected
    removed: seq<Fd>,                     // the removals from the list, in order
    requests: map<Fd, seq<SChar>>,        // what each client sent
    out: map<Fd, seq<seq<SChar>>>)        // the frames sent to each client

  datatype Step =
    | Accept(fd: Fd, request: seq<SChar>) | Fork(pid: Pid) | ForkFails
    | MainLock | Track | MainUnlock
    | Wake | Wait(fd: Fd) | WaitNone | Drop | Send | Sleep
    | Advance(fd: Fd) | Stray(fd: Fd, frame: seq<SChar>) | Alarm(fd: Fd) | Kill(fd: Fd) | Interrupt(fd: Fd)
    | Shutdown

  ghost predicate Zombie(c: Child) {
    c.phase.Exited? || c.phase.Signalled?
  }

  /** The process the kernel knows by this pid. */
  ghost predicate Holds(s: State, fd: Fd, pid: Pid) {
    fd in s.children && fd !in s.reaped && s.children[fd].pid == pid
  }

  ghost predicate Runs(s: State, fd: Fd) {
    fd in s.children && !Zombie(s.children[fd])
  }

  ghost predicate Enabled(s: State, step: Step) {
    match step
    case Accept(fd, _) => s.up && s.main.Accepting? && fd !in s.requests
    case Fork(pid) => s.up && s.main.Accepted? && forall fd :: !Holds(s, fd, pid)
    case ForkFails => s.up && s.main.Accepted?
    case MainLock => s.up && s.main.Forked? && s.mutex.Nobody?
    case Track => s.up && s.main.Locked?
    case MainUnlock => s.up && s.main.Inserted?
    case Wake => s.up && s.tracker.Asleep? && s.mutex.Nobody?
    case Wait(fd) => s.up && s.tracker.Scanning? && s.tracker.todo != [] && Holds(s, fd, s.tracker.todo[0].son)
    case WaitNone =>
      s.up && s.tracker.Scanning? && s.tracker.todo != [] && forall fd :: !Holds(s, fd, s.tracker.todo[0].son)
    case Drop => s.up && s.tracker.Collected? && |s.tracker.todo| < |s.tracked|
    case Send => s.up && s.tracker.Sending? && s.tracker.fd in s.out
    case Sleep => s.up && s.tracker == Scanning([])
    case Advance(fd) => Runs(s, fd) && fd in s.requests && fd in s.out
    case Stray(fd, _) => Runs(s, fd) && s.children[fd].phase.Astray? && fd in s.out
    case Alarm(fd) => Runs(s, fd) && !s.children[fd].phase.Starting? && !s.children[fd].alarmed
    case Kill(fd) => Runs(s, fd)
    case Interrupt(fd) => Runs(s, fd)
    case Shutdown => s.up
  }

  function SetPhase(s: State, fd: Fd, phase: Phase): State
    requires fd in s.children
  {
    s.(children := s.children[fd := s.children[fd].(phase := phase)])
  }

  function Put(s: State, fd: Fd, frames: seq<seq<SChar>>): State
    requires fd in s.out
  {
    s.(out := s.out[fd := s.out[fd] + frames])
  }

  /**
   One step of a child, over the registry it was forked with, and what it sends. It
   goes astray where C leaves open what it does next.
   */
  ghost function Act(fs: seq<Function>, request: seq<SChar>, phase: Phase): (Phase, seq<seq<SChar>>) {
    match phase
    case Starting => (Reading, [])
    case Reading =>
      (match Request(request)
       case Arrived(m) => (Searching(m), [])
       case Exits => (Exited, [])
       case Open => (Astray, []))
    case Searching(m) =>
      (match Lookup(fs, m.command)
       case None => (Failing(RET_UNKNOWN_FUNC), [])
       case Some(f) => (Verifying(m, f), []))
    case Verifying(m, f) =>
      if m.argc >= 0 && m.argc != |m.argv| then (Astray, [])
      else
        (match FirstMismatch(f, m)
         case Some(status) => (Failing(status), [])
         case None => (Executing(m, f), []))
    case Executing(m, f) =>
      if Answerable(f, m.argv) then (Answering(AnswerFrame(RET_OK, Some(Call(f, m.argv)))), []) else (Astray, [])
    case Answering(frame) => (Finishing, [frame])
    case Failing(status) => (Finishing, [AnswerFrame(status, None)])
    case _ => (Exited, [])
  }

  ghost function Next(fs: seq<Function>, s: State, step: Step): State
    requires Enabled(s, step)
  {
    match step
    case Accept(fd, request) =>
      s.(main := MainPhase.Accepted(fd), requests := s.requests[fd := request], out := s.out[fd := []])
    case Fork(pid) =>
      s.(main := Forked(pid, s.main.fd), children := s.children[s.main.fd := Child(pid, Starting, false)])
    case ForkFails => s.(main := Accepting)
    case MainLock => s.(main := Locked(s.main.pid, s.main.fd), mutex := Main)
    case Track => s.(main := Inserted, tracked := [Entry(s.main.pid, s.main.fd)] + s.tracked)
    case MainUnlock => s.(main := Accepting, mutex := Nobody)
    case Wake => s.(tracker := Scanning(s.tracked), mutex := Tracker)
    case Wait(fd) =>
      var c, todo := s.children[fd], s.tracker.todo;
      if Zombie(c) then s.(tracker := Collected(todo[0], c.phase.Signalled?, todo[1..]), reaped := s.reaped + {fd})
      else s
    case WaitNone => s.(tracker := Missing(s.tracker.todo[0]))
    case Drop =>
      var Collected(p, signalled, todo) := s.tracker;
      s.(tracker := if signalled then Sending(p.clientFd) else Scanning(todo),
         tracked := s.tracked[..|s.tracked| - |todo| - 1] + todo,
         removed := s.removed + [p.clientFd])
    case Send => Put(s, s.tracker.fd, [AnswerFrame(RET_NO_ANSWER, None)]).(up := false)
    case Sleep => s.(tracker := Asleep, mutex := Nobody)
    case Advance(fd) =>
      var (phase, sent) := Act(fs, s.requests[fd], s.children[fd].phase);
      Put(SetPhase(s, fd, phase), fd, sent)
    case Stray(fd, frame) => Put(s, fd, [frame])
    case Alarm(fd) =>
      s.(children := s.children[fd := s.children[fd].(phase := Failing(RET_NO_ANSWER), alarmed := true)])
    case Kill(fd) => SetPhase(s, fd, Signalled)
    case Interrupt(fd) => SetPhase(s, fd, Exited)
    case Shutdown => s.(up := false)
  }

  const INIT := State(true, Accepting, Asleep, Nobody, [], map[], {}, [], map[], map[])

  /** The state after some steps, if each was enabled when it was taken. */
  ghost function Run(fs: seq<Function>, steps: seq<Step>): Option<State> {
    if steps == [] then Some(INIT)
    else
      match Run(fs, steps[..|steps| - 1])
      case None => None
      case Some(s) =>
        var step := steps[|steps| - 1];
        if Enabled(s, step) then Some(Next(fs, s, step)) else None
  }

  // --------------------------------------------------------- what is sent

  /** The frames a client may get first. */
  ghost predicate FirstFrameFits(fs: seq<Function>, request: seq<SChar>, c: Child, frame: seq<SChar>)
  {
    || ServerReply(fs, request) == Sends(frame)
    || (frame == AnswerFrame(RET_NO_ANSWER, None) && (c.alarmed || c.phase.Signalled?))
  }

  /** A child is where its request and the registry have brought it. */
  ghost predicate OnTrack(fs: seq<Function>, request: seq<SChar>, c: Child)
  {
    match c.phase
    case Searching(m) => Request(request) == Arrived(m)
    case Verifying(m, f) => Request(request) == Arrived(m) && Lookup(fs, m.command) == Some(f)
    case Executing(m, f) =>
      && Request(request) == Arrived(m)
      && (m.argc >= 0 ==> m.argc == |m.argv|) && Check(fs, m) == Verdict.Accepted(f)
    case Answering(frame) => ServerReply(fs, request) == Sends(frame)
    case Failing(status) =>
      ServerReply(fs, request) == Sends(AnswerFrame(status, None)) || (status == RET_NO_ANSWER && c.alarmed)
    case Astray => false
    case _ => true
  }

  /** Nothing is said of a child whose effect is unknown. */
  ghost predicate ChildFits(fs: seq<Function>, request: seq<SChar>, c: Child, frames: seq<seq<SChar>>)
  {
    !ServerReply(fs, request).Unknown? ==>
      && OnTrack(fs, request, c)
      && (frames != [] ==> FirstFrameFits(fs, request, c, frames[0]))
      && (!c.alarmed && !c.phase.Signalled? ==>
            |frames| <= if c.phase.Finishing? || c.phase.Exited? then 1 else 0)
  }

  ghost predicate FramesInv(fs: seq<Function>, s: State)
  {
    && s.out.Keys == s.requests.Keys && s.children.Keys <= s.out.Keys
    && (forall fd | fd in s.out && fd !in s.children :: s.out[fd] == [])
    && (forall fd | fd in s.children :: ChildFits(fs, s.requests[fd], s.children[fd], s.out[fd]))
  }

  // ------------------------------------------------------ what is tracked

  /** The connections a list of entries is about. */
  ghost function Fds(entries: seq<Entry>): set<Fd> {
    set e | e in entries :: e.clientFd
  }

  ghost function Elements(fds: seq<Fd>): set<Fd> {
    set fd | fd in fds
  }

  /** The child that is forked but not yet listed. */
  function Awaiting(main: MainPhase): set<Fd> {
    if main.Forked? || main.Locked? then {main.fd} else {}
  }

  /** The child whose status is collected but whose entry is still listed. */
  function Pending(tracker: TrackerPhase): set<Fd> {
    if tracker.Collected? then {tracker.p.clientFd} else {}
  }

  /** The mutex is held by the thread that is between its lock and its unlock. */
  ghost predicate MutexInv(s: State) {
    && (s.mutex.Main? <==> s.main.Locked? || s.main.Inserted?)
    && (s.mutex.Tracker? <==> !s.tracker.Asleep?)
  }

  /** Entries name distinct children, by descriptor and by pid. */
  ghost predicate ListInv(s: State) {
    && (forall i, j | 0 <= i < j < |s.tracked| ::
          s.tracked[i].clientFd != s.tracked[j].clientFd && s.tracked[i].son != s.tracked[j].son)
    && (forall e | e in s.tracked :: e.clientFd in s.children && s.children[e.clientFd].pid == e.son)
    && (forall i, j | 0 <= i < j < |s.removed| :: s.removed[i] != s.removed[j])
  }

  /**
   Every child ever forked is listed, removed or about to be listed, and only one
   of these; those waited for are the removed ones and the one about to be.
   */
  ghost predicate PlacesInv(s: State) {
    && s.children.Keys == Fds(s.tracked) + Elements(s.removed) + Awaiting(s.main)
    && Fds(s.tracked) !! Elements(s.removed) !! Awaiting(s.main)
    && s.reaped == Elements(s.removed) + Pending(s.tracker)
    && (forall fd | fd in s.reaped :: fd in s.children && Zombie(s.children[fd]))
  }

  /** The connection the main loop is working on. */
  ghost predicate MainInv(s: State) {
    && (s.main.Accepted? ==> s.main.fd in s.requests && s.main.fd !in s.children)
    && (s.main.Forked? || s.main.Locked? ==> Holds(s, s.main.fd, s.main.pid))
    && s.children.Keys <= s.requests.Keys
  }

  ghost predicate PidsInv(s: State) {
    forall fd, fd' | fd in s.children && fd' in s.children && fd !in s.reaped && fd' !in s.reaped ::
      s.children[fd].pid == s.children[fd'].pid ==> fd == fd'
  }

  /** Every entry passed has been removed, so what is still to be scanned is the whole list. */
  ghost predicate ScanInv(s: State) {
    match s.tracker
    case Scanning(todo) => todo == s.tracked
    case Collected(p, signalled, todo) =>
      && [p] + todo == s.tracked
      && p.clientFd in s.children && (signalled <==> s.children[p.clientFd].phase.Signalled?)
    case Missing(_) => false
    case Sending(fd) => fd in s.children && s.children[fd].phase.Signalled?
    case Asleep => true
  }

  ghost predicate ProcessInv(s: State) {
    MutexInv(s) && MainInv(s) && ListInv(s) && PlacesInv(s) && PidsInv(s) && ScanInv(s)
  }

  // ------------------------------------------------------- steps and frames

  /** A child's own steps keep it on track, and a frame it sends first is the right one. */
  lemma ActFits(fs: seq<Function>, request: seq<SChar>, c: Child, frames: seq<seq<SChar>>)
    requires ChildFits(fs, request, c, frames)
    ensures var (phase, sent) := Act(fs, request, c.phase);
            !Zombie(c) ==> ChildFits(fs, request, c.(phase := phase), frames + sent)
  {
    hide Lookup, Request, AnswerFrame, FirstMismatch, Callable;
  }

  /** The steps of one child: its own, its alarm's, and its deaths. */
  predicate OfChild(step: Step) {
    step.Advance? || step.Stray? || step.Alarm? || step.Kill? || step.Interrupt?
  }

  lemma ChildStepKeepsFrames(fs: seq<Function>, s: State, step: Step)
    requires Enabled(s, step) && FramesInv(fs, s) && OfChild(step)
    ensures FramesInv(fs, Next(fs, s, step))
  {
    hide ServerReply, AnswerFrame, Lookup, Request, Check, Act;
    if step.Advance? {
      hide ChildFits;
      ActFits(fs, s.requests[step.fd], s.children[step.fd], s.out[step.fd]);
    } else if step.Stray? {
      StrayFits(fs, s.requests[step.fd], s.children[step.fd], s.out[step.fd], step.frame);
    } else {
      hide ChildFits;
      StruckFits(fs, s.requests[step.fd], s.children[step.fd], s.out[step.fd]);
    }
  }

  /** Only a child whose effect is unknown goes astray. */
  lemma StrayFits(fs: seq<Function>, request: seq<SChar>, c: Child, frames: seq<seq<SChar>>, frame: seq<SChar>)
    requires ChildFits(fs, request, c, frames) && c.phase.Astray?
    ensures ChildFits(fs, request, c, frames + [frame])
  {
    hide ServerReply, AnswerFrame, Lookup, Request, Check;
  }

  /** So does what happens to it: the alarm, a signal, an interrupt. */
  lemma StruckFits(fs: seq<Function>, request: seq<SChar>, c: Child, frames: seq<seq<SChar>>)
    requires ChildFits(fs, request, c, frames)
    ensures ChildFits(fs, request, c.(phase := Failing(RET_NO_ANSWER), alarmed := true), frames)
    ensures ChildFits(fs, request, c.(phase := Signalled), frames)
    ensures ChildFits(fs, request, c.(phase := Exited), frames) || c.phase.Signalled?
  {
    hide ServerReply, AnswerFrame, Lookup, Request, Check;
  }

  lemma StepKeepsFrames(fs: seq<Function>, s: State, step: Step)
    requires Enabled(s, step) && FramesInv(fs, s) && ProcessInv(s)
    ensures FramesInv(fs, Next(fs, s, step))
  {
    hide ServerReply, AnswerFrame, PidsInv, ListInv, MutexInv, Act, ChildFits;
    if OfChild(step) {
      ChildStepKeepsFrames(fs, s, step);
    } else if step.Send? {
      SendFits(fs, s);
    } else if step.Fork? {
      NewChildFits(fs, s.requests[s.main.fd], step.pid);
    }
  }

  /** The tracker's frame may come first only to a client whose child was signalled. */
  lemma SendFits(fs: seq<Function>, s: State)
    requires s.tracker.Sending? && FramesInv(fs, s) && ScanInv(s)
    ensures var fd := s.tracker.fd;
            ChildFits(fs, s.requests[fd], s.children[fd], s.out[fd] + [AnswerFrame(RET_NO_ANSWER, None)])
  {
    hide ServerReply, AnswerFrame;
    var fd := s.tracker.fd;
    assert ChildFits(fs, s.requests[fd], s.children[fd], s.out[fd]);
  }

  lemma NewChildFits(fs: seq<Function>, request: seq<SChar>, pid: Pid)
    ensures ChildFits(fs, request, Child(pid, Starting, false), [])
  {
  }

  // ---------------------------------------------------- steps and processes

  lemma ForkKeepsProcesses(fs: seq<Function>, s: State, step: Step)
    requires Enabled(s, step) && ProcessInv(s) && step.Fork?
    ensures ProcessInv(Next(fs, s, step))
  {
    hide Fds, Elements;
    assert s.main.fd !in s.reaped;
    forall fd | fd in s.children && fd !in s.reaped ensures s.children[fd].pid != step.pid {
      assert !Holds(s, fd, step.pid);
    }
    var s' := Next(fs, s, step);
    assert s'.children.Keys == s.children.Keys + {s.main.fd};
  }

  lemma FdsPush(e: Entry, entries: seq<Entry>)
    ensures Fds([e] + entries) == {e.clientFd} + Fds(entries)
  {
  }

  lemma TrackKeepsProcesses(fs: seq<Function>, s: State, step: Step)
    requires Enabled(s, step) && ProcessInv(s) && step.Track?
    ensures ProcessInv(Next(fs, s, step))
  {
    var e := Entry(s.main.pid, s.main.fd);
    FdsPush(e, s.tracked);
    forall x | x in s.tracked ensures x.clientFd != e.clientFd && x.son != e.son {
      assert x.clientFd in Fds(s.tracked);
      assert x.clientFd !in s.reaped;
    }
    var s' := Next(fs, s, step);
    assert s'.children.Keys == Fds(s'.tracked) + Elements(s'.removed) + Awaiting(s'.main);
    assert ListInv(s');
  }

  /** The entry being looked at is listed, so its child has not been collected yet. */
  lemma HeadIsTracked(s: State)
    requires ProcessInv(s) && s.tracker.Scanning? && s.tracker.todo != []
    ensures var p := s.tracker.todo[0]; p.clientFd in Fds(s.tracked) && Holds(s, p.clientFd, p.son)
  {
    hide Elements;
    var p := s.tracker.todo[0];
    assert p == s.tracked[|s.tracked| - |s.tracker.todo|];
    assert p.clientFd in Fds(s.tracked);
  }

  lemma WaitKeepsProcesses(fs: seq<Function>, s: State, step: Step)
    requires Enabled(s, step) && ProcessInv(s) && step.Wait?
    ensures ProcessInv(Next(fs, s, step))
  {
    hide Elements, Fds;
    HeadIsTracked(s);
    var p := s.tracker.todo[0];
    assert step.fd == p.clientFd;
    assert s.tracker.todo == [p] + s.tracker.todo[1..];
    var s' := Next(fs, s, step);
    assert Zombie(s.children[step.fd]) ==> s'.reaped == Elements(s'.removed) + Pending(s'.tracker);
  }

  /** Taking out an entry of a list without repetitions takes out its connection. */
  lemma FdsDrop(entries: seq<Entry>, k: nat)
    requires k < |entries|
    requires forall i, j | 0 <= i < j < |entries| :: entries[i].clientFd != entries[j].clientFd
    ensures Fds(entries[..k] + entries[k + 1..]) == Fds(entries) - {entries[k].clientFd}
    ensures entries[k].clientFd in Fds(entries)
  {
    var rest := entries[..k] + entries[k + 1..];
    forall fd | fd in Fds(entries) - {entries[k].clientFd} ensures fd in Fds(rest) {
      var j :| 0 <= j < |entries| && entries[j].clientFd == fd;
      assert entries[j] == rest[if j < k then j else j - 1];
    }
    forall fd | fd in Fds(rest) ensures fd in Fds(entries) - {entries[k].clientFd} {
      var i :| 0 <= i < |rest| && rest[i].clientFd == fd;
      assert rest[i] == entries[if i < k then i else i + 1];
    }
  }

  lemma ElementsAppend(fds: seq<Fd>, fd: Fd)
    ensures Elements(fds + [fd]) == Elements(fds) + {fd}
  {
  }

  lemma DropKeepsList(s: State, k: nat, fd: Fd)
    requires ListInv(s) && k < |s.tracked| && fd !in s.removed
    ensures ListInv(s.(tracked := s.tracked[..k] + s.tracked[k + 1..], removed := s.removed + [fd]))
  {
    var rest := s.tracked[..k] + s.tracked[k + 1..];
    assert forall i | 0 <= i < |rest| :: rest[i] == s.tracked[if i < k then i else i + 1];
  }

  lemma DropKeepsProcesses(fs: seq<Function>, s: State, step: Step)
    requires Enabled(s, step) && ProcessInv(s) && step.Drop?
    ensures ProcessInv(Next(fs, s, step))
  {
    hide Fds, ListInv;
    var p, todo := s.tracker.p, s.tracker.todo;
    var k := |s.tracked| - |todo| - 1;
    assert ([p] + todo)[1..] == todo;
    assert s.tracked[k] == p && s.tracked[k + 1..] == todo;
    Distinct(s);
    FdsDrop(s.tracked, k);
    ElementsAppend(s.removed, p.clientFd);
    DropKeepsList(s, k, p.clientFd);
    SameList(s.(tracked := s.tracked[..k] + todo, removed := s.removed + [p.clientFd]), Next(fs, s, step));
    assert (s.tracked[..k] + todo)[k..] == todo;
  }

  lemma Distinct(s: State)
    requires ListInv(s)
    ensures forall i, j | 0 <= i < j < |s.tracked| :: s.tracked[i].clientFd != s.tracked[j].clientFd
  {
  }

  lemma SameList(s: State, s': State)
    requires ListInv(s) && s'.tracked == s.tracked && s'.removed == s.removed && s'.children == s.children
    ensures ListInv(s')
  {
  }

  /** `s'` differs from `s` in what one living child does, and in nothing the parent keeps. */
  ghost predicate OnlyChild(s: State, s': State, fd: Fd) {
    && Runs(s, fd) && fd !in s.reaped && s'.children.Keys == s.children.Keys
    && (forall x | x in s.children :: s'.children[x].pid == s.children[x].pid)
    && (forall x | x in s.children && x != fd :: s'.children[x] == s.children[x])
    && s'.main == s.main && s'.tracker == s.tracker && s'.mutex == s.mutex && s'.tracked == s.tracked
    && s'.reaped == s.reaped && s'.removed == s.removed && s'.requests == s.requests
  }

  lemma ChildStepKeepsProcesses(fs: seq<Function>, s: State, step: Step)
    requires Enabled(s, step) && ProcessInv(s) && OfChild(step)
    ensures ProcessInv(Next(fs, s, step))
  {
    hide Act, Fds, Elements, ListInv, PidsInv, MutexInv, MainInv, ScanInv;
    assert step.fd !in s.reaped;
    assert OnlyChild(s, Next(fs, s, step), step.fd);
    ChildKeepsProcesses(s, Next(fs, s, step), step.fd);
  }

  lemma ChildKeepsProcesses(s: State, s': State, fd: Fd)
    requires ProcessInv(s) && OnlyChild(s, s', fd)
    ensures ProcessInv(s')
  {
    hide Fds, Elements, ListInv, PidsInv;
    SamePids(s, s', fd);
    assert forall x | x in s.reaped :: x != fd;
  }

  /** A child's steps change no pid, collect no status and leave the zombies alone. */
  lemma SamePids(s: State, s': State, fd: Fd)
    requires ListInv(s) && PidsInv(s) && fd in s.children && s'.children.Keys == s.children.Keys
    requires forall x | x in s.children :: s'.children[x].pid == s.children[x].pid
    requires s'.tracked == s.tracked && s'.removed == s.removed && s'.reaped == s.reaped
    ensures ListInv(s') && PidsInv(s')
  {
  }

  lemma StepKeepsProcesses(fs: seq<Function>, s: State, step: Step)
    requires Enabled(s, step) && ProcessInv(s)
    ensures ProcessInv(Next(fs, s, step))
  {
    hide Act, Fds, Elements;
    match step
    case Fork(_) => ForkKeepsProcesses(fs, s, step);
    case Track => TrackKeepsProcesses(fs, s, step);
    case Wait(_) => WaitKeepsProcesses(fs, s, step);
    case WaitNone => HeadIsTracked(s);
    case Drop => DropKeepsProcesses(fs, s, step);
    case Advance(_) => ChildStepKeepsProcesses(fs, s, step);
    case Stray(_, _) => ChildStepKeepsProcesses(fs, s, step);
    case Alarm(_) => ChildStepKeepsProcesses(fs, s, step);
    case Kill(_) => ChildStepKeepsProcesses(fs, s, step);
    case Interrupt(_) => ChildStepKeepsProcesses(fs, s, step);
    case _ => QuietStepKeepsProcesses(fs, s, step);
  }

  /** The remaining steps touch neither children nor the list. */
  lemma QuietStepKeepsProcesses(fs: seq<Function>, s: State, step: Step)
    requires Enabled(s, step) && ProcessInv(s) && !OfChild(step)
    requires !step.Fork? && !step.Track? && !step.Wait? && !step.WaitNone? && !step.Drop?
    ensures ProcessInv(Next(fs, s, step))
  {
    hide Act, Fds, Elements;
  }

  // ----------------------------------------------------------- every run

  lemma {:induction false} RunInvariant(fs: seq<Function>, steps: seq<Step>)
    requires Run(fs, steps).Some?
    ensures FramesInv(fs, Run(fs, steps).value) && ProcessInv(Run(fs, steps).value)
  {
    hide FramesInv, ProcessInv, Next, Enabled;
    if steps == [] {
      InitInvariant(fs);
    } else {
      var before, step := steps[..|steps| - 1], steps[|steps| - 1];
      RunInvariant(fs, before);
      StepKeepsFrames(fs, Run(fs, before).value, step);
      StepKeepsProcesses(fs, Run(fs, before).value, step);
    }
  }

  lemma InitInvariant(fs: seq<Function>)
    ensures FramesInv(fs, INIT) && ProcessInv(INIT)
  {
  }

  /**
   Over every interleaving, the first frame a client gets is the answer its request
   and the registry determine, or NO_ANSWER; the latter only if its child's alarm
   fired or its child was signalled, and otherwise no second frame follows. This is so
   unless C leaves the child's own effect open, whatever other children do.
   */
  lemma FirstFrame(fs: seq<Function>, steps: seq<Step>, fd: Fd)
    requires Run(fs, steps).Some?
    ensures var s := Run(fs, steps).value;
            fd in s.out && s.out[fd] != [] ==>
              && fd in s.children && fd in s.requests
              && var c, frame := s.children[fd], s.out[fd][0];
              && (!ServerReply(fs, s.requests[fd]).Unknown? ==>
                    && (|| ServerReply(fs, s.requests[fd]) == Sends(frame)
                        || (frame == AnswerFrame(RET_NO_ANSWER, None) && (c.alarmed || c.phase.Signalled?)))
                    && (!c.alarmed && !c.phase.Signalled? ==> |s.out[fd]| == 1))
  {
    hide ServerReply, AnswerFrame, ProcessInv;
    RunInvariant(fs, steps);
    var s := Run(fs, steps).value;
    if fd in s.children {
      assert ChildFits(fs, s.requests[fd], s.children[fd], s.out[fd]);
    }
  }

  /**
   Over every interleaving, the forked children are split between the list, the
   removals and at most one awaiting insertion; the tracker never waits for a
   process that does not exist; and a removal happens once per child, after its end.
   */
  lemma Conservation(fs: seq<Function>, steps: seq<Step>)
    requires Run(fs, steps).Some?
    ensures var s := Run(fs, steps).value;
            && s.children.Keys == Fds(s.tracked) + Elements(s.removed) + Awaiting(s.main)
            && Fds(s.tracked) !! Elements(s.removed) !! Awaiting(s.main)
            && !s.tracker.Missing?
            && (forall i, j | 0 <= i < j < |s.tracked| ::
                  s.tracked[i].clientFd != s.tracked[j].clientFd && s.tracked[i].son != s.tracked[j].son)
            && (forall i, j | 0 <= i < j < |s.removed| :: s.removed[i] != s.removed[j])
            && (forall fd | fd in s.removed :: fd in s.children && Zombie(s.children[fd]))
  {
    hide FramesInv, Fds;
    RunInvariant(fs, steps);
    var s := Run(fs, steps).value;
    forall fd | fd in s.removed ensures fd in s.children && Zombie(s.children[fd]) {
      assert fd in s.reaped;
    }
  }

  /**
   The tracker gives the mutex back only when no child is listed: a sweep waits for
   every listed child to end, and until then no new child can be listed.
   */
  lemma SweepsToTheEnd(fs: seq<Function>, steps: seq<Step>)
    requires Run(fs, steps).Some?
    ensures var s := Run(fs, steps).value;
            && (Enabled(s, Sleep) ==>
                  s.tracked == [] && s.children.Keys == Elements(s.removed) + Awaiting(s.main))
            && (!s.tracker.Asleep? ==> !Enabled(s, MainLock) && !Enabled(s, Track))
  {
    hide FramesInv, Elements;
    RunInvariant(fs, steps);
  }

  /** What a child does in some steps of its own when nothing interferes. */
  ghost function Alone(fs: seq<Function>, request: seq<SChar>, phase: Phase, steps: nat): (Phase, seq<seq<SChar>>)
    decreases steps
  {
    if steps == 0 then (phase, [])
    else
      var (next, sent) := Act(fs, request, phase);
      var (last, more) := Alone(fs, request, next, steps - 1);
      (last, sent + more)
  }

  /** Left alone, a child ends having sent exactly the reply of `execute_client`. */
  lemma AloneReplies(fs: seq<Function>, request: seq<SChar>)
    requires !ServerReply(fs, request).Unknown?
    ensures Alone(fs, request, Starting, 7) ==
            (Exited, if ServerReply(fs, request).Sends? then [ServerReply(fs, request).frame] else [])
  {
    hide Alone, Request, Lookup, FirstMismatch, AnswerFrame, Callable;
    AloneStep(fs, request, Starting, 6);
    AloneStep(fs, request, Reading, 5);
    match Request(request)
    case Open =>
    case Exits => AloneExited(fs, request, 5);
    case Arrived(m) =>
      AloneStep(fs, request, Searching(m), 4);
      match Lookup(fs, m.command)
      case None => AloneFails(fs, request, RET_UNKNOWN_FUNC, 4);
      case Some(f) =>
        AloneStep(fs, request, Verifying(m, f), 3);
        match FirstMismatch(f, m)
        case Some(status) => AloneFails(fs, request, status, 3);
        case None =>
          var frame := AnswerFrame(RET_OK, Some(Call(f, m.argv)));
          AloneStep(fs, request, Executing(m, f), 2);
          AloneStep(fs, request, Answering(frame), 1);
          AloneStep(fs, request, Finishing, 0);
          AloneExited(fs, request, 0);
  }

  lemma AloneStep(fs: seq<Function>, request: seq<SChar>, phase: Phase, steps: nat)
    ensures var (next, sent) := Act(fs, request, phase);
            var (last, more) := Alone(fs, request, next, steps);
            Alone(fs, request, phase, steps + 1) == (last, sent + more)
            && [] + more == more && sent + [] == sent
  {
  }

  lemma AloneFails(fs: seq<Function>, request: seq<SChar>, status: SChar, steps: nat)
    requires steps >= 2
    ensures Alone(fs, request, Failing(status), steps) == (Exited, [AnswerFrame(status, None)])
  {
    hide Alone, AnswerFrame;
    AloneStep(fs, request, Failing(status), steps - 1);
    AloneStep(fs, request, Finishing, steps - 2);
    AloneExited(fs, request, steps - 2);
  }

  lemma {:induction false} AloneExited(fs: seq<Function>, request: seq<SChar>, steps: nat)
    ensures Alone(fs, request, Exited, steps) == (Exited, [])
  {
    if steps > 0 {
      AloneExited(fs, request, steps - 1);
      AloneStep(fs, request, Exited, steps - 1);
    }
  }
}
